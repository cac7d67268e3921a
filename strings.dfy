/**
 * String helpers shared by every component: JavaScript's `trim`, `split` on a
 * single character, `join`, ASCII case mapping, the alphanumeric filter used by
 * the direct-message room id, and the code-unit order used by `Array.sort`.
 *
 * Strings are sequences of Unicode scalar values; whitespace is what
 * ECMAScript's `trim` cuts: the WhiteSpace and LineTerminator code points.
 */
module Strings {

  datatype Option<+T> = None | Some(value: T) {
    function GetOr(default: T): T {
      match this
      case Some(v) => v
      case None => default
    }
  }

  // ---------------------------------------------------------------- trim

  /** ECMAScript WhiteSpace and LineTerminator: tab, line feed, vertical tab,
      form feed, carriage return, space, no-break space, ogham space mark, the
      spaces U+2000 to U+200A, line and paragraph separator, narrow no-break
      space, medium mathematical space, ideographic space and the byte order
      mark. */
  predicate IsSpace(c: char) {
    || c == '\t' || c == '\n' || c == '\U{B}' || c == '\U{C}' || c == '\r' || c == ' '
    || c == '\U{A0}' || c == '\U{1680}' || ('\U{2000}' <= c <= '\U{200A}')
    || c == '\U{2028}' || c == '\U{2029}' || c == '\U{202F}' || c == '\U{205F}'
    || c == '\U{3000}' || c == '\U{FEFF}'
  }

  /** Every character of `s` is whitespace (the empty string included). */
  predicate Blank(s: string) {
    forall i :: 0 <= i < |s| ==> IsSpace(s[i])
  }

  /** `String.prototype.trim`: `s` with the whitespace cut away on both sides. */
  function Trim(s: string): (r: string)
    ensures |r| <= |s|
    ensures r == [] || (!IsSpace(r[0]) && !IsSpace(r[|r| - 1]))
    decreases |s|
  {
    if |s| > 0 && IsSpace(s[0]) then Trim(s[1..])
    else if |s| > 0 && IsSpace(s[|s| - 1]) then Trim(s[..|s| - 1])
    else s
  }

  lemma BlankAround(c: char, t: string)
    requires IsSpace(c) && Blank(t)
    ensures Blank([c] + t) && Blank(t + [c])
  {
    assert forall k :: 0 < k < |t| + 1 ==> ([c] + t)[k] == t[k - 1];
    assert forall k :: 0 <= k < |t| ==> (t + [c])[k] == t[k];
  }

  /** Dropping leading whitespace: bounds in `s[1..]` shift by one in `s`. */
  lemma BoundsAfterFirst(s: string, i: nat, j: nat)
    requires |s| > 0 && IsSpace(s[0]) && i <= j <= |s| - 1
    requires Blank(s[1..][..i]) && Blank(s[1..][j..])
    ensures s[1..][i..j] == s[i + 1..j + 1]
    ensures Blank(s[..i + 1]) && Blank(s[j + 1..])
  {
    assert s[..i + 1] == [s[0]] + s[1..][..i];
    BlankAround(s[0], s[1..][..i]);
    assert s[j + 1..] == s[1..][j..];
  }

  /** Dropping trailing whitespace: bounds in `s[..|s| - 1]` hold in `s`. */
  lemma BoundsBeforeLast(s: string, i: nat, j: nat)
    requires |s| > 0 && IsSpace(s[|s| - 1]) && i <= j <= |s| - 1
    requires Blank(s[..|s| - 1][..i]) && Blank(s[..|s| - 1][j..])
    ensures s[..|s| - 1][i..j] == s[i..j]
    ensures Blank(s[..i]) && Blank(s[j..])
  {
    var t := s[..|s| - 1];
    assert t[..i] == s[..i];
    assert s[j..] == t[j..] + [s[|s| - 1]];
    BlankAround(s[|s| - 1], t[j..]);
  }

  /** The bounds of what `trim` keeps: a slice of `s` with only whitespace
      on either side of it. */
  lemma {:induction false} TrimBounds(s: string) returns (i: nat, j: nat)
    ensures i <= j <= |s| && Trim(s) == s[i..j]
    ensures Blank(s[..i]) && Blank(s[j..])
    decreases |s|
  {
    if |s| > 0 && IsSpace(s[0]) {
      assert Trim(s) == Trim(s[1..]);
      var i', j' := TrimBounds(s[1..]);
      BoundsAfterFirst(s, i', j');
      i, j := i' + 1, j' + 1;
    } else if |s| > 0 && IsSpace(s[|s| - 1]) {
      assert Trim(s) == Trim(s[..|s| - 1]);
      i, j := TrimBounds(s[..|s| - 1]);
      BoundsBeforeLast(s, i, j);
    } else {
      i, j := 0, |s|;
      assert s[0..|s|] == s;
    }
  }

  /** What `trim` cuts away is whitespace, on either side of a slice of `s`. */
  lemma TrimIsSlice(s: string)
    ensures exists i, j :: 0 <= i <= j <= |s| && Trim(s) == s[i..j] && Blank(s[..i]) && Blank(s[j..])
  {
    var i, j := TrimBounds(s);
  }

  /** Trimming adds no character. */
  lemma TrimKeepsAbsent(s: string, c: char)
    requires c !in s
    ensures c !in Trim(s)
  {
    var i, j := TrimBounds(s);
    assert forall k :: 0 <= k < j - i ==> s[i..j][k] == s[i + k];
  }

  /** `s.trim()` is empty exactly when `s` is blank. */
  lemma TrimEmptyIffBlank(s: string)
    ensures Trim(s) == [] <==> Blank(s)
  {
    var i, j := TrimBounds(s);
    if Trim(s) == [] {
      forall k | 0 <= k < |s| ensures IsSpace(s[k]) {
        if k < i { assert s[k] == s[..i][k]; } else { assert s[k] == s[j..][k - j]; }
      }
    } else {
      assert Trim(s)[0] == s[i] && !IsSpace(s[i]);
    }
  }

  // ---------------------------------------------------------------- split and join

  function Count(s: string, c: char): (n: nat)
    ensures n <= |s|
  {
    if s == [] then 0 else (if s[0] == c then 1 else 0) + Count(s[1..], c)
  }

  /** `Count` is the number of occurrences of `c` in `s`. */
  lemma {:induction false} CountIsMultiplicity(s: string, c: char)
    ensures Count(s, c) == multiset(s)[c]
  {
    if s != [] {
      assert s == [s[0]] + s[1..];
      assert multiset(s) == multiset{s[0]} + multiset(s[1..]);
      CountIsMultiplicity(s[1..], c);
    }
  }

  /** `s.split(sep)` for a one-character separator: the pieces between the
      separators, in order, none of them holding the separator. */
  function Split(s: string, sep: char): (parts: seq<string>)
    ensures |parts| == Count(s, sep) + 1
    ensures forall k :: 0 <= k < |parts| ==> sep !in parts[k]
    decreases |s|
  {
    if s == [] then [""]
    else if s[0] == sep then [""] + Split(s[1..], sep)
    else
      var rest := Split(s[1..], sep);
      [[s[0]] + rest[0]] + rest[1..]
  }

  /** `parts.join(sep)` for a one-character separator. */
  function Join(parts: seq<string>, sep: char): string
  {
    if parts == [] then ""
    else if |parts| == 1 then parts[0]
    else parts[0] + [sep] + Join(parts[1..], sep)
  }

  lemma JoinCons(p: string, ps: seq<string>, sep: char)
    requires ps != []
    ensures Join([p] + ps, sep) == p + [sep] + Join(ps, sep)
  {
    assert ([p] + ps)[1..] == ps;
  }

  /** A join ends with the last character of its last piece. */
  lemma {:induction false} JoinLast(parts: seq<string>, sep: char)
    requires parts != [] && parts[|parts| - 1] != []
    ensures var j := Join(parts, sep); |j| > 0 && j[|j| - 1] == parts[|parts| - 1][|parts[|parts| - 1]| - 1]
    decreases |parts|
  {
    if |parts| > 1 {
      JoinLast(parts[1..], sep);
      assert parts[1..][|parts| - 2] == parts[|parts| - 1];
    }
  }

  /** A character put in front of the first piece comes first in the join. */
  lemma JoinHead(c: char, ps: seq<string>, sep: char)
    requires ps != []
    ensures Join([[c] + ps[0]] + ps[1..], sep) == [c] + Join(ps, sep)
  {
    if |ps| > 1 {
      JoinCons([c] + ps[0], ps[1..], sep);
      JoinCons(ps[0], ps[1..], sep);
      assert ps == [ps[0]] + ps[1..];
    }
  }

  /** Joining the pieces of a split with the same separator gives back the text. */
  lemma {:induction false} JoinSplit(s: string, sep: char)
    ensures Join(Split(s, sep), sep) == s
    decreases |s|
  {
    if s != [] {
      var rest := Split(s[1..], sep);
      assert Join(rest, sep) == s[1..] by { JoinSplit(s[1..], sep); }
      if s[0] == sep {
        assert Split(s, sep) == [""] + rest;
        JoinCons("", rest, sep);
      } else {
        assert Split(s, sep) == [[s[0]] + rest[0]] + rest[1..];
        JoinHead(s[0], rest, sep);
      }
      assert s == [s[0]] + s[1..];
    }
  }

  /** Splitting a join of separator-free pieces gives back the pieces. */
  lemma {:induction false} SplitJoin(parts: seq<string>, sep: char)
    requires parts != []
    requires forall k :: 0 <= k < |parts| ==> sep !in parts[k]
    ensures Split(Join(parts, sep), sep) == parts
    decreases |parts|, |parts[0]|
  {
    var p := parts[0];
    var j := Join(parts, sep);
    if p == [] {
      if |parts| > 1 {
        JoinCons(p, parts[1..], sep);
        assert j == [sep] + Join(parts[1..], sep);
        assert j[1..] == Join(parts[1..], sep);
        SplitJoin(parts[1..], sep);
        assert parts == [""] + parts[1..];
      }
    } else {
      var shorter := [p[1..]] + parts[1..];
      assert forall k :: 0 <= k < |shorter| ==> sep !in shorter[k] by {
        forall k | 0 <= k < |shorter| ensures sep !in shorter[k] {
          if k == 0 { assert forall x :: x in p[1..] ==> x in p; } else { assert shorter[k] == parts[k]; }
        }
      }
      assert parts == [[p[0]] + shorter[0]] + shorter[1..] by {
        assert [p[0]] + p[1..] == p && shorter[1..] == parts[1..];
      }
      JoinHead(p[0], shorter, sep);
      assert j == [p[0]] + Join(shorter, sep);
      assert j[1..] == Join(shorter, sep);
      SplitJoin(shorter, sep);
      assert j[0] == p[0] && p[0] != sep;
    }
  }

  // ---------------------------------------------------------------- search

  predicate StartsWith(s: string, prefix: string) {
    |prefix| <= |s| && s[..|prefix|] == prefix
  }

  /** `s.includes(sub)`. */
  predicate Contains(s: string, sub: string)
    decreases |s|
  {
    StartsWith(s, sub) || (s != [] && Contains(s[1..], sub))
  }

  // ---------------------------------------------------------------- ASCII case

  function LowerChar(c: char): char {
    if 'A' <= c <= 'Z' then (c as int + 32) as char else c
  }

  function UpperChar(c: char): char {
    if 'a' <= c <= 'z' then (c as int - 32) as char else c
  }

  function ToLower(s: string): (r: string)
    ensures |r| == |s| && forall i :: 0 <= i < |s| ==> r[i] == LowerChar(s[i])
  {
    if s == [] then [] else [LowerChar(s[0])] + ToLower(s[1..])
  }

  function ToUpper(s: string): (r: string)
    ensures |r| == |s| && forall i :: 0 <= i < |s| ==> r[i] == UpperChar(s[i])
  {
    if s == [] then [] else [UpperChar(s[0])] + ToUpper(s[1..])
  }

  // ---------------------------------------------------------------- alphanumerics

  /** Membership in the class `[a-zA-Z0-9]`. */
  predicate IsAlnum(c: char) {
    ('a' <= c <= 'z') || ('A' <= c <= 'Z') || ('0' <= c <= '9')
  }

  /** `s.replace(/[^a-zA-Z0-9]/g, '')`: the alphanumeric characters of `s`, in order. */
  function Sanitize(s: string): (r: string)
    ensures |r| <= |s|
    ensures forall i :: 0 <= i < |r| ==> IsAlnum(r[i])
    ensures (forall i :: 0 <= i < |s| ==> IsAlnum(s[i])) ==> r == s
  {
    if s == [] then []
    else if IsAlnum(s[0]) then [s[0]] + Sanitize(s[1..])
    else Sanitize(s[1..])
  }

  /** Filtering distributes over concatenation, so with `SanitizeChar` it
      keeps exactly the alphanumerics, in order. */
  lemma {:induction false} SanitizeAppend(a: string, b: string)
    ensures Sanitize(a + b) == Sanitize(a) + Sanitize(b)
    decreases |a|
  {
    if a != [] {
      assert (a + b)[0] == a[0] && (a + b)[1..] == a[1..] + b;
      SanitizeAppend(a[1..], b);
    } else {
      assert a + b == b;
    }
  }

  /** A single character is kept exactly when it is alphanumeric. */
  lemma SanitizeChar(c: char)
    ensures Sanitize([c]) == (if IsAlnum(c) then [c] else [])
  {
    assert [c][1..] == [];
  }

  // ---------------------------------------------------------------- ordering

  /** The order `Array.prototype.sort` uses on strings (code unit by code unit;
      a prefix comes first). It agrees with JavaScript on characters of the
      Basic Multilingual Plane, which include every alphanumeric. */
  predicate LexLe(a: string, b: string) {
    a == [] || (b != [] && (a[0] < b[0] || (a[0] == b[0] && LexLe(a[1..], b[1..]))))
  }

  lemma {:induction false} LexLeTotal(a: string, b: string)
    ensures LexLe(a, b) || LexLe(b, a)
  {
    if a != [] && b != [] && a[0] == b[0] {
      LexLeTotal(a[1..], b[1..]);
    }
  }

  lemma {:induction false} LexLeAntisymmetric(a: string, b: string)
    requires LexLe(a, b) && LexLe(b, a)
    ensures a == b
  {
    if a != [] && b != [] {
      LexLeAntisymmetric(a[1..], b[1..]);
      assert a == [a[0]] + a[1..] && b == [b[0]] + b[1..];
    }
  }
}
