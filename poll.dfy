/**
 * The poll card of Poll.jsx: the vote total, each option's rounded
 * percentage, and the vote a click sends with the browser's persistent voter id.
 */
module Poll {
  import opened Strings
  import opened Protocol
  import opened Browser

  predicate CountsNonNegative(options: seq<PollOption>) {
    forall k :: 0 <= k < |options| ==> options[k].count >= 0
  }

  /** `poll.options.reduce((a, b) => a + b.count, 0)`, folded from the left. With
      no negative count, the total is at least every single option's count. */
  function TotalVotes(options: seq<PollOption>): (total: int)
    ensures CountsNonNegative(options) ==> total >= 0
    ensures CountsNonNegative(options) ==> forall k :: 0 <= k < |options| ==> options[k].count <= total
  {
    if options == [] then 0
    else TotalVotes(options[..|options| - 1]) + options[|options| - 1].count
  }

  /** The total of a poll is the sum of the counts, whichever end it is summed
      from. */
  lemma {:induction false} TotalVotesCons(o: PollOption, rest: seq<PollOption>)
    ensures TotalVotes([o] + rest) == o.count + TotalVotes(rest)
    decreases |rest|
  {
    var all := [o] + rest;
    if rest != [] {
      assert all[..|all| - 1] == [o] + rest[..|rest| - 1];
      TotalVotesCons(o, rest[..|rest| - 1]);
    }
  }

  /** `totalVotes === 0 ? 0 : Math.round((count / totalVotes) * 100)`, with
      `Math.round(x)` read exactly as `floor(x + 1/2)`: the integer nearest to
      100 * count / total, halves rounded up. */
  function Percent(count: int, total: int): (p: int)
    ensures total == 0 ==> p == 0
    ensures total > 0 ==> 2 * total * p - total <= 200 * count < 2 * total * p + total
    ensures total < 0 ==> 2 * total * p + total < 200 * count <= 2 * total * p - total
  {
    if total == 0 then 0
    else if total > 0 then (200 * count + total) / (2 * total)
    else (-(200 * count + total)) / (-2 * total)
  }

  /** The sign of a product with a positive factor is the sign of the other. */
  lemma ProductSign(t: int, x: int)
    requires t > 0
    ensures t * x <= 0 ==> x <= 0
    ensures t * x < 0 ==> x < 0
  {
  }

  /** A share of the total shows as 0 to 100 percent, and the option holding
      every vote shows 100. */
  lemma PercentInRange(count: int, total: int)
    requires 0 <= count <= total
    ensures 0 <= Percent(count, total) <= 100
    ensures count == total ==> Percent(count, total) == (if total == 0 then 0 else 100)
  {
    if total > 0 {
      var p := Percent(count, total);
      assert total * (-2 * p - 1) < 0;
      ProductSign(total, -2 * p - 1);
      assert total * (2 * p - 201) <= 0;
      ProductSign(total, 2 * p - 201);
      if count == total {
        assert total * (199 - 2 * p) < 0;
        ProductSign(total, 199 - 2 * p);
      }
    }
  }

  /** Every option of a poll with no negative counts shows 0 to 100 percent. */
  lemma OptionPercentInRange(options: seq<PollOption>, k: int)
    requires CountsNonNegative(options) && 0 <= k < |options|
    ensures 0 <= Percent(options[k].count, TotalVotes(options)) <= 100
  {
    PercentInRange(options[k].count, TotalVotes(options));
  }

  /** The voter id handleVote uses: the stored `chatjet_uuid` when it is truthy,
      otherwise the freshly generated one. */
  function VoterId(items: map<string, Value>, generated: string): (id: string)
    ensures SavedText(items, UuidKey).Some? ==> id == SavedText(items, UuidKey).value
    ensures SavedText(items, UuidKey).None? ==> id == generated
  {
    match SavedText(items, UuidKey)
    case Some(stored) => stored
    case None => generated
  }

  /** handleVote(idx): get-or-create the voter id, then send the vote for the
      clicked option of this poll. */
  method HandleVote(store: LocalStorage, poll: Message, idx: int, userName: string, generated: string)
    returns (vote: Event)
    requires generated != ""
    modifies store
    ensures vote == VotePoll(poll.id, idx, userName, VoterId(old(store.items), generated))
    ensures store.items == old(store.items)[UuidKey := Text(vote.userId)]
    ensures SavedText(store.items, UuidKey) == Some(vote.userId)
  {
    var userId := VoterId(store.items, generated);
    if SavedText(store.items, UuidKey).None? {
      store.SetItem(UuidKey, Text(userId));
    } else {
      assert store.items == store.items[UuidKey := Text(userId)];
    }
    vote := VotePoll(poll.id, idx, userName, userId);
  }

  /** The voter id is created once: two votes, whatever fresh ids the browser
      offers, carry the same `userId`. */
  method VoteTwice(store: LocalStorage, poll: Message, userName: string, newId1: string, newId2: string)
    returns (first: Event, second: Event)
    requires newId1 != "" && newId2 != ""
    modifies store
    ensures first.VotePoll? && second.VotePoll?
    ensures first.userId == second.userId == VoterId(old(store.items), newId1)
    ensures first.optionIndex == 0 && second.optionIndex == 1
  {
    first := HandleVote(store, poll, 0, userName, newId1);
    second := HandleVote(store, poll, 1, userName, newId2);
  }
}
