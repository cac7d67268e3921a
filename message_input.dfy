/**
 * MessageInput.jsx: the React client's text box. It tracks the typing
 * indicator, picks the keys that send, wraps code-mode text in a fenced
 * block, gates attachments by size, and guards language detection.
 */
module MessageInput {
  import opened Strings
  import opened Protocol

  /** `5 * 1024 * 1024` bytes: the largest attachment accepted. */
  const MaxFileSize := 5 * 1024 * 1024
  /** The `stop typing` timeout, restarted by every input. */
  const TypingDelay := 1000
  /** The debounce before language detection runs. */
  const DetectDelay := 300
  /** Code shorter than this, once trimmed, is never classified. */
  const MinDetectLength := 10
  const Fence := "```"

  /** The part of highlight.js's `highlightAuto` result that detectLanguage
      reads: the language it names (if any) and its relevance score. */
  datatype Guess = Guess(language: Option<string>, relevance: int)

  /** detectLanguage, given what `highlightAuto` would answer: nothing for
      code under ten characters once trimmed, otherwise the guessed language
      only when its relevance is above 5. */
  function DetectLanguage(code: string, guess: Guess): (lang: Option<string>)
    ensures |Trim(code)| < MinDetectLength ==> lang.None?
    ensures lang.Some? ==> guess.relevance > 5 && guess.language == lang && lang.value != ""
  {
    if code == "" || |Trim(code)| < MinDetectLength then None
    else if guess.relevance > 5 && guess.language.Some? && guess.language.value != "" then guess.language
    else None
  }

  /** handleKeyDown: whether a key press sends. */
  predicate KeySends(key: string, shift: bool, ctrl: bool, codeMode: bool) {
    (key == "Enter" && !shift && !codeMode) || (key == "Enter" && ctrl && codeMode)
  }

  /** Outside code mode Enter sends unless Shift is held; in code mode only
      Ctrl+Enter sends, so a plain Enter adds a line. Nothing but Enter sends. */
  lemma KeySendsRule(key: string, shift: bool, ctrl: bool, codeMode: bool)
    ensures key != "Enter" ==> !KeySends(key, shift, ctrl, codeMode)
    ensures !codeMode ==> (KeySends(key, shift, ctrl, codeMode) <==> key == "Enter" && !shift)
    ensures codeMode ==> (KeySends(key, shift, ctrl, codeMode) <==> key == "Enter" && ctrl)
  {
  }

  /** How a null `codeLanguage` prints inside the template literal. */
  function LanguageText(lang: Option<string>): string {
    if lang.Some? then lang.value else "null"
  }

  /** The text handleSend passes on: in code mode with non-blank text, the
      text fenced as a code block tagged with the language; otherwise the text
      unchanged. The original text can be read back from the block. */
  function FinalText(text: string, codeMode: bool, lang: Option<string>): (t: string)
    ensures !(codeMode && !Blank(text)) ==> t == text
    ensures codeMode && !Blank(text) ==>
              var head := Fence + LanguageText(lang) + "\n";
              && StartsWith(t, head)
              && |t| == |head| + |text| + 4
              && t[|head|..|head| + |text|] == text
              && t[|head| + |text|..] == "\n" + Fence
  {
    if codeMode && !Blank(text) then
      var head := Fence + LanguageText(lang) + "\n";
      var t := head + text + "\n" + Fence;
      assert t[..|head|] == head;
      assert t[|head|..|head| + |text|] == text;
      assert t[|head| + |text|..] == "\n" + Fence;
      t
    else text
  }

  /** `file.size > 5 * 1024 * 1024` rejects the file. */
  predicate AcceptsFile(size: int) {
    size <= MaxFileSize
  }

  /** A picked file: its size and what the reader makes of it. */
  datatype PickedFile = PickedFile(size: int, name: string, mime: string, dataUrl: string)

  /** What the component hands to the chat screen on send. */
  datatype Submission = Submission(text: string, attachment: Option<Attachment>)

  /** Every field of the input box, as one value: a handler's frame is
      stated as the old value with only its own fields replaced. */
  datatype InputState = InputState(
    text: string,
    isTyping: bool,
    attachment: Option<Attachment>,
    codeMode: bool,
    codeLanguage: Option<string>,
    typingDeadline: Option<int>,
    detectPending: Option<(int, string)>,
    sent: seq<Event>,
    submitted: seq<Submission>)

  class Input {
    var text: string
    var isTyping: bool
    var attachment: Option<Attachment>
    var codeMode: bool
    var codeLanguage: Option<string>
    /** when the pending `stop typing` timeout fires */
    var typingDeadline: Option<int>
    /** the pending detection timeout: when it fires, and the text it checks */
    var detectPending: Option<(int, string)>
    var sent: seq<Event>
    var submitted: seq<Submission>

    function State(): InputState
      reads this
    {
      InputState(text, isTyping, attachment, codeMode, codeLanguage, typingDeadline, detectPending, sent, submitted)
    }

    /** While the indicator is on, a `stop typing` timeout is pending. */
    ghost predicate Valid()
      reads this
    {
      isTyping ==> typingDeadline.Some?
    }

    constructor ()
      ensures Valid()
      ensures text == "" && !isTyping && attachment.None? && !codeMode && codeLanguage.None?
      ensures typingDeadline.None? && detectPending.None? && sent == [] && submitted == []
    {
      text, isTyping, attachment, codeMode, codeLanguage := "", false, None, false, None;
      typingDeadline, detectPending, sent, submitted := None, None, [], [];
    }

    /** handleInput: the text changes, detection is (re)scheduled in code
        mode, `typing` is sent only when the indicator turns on, and the stop
        timeout restarts. */
    method HandleInput(newText: string, now: int)
      requires Valid()
      modifies this
      ensures Valid()
      ensures State() == old(State()).(text := text, isTyping := isTyping, sent := sent, typingDeadline := typingDeadline, detectPending := detectPending)
      ensures text == newText && isTyping
      ensures sent == old(sent) + (if old(isTyping) then [] else [Typing])
      ensures typingDeadline == Some(now + TypingDelay)
      ensures detectPending == (if codeMode then Some((now + DetectDelay, newText)) else old(detectPending))
      ensures attachment == old(attachment) && codeMode == old(codeMode) && codeLanguage == old(codeLanguage)
      ensures submitted == old(submitted)
    {
      text := newText;
      if codeMode {
        detectPending := Some((now + DetectDelay, newText));
      }
      if !isTyping {
        isTyping := true;
        sent := sent + [Typing];
      }
      typingDeadline := Some(now + TypingDelay);
    }

    /** The `stop typing` timeout fires: the indicator turns off and the
        server is told. */
    method TypingTimeout(now: int)
      requires Valid() && typingDeadline.Some? && now >= typingDeadline.value
      modifies this
      ensures Valid()
      ensures State() == old(State()).(isTyping := isTyping, typingDeadline := typingDeadline, sent := sent)
      ensures !isTyping && typingDeadline.None? && sent == old(sent) + [StopTyping]
      ensures text == old(text) && attachment == old(attachment) && codeMode == old(codeMode)
      ensures codeLanguage == old(codeLanguage) && submitted == old(submitted)
    {
      isTyping := false;
      typingDeadline := None;
      sent := sent + [StopTyping];
    }

    /** The detection timeout fires with highlight.js's answer for the text it
        was scheduled with: a detected language replaces the current one. */
    method DetectTimeout(now: int, guess: Guess)
      requires Valid() && detectPending.Some?
      requires now >= detectPending.value.0
      modifies this
      ensures Valid()
      ensures State() == old(State()).(codeLanguage := codeLanguage, detectPending := detectPending)
      ensures DetectLanguage(old(detectPending).value.1, guess).Some? ==>
                codeLanguage == DetectLanguage(old(detectPending).value.1, guess)
      ensures DetectLanguage(old(detectPending).value.1, guess).None? ==> codeLanguage == old(codeLanguage)
      ensures detectPending.None?
      ensures text == old(text) && sent == old(sent) && submitted == old(submitted) && codeMode == old(codeMode)
    {
      var code := detectPending.value.1;
      var found := DetectLanguage(code, guess);
      assert found.Some? ==> found == guess.language;
      if found.Some? {
        codeLanguage := found;
      }
      detectPending := None;
    }

    /** handleSend: nothing happens for blank text without an attachment;
        otherwise the (possibly fenced) text and the attachment are handed on,
        the box is reset, and `stop typing` is sent. */
    method HandleSend()
      requires Valid()
      modifies this
      ensures Valid()
      ensures State() == old(State()).(text := text, attachment := attachment, codeMode := codeMode, isTyping := isTyping, sent := sent, submitted := submitted)
      ensures Blank(old(text)) && old(attachment).None? ==>
                text == old(text) && sent == old(sent) && submitted == old(submitted)
                && codeMode == old(codeMode) && isTyping == old(isTyping) && attachment.None?
      ensures !(Blank(old(text)) && old(attachment).None?) ==>
                && submitted == old(submitted) + [Submission(FinalText(old(text), old(codeMode), old(codeLanguage)), old(attachment))]
                && text == "" && attachment.None? && !codeMode && !isTyping
                && sent == old(sent) + [StopTyping]
      ensures codeLanguage == old(codeLanguage) && typingDeadline == old(typingDeadline)
    {
      TrimEmptyIffBlank(text);
      if Trim(text) == "" && attachment.None? {
        return;
      }
      var finalText := FinalText(text, codeMode, codeLanguage);
      submitted := submitted + [Submission(finalText, attachment)];
      text, attachment, codeMode, isTyping := "", None, false, false;
      sent := sent + [StopTyping];
    }

    /** handleKeyDown: a sending key acts as handleSend; any other key
        changes nothing. */
    method HandleKeyDown(key: string, shift: bool, ctrl: bool)
      requires Valid()
      modifies this
      ensures Valid()
      ensures State() == old(State()).(text := text, attachment := attachment, codeMode := codeMode, isTyping := isTyping, sent := sent, submitted := submitted)
      ensures !KeySends(key, shift, ctrl, old(codeMode)) || (Blank(old(text)) && old(attachment).None?) ==>
                text == old(text) && sent == old(sent) && submitted == old(submitted)
                && codeMode == old(codeMode) && isTyping == old(isTyping) && attachment == old(attachment)
      ensures KeySends(key, shift, ctrl, old(codeMode)) && !(Blank(old(text)) && old(attachment).None?) ==>
                && submitted == old(submitted) + [Submission(FinalText(old(text), old(codeMode), old(codeLanguage)), old(attachment))]
                && text == "" && attachment.None? && !codeMode && !isTyping
                && sent == old(sent) + [StopTyping]
      ensures codeLanguage == old(codeLanguage) && typingDeadline == old(typingDeadline)
    {
      if key == "Enter" && !shift && !codeMode {
        HandleSend();
      } else if key == "Enter" && ctrl && codeMode {
        HandleSend();
      }
    }

    /** toggleCodeMode: the flip of code mode is queued, then the call to the
        undefined `setShowLangDropdown` throws; the queued flip still lands. */
    method ToggleCodeMode() returns (threw: bool)
      requires Valid()
      modifies this
      ensures Valid()
      ensures State() == old(State()).(codeMode := codeMode)
      ensures codeMode == !old(codeMode) && threw
    {
      codeMode := !codeMode;
      threw := true;
    }

    /** handleFileChange: no file or a file over 5 MiB leaves the attachment as
        it was; any other file becomes the attachment. */
    method HandleFileChange(file: Option<PickedFile>)
      requires Valid()
      modifies this
      ensures Valid()
      ensures State() == old(State()).(attachment := attachment)
      ensures file.None? || !AcceptsFile(file.value.size) ==> attachment == old(attachment)
      ensures file.Some? && AcceptsFile(file.value.size) ==>
                attachment == Some(Attachment(file.value.name, file.value.mime, file.value.dataUrl))
      ensures text == old(text) && sent == old(sent) && submitted == old(submitted) && codeMode == old(codeMode)
    {
      if file.None? {
        return;
      }
      if file.value.size > MaxFileSize {
        return;
      }
      attachment := Some(Attachment(file.value.name, file.value.mime, file.value.dataUrl));
    }

    /** The preview's close button drops the attachment and nothing else. */
    method RemoveAttachment()
      requires Valid()
      modifies this
      ensures Valid()
      ensures State() == old(State()).(attachment := attachment)
      ensures attachment.None?
      ensures text == old(text) && sent == old(sent) && submitted == old(submitted) && codeMode == old(codeMode)
      ensures isTyping == old(isTyping) && typingDeadline == old(typingDeadline) && codeLanguage == old(codeLanguage)
    {
      attachment := None;
    }
  }

  /** Typing a word sends `typing` once, sending it turns the indicator off,
      and the timeout left over from the typing sends `stop typing` again. */
  method TypeAndSend()
  {
    var input := new Input();
    input.HandleInput("h", 0);
    input.HandleInput("hi", 200);
    assert input.sent == [Typing];
    input.HandleKeyDown("Enter", true, false);
    assert input.submitted == [];
    assert !Blank("hi") by { assert !IsSpace("hi"[0]); }
    input.HandleKeyDown("Enter", false, false);
    assert input.submitted == [Submission("hi", None)];
    assert input.sent == [Typing, StopTyping];
    input.TypingTimeout(1200);
    assert input.sent == [Typing, StopTyping, StopTyping];
  }
}
