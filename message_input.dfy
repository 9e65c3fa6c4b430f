/** The message box of src/components/MessageInput.tsx: the text being typed,
    and what pressing send or Enter does with it. The `onSendMessage` callback
    is the returned `sent` text and the toast is the returned notice. */
module MessageInput {
  import opened Types
  import opened Text

  /** The longest message that may be sent, in characters. */
  const MaxLength: nat := 10000

  const TooLongNotice: string := "Message is too long (max 10,000 characters)"

  /** What pressing send does with the current text. */
  datatype SendOutcome = NotSent | TooLong | Sent(text: string)

  /** The decision of `handleSend`: nothing when the trimmed text is empty or the
      box is disabled; a complaint when the trimmed text is over the limit;
      otherwise the trimmed text is sent. */
  function Decide(message: string, disabled: bool): (o: SendOutcome)
    ensures o == NotSent <==> Trim(message) == "" || disabled
    ensures o == TooLong <==> Trim(message) != "" && !disabled && |Trim(message)| > MaxLength
    ensures o.Sent? ==> o.text == Trim(message) && 0 < |o.text| <= MaxLength
  {
    var trimmed := Trim(message);
    if trimmed != "" && !disabled then
      if |trimmed| > MaxLength then TooLong else Sent(trimmed)
    else NotSent
  }

  /** The send button's `disabled` attribute. */
  predicate SendButtonDisabled(message: string, disabled: bool)
  {
    Trim(message) == "" || disabled
  }

  /** The button is greyed out exactly when pressing send would do nothing at all;
      an over-long text leaves it enabled, and pressing it reports the length. */
  lemma ButtonDisabledIffNothingHappens(message: string, disabled: bool)
    ensures SendButtonDisabled(message, disabled) <==> Decide(message, disabled) == NotSent
  {
  }

  /** A text of blanks and line breaks is never sent, whatever its length. */
  lemma WhitespaceNeverSent(message: string, disabled: bool)
    requires AllWhitespace(message)
    ensures Decide(message, disabled) == NotSent
  {
    TrimEmptyIff(message);
  }

  /** What is sent is the typed text with the whitespace around it cut away, and
      only that: it neither starts nor ends with whitespace, trimming it again
      changes nothing, and what was dropped on either side is whitespace. */
  lemma SentTextIsTrimmed(message: string, disabled: bool)
    requires Decide(message, disabled).Sent?
    ensures Decide(message, disabled) == Sent(Trim(message))
    ensures Trim(Trim(message)) == Trim(message)
    ensures !IsWhitespace(Trim(message)[0]) && !IsWhitespace(Trim(message)[|Trim(message)| - 1])
    ensures exists i ::
      && 0 <= i <= i + |Trim(message)| <= |message| && Trim(message) == message[i..i + |Trim(message)|]
      && AllWhitespace(message[..i]) && AllWhitespace(message[i + |Trim(message)|..])
  {
    TrimIdempotent(message);
    TrimIsCore(message);
  }

  /** The limit is inclusive: exactly 10000 characters are sent, one more is refused. */
  lemma LimitIsInclusive(message: string)
    ensures |Trim(message)| == MaxLength ==> Decide(message, false) == Sent(Trim(message))
    ensures |Trim(message)| == MaxLength + 1 ==> Decide(message, false) == TooLong
  {
  }

  /** The state of the component: the text in the box. */
  class MessageBox {
    var message: string

    constructor()
      ensures message == ""
    {
      message := "";
    }

    /** The textarea's `onChange`: the box holds what was typed. */
    method OnChange(value: string)
      modifies this
      ensures message == value
    {
      message := value;
    }

    /** `handleSend`. A sent text clears the box; a refused or over-long one stays. */
    method HandleSend(disabled: bool) returns (sent: Option<string>, notice: Option<string>)
      modifies this
      ensures var o := Decide(old(message), disabled);
        && sent == (if o.Sent? then Some(o.text) else None)
        && notice == (if o == TooLong then Some(TooLongNotice) else None)
        && message == (if o.Sent? then "" else old(message))
    {
      var trimmedMessage := Trim(message);
      sent, notice := None, None;
      if trimmedMessage != "" && !disabled {
        if |trimmedMessage| > MaxLength {
          notice := Some(TooLongNotice);
          return;
        }
        sent := Some(trimmedMessage);
        message := "";
      }
    }

    /** `handleKeyDown`: Enter without Shift sends (and keeps the newline out of
        the box); any other key, Shift+Enter included, is left to the textarea. */
    method HandleKeyDown(key: string, shiftKey: bool, disabled: bool)
      returns (sent: Option<string>, notice: Option<string>, preventDefault: bool)
      modifies this
      ensures preventDefault <==> key == "Enter" && !shiftKey
      ensures preventDefault ==>
        var o := Decide(old(message), disabled);
        && sent == (if o.Sent? then Some(o.text) else None)
        && notice == (if o == TooLong then Some(TooLongNotice) else None)
        && message == (if o.Sent? then "" else old(message))
      ensures !preventDefault ==> sent == None && notice == None && message == old(message)
    {
      sent, notice, preventDefault := None, None, false;
      if key == "Enter" && !shiftKey {
        preventDefault := true;
        sent, notice := HandleSend(disabled);
      }
    }
  }
}
