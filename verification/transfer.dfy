/**
  The credit-transfer form: choosing send/request/split, a recipient and
  an amount, and the Submit Transfer button, which validates the form,
  posts a notification describing the transfer and clears the form.
*/
module CreditTransfer {
  import Text
  import Numerals
  import Notifications
  import opened Options

  /** What a transfer does; every mode other than "send" and "request" splits. */
  datatype Kind = Send | Request | Split

  /** The form's state; `tab` and `selectedAuto` belong to the other panels. */
  datatype Form = Form(
    tab: string,
    mode: string,
    selectedAuto: Option<string>,
    recipient: Option<string>,
    amount: string)

  datatype State = State(form: Form, notifications: seq<Notifications.Notification>)

  datatype Outcome = NoRecipient | InvalidAmount | Submitted(message: string)

  datatype Submission = Submission(state: State, outcome: Outcome)

  /** The form as first rendered. */
  const InitialForm: Form := Form("Z", "send", None, None, "")

  function KindOf(mode: string): Kind {
    if mode == "send" then Send else if mode == "request" then Request else Split
  }

  /** A recipient counts as chosen when it is present and not the empty string. */
  predicate RecipientChosen(recipient: Option<string>) {
    recipient.Some? && recipient.value != ""
  }

  /**
    The amount check: an empty field, or one whose numeric value is zero or
    less, is refused. Text that is not a number passes, as `NaN <= 0` is false.
  */
  predicate AmountRefused(amount: string) {
    amount == "" || Numerals.AtMostZero(Numerals.ToNumber(amount))
  }

  /** The text before the amount. */
  function Head(k: Kind): string {
    match k
    case Send => "Sent $"
    case Request => "Requested $"
    case Split => "Split $"
  }

  /** The text between the amount and the recipient. */
  function Link(k: Kind): string {
    match k
    case Send => " to "
    case Request => " from "
    case Split => " with "
  }

  /** The notification text for a transfer. */
  function Message(mode: string, amount: string, recipient: string): string {
    var k := KindOf(mode);
    Head(k) + amount + Link(k) + recipient
  }

  /** What a message says: the kind of transfer, the amount and the recipient. */
  datatype Parsed = Parsed(kind: Kind, amount: string, recipient: string)

  /** Reads a message back; the amount is the text up to the first space. */
  function ParseMessage(m: string): Option<Parsed> {
    if Text.StartsWith(m, Head(Send)) then ParseRest(Send, m[|Head(Send)|..])
    else if Text.StartsWith(m, Head(Request)) then ParseRest(Request, m[|Head(Request)|..])
    else if Text.StartsWith(m, Head(Split)) then ParseRest(Split, m[|Head(Split)|..])
    else None
  }

  function ParseRest(k: Kind, rest: string): Option<Parsed> {
    var n := Text.IndexOf(rest, ' ');
    var tail := rest[n..];
    if Text.StartsWith(tail, Link(k)) then Some(Parsed(k, rest[..n], tail[|Link(k)|..])) else None
  }

  /**
    Submit Transfer. The recipient is checked first, then the amount; a
    refusal changes nothing. An accepted transfer adds one fresh
    notification carrying the message and clears amount and recipient.
    The tab, the mode and the automated-payment choice never change.
  */
  function Submit(st: State, id: int): (r: Submission)
    ensures r.state.form.tab == st.form.tab && r.state.form.mode == st.form.mode
    ensures r.state.form.selectedAuto == st.form.selectedAuto
    ensures !RecipientChosen(st.form.recipient) ==> r == Submission(st, NoRecipient)
    ensures RecipientChosen(st.form.recipient) && AmountRefused(st.form.amount) ==> r == Submission(st, InvalidAmount)
    ensures r.outcome.Submitted? <==> RecipientChosen(st.form.recipient) && !AmountRefused(st.form.amount)
    ensures r.outcome.Submitted? ==>
      && r.outcome.message == Message(st.form.mode, st.form.amount, st.form.recipient.value)
      && r.state.notifications == Notifications.Add(st.notifications, id, r.outcome.message)
      && r.state.form.amount == "" && r.state.form.recipient == None
  {
    if !RecipientChosen(st.form.recipient) then Submission(st, NoRecipient)
    else if AmountRefused(st.form.amount) then Submission(st, InvalidAmount)
    else
      var message := Message(st.form.mode, st.form.amount, st.form.recipient.value);
      var form := st.form.(amount := "", recipient := None);
      Submission(State(form, Notifications.Add(st.notifications, id, message)), Submitted(message))
  }

  // ---------- Lemmas ----------

  predicate NoSpace(s: string) {
    forall i :: 0 <= i < |s| ==> s[i] != ' '
  }

  lemma HeadsDiffer(k: Kind, m: string)
    requires Text.StartsWith(m, Head(k))
    ensures k != Send ==> !Text.StartsWith(m, Head(Send))
    ensures k == Split ==> !Text.StartsWith(m, Head(Request))
  {
    assert m[0] == Head(k)[0] && m[1] == Head(k)[1];
  }

  lemma {:induction false} FirstSpaceAfter(amount: string, rest: string)
    requires NoSpace(amount) && |rest| > 0 && rest[0] == ' '
    ensures Text.IndexOf(amount + rest, ' ') == |amount|
    decreases |amount|
  {
    if |amount| > 0 {
      assert (amount + rest)[1..] == amount[1..] + rest;
      FirstSpaceAfter(amount[1..], rest);
    }
  }

  lemma ParseRestRoundTrip(k: Kind, amount: string, recipient: string)
    requires NoSpace(amount)
    ensures ParseRest(k, amount + Link(k) + recipient) == Some(Parsed(k, amount, recipient))
  {
    var tail := Link(k) + recipient;
    assert amount + Link(k) + recipient == amount + tail;
    FirstSpaceAfter(amount, tail);
    assert (amount + tail)[|amount|..] == tail;
    assert (amount + tail)[..|amount|] == amount;
    assert tail[..|Link(k)|] == Link(k);
    assert tail[|Link(k)|..] == recipient;
  }

  /**
    A message names its transfer unambiguously: reading it back gives the
    mode's kind, the amount and the recipient, for any amount without spaces.
  */
  lemma MessageRoundTrip(mode: string, amount: string, recipient: string)
    requires NoSpace(amount)
    ensures ParseMessage(Message(mode, amount, recipient)) == Some(Parsed(KindOf(mode), amount, recipient))
  {
    var k := KindOf(mode);
    var rest := amount + Link(k) + recipient;
    var m := Message(mode, amount, recipient);
    assert m == Head(k) + rest;
    assert m[..|Head(k)|] == Head(k);
    assert m[|Head(k)|..] == rest;
    HeadsDiffer(k, m);
    ParseRestRoundTrip(k, amount, recipient);
  }

  /** A whole number typed as the amount is accepted exactly when it is not zero. */
  lemma WholeAmountAccepted(n: nat)
    ensures AmountRefused(Numerals.NatToString(n)) <==> n == 0
  {
    Numerals.ToNumberOfNatString(n);
  }

  /** A minus sign before a run of digits is refused. */
  lemma NegativeAmountRefused(digits: string)
    requires Numerals.AllDigits(digits) && |digits| > 0
    ensures AmountRefused("-" + digits)
  {
    Numerals.ToNumberOfNegativeDigits(digits);
  }

  /** An amount in exponent form, such as "2e3", is refused iff its digits before the `e` are all zero. */
  lemma ScientificAmountRefused(m: string, x: string)
    requires Numerals.AllDigits(m) && |m| > 0 && Numerals.AllDigits(x) && |x| > 0
    ensures AmountRefused(m + "e" + x) <==> Numerals.ParseDigits(m) == 0
  {
    Numerals.ToNumberOfScientific(m, x);
  }

  /** A negative amount in exponent form, such as "-1e5", is refused. */
  lemma NegativeScientificAmountRefused(m: string, x: string)
    requires Numerals.AllDigits(m) && |m| > 0 && Numerals.AllDigits(x) && |x| > 0
    ensures AmountRefused("-" + m + "e" + x)
  {
    Numerals.ToNumberOfNegativeScientific(m, x);
  }

  /** "Infinity", however padded, passes the amount check. */
  lemma InfinityAccepted(amount: string)
    requires Text.Trim(amount) == "Infinity"
    ensures !AmountRefused(amount)
  {
    Numerals.InfinityLiterals();
  }

  /** "-Infinity", however padded, is refused. */
  lemma MinusInfinityRefused(amount: string)
    requires Text.Trim(amount) == "-Infinity"
    ensures AmountRefused(amount)
  {
    Numerals.InfinityLiterals();
  }

  /** A hexadecimal amount such as "0x1f" is refused iff its value is zero. */
  lemma HexAmountRefused(h: string)
    requires |h| > 0 && Numerals.AllDigitsIn(h, 16)
    ensures AmountRefused("0x" + h) <==> Numerals.ParseRadix(h, 16) == 0
  {
    Numerals.ToNumberOfHex(h);
  }

  /** Submitting the form as first rendered is refused for want of a recipient. */
  lemma InitialFormRefused(notifications: seq<Notifications.Notification>, id: int)
    ensures Submit(State(InitialForm, notifications), id).outcome == NoRecipient
    ensures Submit(State(InitialForm, notifications), id).state == State(InitialForm, notifications)
  {
  }

  /** An accepted transfer adds exactly one fresh notification. */
  lemma SubmitAddsOneFresh(st: State, id: int)
    requires RecipientChosen(st.form.recipient) && !AmountRefused(st.form.amount)
    ensures |Submit(st, id).state.notifications| == |st.notifications| + 1
    ensures Notifications.FreshCount(Submit(st, id).state.notifications) == Notifications.FreshCount(st.notifications) + 1
  {
  }
}
