/** `submitContract` end to end: either the list of missing entries, or the
    signed contract with its frozen values and signature block. */
module Submission {
  import opened Options
  import opened Text
  import Capture
  import opened Sequences
  import opened Validation
  import opened Display

  /** What the signed contract shows: the frozen text of every required
      field, the signer's trimmed name and position, the captured image and
      the formatted signing date. */
  datatype SignedView = SignedView(
    fields: FieldId -> string,
    name: string,
    position: string,
    image: Capture.Token,
    date: string)

  /** The result of pressing the submit control. */
  datatype Outcome =
    | Rejected(missing: seq<string>)
    | Signed(view: SignedView)

  /** The frozen text of every required field: its trimmed value when it
      has content, the placeholder when it is all white space. */
  function FrozenFields(form: Form): (frozen: FieldId -> string)
    ensures forall f: FieldId :: !AllWhitespace(form.required(f)) ==> frozen(f) == Trim(form.required(f))
    ensures forall f: FieldId :: AllWhitespace(form.required(f)) ==> frozen(f) == NotProvided
  {
    f => FrozenText(form.required(f))
  }

  /** The submit handler: the collected labels when any entry is missing,
      otherwise the signed view. The signing date is not among the checked
      entries, so it is shown however it parsed. */
  function Submit(form: Form, signature: Option<Capture.Token>, date: SigningDate): (r: Outcome)
    ensures r.Rejected? ==> r.missing != []
    ensures r.Signed? ==> signature == Some(r.view.image)
    ensures r.Signed? ==> r.view.date == FormatDate(date)
  {
    var missing := MissingLabels(form, signature);
    if missing != [] then Rejected(missing)
    else
      NoMissingLabelsIffComplete(form, signature);
      Signed(SignedView(
        FrozenFields(form),
        Trim(form.clientName),
        Trim(form.clientPosition),
        signature.value,
        FormatDate(date)))
  }

  /** The contract is signed exactly when the form is complete. */
  lemma SignedIffComplete(form: Form, signature: Option<Capture.Token>, date: SigningDate)
    ensures Submit(form, signature, date).Signed? <==> Complete(form, signature)
  {
    NoMissingLabelsIffComplete(form, signature);
  }

  /** A rejection lists each failing entry's label once, in checking
      order, and nothing else. */
  lemma RejectionListsFailures(form: Form, signature: Option<Capture.Token>, date: SigningDate, it: Item)
    requires Submit(form, signature, date).Rejected?
    ensures Label(it) in Submit(form, signature, date).missing <==> Fails(form, signature, it)
    ensures Distinct(Submit(form, signature, date).missing)
    ensures IsSubsequence(Submit(form, signature, date).missing, Labels(AllItems()))
  {
    MissingLabelsMembers(form, signature, it);
    MissingLabelsOrdered(form, signature);
  }

  /** Once signed, every required field shows exactly its trimmed input:
      never the placeholder, because every required field had content. */
  lemma SignedShowsTrimmedFields(form: Form, signature: Option<Capture.Token>, date: SigningDate, f: FieldId)
    requires Submit(form, signature, date).Signed?
    ensures Submit(form, signature, date).view.fields(f) == Trim(form.required(f))
    ensures Trim(form.required(f)) != []
  {
    SignedIffComplete(form, signature, date);
  }

  /** Once signed, the signature block shows the signer's name and
      position trimmed and non-empty. */
  lemma SignedShowsSigner(form: Form, signature: Option<Capture.Token>, date: SigningDate)
    requires Submit(form, signature, date).Signed?
    ensures var v := Submit(form, signature, date).view;
            && v.name == Trim(form.clientName) && v.name != []
            && v.position == Trim(form.clientPosition) && v.position != []
  {
    SignedIffComplete(form, signature, date);
  }

  /** Once signed, the signature block's date is the one entered: its
      leading digits read back as the day of the month. */
  lemma SignedShowsDate(form: Form, signature: Option<Capture.Token>, day: nat, month: string, year: int)
    requires Complete(form, signature)
    ensures var r := Submit(form, signature, Date(day, month, year));
            && r.Signed?
            && ReadDigits(LeadingDigits(r.view.date)) == day
  {
    SignedIffComplete(form, signature, Date(day, month, year));
    FormatDateShowsDay(day, month, year);
  }

  /** Without a stored signature, submitting is refused with "Client
      Signature" among the missing entries. */
  lemma NoSignatureBlocksSigning(form: Form, date: SigningDate)
    ensures Submit(form, None, date).Rejected?
    ensures Label(ClientSignature) in Submit(form, None, date).missing
  {
    var missing := MissingLabels(form, None);
    MissingLabelsMembers(form, None, ClientSignature);
    assert Fails(form, None, ClientSignature);
    assert Label(ClientSignature) in missing;
    assert Submit(form, None, date) == Rejected(missing);
  }

  /** After the pad is cleared, submitting is refused with "Client
      Signature" among the missing entries until a later stroke ends,
      whatever the rest of the form holds. */
  lemma ClearedPadBlocksSigning(s: Capture.State, inputs: seq<Capture.Input>, form: Form, date: SigningDate)
    requires Capture.NoCommit(Capture.Clear(s), inputs)
    ensures var r := Submit(form, Capture.Run(Capture.Clear(s), inputs).snapshot, date);
            && r.Rejected?
            && Label(ClientSignature) in r.missing
  {
    Capture.NoSnapshotWithoutCommit(Capture.Clear(s), inputs);
    NoSignatureBlocksSigning(form, date);
  }

  /** A freshly loaded page has no signature: until some stroke ends,
      submitting is refused with "Client Signature" among the missing
      entries. */
  lemma FreshPadBlocksSigning(inputs: seq<Capture.Input>, form: Form, date: SigningDate)
    requires Capture.NoCommit(Capture.Initial, inputs)
    ensures var r := Submit(form, Capture.Run(Capture.Initial, inputs).snapshot, date);
            && r.Rejected?
            && Label(ClientSignature) in r.missing
  {
    Capture.NoSnapshotWithoutCommit(Capture.Initial, inputs);
    NoSignatureBlocksSigning(form, date);
  }

  /** A stroke drawn on the pad and ended — with mouse or touch — supplies
      the signature: if the form is otherwise complete, the contract is
      signed with the image exported when the stroke ended. */
  lemma StrokeSuppliesSignature(
    s: Capture.State, down: Capture.Input, moves: seq<Capture.Input>, stop: Capture.Input,
    form: Form, date: SigningDate)
    requires Capture.IsDown(down.event)
    requires Capture.AllMoves(moves)
    requires Capture.IsStopEvent(stop.event)
    requires Complete(form, Some(stop.image))
    ensures var r := Submit(form, Capture.Run(s, [down] + moves + [stop]).snapshot, date);
            && r.Signed?
            && r.view.image == stop.image
  {
    Capture.StrokeCommits(s, down, moves, stop);
    SignedIffComplete(form, Some(stop.image), date);
  }

  /** The signing date is not checked: a complete form is signed even when
      the date did not parse, and the block then shows NaN parts. */
  lemma UnparsedDateStillSigns(form: Form, signature: Option<Capture.Token>)
    requires Complete(form, signature)
    ensures Submit(form, signature, InvalidDate).Signed?
    ensures Submit(form, signature, InvalidDate).view.date == "NaNth Invalid Date NaN"
  {
    SignedIffComplete(form, signature, InvalidDate);
  }
}
