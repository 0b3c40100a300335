/** The checks `submitContract` runs before it lets a contract be signed,
    and the list of labels it shows the user when some are not met. */
module Validation {
  import opened Options
  import opened Text
  import opened Sequences
  import Capture

  /** The sixteen required contract fields. */
  datatype FieldId =
    | ProjectTitle | ProjectAddress | QuotationReference | QuotationDate
    | ScopeOfWorks | MaterialsResponsibility | DrawingsReference
    | StartDate | CompletionDate | EstimatedDuration | ProgrammeNotes
    | ContractPrice | PricingBasis | PaymentTerms | RetentionTerms
    | SpecialRequirements

  /** The required fields in the order the page declares and checks them. */
  const RequiredFields: seq<FieldId> := [
    ProjectTitle, ProjectAddress, QuotationReference, QuotationDate,
    ScopeOfWorks, MaterialsResponsibility, DrawingsReference,
    StartDate, CompletionDate, EstimatedDuration, ProgrammeNotes,
    ContractPrice, PricingBasis, PaymentTerms, RetentionTerms,
    SpecialRequirements
  ]

  /** What the page reads from its controls at submit time: the raw text
      of each required field's control, looked up by field; the raw text of
      the signer's name and position; the two confirmation checkboxes. */
  datatype Form = Form(
    required: FieldId -> string,
    clientName: string, clientPosition: string,
    nameConfirmed: bool, positionConfirmed: bool)

  /** One entry the page can report as missing. */
  datatype Item =
    | Field(field: FieldId)
    | ClientName | ClientPosition | ClientSignature
    | NameConfirmation | PositionConfirmation

  /** The text the page shows for a missing required field. */
  function FieldLabel(f: FieldId): string {
    match f
    case ProjectTitle => "Project Title"
    case ProjectAddress => "Project Address"
    case QuotationReference => "Quotation Reference"
    case QuotationDate => "Quotation Date"
    case ScopeOfWorks => "Scope of Works"
    case MaterialsResponsibility => "Materials Responsibility"
    case DrawingsReference => "Drawings/Specifications"
    case StartDate => "Anticipated Start Date"
    case CompletionDate => "Anticipated Completion Date"
    case EstimatedDuration => "Estimated Duration"
    case ProgrammeNotes => "Programme Notes / Milestones"
    case ContractPrice => "Contract Price"
    case PricingBasis => "Pricing Basis"
    case PaymentTerms => "Payment Terms"
    case RetentionTerms => "Retention"
    case SpecialRequirements => "Special Requirements"
  }

  /** The text the page shows for an entry. */
  function Label(it: Item): string {
    match it
    case Field(f) => FieldLabel(f)
    case ClientName => "Client Name"
    case ClientPosition => "Client Position"
    case ClientSignature => "Client Signature"
    case NameConfirmation => "Name Confirmation (checkbox)"
    case PositionConfirmation => "Position Confirmation (checkbox)"
  }

  /** The texts of a list of entries, in order. */
  function Labels(items: seq<Item>): (ls: seq<string>)
    ensures |ls| == |items|
    ensures forall k :: 0 <= k < |items| ==> ls[k] == Label(items[k])
  {
    seq(|items|, k requires 0 <= k < |items| => Label(items[k]))
  }

  /** The entries for a list of fields, in order. */
  function FieldItems(fields: seq<FieldId>): (items: seq<Item>)
    ensures |items| == |fields|
    ensures forall k :: 0 <= k < |fields| ==> items[k] == Field(fields[k])
  {
    seq(|fields|, k requires 0 <= k < |fields| => Field(fields[k]))
  }

  /** The signer section's entries in the order the page checks them. */
  const SignerOrder: seq<Item> :=
    [ClientName, ClientPosition, ClientSignature, NameConfirmation, PositionConfirmation]

  /** Every entry, in the order the page checks them: the sixteen fields,
      then the signer section. */
  function AllItems(): (items: seq<Item>)
    ensures |items| == 21
  {
    FieldItems(RequiredFields) + SignerOrder
  }

  /** The page's test for each entry, as it is written: a text counts as
      missing when its trimmed value is the empty string (`!v.trim()`); a
      confirmation is asked for only when the trimmed value is present and
      its box is unticked. It agrees with the character-level `Fails`. */
  function Reported(form: Form, signature: Option<Capture.Token>, it: Item): (r: bool)
    ensures r <==> Fails(form, signature, it)
  {
    match it
    case Field(f) => Trim(form.required(f)) == []
    case ClientName => Trim(form.clientName) == []
    case ClientPosition => Trim(form.clientPosition) == []
    case ClientSignature => signature.None?
    case NameConfirmation => Trim(form.clientName) != [] && !form.nameConfirmed
    case PositionConfirmation => Trim(form.clientPosition) != [] && !form.positionConfirmed
  }

  /** `Reported` for one form, as a test on entries. */
  function ReportedIn(form: Form, signature: Option<Capture.Token>): Item -> bool {
    it => Reported(form, signature, it)
  }

  /** The entries the page collects in `emptyFields`, in checking order. */
  function MissingItems(form: Form, signature: Option<Capture.Token>): seq<Item> {
    Select(AllItems(), ReportedIn(form, signature))
  }

  /** The list of labels the page shows: one per reported entry, so never
      more than there are entries. */
  function MissingLabels(form: Form, signature: Option<Capture.Token>): (r: seq<string>)
    ensures |r| <= 21
  {
    Labels(MissingItems(form, signature))
  }

  /** The page's checking code: each entry in turn, pushing its label when
      its test holds. Returns exactly the labels of the reported entries. */
  method CollectMissing(form: Form, signature: Option<Capture.Token>) returns (missing: seq<string>)
    ensures missing == MissingLabels(form, signature)
  {
    var all := AllItems();
    var keep := ReportedIn(form, signature);
    missing := [];
    var i := 0;
    while i < |all|
      invariant 0 <= i <= |all|
      invariant missing == Labels(Select(all[..i], keep))
    {
      var it := all[i];
      var reported := keep(it);
      CollectStep(all, i, keep);
      if reported {
        missing := missing + [Label(it)];
      }
      i := i + 1;
    }
    assert all[..i] == all;
  }

  /** One step of the checking loop: checking one more entry adds its
      label exactly when it is kept. */
  lemma CollectStep(all: seq<Item>, i: nat, keep: Item -> bool)
    requires i < |all|
    ensures Labels(Select(all[..i + 1], keep))
         == Labels(Select(all[..i], keep)) + (if keep(all[i]) then [Label(all[i])] else [])
  {
    SelectSnoc(all[..i], all[i], keep);
    assert all[..i + 1] == all[..i] + [all[i]];
    LabelsAppend(Select(all[..i], keep), if keep(all[i]) then [all[i]] else []);
  }

  /** The texts of two lists joined are the texts of each, joined. */
  lemma LabelsAppend(a: seq<Item>, b: seq<Item>)
    ensures Labels(a + b) == Labels(a) + Labels(b)
  {
  }

  /** Reads a shown label back as the entry it names, if any. */
  function ItemOfLabel(s: string): (r: Option<Item>)
  {
    if |s| == 9 then
      (if s == "Retention" then Some(Field(RetentionTerms))
       else None)
    else if |s| == 11 then
      (if s == "Client Name" then Some(ClientName)
       else None)
    else if |s| == 13 then
      (if s == "Project Title" then Some(Field(ProjectTitle))
       else if s == "Pricing Basis" then Some(Field(PricingBasis))
       else if s == "Payment Terms" then Some(Field(PaymentTerms))
       else None)
    else if |s| == 14 then
      (if s == "Quotation Date" then Some(Field(QuotationDate))
       else if s == "Scope of Works" then Some(Field(ScopeOfWorks))
       else if s == "Contract Price" then Some(Field(ContractPrice))
       else None)
    else if |s| == 15 then
      (if s == "Project Address" then Some(Field(ProjectAddress))
       else if s == "Client Position" then Some(ClientPosition)
       else None)
    else if |s| == 16 then
      (if s == "Client Signature" then Some(ClientSignature)
       else None)
    else if |s| == 18 then
      (if s == "Estimated Duration" then Some(Field(EstimatedDuration))
       else None)
    else if |s| == 19 then
      (if s == "Quotation Reference" then Some(Field(QuotationReference))
       else None)
    else if |s| == 20 then
      (if s == "Special Requirements" then Some(Field(SpecialRequirements))
       else None)
    else if |s| == 22 then
      (if s == "Anticipated Start Date" then Some(Field(StartDate))
       else None)
    else if |s| == 23 then
      (if s == "Drawings/Specifications" then Some(Field(DrawingsReference))
       else None)
    else if |s| == 24 then
      (if s == "Materials Responsibility" then Some(Field(MaterialsResponsibility))
       else None)
    else if |s| == 27 then
      (if s == "Anticipated Completion Date" then Some(Field(CompletionDate))
       else None)
    else if |s| == 28 then
      (if s == "Programme Notes / Milestones" then Some(Field(ProgrammeNotes))
       else if s == "Name Confirmation (checkbox)" then Some(NameConfirmation)
       else None)
    else if |s| == 32 then
      (if s == "Position Confirmation (checkbox)" then Some(PositionConfirmation)
       else None)
    else None
  }

  /** Every field's label reads back as that field. */
  lemma FieldLabelRoundTrip(f: FieldId)
    ensures ItemOfLabel(Label(Field(f))) == Some(Field(f))
  {
  }

  /** Every signer entry's label reads back as that entry. */
  lemma SignerLabelRoundTrip(it: Item)
    requires !it.Field?
    ensures ItemOfLabel(Label(it)) == Some(it)
  {
  }

  /** Every label reads back as the entry it was shown for, so different
      entries are shown with different texts. */
  lemma LabelRoundTrip(it: Item)
    ensures ItemOfLabel(Label(it)) == Some(it)
  {
    if it.Field? {
      FieldLabelRoundTrip(it.field);
    } else {
      SignerLabelRoundTrip(it);
    }
  }

  /** Different entries are shown with different texts. */
  lemma LabelInjective(a: Item, b: Item)
    requires a != b
    ensures Label(a) != Label(b)
  {
    LabelRoundTrip(a);
    LabelRoundTrip(b);
  }

  /** Mapping entries to texts keeps the subsequence relation. */
  lemma {:induction false} LabelsSubsequence(xs: seq<Item>, ys: seq<Item>)
    requires IsSubsequence(xs, ys)
    ensures IsSubsequence(Labels(xs), Labels(ys))
    decreases |ys|
  {
    if |xs| > 0 {
      assert Labels(ys)[1..] == Labels(ys[1..]);
      if xs[0] == ys[0] {
        assert Labels(xs)[1..] == Labels(xs[1..]);
        LabelsSubsequence(xs[1..], ys[1..]);
      } else {
        LabelInjective(xs[0], ys[0]);
        LabelsSubsequence(xs, ys[1..]);
      }
    }
  }

  /** Mapping distinct entries to texts keeps them distinct. */
  lemma LabelsDistinct(xs: seq<Item>)
    requires Distinct(xs)
    ensures Distinct(Labels(xs))
  {
    forall i, j | 0 <= i < j < |xs| ensures Labels(xs)[i] != Labels(xs)[j] {
      LabelInjective(xs[i], xs[j]);
    }
  }

  /** An entry's text is in a list of texts exactly when the entry is in
      the list of entries. */
  lemma LabelMember(it: Item, xs: seq<Item>)
    ensures Label(it) in Labels(xs) <==> it in xs
  {
    if Label(it) in Labels(xs) {
      var k :| 0 <= k < |xs| && Labels(xs)[k] == Label(it);
      if xs[k] != it {
        LabelInjective(xs[k], it);
      }
    }
    if it in xs {
      var k :| 0 <= k < |xs| && xs[k] == it;
      assert Labels(xs)[k] == Label(it);
    }
  }

  /** No entry occurs twice in the checking order. */
  lemma AllItemsDistinct()
    ensures Distinct(AllItems())
  {
    assert Distinct(RequiredFields);
  }

  /** Every entry is checked: the sixteen fields and the five signer
      entries make up the checking order. */
  lemma EveryItemChecked(it: Item)
    ensures it in AllItems()
  {
    if it.Field? {
      var f := it.field;
      var k: nat :=
        match f
        case ProjectTitle => 0 case ProjectAddress => 1 case QuotationReference => 2
        case QuotationDate => 3 case ScopeOfWorks => 4 case MaterialsResponsibility => 5
        case DrawingsReference => 6 case StartDate => 7 case CompletionDate => 8
        case EstimatedDuration => 9 case ProgrammeNotes => 10 case ContractPrice => 11
        case PricingBasis => 12 case PaymentTerms => 13 case RetentionTerms => 14
        case SpecialRequirements => 15;
      assert RequiredFields[k] == f;
      assert AllItems()[k] == it;
    } else {
      assert it in SignerOrder;
      assert AllItems()[16..] == SignerOrder;
    }
  }

  /** When an entry is missing, stated on the characters themselves rather
      than through the trim test. */
  predicate Fails(form: Form, signature: Option<Capture.Token>, it: Item) {
    match it
    case Field(f) => AllWhitespace(form.required(f))
    case ClientName => AllWhitespace(form.clientName)
    case ClientPosition => AllWhitespace(form.clientPosition)
    case ClientSignature => signature == None
    case NameConfirmation => !AllWhitespace(form.clientName) && !form.nameConfirmed
    case PositionConfirmation => !AllWhitespace(form.clientPosition) && !form.positionConfirmed
  }

  /** A form that may be signed: every required field and the signer's name
      and position hold something besides white space, a signature has been
      captured, and both confirmation boxes are ticked. */
  predicate Complete(form: Form, signature: Option<Capture.Token>) {
    && (forall f: FieldId :: !AllWhitespace(form.required(f)))
    && !AllWhitespace(form.clientName)
    && !AllWhitespace(form.clientPosition)
    && signature.Some?
    && form.nameConfirmed
    && form.positionConfirmed
  }

  /** An entry is collected exactly when it fails. */
  lemma MissingItemsMembers(form: Form, signature: Option<Capture.Token>, it: Item)
    ensures it in MissingItems(form, signature) <==> Fails(form, signature, it)
  {
    SelectMember(AllItems(), ReportedIn(form, signature), it);
    EveryItemChecked(it);
  }

  /** An entry's label is shown exactly when the entry fails: a field's
      label when its value is all white space; the name, position and
      signature labels when that item is missing; a confirmation label when
      its value is present but its box is unticked. */
  lemma MissingLabelsMembers(form: Form, signature: Option<Capture.Token>, it: Item)
    ensures Label(it) in MissingLabels(form, signature) <==> Fails(form, signature, it)
  {
    LabelMember(it, MissingItems(form, signature));
    MissingItemsMembers(form, signature, it);
  }

  /** The labels come in the fixed order — the sixteen fields in
      declaration order, then name, position, signature and the two
      confirmations — never repeat, and so number at most 21. */
  lemma MissingLabelsOrdered(form: Form, signature: Option<Capture.Token>)
    ensures IsSubsequence(MissingLabels(form, signature), Labels(AllItems()))
    ensures Distinct(MissingLabels(form, signature))
    ensures |MissingLabels(form, signature)| <= 21
  {
    var items := MissingItems(form, signature);
    SelectIsSubsequence(AllItems(), ReportedIn(form, signature));
    AllItemsDistinct();
    SubsequenceDistinct(items, AllItems());
    LabelsSubsequence(items, AllItems());
    LabelsDistinct(items);
  }

  /** A list of labels that shows exactly the failing entries. */
  ghost predicate ShowsFailures(labels: seq<string>, form: Form, signature: Option<Capture.Token>) {
    forall it: Item :: Label(it) in labels <==> Fails(form, signature, it)
  }

  /** The page's list shows exactly the failing entries. */
  lemma MissingLabelsShowFailures(form: Form, signature: Option<Capture.Token>)
    ensures ShowsFailures(MissingLabels(form, signature), form, signature)
  {
    forall it: Item ensures Label(it) in MissingLabels(form, signature) <==> Fails(form, signature, it) {
      MissingLabelsMembers(form, signature, it);
    }
  }

  /** In any list showing exactly the failing entries, the name box is
      asked for only when the name is not itself reported, and likewise
      for the position. */
  lemma ConfirmationRule(labels: seq<string>, form: Form, signature: Option<Capture.Token>)
    requires ShowsFailures(labels, form, signature)
    ensures Label(NameConfirmation) in labels ==> Label(ClientName) !in labels
    ensures Label(PositionConfirmation) in labels ==> Label(ClientPosition) !in labels
  {
    assert Label(NameConfirmation) in labels <==> Fails(form, signature, NameConfirmation);
    assert Label(ClientName) in labels <==> Fails(form, signature, ClientName);
    assert Label(PositionConfirmation) in labels <==> Fails(form, signature, PositionConfirmation);
    assert Label(ClientPosition) in labels <==> Fails(form, signature, ClientPosition);
  }

  /** A confirmation is asked for only about a value that is present: an
      empty name is reported as "Client Name" and never as an unticked name
      box, and likewise for the position. */
  lemma ConfirmationOnlyForPresentValues(form: Form, signature: Option<Capture.Token>)
    ensures Label(NameConfirmation) in MissingLabels(form, signature)
            ==> Label(ClientName) !in MissingLabels(form, signature)
    ensures Label(PositionConfirmation) in MissingLabels(form, signature)
            ==> Label(ClientPosition) !in MissingLabels(form, signature)
  {
    MissingLabelsShowFailures(form, signature);
    ConfirmationRule(MissingLabels(form, signature), form, signature);
  }

  /** A form on which no entry fails is complete. */
  lemma NoFailureMeansComplete(form: Form, signature: Option<Capture.Token>)
    requires forall it :: !Fails(form, signature, it)
    ensures Complete(form, signature)
  {
    forall f: FieldId ensures !AllWhitespace(form.required(f)) {
      assert !Fails(form, signature, Field(f));
    }
    assert !Fails(form, signature, ClientName);
    assert !Fails(form, signature, ClientPosition);
    assert !Fails(form, signature, ClientSignature);
    assert !Fails(form, signature, NameConfirmation);
    assert !Fails(form, signature, PositionConfirmation);
  }

  /** When nothing is collected, the form is complete. */
  lemma NothingMissingMeansComplete(form: Form, signature: Option<Capture.Token>)
    requires MissingItems(form, signature) == []
    ensures Complete(form, signature)
  {
    MissingItemsAreFailures(form, signature);
    NoFailureMeansComplete(form, signature);
  }

  /** Nothing is reported — the contract may be signed — exactly when the
      form is complete. */
  lemma NoMissingLabelsIffComplete(form: Form, signature: Option<Capture.Token>)
    ensures MissingLabels(form, signature) == [] <==> Complete(form, signature)
  {
    var items := MissingItems(form, signature);
    assert |MissingLabels(form, signature)| == |items|;
    if items == [] {
      NothingMissingMeansComplete(form, signature);
    } else {
      MissingItemsMembers(form, signature, items[0]);
      assert Fails(form, signature, items[0]);
    }
  }

  /** A repetition-free list holding exactly the failing entries, when
      only field `f` fails, is `[Field(f)]`. */
  lemma SingleFailure(items: seq<Item>, form: Form, signature: Option<Capture.Token>, f: FieldId)
    requires Distinct(items)
    requires forall it :: it in items <==> Fails(form, signature, it)
    requires forall it :: Fails(form, signature, it) <==> it == Field(f)
    ensures items == [Field(f)]
  {
    DistinctSingleton(items, Field(f));
  }

  /** No entry is collected twice. */
  lemma MissingItemsDistinct(form: Form, signature: Option<Capture.Token>)
    ensures Distinct(MissingItems(form, signature))
  {
    SelectIsSubsequence(AllItems(), ReportedIn(form, signature));
    AllItemsDistinct();
    SubsequenceDistinct(MissingItems(form, signature), AllItems());
  }

  /** The collected entries are exactly the failing ones. */
  lemma MissingItemsAreFailures(form: Form, signature: Option<Capture.Token>)
    ensures forall it :: it in MissingItems(form, signature) <==> Fails(form, signature, it)
  {
    forall it ensures it in MissingItems(form, signature) <==> Fails(form, signature, it) {
      MissingItemsMembers(form, signature, it);
    }
  }

  /** When exactly one required field is blank and the signer section is in
      order, that field is the only failing entry. */
  lemma OnlyBlankFieldFails(form: Form, signature: Option<Capture.Token>, f: FieldId)
    requires AllWhitespace(form.required(f))
    requires forall g: FieldId :: g != f ==> !AllWhitespace(form.required(g))
    requires !AllWhitespace(form.clientName) && !AllWhitespace(form.clientPosition)
    requires signature.Some? && form.nameConfirmed && form.positionConfirmed
    ensures forall it :: Fails(form, signature, it) <==> it == Field(f)
  {
  }

  /** When exactly one required field is blank and the signer section is in
      order, that field is the only entry collected. */
  lemma OnlyBlankFieldCollected(form: Form, signature: Option<Capture.Token>, f: FieldId)
    requires AllWhitespace(form.required(f))
    requires forall g: FieldId :: g != f ==> !AllWhitespace(form.required(g))
    requires !AllWhitespace(form.clientName) && !AllWhitespace(form.clientPosition)
    requires signature.Some? && form.nameConfirmed && form.positionConfirmed
    ensures MissingItems(form, signature) == [Field(f)]
  {
    MissingItemsDistinct(form, signature);
    MissingItemsAreFailures(form, signature);
    OnlyBlankFieldFails(form, signature, f);
    SingleFailure(MissingItems(form, signature), form, signature, f);
  }

  /** When exactly one required field is blank and the signer section is in
      order, the page reports that field's label and nothing else. */
  lemma OnlyBlankFieldReported(form: Form, signature: Option<Capture.Token>, f: FieldId)
    requires AllWhitespace(form.required(f))
    requires forall g: FieldId :: g != f ==> !AllWhitespace(form.required(g))
    requires !AllWhitespace(form.clientName) && !AllWhitespace(form.clientPosition)
    requires signature.Some? && form.nameConfirmed && form.positionConfirmed
    ensures MissingLabels(form, signature) == [Label(Field(f))]
  {
    OnlyBlankFieldCollected(form, signature, f);
  }
}
