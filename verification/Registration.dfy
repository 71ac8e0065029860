/** The farmer registration form: pre-filling the name from a display
    name, the validity gate on submission, and the two policy
    acknowledgements, each given through a modal. */
module Registration {
  import opened Wrappers
  import opened Strings

  datatype NameParts = NameParts(firstName: string, lastName: string)

  /** `splitName`: the last space-separated word is the last name and the
      words before it, re-joined by spaces, the first name. No name (or an
      empty one) gives two empty parts. */
  function SplitName(fullName: Option<string>): (n: NameParts)
    ensures fullName.None? || fullName == Some("") ==> n == NameParts("", "")
    ensures ' ' !in n.lastName
  {
    if fullName.None? || fullName.value == "" then NameParts("", "")
    else
      var parts := Split(fullName.value, ' ');
      NameParts(Join(parts[..|parts| - 1], ' '), parts[|parts| - 1])
  }

  /** A name with a space is recovered by joining its parts with a space. */
  lemma SplitNameRoundTrip(name: string)
    requires ' ' in name
    ensures SplitName(Some(name)).firstName + " " + SplitName(Some(name)).lastName == name
  {
    var parts := Split(name, ' ');
    assert |parts| >= 2;
    var n := SplitName(Some(name));
    assert n == NameParts(Join(parts[..|parts| - 1], ' '), parts[|parts| - 1]);
    assert n.firstName + " " + n.lastName == Join(parts, ' ') by { JoinSnoc(parts, ' '); }
    JoinSplit(name, ' ');
  }

  /** A name without a space is all last name. */
  lemma SplitNameSingleWord(name: string)
    requires ' ' !in name
    ensures SplitName(Some(name)) == NameParts("", name)
  {
    if name != "" {
      SplitPiece(name, ' ');
    }
  }

  /** The split is at the final space: any first name followed by a space
      and a space-free last name is split back into exactly those parts. */
  lemma SplitNameAtLastSpace(first: string, last: string)
    requires ' ' !in last
    ensures SplitName(Some(first + " " + last)) == NameParts(first, last)
  {
    var front := Split(first, ' ');
    var parts := front + [last];
    assert parts[..|parts| - 1] == front;
    forall i | 0 <= i < |parts|
      ensures ' ' !in parts[i]
    {
      if i < |front| {
        assert parts[i] == front[i];
      }
    }
    JoinSnoc(parts, ' ');
    JoinSplit(first, ' ');
    assert Join(parts, ' ') == first + " " + last;
    SplitJoin(parts, ' ');
  }

  datatype Field = Title | FirstName | LastName | Phone | Email

  datatype Form = Form(title: string, firstName: string, lastName: string, phone: string, email: string)

  datatype Modal = PrivacyModal | TermsModal

  datatype RegistrationForm = RegistrationForm(
    form: Form,
    privacyAck: bool,
    termsAck: bool,
    activeModal: Option<Modal>)

  /** The form as first shown, with the name taken from the display name. */
  function InitialForm(displayName: Option<string>): (s: RegistrationForm)
    ensures !s.privacyAck && !s.termsAck && s.activeModal.None?
    ensures s.form.title == "" && s.form.phone == "" && s.form.email == ""
    ensures NameParts(s.form.firstName, s.form.lastName) == SplitName(displayName)
  {
    var n := SplitName(displayName);
    RegistrationForm(Form("", n.firstName, n.lastName, "", ""), false, false, None)
  }

  function FieldValue(f: Form, name: Field): string {
    match name
    case Title => f.title
    case FirstName => f.firstName
    case LastName => f.lastName
    case Phone => f.phone
    case Email => f.email
  }

  /** `handleChange`: the named field takes the new value, the others stay. */
  function ChangeField(s: RegistrationForm, name: Field, value: string): (t: RegistrationForm)
    ensures FieldValue(t.form, name) == value
    ensures forall other :: other != name ==> FieldValue(t.form, other) == FieldValue(s.form, other)
    ensures t.privacyAck == s.privacyAck && t.termsAck == s.termsAck && t.activeModal == s.activeModal
  {
    var f := s.form;
    var g := match name
      case Title => f.(title := value)
      case FirstName => f.(firstName := value)
      case LastName => f.(lastName := value)
      case Phone => f.(phone := value)
      case Email => f.(email := value);
    s.(form := g)
  }

  /** `isFormValid`: every required field filled and both policies acknowledged. */
  predicate IsFormValid(s: RegistrationForm) {
    s.form.title != "" && s.form.firstName != "" && s.form.lastName != "" && s.form.phone != ""
    && s.privacyAck && s.termsAck
  }

  /** `handleSubmit`: whether `onSubmit` is called. */
  function Submit(s: RegistrationForm): (submitted: bool) {
    IsFormValid(s)
  }

  /** Submission is accepted exactly when the four required fields are
      filled and both policies acknowledged, whatever the e-mail says. */
  lemma SubmitGate(s: RegistrationForm, email: string)
    ensures Submit(s) <==> (forall f :: f != Email ==> FieldValue(s.form, f) != "") && s.privacyAck && s.termsAck
    ensures Submit(s.(form := s.form.(email := email))) == Submit(s)
  {
    if (forall f :: f != Email ==> FieldValue(s.form, f) != "") {
      assert FieldValue(s.form, Title) != "" && FieldValue(s.form, FirstName) != "";
      assert FieldValue(s.form, LastName) != "" && FieldValue(s.form, Phone) != "";
    }
  }

  /** Clicking the privacy item opens its modal unless already acknowledged. */
  function ClickPrivacy(s: RegistrationForm): (t: RegistrationForm)
    ensures s.privacyAck ==> t == s
    ensures !s.privacyAck ==> t == s.(activeModal := Some(PrivacyModal))
  {
    if !s.privacyAck then s.(activeModal := Some(PrivacyModal)) else s
  }

  function ClickTerms(s: RegistrationForm): (t: RegistrationForm)
    ensures s.termsAck ==> t == s
    ensures !s.termsAck ==> t == s.(activeModal := Some(TermsModal))
  {
    if !s.termsAck then s.(activeModal := Some(TermsModal)) else s
  }

  function CloseModal(s: RegistrationForm): (t: RegistrationForm)
    ensures t.activeModal.None? && t.form == s.form
    ensures t.privacyAck == s.privacyAck && t.termsAck == s.termsAck
  {
    s.(activeModal := None)
  }

  /** `handleAcceptPolicy`: acknowledges the policy whose modal is open;
      with no modal open nothing changes. */
  function AcceptPolicy(s: RegistrationForm): (t: RegistrationForm)
    ensures s.activeModal == Some(PrivacyModal) ==> t == s.(privacyAck := true)
    ensures s.activeModal == Some(TermsModal) ==> t == s.(termsAck := true)
    ensures s.activeModal.None? ==> t == s
  {
    match s.activeModal
    case Some(PrivacyModal) => s.(privacyAck := true)
    case Some(TermsModal) => s.(termsAck := true)
    case None => s
  }

  /** `getModalTitle`: empty exactly when no modal is open. */
  function ModalTitle(s: RegistrationForm): (title: string)
    ensures title == "" <==> s.activeModal.None?
  {
    match s.activeModal
    case Some(PrivacyModal) => "นโยบายความเป็นส่วนบุคคล"
    case Some(TermsModal) => "เงื่อนไขและข้อตกลง"
    case None => ""
  }

  /** `getModalContent`: the text of the open policy, empty with none open. */
  function ModalContent(s: RegistrationForm, policy: string, terms: string): (content: string)
    ensures s.activeModal.None? ==> content == ""
    ensures s.activeModal == Some(PrivacyModal) ==> content == policy
    ensures s.activeModal == Some(TermsModal) ==> content == terms
  {
    match s.activeModal
    case Some(PrivacyModal) => policy
    case Some(TermsModal) => terms
    case None => ""
  }

  /** What the user can do on the form. */
  datatype FormEvent =
    | Edit(field: Field, value: string)
    | PrivacyClick
    | TermsClick
    | Close
    | Accept

  function Step(s: RegistrationForm, e: FormEvent): RegistrationForm {
    match e
    case Edit(f, v) => ChangeField(s, f, v)
    case PrivacyClick => ClickPrivacy(s)
    case TermsClick => ClickTerms(s)
    case Close => CloseModal(s)
    case Accept => AcceptPolicy(s)
  }

  function RunForm(s: RegistrationForm, events: seq<FormEvent>): RegistrationForm
    decreases |events|
  {
    if |events| == 0 then s else RunForm(Step(s, events[0]), events[1..])
  }

  /** Acknowledgements are never withdrawn, whatever the user does. */
  lemma {:induction false} AcksMonotone(s: RegistrationForm, events: seq<FormEvent>)
    ensures s.privacyAck ==> RunForm(s, events).privacyAck
    ensures s.termsAck ==> RunForm(s, events).termsAck
    decreases |events|
  {
    if |events| > 0 {
      AcksMonotone(Step(s, events[0]), events[1..]);
    }
  }

  /** A policy is only ever acknowledged through its own modal: if the
      privacy acknowledgement appears, some accept happened while the
      privacy modal was open. */
  lemma {:induction false} PrivacyNeedsAccept(s: RegistrationForm, events: seq<FormEvent>)
    requires !s.privacyAck
    requires RunForm(s, events).privacyAck
    ensures exists k :: (0 <= k < |events| && events[k] == Accept
                         && RunForm(s, events[..k]).activeModal == Some(PrivacyModal))
    decreases |events|
  {
    var next := Step(s, events[0]);
    assert RunForm(s, events[..0]) == s;
    if next.privacyAck {
      assert events[0] == Accept && s.activeModal == Some(PrivacyModal);
    } else {
      PrivacyNeedsAccept(next, events[1..]);
      var k :| 0 <= k < |events[1..]| && events[1..][k] == Accept
        && RunForm(next, events[1..][..k]).activeModal == Some(PrivacyModal);
      assert events[..k + 1][1..] == events[1..][..k];
      assert RunForm(s, events[..k + 1]) == RunForm(next, events[1..][..k]);
      assert events[k + 1] == Accept;
    }
  }
}
