/**
 * components/certificates/add-certificate-form.tsx: the draft certificate the
 * dialog edits, its skill list, the checks before submitting, the id derived
 * from the title and the payload that is sent.
 */
module CertificateForm {
  import opened Wrappers
  import opened Text
  import Seqs

  // ------------------------------------------------------------------ draft

  /** The `certificate` state; `pdfFile` is the chosen file's name. */
  datatype Draft = Draft(
    title: string,
    description: string,
    platform: string,
    category: string,
    date: string,
    issuedBy: string,
    credentialId: string,
    verificationUrl: string,
    skills: seq<string>,
    pdfFile: Option<string>)

  const EmptyDraft: Draft := Draft("", "", "", "", "", "", "", "", [], None)

  /** Every skill is trimmed, not blank, and listed once: what `addSkill` lets in. */
  predicate CleanSkills(skills: seq<string>) {
    Seqs.NoDup(skills) && forall i :: 0 <= i < |skills| ==> CleanSkill(skills[i])
  }

  predicate CleanSkill(skill: string) {
    skill != "" && Trim(skill) == skill
  }

  /** The skill list after `addSkill` with the typed text `typed`. */
  function AddSkill(skills: seq<string>, typed: string): (r: seq<string>)
    ensures Trim(typed) != "" && Trim(typed) !in skills ==> r == skills + [Trim(typed)]
    ensures Trim(typed) == "" || Trim(typed) in skills ==> r == skills
  {
    var t := Trim(typed);
    if t != "" && t !in skills then skills + [t] else skills
  }

  lemma TrimIdempotent(s: string)
    ensures Trim(Trim(s)) == Trim(s)
  {
    TrimOfTrimmed(Trim(s));
  }

  /** Adding keeps the list clean. */
  lemma AddSkillKeepsClean(skills: seq<string>, typed: string)
    requires CleanSkills(skills)
    ensures CleanSkills(AddSkill(skills, typed))
  {
    var t := Trim(typed);
    if t != "" && t !in skills {
      TrimIdempotent(typed);
      AppendCleanSkill(skills, t);
    }
  }

  lemma AppendCleanSkill(skills: seq<string>, t: string)
    requires CleanSkills(skills) && CleanSkill(t) && t !in skills
    ensures CleanSkills(skills + [t])
  {
    var r := skills + [t];
    forall i | 0 <= i < |r| ensures CleanSkill(r[i]) {
      if i < |skills| {
        assert r[i] == skills[i];
      }
    }
    forall i, j | 0 <= i < j < |r| ensures r[i] != r[j] {
      if j < |skills| {
        assert r[i] == skills[i] && r[j] == skills[j];
      } else {
        assert r[i] == skills[i];
      }
    }
  }

  /** `removeSkill`: every equal entry goes, the others stay in order; the list stays clean. */
  lemma RemoveSkillKeepsClean(skills: seq<string>, skill: string)
    requires CleanSkills(skills)
    ensures CleanSkills(Seqs.RemoveAll(skills, skill))
    ensures skill !in Seqs.RemoveAll(skills, skill)
  {
    Seqs.RemoveAllNoDup(skills, skill);
  }

  /** Adding a skill and removing it again gives the list back. */
  lemma AddThenRemove(skills: seq<string>, typed: string)
    requires Trim(typed) != "" && Trim(typed) !in skills
    ensures Seqs.RemoveAll(AddSkill(skills, typed), Trim(typed)) == skills
  {
    Seqs.RemoveAppended(skills, Trim(typed));
  }

  // ------------------------------------------------------------- validation

  datatype Field = Title | Platform | Category | Description | Date | IssuedBy

  /** The order in which `handleSubmit` checks the fields. */
  const CheckOrder: seq<Field> := [Title, Platform, Category, Description, Date, IssuedBy]

  /** The two selects are checked as given; the typed fields count as missing when blank. */
  predicate Present(d: Draft, f: Field) {
    match f
    case Title => Trim(d.title) != ""
    case Platform => d.platform != ""
    case Category => d.category != ""
    case Description => Trim(d.description) != ""
    case Date => Trim(d.date) != ""
    case IssuedBy => Trim(d.issuedBy) != ""
  }

  function Position(f: Field): (k: nat)
    ensures k < |CheckOrder| && CheckOrder[k] == f
  {
    match f
    case Title => 0
    case Platform => 1
    case Category => 2
    case Description => 3
    case Date => 4
    case IssuedBy => 5
  }

  lemma AllPresent(d: Draft)
    requires Present(d, Title) && Present(d, Platform) && Present(d, Category)
    requires Present(d, Description) && Present(d, Date) && Present(d, IssuedBy)
    ensures forall f: Field :: Present(d, f)
  {
    forall f: Field ensures Present(d, f) {
      match f
      case Title =>
      case Platform =>
      case Category =>
      case Description =>
      case Date =>
      case IssuedBy =>
    }
  }

  /** The field whose alert `handleSubmit` shows, if any. */
  function FirstMissing(d: Draft): (r: Option<Field>)
    ensures r.None? <==> forall f: Field :: Present(d, f)
    ensures r.Some? ==> !Present(d, r.value)
    ensures r.Some? ==> forall g: Field :: Position(g) < Position(r.value) ==> Present(d, g)
  {
    if !Present(d, Title) then Some(Title)
    else if !Present(d, Platform) then Some(Platform)
    else if !Present(d, Category) then Some(Category)
    else if !Present(d, Description) then Some(Description)
    else if !Present(d, Date) then Some(Date)
    else if !Present(d, IssuedBy) then Some(IssuedBy)
    else
      AllPresent(d);
      None
  }

  function Alert(f: Field): string {
    match f
    case Title => "Please enter a certificate title"
    case Platform => "Please select a platform"
    case Category => "Please select a category"
    case Description => "Please enter a description"
    case Date => "Please enter a date"
    case IssuedBy => "Please enter who issued the certificate"
  }

  // ------------------------------------------------------------------- slug

  predicate IsSlugChar(c: char) {
    'a' <= c <= 'z' || '0' <= c <= '9'
  }

  /** `.toLowerCase().replace(/[^a-z0-9]/g, '-')`. */
  function Dashify(s: string): (r: string)
    ensures |r| == |s|
    ensures forall i :: 0 <= i < |s| ==> r[i] == if IsSlugChar(Lower(s[i])) then Lower(s[i]) else '-'
  {
    seq(|s|, i requires 0 <= i < |s| => if IsSlugChar(Lower(s[i])) then Lower(s[i]) else '-')
  }

  predicate NoDoubleDash(s: string) {
    forall i :: 0 <= i < |s| - 1 ==> !(s[i] == '-' && s[i + 1] == '-')
  }

  /** `.replace(/-+/g, '-')`: every run of dashes becomes one dash. */
  function CollapseDashes(s: string): (r: string)
    ensures |r| <= |s|
    ensures s != [] ==> r != [] && r[0] == s[0]
    ensures forall i :: 0 <= i < |r| ==> r[i] in s
    ensures NoDoubleDash(r)
    decreases |s|
  {
    if |s| < 2 then s
    else if s[0] == '-' && s[1] == '-' then CollapseDashes(s[1..])
    else
      var rest := CollapseDashes(s[1..]);
      assert forall i :: 0 <= i < |rest| ==> rest[i] in s;
      [s[0]] + rest
  }

  /** Only dashes are dropped: the other characters all stay, in order. */
  lemma {:induction false} CollapseKeepsLetters(s: string)
    ensures Seqs.RemoveAll(CollapseDashes(s), '-') == Seqs.RemoveAll(s, '-')
    decreases |s|
  {
    if |s| >= 2 {
      CollapseKeepsLetters(s[1..]);
      if !(s[0] == '-' && s[1] == '-') {
        assert CollapseDashes(s) == [s[0]] + CollapseDashes(s[1..]);
        Seqs.FilterAppend([s[0]], CollapseDashes(s[1..]), Seqs.Other('-'));
      }
      assert s == [s[0]] + s[1..];
      Seqs.FilterAppend([s[0]], s[1..], Seqs.Other('-'));
    }
  }

  /** A string without two dashes in a row is left alone. */
  lemma {:induction false} CollapseOfCollapsed(s: string)
    requires NoDoubleDash(s)
    ensures CollapseDashes(s) == s
    decreases |s|
  {
    if |s| >= 2 {
      assert NoDoubleDash(s[1..]) by {
        forall i | 0 <= i < |s[1..]| - 1 ensures !(s[1..][i] == '-' && s[1..][i + 1] == '-') {
          assert s[1..][i] == s[i + 1] && s[1..][i + 1] == s[i + 2];
        }
      }
      CollapseOfCollapsed(s[1..]);
    }
  }

  /** A run of two dashes collapses exactly like a single dash, wherever it stands. */
  lemma {:induction false} CollapseDoubleDash(x: string, y: string)
    ensures CollapseDashes(x + "--" + y) == CollapseDashes(x + "-" + y)
    decreases |x|
  {
    if x == [] {
      assert x + "--" + y == "--" + y;
      assert ("--" + y)[1..] == "-" + y;
      assert x + "-" + y == "-" + y;
    } else {
      var s, t := x + "--" + y, x + "-" + y;
      assert s[1..] == x[1..] + "--" + y;
      assert t[1..] == x[1..] + "-" + y;
      assert s[0] == t[0] && s[1] == t[1];
      CollapseDoubleDash(x[1..], y);
    }
  }

  predicate IsSlug(s: string) {
    (forall i :: 0 <= i < |s| ==> IsSlugChar(s[i]) || s[i] == '-') && NoDoubleDash(s)
  }

  /** The title's slug: only a-z, 0-9 and single dashes. */
  function Slug(title: string): (r: string)
    ensures IsSlug(r)
    ensures |r| <= |title|
  {
    var d := Dashify(title);
    var r := CollapseDashes(d);
    assert forall i :: 0 <= i < |r| ==> IsSlugChar(r[i]) || r[i] == '-' by {
      forall i | 0 <= i < |r| ensures IsSlugChar(r[i]) || r[i] == '-' {
        var j :| 0 <= j < |d| && d[j] == r[i];
      }
    }
    r
  }

  /** Applying the slug rule to a slug changes nothing. */
  lemma SlugIdempotent(title: string)
    ensures Slug(Slug(title)) == Slug(title)
  {
    var s := Slug(title);
    assert Dashify(s) == s by {
      forall i | 0 <= i < |s| ensures Dashify(s)[i] == s[i] {
        assert Lower(s[i]) == s[i];
      }
    }
    CollapseOfCollapsed(s);
  }

  /** `cert-` and the slug. */
  function CertificateId(title: string): (id: string)
    ensures StartsWith(id, "cert-") && id[5..] == Slug(title)
  {
    var id := "cert-" + Slug(title);
    assert id[..5] == "cert-";
    id
  }

  /**
   * The title is not trimmed first: one that starts with anything but a
   * letter or digit gives an id with two dashes after `cert`.
   */
  lemma LeadingSymbolDoublesDash(title: string)
    requires title != [] && !IsSlugChar(Lower(title[0]))
    ensures CertificateId(title)[4] == '-' && CertificateId(title)[5] == '-'
  {
  }

  // ---------------------------------------------------------------- payload

  datatype Payload = Payload(
    id: string,
    title: string,
    description: string,
    platform: string,
    category: string,
    date: string,
    issuedBy: string,
    credentialId: string,
    verificationUrl: string,
    skills: seq<string>,
    pdfUrl: string)

  function NonBlank(s: string): bool {
    Trim(s) != ""
  }

  /** The `certificate` JSON sent to the add endpoint. */
  function MakePayload(d: Draft): (p: Payload)
    ensures p.id == CertificateId(d.title)
    ensures p.title == Trim(d.title) && p.description == Trim(d.description)
    ensures p.platform == d.platform && p.category == d.category
    ensures p.date == Trim(d.date) && p.issuedBy == Trim(d.issuedBy) && p.credentialId == Trim(d.credentialId)
    ensures p.verificationUrl == if Trim(d.verificationUrl) == "" then "#" else Trim(d.verificationUrl)
    ensures forall i :: 0 <= i < |p.skills| ==> p.skills[i] in d.skills && Trim(p.skills[i]) != ""
    ensures forall s :: s in d.skills && Trim(s) != "" ==> s in p.skills
    ensures p.pdfUrl == if d.pdfFile.Some? then "/certificates/" + d.pdfFile.value else "#"
  {
    var url := Trim(d.verificationUrl);
    Payload(CertificateId(d.title), Trim(d.title), Trim(d.description), d.platform, d.category,
            Trim(d.date), Trim(d.issuedBy), Trim(d.credentialId), if url == "" then "#" else url,
            Seqs.Filter(d.skills, NonBlank),
            if d.pdfFile.Some? then "/certificates/" + d.pdfFile.value else "#")
  }

  /** With skills entered through `addSkill`, dropping blank skills drops nothing. */
  lemma CleanSkillsAreSentAsIs(d: Draft)
    requires CleanSkills(d.skills)
    ensures MakePayload(d).skills == d.skills
  {
    Seqs.FilterAll(d.skills, NonBlank);
  }

  /** The normalised text fields need no further trimming. */
  lemma PayloadIsTrimmed(d: Draft)
    ensures var p := MakePayload(d);
      Trim(p.title) == p.title && Trim(p.description) == p.description && Trim(p.date) == p.date
      && Trim(p.issuedBy) == p.issuedBy && Trim(p.credentialId) == p.credentialId
  {
    TrimIdempotent(d.title);
    TrimIdempotent(d.description);
    TrimIdempotent(d.date);
    TrimIdempotent(d.issuedBy);
    TrimIdempotent(d.credentialId);
  }

  // ------------------------------------------------------------------ state

  /** The editable text fields of the dialog. */
  datatype TextField = TitleText | DescriptionText | PlatformChoice | CategoryChoice | DateText
                     | IssuerText | CredentialText | UrlText

  function WithText(d: Draft, f: TextField, v: string): Draft {
    match f
    case TitleText => d.(title := v)
    case DescriptionText => d.(description := v)
    case PlatformChoice => d.(platform := v)
    case CategoryChoice => d.(category := v)
    case DateText => d.(date := v)
    case IssuerText => d.(issuedBy := v)
    case CredentialText => d.(credentialId := v)
    case UrlText => d.(verificationUrl := v)
  }

  /** What the add endpoint answers: ok, an error response with its `error` field, or no usable answer. */
  datatype SubmitReply = Accepted | Refused(error: Option<string>) | NetworkDown

  const AddedAlert: string :=
    "✅ Certificate added successfully! The page will refresh to show your new certificate."

  const NotPdfAlert: string := "Please select a PDF file"

  /** The file picked in the PDF input. */
  datatype PickedFile = PickedFile(name: string, isPdf: bool)

  datatype SubmitOutcome = Invalid(field: Field, alert: string) | Added(payload: Payload, alert: string)
                         | Failed(payload: Payload, alert: string)

  function RefusedAlert(error: Option<string>): string {
    "❌ Error: " + if error.Some? && error.value != "" then error.value else "Failed to add certificate"
  }

  const NetworkAlert: string := "❌ Network error. Please check your connection and try again."

  /**
   * What a draft that passed the checks comes to, by reply: the outcome, the
   * draft afterwards and whether the dialog is still open.
   */
  predicate Sent(payload: Payload, before: Draft, wasOpen: bool, reply: SubmitReply, outcome: SubmitOutcome,
                 after: Draft, open: bool) {
    match reply
    case Accepted => outcome == Added(payload, AddedAlert) && after == EmptyDraft && !open
    case Refused(error) =>
      outcome == Failed(payload, RefusedAlert(error)) && after == before && open == wasOpen
    case NetworkDown =>
      outcome == Failed(payload, NetworkAlert) && after == before && open == wasOpen
  }

  /** The dialog's state: the draft, the typed skill and whether the dialog is open. */
  class Form {
    var certificate: Draft
    var newSkill: string
    var isOpen: bool

    predicate Valid()
      reads this
    {
      CleanSkills(certificate.skills)
    }

    constructor()
      ensures Valid() && certificate == EmptyDraft && newSkill == "" && !isOpen
    {
      certificate := EmptyDraft;
      newSkill := "";
      isOpen := false;
    }

    method TypeSkill(s: string)
      modifies this
      ensures newSkill == s && certificate == old(certificate) && isOpen == old(isOpen)
    {
      newSkill := s;
    }

    method Edit(f: TextField, v: string)
      requires Valid()
      modifies this
      ensures Valid()
      ensures certificate == WithText(old(certificate), f, v) && newSkill == old(newSkill) && isOpen == old(isOpen)
    {
      certificate := WithText(certificate, f, v);
    }

    /** `addSkill`: the typed text is cleared only when it was added. */
    method AddSkillTyped()
      requires Valid()
      modifies this
      ensures Valid()
      ensures certificate == old(certificate).(skills := AddSkill(old(certificate.skills), old(newSkill)))
      ensures newSkill == if certificate.skills == old(certificate.skills) then old(newSkill) else ""
      ensures isOpen == old(isOpen)
    {
      var t := Trim(newSkill);
      AddSkillKeepsClean(certificate.skills, newSkill);
      if t != "" && t !in certificate.skills {
        certificate := certificate.(skills := certificate.skills + [t]);
        newSkill := "";
      }
    }

    method RemoveSkill(skill: string)
      requires Valid()
      modifies this
      ensures Valid()
      ensures certificate == old(certificate).(skills := Seqs.RemoveAll(old(certificate.skills), skill))
      ensures newSkill == old(newSkill) && isOpen == old(isOpen)
    {
      var rest := Seqs.RemoveAll(certificate.skills, skill);
      RemoveSkillKeepsClean(certificate.skills, skill);
      certificate := certificate.(skills := rest);
    }

    /** `handleFileChange`: only a PDF is kept; no file or another type is refused with an alert. */
    method ChooseFile(file: Option<PickedFile>) returns (alert: Option<string>)
      requires Valid()
      modifies this
      ensures Valid()
      ensures alert.None? <==> file.Some? && file.value.isPdf
      ensures alert.Some? ==> alert.value == NotPdfAlert && certificate == old(certificate)
      ensures alert.None? ==> certificate == old(certificate).(pdfFile := Some(file.value.name))
      ensures newSkill == old(newSkill) && isOpen == old(isOpen)
    {
      if file.Some? && file.value.isPdf {
        certificate := certificate.(pdfFile := Some(file.value.name));
        alert := None;
      } else {
        alert := Some(NotPdfAlert);
      }
    }

    /** `handleSubmit` with the endpoint's reply. */
    method Submit(reply: SubmitReply) returns (outcome: SubmitOutcome)
      requires Valid()
      modifies this
      ensures Valid()
      ensures newSkill == old(newSkill)
      ensures FirstMissing(old(certificate)).Some? ==>
        outcome == Invalid(FirstMissing(old(certificate)).value, Alert(FirstMissing(old(certificate)).value))
        && certificate == old(certificate) && isOpen == old(isOpen)
      ensures FirstMissing(old(certificate)).None? ==>
        Sent(MakePayload(old(certificate)), old(certificate), old(isOpen), reply, outcome, certificate, isOpen)
    {
      var missing := FirstMissing(certificate);
      if missing.Some? {
        return Invalid(missing.value, Alert(missing.value));
      }
      outcome := Send(MakePayload(certificate), reply);
    }

    /** The request and the handling of its reply; a success resets the draft but not the typed skill. */
    method Send(payload: Payload, reply: SubmitReply) returns (outcome: SubmitOutcome)
      requires Valid()
      modifies this
      ensures Valid() && newSkill == old(newSkill)
      ensures Sent(payload, old(certificate), old(isOpen), reply, outcome, certificate, isOpen)
    {
      match reply
      case Accepted =>
        certificate := EmptyDraft;
        isOpen := false;
        outcome := Added(payload, AddedAlert);
      case Refused(error) =>
        outcome := Failed(payload, RefusedAlert(error));
      case NetworkDown =>
        outcome := Failed(payload, NetworkAlert);
    }
  }
}
