/** The onboarding form: per-field editing and the all-fields-filled submit rule. */
module Boarding {
  import Text

  /** The four inputs, named as in the form. */
  datatype Field = FullName | Phone | Address | SecurityQuestion

  datatype FormData = FormData(fullName: string, phone: string, address: string, securityQuestion: string)

  datatype Page = Page(form: FormData, submitted: bool)

  const InitialPage: Page := Page(FormData("", "", "", ""), false)

  function Get(form: FormData, f: Field): string {
    match f
    case FullName => form.fullName
    case Phone => form.phone
    case Address => form.address
    case SecurityQuestion => form.securityQuestion
  }

  /** The field values in declaration order, as `Object.values` lists them. */
  function Values(form: FormData): seq<string> {
    [form.fullName, form.phone, form.address, form.securityQuestion]
  }

  /** Typing into an input replaces that field's value and nothing else. */
  function HandleChange(page: Page, f: Field, value: string): (r: Page)
    ensures Get(r.form, f) == value
    ensures forall g :: g != f ==> Get(r.form, g) == Get(page.form, g)
    ensures r.submitted == page.submitted
  {
    var form := page.form;
    var updated := match f
      case FullName => form.(fullName := value)
      case Phone => form.(phone := value)
      case Address => form.(address := value)
      case SecurityQuestion => form.(securityQuestion := value);
    page.(form := updated)
  }

  /** Every value is non-empty once trimmed. */
  predicate AllFilled(form: FormData) {
    forall v :: v in Values(form) ==> Text.Trim(v) != []
  }

  /**
    Submit: accepted exactly when every field is filled. A refused submit
    leaves the page as it was; an accepted one marks it submitted and
    keeps the form data.
  */
  function HandleSubmit(page: Page): (r: (Page, bool))
    ensures r.1 <==> forall f :: Text.Trim(Get(page.form, f)) != []
    ensures !r.1 ==> r.0 == page
    ensures r.1 ==> r.0.submitted && r.0.form == page.form
  {
    FilledMeansEveryField(page.form);
    if !AllFilled(page.form) then (page, false)
    else (page.(submitted := true), true)
  }

  // ---------- Lemmas ----------

  /** `AllFilled` is the same as asking every field in turn. */
  lemma FilledMeansEveryField(form: FormData)
    ensures AllFilled(form) <==> forall f :: Text.Trim(Get(form, f)) != []
  {
    if AllFilled(form) {
      forall f ensures Text.Trim(Get(form, f)) != [] {
        GetIsListed(form, f);
      }
    }
    if forall f :: Text.Trim(Get(form, f)) != [] {
      forall v | v in Values(form) ensures Text.Trim(v) != [] {
        var f := ListedIsGet(form, v);
      }
    }
  }

  lemma GetIsListed(form: FormData, f: Field)
    ensures Get(form, f) in Values(form)
  {
  }

  lemma ListedIsGet(form: FormData, v: string) returns (f: Field)
    requires v in Values(form)
    ensures Get(form, f) == v
  {
    var vs := Values(form);
    if v == vs[0] { f := FullName; }
    else if v == vs[1] { f := Phone; }
    else if v == vs[2] { f := Address; }
    else { f := SecurityQuestion; }
  }

  /** The untouched form cannot be submitted. */
  lemma InitialPageRefused()
    ensures HandleSubmit(InitialPage) == (InitialPage, false)
  {
    assert Text.Trim("") == "";
  }

  /** Whitespace alone does not fill a field. */
  lemma BlankFieldRefused(page: Page, f: Field, value: string)
    requires Text.IsBlank(value)
    ensures !HandleSubmit(HandleChange(page, f, value)).1
  {
    Text.TrimEmptyIffBlank(value);
  }
}
