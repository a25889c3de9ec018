/**
 * The form validator, parameterised by the form it checks.
 *
 * A validator walks the required fields in order and stops at the first
 * one that is absent or blank. Only when every required field is present
 * does it run the format checks, again in order, and stop at the first one
 * that fails. The outcome is either Ok or the one message the page would
 * show in an error notification.
 */
module Validation {
  import opened Text
  import opened Patterns

  datatype Option<T> = None | Some(value: T)

  /** The submitted form data: field name to the raw string the user entered. */
  type Record = map<string, string>

  /** Ok, or the message of the first failure found. */
  datatype Outcome = Ok | Err(message: string)

  /** A regular-expression test applied to one field's value. */
  datatype FormatCheck = EmailFormat(field: string) | PhoneFormat(field: string)

  /** What distinguishes one form from another: its required fields in order, its label table and its format checks in order. */
  datatype FormSpec = FormSpec(required: seq<string>, labels: map<string, string>, checks: seq<FormatCheck>)

  /** "Please fill in ", put before a field's label. */
  const MissingPrefix: string := "请填写"
  /** "Please enter a valid e-mail address" */
  const EmailMessage: string := "请输入有效的邮箱地址"
  /** "Please enter a valid telephone number" */
  const PhoneMessage: string := "请输入有效的电话号码"

  /**
   * A label-table lookup that falls back to the field name itself when the
   * table has no entry for it or its entry is the empty string, which is falsy.
   */
  function Label(labels: map<string, string>, field: string): (r: string)
    ensures field in labels && labels[field] != "" ==> r == labels[field]
    ensures field !in labels || labels[field] == "" ==> r == field
  {
    if field in labels && labels[field] != "" then labels[field] else field
  }

  /** The first required field that is missing, in list order, names the failure. */
  predicate FirstMissingField(rec: Record, required: seq<string>, i: int) {
    0 <= i < |required| && !Present(rec, required[i])
    && forall j | 0 <= j < i :: Present(rec, required[j])
  }

  /** The first format check that fails, in list order, names the failure. */
  predicate FirstFailingCheck(rec: Record, checks: seq<FormatCheck>, i: int) {
    0 <= i < |checks| && !Passes(rec, checks[i])
    && forall j | 0 <= j < i :: Passes(rec, checks[j])
  }

  /** The message for a required field that is missing: the prefix followed by the field's label. */
  function MissingMessage(labels: map<string, string>, field: string): string {
    MissingPrefix + Label(labels, field)
  }

  /** The field passes the presence test: it is there, it is not the empty string, and trimming leaves something. */
  predicate Present(rec: Record, field: string) {
    field in rec && rec[field] != "" && Trim(rec[field]) != ""
  }

  /** A field is present exactly when it is there and holds a non-whitespace character; blank counts as absent. */
  lemma PresentIff(rec: Record, field: string)
    ensures Present(rec, field) <==>
      field in rec && exists i | 0 <= i < |rec[field]| :: !IsWs(rec[field][i])
  {
    if field in rec {
      TrimSpec(rec[field]);
    }
  }

  /** An absent field and a field holding only whitespace both fail the presence test. */
  lemma BlankNotPresent(rec: Record, field: string)
    requires field in rec ==> AllWs(rec[field])
    ensures !Present(rec, field)
  {
    if field in rec {
      TrimSpec(rec[field]);
    }
  }

  /**
   * The string a regular expression is tested against: the field's value,
   * or "undefined" when the field is absent, because RegExp.prototype.test
   * converts its argument to a string.
   */
  function TestedValue(rec: Record, field: string): string {
    if field in rec then rec[field] else "undefined"
  }

  /** An absent field fails either format check: neither pattern matches "undefined". */
  lemma UndefinedFailsFormats()
    ensures !EmailRegex("undefined") && !PhoneRegex("undefined")
  {
    var u := "undefined";
    EmailRegexIff(u);
    assert forall i | 0 <= i < |u| :: u[i] != '@';
    PlusIff(PhoneChar, u);
    assert !InClass(PhoneChar, u[0]);
  }

  predicate Passes(rec: Record, check: FormatCheck) {
    match check
    case EmailFormat(f) => EmailRegex(TestedValue(rec, f))
    case PhoneFormat(f) => PhoneRegex(TestedValue(rec, f))
  }

  function CheckMessage(check: FormatCheck): string {
    match check
    case EmailFormat(_) => EmailMessage
    case PhoneFormat(_) => PhoneMessage
  }

  /**
   * The index of the first element of xs that fails ok, if any: the
   * fail-fast search both the required-field loop and the sequence of
   * format checks perform.
   */
  function FirstFailure<T>(xs: seq<T>, ok: T -> bool): (r: Option<nat>)
    ensures r.Some? ==>
      (r.value < |xs| && !ok(xs[r.value]) && forall j | 0 <= j < r.value :: ok(xs[j]))
    ensures r.None? <==> forall j | 0 <= j < |xs| :: ok(xs[j])
  {
    if xs == [] then None
    else if !ok(xs[0]) then Some(0)
    else match FirstFailure(xs[1..], ok)
      case None => None
      case Some(i) => Some(i + 1)
  }

  /** The index of the first required field that is not present, if any. */
  function FirstMissing(rec: Record, required: seq<string>): Option<nat> {
    FirstFailure(required, f => Present(rec, f))
  }

  /** The index of the first format check that fails, if any. */
  function FirstFailing(rec: Record, checks: seq<FormatCheck>): Option<nat> {
    FirstFailure(checks, c => Passes(rec, c))
  }

  /** If xs[i] is the first element that fails ok, the search finds i. */
  lemma FirstFailureFindsFirst<T>(xs: seq<T>, ok: T -> bool, i: nat)
    requires i < |xs| && !ok(xs[i]) && forall j | 0 <= j < i :: ok(xs[j])
    ensures FirstFailure(xs, ok) == Some(i)
  {
    var r := FirstFailure(xs, ok);
    assert r.Some?;
    assert !(r.value < i) && !(i < r.value);
  }

  predicate AllPresent(rec: Record, required: seq<string>) {
    forall j | 0 <= j < |required| :: Present(rec, required[j])
  }

  predicate AllPass(rec: Record, checks: seq<FormatCheck>) {
    forall j | 0 <= j < |checks| :: Passes(rec, checks[j])
  }

  /** Two tests that agree on every element of xs find the same first failure. */
  lemma FirstFailureSame<T>(xs: seq<T>, p: T -> bool, q: T -> bool)
    requires forall j | 0 <= j < |xs| :: p(xs[j]) == q(xs[j])
    ensures FirstFailure(xs, p) == FirstFailure(xs, q)
  {
  }

  /**
   * Validates rec against form. It succeeds exactly when every required
   * field is present and every format check passes; otherwise the message
   * is that of the first missing field in list order, or, when none is
   * missing, that of the first failing check in list order.
   */
  function Validate(rec: Record, form: FormSpec): (r: Outcome)
    ensures r == Ok <==> AllPresent(rec, form.required) && AllPass(rec, form.checks)
    ensures forall i | FirstMissingField(rec, form.required, i) ::
      r == Err(MissingMessage(form.labels, form.required[i]))
    ensures AllPresent(rec, form.required) ==> forall i | FirstFailingCheck(rec, form.checks, i) ::
      r == Err(CheckMessage(form.checks[i]))
  {
    FirstFailuresFound(rec, form);
    match FirstMissing(rec, form.required)
    case Some(i) => Err(MissingMessage(form.labels, form.required[i]))
    case None =>
      match FirstFailing(rec, form.checks)
      case Some(i) => Err(CheckMessage(form.checks[i]))
      case None => Ok
  }

  lemma FirstFailuresFound(rec: Record, form: FormSpec)
    ensures forall i | FirstMissingField(rec, form.required, i) ::
      FirstMissing(rec, form.required) == Some(i)
    ensures forall i | FirstFailingCheck(rec, form.checks, i) ::
      FirstFailing(rec, form.checks) == Some(i)
  {
    forall i | FirstMissingField(rec, form.required, i)
      ensures FirstMissing(rec, form.required) == Some(i)
    {
      FirstFailureFindsFirst(form.required, f => Present(rec, f), i);
    }
    forall i | FirstFailingCheck(rec, form.checks, i)
      ensures FirstFailing(rec, form.checks) == Some(i)
    {
      FirstFailureFindsFirst(form.checks, c => Passes(rec, c), i);
    }
  }

  /** Every failure message is a missing-field message built from a required field's label, or a format check's message. */
  lemma ValidateMessages(rec: Record, form: FormSpec)
    ensures Validate(rec, form).Err? ==>
      (exists i | 0 <= i < |form.required| ::
         !Present(rec, form.required[i])
         && Validate(rec, form).message == MissingMessage(form.labels, form.required[i]))
      || (AllPresent(rec, form.required) && exists i | 0 <= i < |form.checks| ::
         !Passes(rec, form.checks[i])
         && Validate(rec, form).message == CheckMessage(form.checks[i]))
  {
    match FirstMissing(rec, form.required)
    case Some(i) =>
    case None =>
  }

  /**
   * A value made only of whitespace is treated exactly like an absent field:
   * replacing the field's value by such a string, or removing the field,
   * gives the same outcome.
   */
  lemma BlankIsAbsent(rec: Record, form: FormSpec, field: string, blank: string)
    requires field in form.required
    requires AllWs(blank)
    ensures Validate(rec[field := blank], form) == Validate(rec - {field}, form)
  {
    var r1, r2 := rec[field := blank], rec - {field};
    BlankNotPresent(r1, field);
    BlankNotPresent(r2, field);
    forall f ensures Present(r1, f) == Present(r2, f) {
      if f != field { assert f in r1 <==> f in r2; }
    }
    FirstFailureSame(form.required, f => Present(r1, f), f => Present(r2, f));
  }

  /**
   * Fail-fast: once required[i] is the first missing field, nothing after it
   * is examined. Changing or adding any field that is not among the first
   * i + 1 required ones leaves the outcome unchanged.
   */
  lemma LaterFieldsNotExamined(rec: Record, form: FormSpec, i: int, key: string, value: string)
    requires 0 <= i < |form.required| && !Present(rec, form.required[i])
    requires forall j | 0 <= j < i :: Present(rec, form.required[j])
    requires key !in form.required[..i + 1]
    ensures Validate(rec[key := value], form) == Validate(rec, form)
  {
    var rec' := rec[key := value];
    forall j | 0 <= j <= i ensures Present(rec', form.required[j]) == Present(rec, form.required[j]) {
      assert form.required[..i + 1][j] == form.required[j];
    }
  }
}
