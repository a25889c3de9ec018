/**
 * What a submit handler does with a form: it copies the form's entries,
 * one after another, into an empty record, validates the record, and
 * shows either the validation message as an error or a fixed confirmation
 * as a success, resetting the form only on success.
 */
module Submission {
  import opened Validation
  import opened Forms

  /** One (name, value) pair of the form's entries, in document order. */
  type Entry = (string, string)

  /**
   * The record left by writing the entries, in order, into an empty
   * object: every entry's name is a key, and each later entry overwrites
   * an earlier one of the same name.
   */
  function RecordOf(entries: seq<Entry>): (m: Record)
    ensures m.Keys == set i | 0 <= i < |entries| :: entries[i].0
    decreases |entries|
  {
    if entries == [] then map[]
    else
      var last := entries[|entries| - 1];
      var m := RecordOf(entries[..|entries| - 1]);
      assert forall i | 0 <= i < |entries| - 1 :: entries[..|entries| - 1][i] == entries[i];
      m[last.0 := last.1]
  }

  /** A name that no later entry repeats keeps the value of its entry: the last value written for a name wins. */
  lemma {:induction false} LastEntryWins(entries: seq<Entry>, i: int)
    requires 0 <= i < |entries|
    requires forall j | i < j < |entries| :: entries[j].0 != entries[i].0
    ensures entries[i].0 in RecordOf(entries)
    ensures RecordOf(entries)[entries[i].0] == entries[i].1
    decreases |entries|
  {
    if i < |entries| - 1 {
      var init := entries[..|entries| - 1];
      assert init[i] == entries[i];
      LastEntryWins(init, i);
    }
  }

  /** The record-building loop: for each entry in order, data[name] := value. */
  method CollectEntries(entries: seq<Entry>) returns (data: Record)
    ensures data == RecordOf(entries)
    ensures forall i | 0 <= i < |entries| :: entries[i].0 in data
  {
    data := map[];
    var n := 0;
    while n < |entries|
      invariant 0 <= n <= |entries|
      invariant data == RecordOf(entries[..n])
    {
      var (name, value) := entries[n];
      assert entries[..n + 1][..n] == entries[..n];
      data := data[name := value];
      n := n + 1;
    }
    assert entries[..n] == entries;
  }

  datatype Severity = Success | Error

  /** A notification as the page shows it: its text and its severity. */
  datatype Notice = Notice(message: string, severity: Severity)

  datatype FormKind = QuoteRequest | QuickInquiry

  /** "Quote submitted, we will contact you within 24 hours!" */
  const QuoteSuccessMessage: string := "询价信息已提交，我们将在24小时内联系您！"
  /** "Inquiry submitted, we will contact you as soon as possible!" */
  const QuickInquirySuccessMessage: string := "咨询信息已提交，我们将尽快联系您！"

  function ValidateForm(kind: FormKind, rec: Record): Outcome {
    match kind
    case QuoteRequest => ValidateQuoteForm(rec)
    case QuickInquiry => ValidateQuickInquiryForm(rec)
  }

  function SuccessMessage(kind: FormKind): string {
    match kind
    case QuoteRequest => QuoteSuccessMessage
    case QuickInquiry => QuickInquirySuccessMessage
  }

  /**
   * Handles one submission of the given form: the notice shown, and whether
   * the form is reset. A failure shows the validator's message as an error
   * and leaves the form as it is; a success shows the form's confirmation
   * and resets it.
   */
  method Submit(kind: FormKind, entries: seq<Entry>) returns (notice: Notice, reset: bool)
    ensures reset <==> ValidateForm(kind, RecordOf(entries)) == Ok
    ensures reset ==> notice == Notice(SuccessMessage(kind), Success)
    ensures !reset ==> notice == Notice(ValidateForm(kind, RecordOf(entries)).message, Error)
  {
    var data := CollectEntries(entries);
    var outcome := ValidateForm(kind, data);
    match outcome
    case Ok =>
      notice, reset := Notice(SuccessMessage(kind), Success), true;
    case Err(message) =>
      notice, reset := Notice(message, Error), false;
  }
}
