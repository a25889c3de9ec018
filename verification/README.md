# Form validation of the logistics site, in Dafny

The site's script (`js/main.js`) has two forms: a detailed quote request and
a quick inquiry. When a form is submitted, its handler copies the form's
entries into a plain record and validates it. A validator checks the required
fields in a fixed order and reports the first one that is missing or blank,
as "请填写" ("please fill in") followed by the field's display label. When
every field is present, it tests the raw values against the e-mail pattern
`^[^\s@]+@[^\s@]+\.[^\s@]+$` and then the phone pattern `^[\d\s\-\+\(\)]+$`.
The quote form runs both tests; the quick inquiry runs only the phone test,
on `phone`. Every failure is shown as one error notification. A success shows
a confirmation and resets the form.

The model is organised as follows:

- `text.dfy` (module `Text`) holds whitespace and trimming. `IsWs` is the
  ECMAScript WhiteSpace plus LineTerminator set; both `String.prototype.trim`
  and `\s` use it.
- `patterns.dfy` (module `Patterns`) holds both regular expressions. Each is
  built from its own parts: a character class repeated one or more times
  (`Plus`), joined with literal characters. Lemmas then describe each pattern
  without that construction.
- `validation.dfy` (module `Validation`) holds one validator. It takes a
  `FormSpec`: the required fields in order, the label table, and the format
  checks in order. The notification call is modelled as the returned
  `Err(message)`.
- `forms.dfy` (module `Forms`) holds the two forms. Each keeps its exact
  field list, labels and check order. The module also has the label lookups
  and the properties specific to each form.
- `submission.dfy` (module `Submission`) holds the handler's record-building
  loop (a method) and its reference fold `RecordOf`. `Submit` turns the
  validation outcome into the notice shown and the reset decision.

Values are Dafny strings, that is, sequences of Unicode scalar values. A field
that is absent from the record is tested by the patterns as the string
`"undefined"`, because `RegExp.prototype.test` converts its argument to a
string. In both forms every checked field is also required, so this case
never reaches a pattern.

## Model

| member | source | states |
|---|---|---|
| `Text.Trim` | js/main.js:157 | the trimmed value is never longer than the value |
| `Text.TrimStartSpec` | js/main.js:157 | trimming the start leaves the suffix beginning at the first non-whitespace character, and everything dropped is whitespace |
| `Text.TrimEndSpec` | js/main.js:157 | trimming the end leaves the prefix ending at the last non-whitespace character, and everything dropped is whitespace |
| `Text.TrimSpec` | js/main.js:157 | `trim()` returns the slice between leading and trailing whitespace; the slice starts and ends with a non-whitespace character; it is empty exactly when the value is all whitespace |
| `Patterns.PlusIff` | js/main.js:164 | a bracketed class repeated one or more times matches exactly the non-empty strings made only of that class's characters |
| `Patterns.EmailRegexIff` | js/main.js:164-165 | the e-mail pattern matches exactly when the string has no whitespace and exactly one `@`, something comes before the `@`, and after it there is a `.` that is neither first nor last (both directions) |
| `Patterns.SplitHasShape` | js/main.js:164 | any way of matching the e-mail pattern gives a string of that shape |
| `Patterns.ShapeHasSplit` | js/main.js:164 | a string of that shape matches the pattern with its `@` and any inner `.` as the split points |
| `Patterns.PhoneRegexIff` | js/main.js:171-172 | the phone pattern matches exactly the non-empty strings of ASCII digits, whitespace, `+`, `-`, `(` and `)` |
| `Validation.Label` | js/main.js:192 | a lookup gives the table label for a listed field whose label is non-empty, and the field name itself otherwise (`||` also falls back on an empty label) |
| `Validation.PresentIff` | js/main.js:157 | a field passes the presence test exactly when it is in the record and holds a non-whitespace character |
| `Validation.BlankNotPresent` | js/main.js:157 | an absent field and a field holding only whitespace both fail the presence test |
| `Validation.UndefinedFailsFormats` | js/main.js:165 | an absent field, tested as `"undefined"`, fails both the e-mail and the phone pattern |
| `Validation.FirstFailure` | js/main.js:156-161 | the fail-fast search returns the index of an element that fails, all elements before it pass, and it returns none exactly when every element passes |
| `Validation.FirstFailureFindsFirst` | js/main.js:156-161 | if element i is the first failing one, the search returns exactly i |
| `Validation.FirstFailureSame` | js/main.js:156-161 | two tests that agree on every element give the same search result |
| `Validation.FirstFailuresFound` | js/main.js:156-175 | the first missing field and the first failing format check are the ones the searches return |
| `Validation.Validate` | js/main.js:153-178 | Ok exactly when every required field is present and every format check passes; otherwise the first missing field's label message, or, with none missing, the first failing check's message |
| `Validation.ValidateMessages` | js/main.js:158-173 | every failure message is the label message of some missing required field, or the message of a failing check when all fields are present |
| `Validation.BlankIsAbsent` | js/main.js:157 | giving a required field a whitespace-only value yields the same outcome as removing the field |
| `Validation.LaterFieldsNotExamined` | js/main.js:156-161 | once a field is the first missing one, changing any field that is not at or before it in the list leaves the outcome unchanged |
| `Forms.GetFieldName` | js/main.js:181-193 | the quote table's label for its eight fields, the field name for any other key |
| `Forms.ValidateQuoteForm` | js/main.js:153-178 | Ok exactly when all eight quote fields are present, `contact-email` matches the e-mail pattern and `contact-phone` matches the phone pattern |
| `Forms.QuoteFirstMissing` | js/main.js:154-161 | the first missing quote field in list order is reported as "请填写" plus its label |
| `Forms.QuoteAccepts` | js/main.js:177 | a record with all eight fields present and both formats valid is accepted |
| `Forms.QuoteLabelsCoverRequired` | js/main.js:182-191 | every required quote field has a table label, so the fallback never appears in a quote message |
| `Forms.QuoteMessages` | js/main.js:158-173 | a quote failure shows a missing field's table label, the e-mail message or the phone message |
| `Forms.BlankEmailReportedMissing` | js/main.js:156-165 | a blank or absent `contact-email`, with the earlier fields present, gives "请填写邮箱地址" and never the e-mail format message |
| `Forms.EmailMissingMessage` | js/main.js:159 | the missing-e-mail message is "请填写邮箱地址" |
| `Forms.EmailIsLastRequired` | js/main.js:154 | `contact-email` is the last of the eight required fields, so when the seven before it are present and it is not, it is the first missing field |
| `Forms.QuoteFormatOrder` | js/main.js:163-175 | with all fields present, a bad e-mail gives the e-mail message whatever the phone holds; the phone message needs a valid e-mail |
| `Forms.FormatTestsRawValue` | js/main.js:157-165 | `" a@b.c"` passes the presence test but fails the e-mail pattern, because the raw value is tested |
| `Forms.SampleRequestPresent` | js/main.js:156-161 | the example request passes every presence test whenever its e-mail and phone start with a non-whitespace character |
| `Forms.SampleContactsMatch` | js/main.js:164-172 | `li@example.com` matches the e-mail pattern and `+86 138 0000 0000` matches the phone pattern |
| `Forms.SampleQuoteAccepted` | js/main.js:153-178 | a complete example request (Shanghai to Hamburg by sea, `li@example.com`, `+86 138 0000 0000`) is accepted |
| `Forms.SampleBadEmailRejected` | js/main.js:164-168 | the same request with e-mail `bad-email` fails with the e-mail message, not a missing-field one |
| `Forms.SampleBadPhoneRejected` | js/main.js:171-175 | the same request with phone `abc` fails with the phone message |
| `Forms.GetQuickInquiryFieldName` | js/main.js:568-575 | the quick-inquiry table's label for its three fields, the field name for any other key |
| `Forms.ValidateQuickInquiryForm` | js/main.js:547-565 | Ok exactly when `name`, `phone` and `inquiry-type` are present and `phone` matches the phone pattern; the first missing field is reported by its label; with all present, a bad phone gives the phone message |
| `Forms.QuickInquiryLabelsCoverRequired` | js/main.js:569-573 | every required quick-inquiry field has a table label |
| `Forms.QuickInquiryIgnoresOtherFields` | js/main.js:548-559 | changing any field outside its three (including `contact-email` and `contact-phone`) never changes the quick-inquiry outcome |
| `Forms.QuickInquiryMessages` | js/main.js:551-561 | a quick-inquiry failure shows a missing field's table label or the phone message |
| `Submission.RecordOf` | js/main.js:131-135 | the keys of the built record are exactly the names of the entries; the quick-inquiry handler's identical loop (js/main.js:525-529) builds the same record |
| `Submission.LastEntryWins` | js/main.js:133-135 | when a name repeats, the record holds the value of its last entry |
| `Submission.CollectEntries` | js/main.js:131-135 | the loop, in both handlers (also js/main.js:525-529), builds exactly `RecordOf(entries)`, and every entry's name is a key of the result |
| `Submission.Submit` | js/main.js:126-148 | for either form (the quick-inquiry handler is js/main.js:520-542), the form is reset exactly on success; success shows the form's confirmation, failure shows the validator's message as an error |

## Left out

- Notifications (`showNotification`, `hideNotification`, js/main.js:196-252) are DOM creation, styling and `setTimeout` scheduling. A notification is modelled only as the message and severity returned. The code's `hideNotification` has no guard against a second call. Only the final removal is guarded by `parentNode`. A second call resets the transform again and schedules a second removal, which the `parentNode` guard turns into a no-op. Dismissal is therefore not modelled as a state machine.
- Navigation toggling, the Escape key, navbar restyling, scroll-based nav highlighting, smooth-scroll offsets, counters, the progress bar, `debounce`, hover/focus/loading effects, back-to-top, the title swap, error logging and the load timer are DOM, timer, layout or floating-point glue. None of them is modelled.
- The submit handlers' `preventDefault`, `console.log` and the reset itself are left out. Only the decision to reset is modelled (`Submit`'s `reset`).
- FormData entries whose value is a `File` are left out: every value is a string. JavaScript prototype-key quirks of `fieldNames[field] || field` and of `data[field]` are also left out: tables and records are finite maps.
- `\d` is modelled as the ASCII digits `0`-`9`. `\s` and `trim()` use the ECMAScript WhiteSpace and LineTerminator sets; the space separators are taken from Unicode category Zs.
- `Text.Trim`: its contract states only the length bound. The slice characterisation is proved about it separately, in `Text.TrimSpec`.
