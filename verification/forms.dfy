/**
 * The two forms of the site: the detailed quote request and the quick
 * inquiry. Each is the generic validator applied to the form's own
 * required-field list, label table and format checks, in the order the
 * page checks them.
 */
module Forms {
  import opened Text
  import opened Patterns
  import opened Validation

  // ---------------------------------------------------------------------
  // Quote request form

  const QuoteRequired: seq<string> :=
    ["origin", "destination", "transport-type", "cargo-type", "weight",
     "contact-name", "contact-phone", "contact-email"]

  /** Display labels: place of departure, destination, transport mode, cargo type, weight, contact person, contact phone, e-mail address. */
  const QuoteLabels: map<string, string> := map[
    "origin" := "起运地",
    "destination" := "目的地",
    "transport-type" := "运输方式",
    "cargo-type" := "货物类型",
    "weight" := "重量",
    "contact-name" := "联系人",
    "contact-phone" := "联系电话",
    "contact-email" := "邮箱地址"
  ]

  /** Presence of the eight fields, then the e-mail format, then the phone format. */
  const QuoteForm: FormSpec :=
    FormSpec(QuoteRequired, QuoteLabels, [EmailFormat("contact-email"), PhoneFormat("contact-phone")])

  /** Label of a quote-form field, or the field name when the table has none. */
  function GetFieldName(field: string): (r: string)
    ensures field in QuoteLabels ==> r == QuoteLabels[field]
    ensures field !in QuoteLabels ==> r == field
  {
    Label(QuoteLabels, field)
  }

  /**
   * Quote validation. It succeeds exactly when all eight fields are present,
   * the e-mail value matches the e-mail pattern and the phone value matches
   * the phone pattern. A missing field is reported by its table label before
   * any format is looked at; the e-mail format is reported before the phone
   * format.
   */
  function ValidateQuoteForm(rec: Record): (r: Outcome)
    ensures r == Ok <==>
      AllPresent(rec, QuoteRequired)
      && "contact-email" in rec && EmailRegex(rec["contact-email"])
      && "contact-phone" in rec && PhoneRegex(rec["contact-phone"])
  {
    Validate(rec, QuoteForm)
  }

  /** The first missing field in list order is reported, by its label. */
  lemma QuoteFirstMissing(rec: Record, i: int)
    requires FirstMissingField(rec, QuoteRequired, i)
    ensures ValidateQuoteForm(rec) == Err(MissingPrefix + GetFieldName(QuoteRequired[i]))
  {
  }

  lemma QuoteAccepts(rec: Record)
    requires AllPresent(rec, QuoteRequired)
    requires "contact-email" in rec && EmailRegex(rec["contact-email"])
    requires "contact-phone" in rec && PhoneRegex(rec["contact-phone"])
    ensures ValidateQuoteForm(rec) == Ok
  {
  }

  /** Every required quote field has a table label, so no quote message uses the fallback. */
  lemma QuoteLabelsCoverRequired()
    ensures forall i | 0 <= i < |QuoteRequired| ::
      QuoteRequired[i] in QuoteLabels && GetFieldName(QuoteRequired[i]) != QuoteRequired[i]
  {
  }

  /** A failed quote validation shows a table label of a missing field, the e-mail message or the phone message. */
  lemma QuoteMessages(rec: Record)
    ensures ValidateQuoteForm(rec).Err? ==>
      (exists i | 0 <= i < |QuoteRequired| ::
         !Present(rec, QuoteRequired[i])
         && ValidateQuoteForm(rec).message == MissingPrefix + QuoteLabels[QuoteRequired[i]])
      || ValidateQuoteForm(rec).message == EmailMessage
      || ValidateQuoteForm(rec).message == PhoneMessage
  {
    ValidateMessages(rec, QuoteForm);
    forall f | f in QuoteLabels ensures Label(QuoteLabels, f) == QuoteLabels[f] {
      assert GetFieldName(f) == QuoteLabels[f];
    }
  }

  /** Presence comes before format: a blank or absent e-mail is reported as missing, never as malformed. */
  lemma BlankEmailReportedMissing(rec: Record)
    requires forall i | 0 <= i < 7 :: Present(rec, QuoteRequired[i])
    requires "contact-email" in rec ==> AllWs(rec["contact-email"])
    ensures ValidateQuoteForm(rec) == Err("请填写邮箱地址")
  {
    BlankNotPresent(rec, "contact-email");
    EmailIsLastRequired(rec);
    QuoteFirstMissing(rec, 7);
    EmailMissingMessage();
  }

  lemma EmailMissingMessage()
    ensures MissingPrefix + GetFieldName(QuoteRequired[7]) == "请填写邮箱地址"
  {
    assert QuoteRequired[7] == "contact-email" && "contact-email" in QuoteLabels;
  }

  lemma EmailIsLastRequired(rec: Record)
    requires forall i | 0 <= i < 7 :: Present(rec, QuoteRequired[i])
    requires !Present(rec, "contact-email")
    ensures FirstMissingField(rec, QuoteRequired, 7)
  {
  }

  /**
   * With every field present, the e-mail check runs first: a malformed
   * e-mail is reported whatever the phone holds, and the phone message
   * appears only for a well-formed e-mail.
   */
  lemma QuoteFormatOrder(rec: Record)
    requires AllPresent(rec, QuoteRequired)
    ensures !EmailRegex(TestedValue(rec, "contact-email")) ==> ValidateQuoteForm(rec) == Err(EmailMessage)
    ensures EmailRegex(TestedValue(rec, "contact-email")) && !PhoneRegex(TestedValue(rec, "contact-phone")) ==>
      ValidateQuoteForm(rec) == Err(PhoneMessage)
  {
    assert Present(rec, QuoteRequired[6]) && Present(rec, QuoteRequired[7]);
    var r := Validate(rec, QuoteForm);
    assert r == ValidateQuoteForm(rec);
  }

  /** Formats are tested on the raw value: " a@b.c" is present, yet it fails the e-mail pattern. */
  lemma FormatTestsRawValue()
    ensures var rec := map["contact-email" := " a@b.c"];
      Present(rec, "contact-email") && !EmailRegex(rec["contact-email"])
  {
    var s := " a@b.c";
    assert !IsWs(s[1]);
    TrimSpec(s);
    assert Trim(s) != [];
    EmailRegexIff(s);
    assert IsWs(s[0]);
  }

  /** An example quote request, Shanghai to Hamburg by sea, with the given contact e-mail and phone. */
  function SampleRequest(email: string, phone: string): Record {
    map[
      "origin" := "Shanghai",
      "destination" := "Hamburg",
      "transport-type" := "sea",
      "cargo-type" := "general",
      "weight" := "500kg",
      "contact-name" := "Li Wei",
      "contact-phone" := phone,
      "contact-email" := email
    ]
  }

  const SampleEmail: string := "li@example.com"
  const SamplePhone: string := "+86 138 0000 0000"

  /** The example request passes every presence test when its e-mail and phone start with a non-whitespace character. */
  lemma SampleRequestPresent(email: string, phone: string)
    requires |email| > 0 && !IsWs(email[0])
    requires |phone| > 0 && !IsWs(phone[0])
    ensures AllPresent(SampleRequest(email, phone), QuoteRequired)
  {
    var rec := SampleRequest(email, phone);
    forall i | 0 <= i < |QuoteRequired| ensures Present(rec, QuoteRequired[i]) {
      PresentIff(rec, QuoteRequired[i]);
      assert !IsWs(rec[QuoteRequired[i]][0]);
    }
  }

  lemma SampleContactsMatch()
    ensures EmailRegex(SampleEmail)
    ensures PhoneRegex(SamplePhone)
  {
    var email, phone := SampleEmail, SamplePhone;
    EmailRegexIff(email);
    assert email[3..][7] == '.';
    assert OnlyAtSign(email, 2);
    forall i | 0 <= i < |phone| ensures InClass(PhoneChar, phone[i]) {
      assert phone[i] == '+' || phone[i] == ' ' || ('0' <= phone[i] <= '9');
    }
    PlusIff(PhoneChar, phone);
  }

  /** The example request with e-mail "li@example.com" and phone "+86 138 0000 0000" is accepted. */
  lemma SampleQuoteAccepted()
    ensures ValidateQuoteForm(SampleRequest(SampleEmail, SamplePhone)) == Ok
  {
    SampleRequestPresent(SampleEmail, SamplePhone);
    SampleContactsMatch();
    QuoteAccepts(SampleRequest(SampleEmail, SamplePhone));
  }

  /** The example request with the e-mail "bad-email" fails with the e-mail message, not a missing-field one. */
  lemma SampleBadEmailRejected()
    ensures ValidateQuoteForm(SampleRequest("bad-email", SamplePhone)) == Err(EmailMessage)
  {
    var rec := SampleRequest("bad-email", SamplePhone);
    SampleRequestPresent("bad-email", SamplePhone);
    assert !EmailRegex(TestedValue(rec, "contact-email")) by {
      EmailRegexIff("bad-email");
      assert forall i | 0 <= i < |"bad-email"| :: "bad-email"[i] != '@';
    }
    QuoteFormatOrder(rec);
  }

  /** The example request with the phone "abc" fails with the phone message. */
  lemma SampleBadPhoneRejected()
    ensures ValidateQuoteForm(SampleRequest(SampleEmail, "abc")) == Err(PhoneMessage)
  {
    var rec := SampleRequest(SampleEmail, "abc");
    SampleRequestPresent(SampleEmail, "abc");
    assert EmailRegex(TestedValue(rec, "contact-email")) by {
      SampleContactsMatch();
    }
    assert !PhoneRegex(TestedValue(rec, "contact-phone")) by {
      PhoneRegexIff("abc");
      assert !IsWs("abc"[0]);
    }
    QuoteFormatOrder(rec);
  }

  // ---------------------------------------------------------------------
  // Quick inquiry form

  const QuickInquiryRequired: seq<string> := ["name", "phone", "inquiry-type"]

  /** Display labels: name, contact phone, inquiry type. */
  const QuickInquiryLabels: map<string, string> := map[
    "name" := "姓名",
    "phone" := "联系电话",
    "inquiry-type" := "咨询类型"
  ]

  /** Presence of the three fields, then the phone format of "phone"; no e-mail check. */
  const QuickInquiryForm: FormSpec :=
    FormSpec(QuickInquiryRequired, QuickInquiryLabels, [PhoneFormat("phone")])

  /** Label of a quick-inquiry field, or the field name when the table has none. */
  function GetQuickInquiryFieldName(field: string): (r: string)
    ensures field in QuickInquiryLabels ==> r == QuickInquiryLabels[field]
    ensures field !in QuickInquiryLabels ==> r == field
  {
    Label(QuickInquiryLabels, field)
  }

  /**
   * Quick-inquiry validation. It succeeds exactly when the three fields are
   * present and the value of "phone" matches the phone pattern; a missing
   * field is reported by its table label first.
   */
  function ValidateQuickInquiryForm(rec: Record): (r: Outcome)
    ensures r == Ok <==>
      AllPresent(rec, QuickInquiryRequired) && "phone" in rec && PhoneRegex(rec["phone"])
    ensures forall i | FirstMissingField(rec, QuickInquiryRequired, i) ::
      r == Err(MissingPrefix + GetQuickInquiryFieldName(QuickInquiryRequired[i]))
    ensures AllPresent(rec, QuickInquiryRequired) && !PhoneRegex(TestedValue(rec, "phone")) ==>
      r == Err(PhoneMessage)
  {
    var r := Validate(rec, QuickInquiryForm);
    assert Present(rec, QuickInquiryRequired[1]) <==> "phone" in rec && Present(rec, "phone");
    r
  }

  /** Every required quick-inquiry field has a table label. */
  lemma QuickInquiryLabelsCoverRequired()
    ensures forall i | 0 <= i < |QuickInquiryRequired| ::
      QuickInquiryRequired[i] in QuickInquiryLabels
      && GetQuickInquiryFieldName(QuickInquiryRequired[i]) != QuickInquiryRequired[i]
  {
  }

  /** The quick inquiry never looks at any field outside its three: not at "contact-email", not at "contact-phone". */
  lemma QuickInquiryIgnoresOtherFields(rec: Record, key: string, value: string)
    requires key !in QuickInquiryRequired
    ensures ValidateQuickInquiryForm(rec[key := value]) == ValidateQuickInquiryForm(rec)
  {
    var rec' := rec[key := value];
    forall j | 0 <= j < |QuickInquiryRequired|
      ensures Present(rec', QuickInquiryRequired[j]) == Present(rec, QuickInquiryRequired[j])
    {
      assert QuickInquiryRequired[j] != key;
    }
    assert TestedValue(rec', "phone") == TestedValue(rec, "phone");
  }

  /** A failed quick-inquiry validation shows a table label of a missing field or the phone message. */
  lemma QuickInquiryMessages(rec: Record)
    ensures ValidateQuickInquiryForm(rec).Err? ==>
      (exists i | 0 <= i < |QuickInquiryRequired| ::
         !Present(rec, QuickInquiryRequired[i])
         && ValidateQuickInquiryForm(rec).message == MissingPrefix + QuickInquiryLabels[QuickInquiryRequired[i]])
      || ValidateQuickInquiryForm(rec).message == PhoneMessage
  {
    ValidateMessages(rec, QuickInquiryForm);
  }
}
