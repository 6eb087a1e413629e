/** `validateTransactionForm`: the checks the entry form must pass before a record is sent,
    with the message shown under each failing field, and the payload built from a form that
    passes. `Number(text)` is a parameter: the model does not parse numbers. */
module Validation {
  import opened Text

  /** The form as typed: every field is text. */
  datatype Form = Form(
    date: string,
    category: string,
    subcategory: string,
    amount: string,
    sender: string,
    receiver: string,
    remarks: string)

  /** A JavaScript number as far as the checks look at it. */
  datatype JsNumber = Finite(value: real) | PlusInfinity | MinusInfinity | NaN

  /** `num <= 0` is false for NaN and +Infinity only among the non-finite values. */
  predicate Positive(n: JsNumber) {
    (n.Finite? && n.value > 0.0) || n.PlusInfinity?
  }

  /** The keys of the `errors` record. */
  datatype Field = DateField | CategoryField | SubcategoryField | SenderField | ReceiverField
                 | RemarksField | AmountField

  const DateRequired := "Date is required"
  const CategoryRequired := "Category is required"
  const SubcategoryRequired := "Subcategory is required"
  const SenderRequired := "Sender is required"
  const ReceiverRequired := "Receiver is required"
  const RemarksTooShort := "Remarks should be at least 3 characters"
  const AmountRequired := "Amount is required"
  const AmountNotANumber := "Amount must be a number"
  const AmountNotPositive := "Amount must be greater than zero"

  /** The amount's message, if any: required, then a number, then greater than zero. */
  function AmountError(amount: string, toNumber: string -> JsNumber): (r: string)
    ensures r == "" <==> amount != "" && Positive(toNumber(amount))
    ensures amount == "" ==> r == AmountRequired
    ensures amount != "" && toNumber(amount).NaN? ==> r == AmountNotANumber
    ensures amount != "" && !toNumber(amount).NaN? && !Positive(toNumber(amount)) ==> r == AmountNotPositive
  {
    if amount == "" then AmountRequired
    else
      var num := toNumber(amount);
      if num.NaN? then AmountNotANumber
      else if !Positive(num) then AmountNotPositive
      else ""
  }

  /** Adds `field: message` when `failed`. */
  function Check(errors: map<Field, string>, failed: bool, field: Field, message: string)
    : (r: map<Field, string>)
    requires field !in errors
    ensures field in r <==> failed
    ensures failed ==> r[field] == message
    ensures forall g :: g != field ==> (g in r <==> g in errors)
    ensures forall g :: g != field && g in errors ==> r[g] == errors[g]
  {
    if failed then errors[field := message] else errors
  }

  /** The `errors` record `validateTransactionForm` builds. */
  function FormErrors(f: Form, toNumber: string -> JsNumber): (errors: map<Field, string>)
    ensures DateField in errors <==> f.date == ""
    ensures CategoryField in errors <==> f.category == ""
    ensures SubcategoryField in errors <==> f.subcategory == ""
    ensures SenderField in errors <==> AllWhitespace(f.sender)
    ensures ReceiverField in errors <==> AllWhitespace(f.receiver)
    ensures RemarksField in errors <==> 0 < |Trim(f.remarks)| && Utf16Length(Trim(f.remarks)) < 3
    ensures AmountField in errors <==> !(f.amount != "" && Positive(toNumber(f.amount)))
    ensures DateField in errors ==> errors[DateField] == DateRequired
    ensures CategoryField in errors ==> errors[CategoryField] == CategoryRequired
    ensures SubcategoryField in errors ==> errors[SubcategoryField] == SubcategoryRequired
    ensures SenderField in errors ==> errors[SenderField] == SenderRequired
    ensures ReceiverField in errors ==> errors[ReceiverField] == ReceiverRequired
    ensures RemarksField in errors ==> errors[RemarksField] == RemarksTooShort
    ensures AmountField in errors ==> errors[AmountField] == AmountError(f.amount, toNumber)
  {
    BlankIffWhitespace(f.sender);
    BlankIffWhitespace(f.receiver);
    var remarks := Trim(f.remarks);
    Collect(f.date == "", f.category == "", f.subcategory == "", Trim(f.sender) == "",
            Trim(f.receiver) == "", remarks != "" && Utf16Length(remarks) < 3,
            AmountError(f.amount, toNumber))
  }

  /** The trimmed text is empty exactly when the text is all whitespace. */
  lemma BlankIffWhitespace(s: string)
    ensures Trim(s) == "" <==> AllWhitespace(s)
  {
  }

  /** The `if` chain of `validateTransactionForm`, in source order, given the outcome of each
      test and the amount's message ("" when the amount is fine). */
  function Collect(noDate: bool, noCategory: bool, noSubcategory: bool, blankSender: bool,
                   blankReceiver: bool, shortRemarks: bool, amountError: string)
    : (errors: map<Field, string>)
    ensures DateField in errors <==> noDate
    ensures CategoryField in errors <==> noCategory
    ensures SubcategoryField in errors <==> noSubcategory
    ensures SenderField in errors <==> blankSender
    ensures ReceiverField in errors <==> blankReceiver
    ensures RemarksField in errors <==> shortRemarks
    ensures AmountField in errors <==> amountError != ""
    ensures DateField in errors ==> errors[DateField] == DateRequired
    ensures CategoryField in errors ==> errors[CategoryField] == CategoryRequired
    ensures SubcategoryField in errors ==> errors[SubcategoryField] == SubcategoryRequired
    ensures SenderField in errors ==> errors[SenderField] == SenderRequired
    ensures ReceiverField in errors ==> errors[ReceiverField] == ReceiverRequired
    ensures RemarksField in errors ==> errors[RemarksField] == RemarksTooShort
    ensures AmountField in errors ==> errors[AmountField] == amountError
  {
    var e3 := CheckSelections(noDate, noCategory, noSubcategory);
    var e5 := CheckParties(e3, blankSender, blankReceiver);
    CheckRemarksAndAmount(e5, shortRemarks, amountError)
  }

  /** The remarks and amount tests. */
  function CheckRemarksAndAmount(e5: map<Field, string>, shortRemarks: bool, amountError: string)
    : (errors: map<Field, string>)
    requires RemarksField !in e5 && AmountField !in e5
    ensures forall g :: g in e5 ==> g in errors && errors[g] == e5[g]
    ensures forall g :: g in errors && g != RemarksField && g != AmountField ==> g in e5
    ensures RemarksField in errors <==> shortRemarks
    ensures AmountField in errors <==> amountError != ""
    ensures RemarksField in errors ==> errors[RemarksField] == RemarksTooShort
    ensures AmountField in errors ==> errors[AmountField] == amountError
  {
    var e6 := Check(e5, shortRemarks, RemarksField, RemarksTooShort);
    Check(e6, amountError != "", AmountField, amountError)
  }

  /** The sender and receiver tests. */
  function CheckParties(e3: map<Field, string>, blankSender: bool, blankReceiver: bool)
    : (errors: map<Field, string>)
    requires e3.Keys <= {DateField, CategoryField, SubcategoryField}
    ensures errors.Keys <= {DateField, CategoryField, SubcategoryField, SenderField, ReceiverField}
    ensures forall g :: g in e3 ==> g in errors && errors[g] == e3[g]
    ensures forall g :: g in errors && g != SenderField && g != ReceiverField ==> g in e3
    ensures SenderField in errors <==> blankSender
    ensures ReceiverField in errors <==> blankReceiver
    ensures SenderField in errors ==> errors[SenderField] == SenderRequired
    ensures ReceiverField in errors ==> errors[ReceiverField] == ReceiverRequired
  {
    var e4 := Check(e3, blankSender, SenderField, SenderRequired);
    Check(e4, blankReceiver, ReceiverField, ReceiverRequired)
  }

  /** The first three tests: date, category and subcategory must be chosen. */
  function CheckSelections(noDate: bool, noCategory: bool, noSubcategory: bool)
    : (errors: map<Field, string>)
    ensures errors.Keys <= {DateField, CategoryField, SubcategoryField}
    ensures DateField in errors <==> noDate
    ensures CategoryField in errors <==> noCategory
    ensures SubcategoryField in errors <==> noSubcategory
    ensures DateField in errors ==> errors[DateField] == DateRequired
    ensures CategoryField in errors ==> errors[CategoryField] == CategoryRequired
    ensures SubcategoryField in errors ==> errors[SubcategoryField] == SubcategoryRequired
  {
    var e1 := Check(map[], noDate, DateField, DateRequired);
    var e2 := Check(e1, noCategory, CategoryField, CategoryRequired);
    Check(e2, noSubcategory, SubcategoryField, SubcategoryRequired)
  }

  /** `validateTransactionForm()`: true exactly when no error was recorded. */
  function ValidateTransactionForm(f: Form, toNumber: string -> JsNumber): (ok: bool)
    ensures ok <==> FormErrors(f, toNumber) == map[]
  {
    |FormErrors(f, toNumber).Keys| == 0
  }

  /** Some character of `s` is not whitespace. */
  predicate HasText(s: string) {
    exists i :: 0 <= i < |s| && !IsJsWhitespace(s[i])
  }

  /** What an acceptable form is, field by field: a date, a category and a subcategory are
      chosen, sender and receiver contain text, remarks are empty or at least three UTF-16
      code units long once trimmed, and the amount is a number greater than zero. */
  predicate Acceptable(f: Form, toNumber: string -> JsNumber) {
    && f.date != ""
    && f.category != ""
    && f.subcategory != ""
    && HasText(f.sender)
    && HasText(f.receiver)
    && (|Trim(f.remarks)| == 0 || Utf16Length(Trim(f.remarks)) >= 3)
    && f.amount != ""
    && Positive(toNumber(f.amount))
  }

  /** The form is valid exactly when it is acceptable. */
  lemma ValidIffAcceptable(f: Form, toNumber: string -> JsNumber)
    ensures ValidateTransactionForm(f, toNumber) <==> Acceptable(f, toNumber)
  {
    var errors := FormErrors(f, toNumber);
    if !ValidateTransactionForm(f, toNumber) {
      var k :| k in errors;
      match k
      case SenderField =>
        assert !HasText(f.sender);
      case ReceiverField =>
        assert !HasText(f.receiver);
      case _ =>
    }
  }

  /** Each way a field can fail rejects the whole form. */
  lemma Rejections(f: Form, toNumber: string -> JsNumber)
    ensures f.date == "" ==> !ValidateTransactionForm(f, toNumber)
    ensures AllWhitespace(f.sender) ==> !ValidateTransactionForm(f, toNumber)
    ensures AllWhitespace(f.receiver) ==> !ValidateTransactionForm(f, toNumber)
    ensures f.amount == "" ==> !ValidateTransactionForm(f, toNumber)
    ensures toNumber(f.amount).NaN? ==> !ValidateTransactionForm(f, toNumber)
    ensures toNumber(f.amount).Finite? && toNumber(f.amount).value <= 0.0
            ==> !ValidateTransactionForm(f, toNumber)
    ensures Utf16Length(Trim(f.remarks)) in {1, 2} ==> !ValidateTransactionForm(f, toNumber)
  {
    var errors := FormErrors(f, toNumber);
    if f.date == "" { assert DateField in errors; }
    if AllWhitespace(f.sender) { assert SenderField in errors; }
    if AllWhitespace(f.receiver) { assert ReceiverField in errors; }
    if f.amount == "" || !Positive(toNumber(f.amount)) { assert AmountField in errors; }
    if Utf16Length(Trim(f.remarks)) in {1, 2} { assert RemarksField in errors; }
  }

  /** The record `handleAddTransaction` sends: the form spread into it, then sender, receiver
      and remarks trimmed and the amount converted with `Number`. */
  datatype Payload = Payload(
    date: string,
    category: string,
    subcategory: string,
    amount: JsNumber,
    sender: string,
    receiver: string,
    remarks: string)

  /** Text with something in it that neither starts nor ends with whitespace. */
  predicate Trimmed(s: string) {
    |s| > 0 && !IsJsWhitespace(s[0]) && !IsJsWhitespace(s[|s| - 1])
  }

  /** What the server receives from an accepted form: every selection made, sender and receiver
      non-blank with no surrounding whitespace, remarks empty or at least three UTF-16 code
      units, and an amount greater than zero. */
  predicate WellFormedPayload(p: Payload) {
    && p.date != "" && p.category != "" && p.subcategory != ""
    && Trimmed(p.sender) && Trimmed(p.receiver)
    && (|p.remarks| == 0 || Utf16Length(p.remarks) >= 3)
    && Positive(p.amount)
  }

  /** The payload keeps date, category and subcategory as typed, and is well formed whenever
      the form passes validation. */
  function MakePayload(f: Form, toNumber: string -> JsNumber): (p: Payload)
    ensures p.date == f.date && p.category == f.category && p.subcategory == f.subcategory
    ensures ValidateTransactionForm(f, toNumber) ==> WellFormedPayload(p)
  {
    ValidIffAcceptable(f, toNumber);
    Build(f, toNumber)
  }

  /** `{ ...formData, sender: sender.trim(), receiver: receiver.trim(), remarks: remarks.trim(),
      amount: Number(amount) }`. */
  function Build(f: Form, toNumber: string -> JsNumber): Payload {
    Payload(f.date, f.category, f.subcategory, toNumber(f.amount), Trim(f.sender),
            Trim(f.receiver), Trim(f.remarks))
  }

  /** Remarks of two emoji are four UTF-16 code units, so they pass the length test. */
  lemma SurrogatePairRemarks(f: Form, toNumber: string -> JsNumber)
    requires f.remarks == "\U{1F600}\U{1F600}"
    ensures RemarksField !in FormErrors(f, toNumber)
  {
    var s := f.remarks;
    assert !IsJsWhitespace(s[0]) && !IsJsWhitespace(s[1]);
    assert Trim(s) == s;
    assert Utf16Length(s) == 4;
  }
}
