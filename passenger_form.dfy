/** The passenger-details form shown before a booking
    (client/src/components/PassengerDetailsModal.tsx): its validation ladder,
    the enabling condition of its submit button, and the passenger record it
    submits to the booking endpoint. */
module PassengerForm {
  import opened Common
  import opened Text
  import opened Tables
  import opened RouteRules

  /** What the user typed. */
  datatype Form = Form(gender: string, phone: string, idType: string, idNumber: string)

  /** One message per field, absent when the field passes. */
  datatype FormErrors = FormErrors(gender: Option<string>, phone: Option<string>,
                                   idType: Option<string>, idNumber: Option<string>)

  /** The last ten characters, or all of a shorter string (`slice(-10)`). */
  function LastTen(s: string): (r: string)
    ensures |r| == if |s| < 10 then |s| else 10
    ensures r == s[|s| - |r|..]
  {
    if |s| <= 10 then s else s[|s| - 10..]
  }

  /** `normalizePhone`: ten digits get the Indian prefix, twelve starting
      with 91 get a plus, anything else is the prefix and the last ten
      digits. */
  function NormalizePhone(phone: string): (r: string)
    ensures |r| >= 3 && r[0] == '+' && AllDigits(r[1..])
    ensures |r| == 3 + (if |Digits(phone)| < 10 then |Digits(phone)| else 10)
  {
    var d := Digits(phone);
    if |d| == 10 then "+91" + d
    else if |d| == 12 && StartsWith(d, "91") then "+" + d
    else "+91" + LastTen(d)
  }

  /** For a phone the form accepts, every branch yields the Indian prefix
      followed by the last ten digits typed. */
  lemma NormalizedPhoneShape(phone: string)
    requires |Digits(phone)| >= 10
    ensures var d := Digits(phone);
            NormalizePhone(phone) == "+91" + d[|d| - 10..]
  {
    var d := Digits(phone);
    if |d| == 12 && StartsWith(d, "91") {
      assert d == d[..2] + d[2..];
      assert "+" + d == "+91" + d[2..];
    }
  }

  /** The digits of a prefixed ten-digit tail are the country code and the
      tail. */
  lemma PrefixedDigits(tail: string)
    requires |tail| == 10 && AllDigits(tail)
    ensures Digits("+91" + tail) == "91" + tail
  {
    assert AllDigits("91" + tail);
    assert "+91" + tail == "+" + ("91" + tail);
    FilterAppend("+", "91" + tail, IsDigit);
    assert Filter("+", IsDigit) == [];
    DigitsIdempotent("91" + tail);
  }

  /** The server's normalisation keeps a prefixed ten-digit tail. */
  lemma BookingPhoneKeepsPrefixed(tail: string)
    requires |tail| == 10 && AllDigits(tail)
    ensures NormalizeBookingPhone("+91" + tail) == Some("+91" + tail)
  {
    PrefixedDigits(tail);
    assert "+" + ("91" + tail) == "+91" + tail;
  }

  /** Normalising twice changes nothing once ten digits were typed (the
      validation demands them): the second pass sees twelve digits starting
      with 91. */
  lemma NormalizePhoneIdempotent(phone: string)
    requires |Digits(phone)| >= 10
    ensures NormalizePhone(NormalizePhone(phone)) == NormalizePhone(phone)
  {
    var d := Digits(phone);
    var tail := d[|d| - 10..];
    NormalizedPhoneShape(phone);
    PrefixedDigits(tail);
    assert "+" + ("91" + tail) == "+91" + tail;
  }

  /** `/^\d{12}$/` */
  predicate TwelveDigits(s: string) {
    |s| == 12 && AllDigits(s)
  }

  predicate AlphaNum(c: char) {
    IsDigit(c) || 'A' <= c <= 'Z' || 'a' <= c <= 'z'
  }

  /** `/^[A-Z0-9]{10}$/i` */
  predicate PanShape(s: string) {
    |s| == 10 && forall i :: 0 <= i < |s| ==> AlphaNum(s[i])
  }

  /** The phone rule of `validateForm`: required, then ten digits. */
  function PhoneError(phone: string): (m: Option<string>)
    ensures m.None? <==> phone != "" && |Digits(phone)| >= 10
  {
    if phone == "" then Some("Phone number is required")
    else if |Digits(phone)| < 10 then Some("Enter a valid 10-digit phone number")
    else None
  }

  /** The document rule of `validateForm`: required, at least four
      characters, then the shape the document type demands. */
  function IdNumberError(idType: string, idNumber: string): (m: Option<string>)
    ensures m.None? <==>
              && |idNumber| >= 4
              && (idType == "Aadhar Card" ==> TwelveDigits(RemoveSpaces(idNumber)))
              && (idType == "PAN Card" ==> PanShape(idNumber))
  {
    if idNumber == "" then Some("ID number is required")
    else if |idNumber| < 4 then Some("ID number must be at least 4 characters")
    else if idType == "Aadhar Card" && !TwelveDigits(RemoveSpaces(idNumber)) then Some("Aadhar must be 12 digits")
    else if idType == "PAN Card" && !PanShape(idNumber) then Some("PAN must be 10 alphanumeric characters")
    else None
  }

  /** `validateForm`: each field is checked independently; within the phone
      and the document number the first failing rule names the message. */
  function Validate(f: Form): (e: FormErrors)
    ensures e.gender.None? <==> f.gender != ""
    ensures e.phone.None? <==> f.phone != "" && |Digits(f.phone)| >= 10
    ensures e.idType.None? <==> f.idType != ""
    ensures e.idNumber.None? <==>
              && |f.idNumber| >= 4
              && (f.idType == "Aadhar Card" ==> TwelveDigits(RemoveSpaces(f.idNumber)))
              && (f.idType == "PAN Card" ==> PanShape(f.idNumber))
  {
    FormErrors(
      if f.gender == "" then Some("Please select your gender") else None,
      PhoneError(f.phone),
      if f.idType == "" then Some("Please select an ID type") else None,
      IdNumberError(f.idType, f.idNumber))
  }

  predicate Passes(e: FormErrors) {
    e.gender.None? && e.phone.None? && e.idType.None? && e.idNumber.None?
  }

  /** The record with the message of one field added when there is one. */
  function Put(m: map<string, string>, field: string, message: Option<string>): map<string, string> {
    if message.Some? then m[field := message.value] else m
  }

  /** The messages keyed by field name, as the form keeps them. */
  function AsRecord(e: FormErrors): (m: map<string, string>)
    ensures |m| == 0 <==> Passes(e)
  {
    var m := Put(Put(Put(Put(map[], "gender", e.gender), "phone", e.phone), "idType", e.idType), "idNumber", e.idNumber);
    assert e.gender.Some? ==> "gender" in m;
    assert e.phone.Some? ==> "phone" in m;
    assert e.idType.Some? ==> "idType" in m;
    assert e.idNumber.Some? ==> "idNumber" in m;
    m
  }

  /** The phone ladder of `validateForm`, adding its message to the record. */
  method CheckPhone(errors: map<string, string>, phone: string) returns (out: map<string, string>)
    ensures out == Put(errors, "phone", PhoneError(phone))
  {
    out := errors;
    var phoneDigits := Digits(phone);
    if phone == "" {
      out := out["phone" := "Phone number is required"];
    } else if |phoneDigits| < 10 {
      out := out["phone" := "Enter a valid 10-digit phone number"];
    }
  }

  /** The document-number ladder of `validateForm`. */
  method CheckIdNumber(errors: map<string, string>, idType: string, idNumber: string) returns (out: map<string, string>)
    ensures out == Put(errors, "idNumber", IdNumberError(idType, idNumber))
  {
    out := errors;
    if idNumber == "" {
      out := out["idNumber" := "ID number is required"];
    } else if |idNumber| < 4 {
      out := out["idNumber" := "ID number must be at least 4 characters"];
    } else if idType == "Aadhar Card" && !TwelveDigits(RemoveSpaces(idNumber)) {
      out := out["idNumber" := "Aadhar must be 12 digits"];
    } else if idType == "PAN Card" && !PanShape(idNumber) {
      out := out["idNumber" := "PAN must be 10 alphanumeric characters"];
    }
  }

  /** `validateForm`: starts from an empty record, adds the message of each
      failing field in turn, and reports whether the record stayed empty. */
  method ValidateForm(f: Form) returns (errors: map<string, string>, ok: bool)
    ensures errors == AsRecord(Validate(f))
    ensures ok <==> Passes(Validate(f))
  {
    ghost var e := Validate(f);
    errors := map[];
    if f.gender == "" {
      errors := errors["gender" := "Please select your gender"];
    }
    assert errors == Put(map[], "gender", e.gender);
    errors := CheckPhone(errors, f.phone);
    ghost var m2 := errors;
    if f.idType == "" {
      errors := errors["idType" := "Please select an ID type"];
    }
    assert errors == Put(m2, "idType", e.idType);
    errors := CheckIdNumber(errors, f.idType, f.idNumber);
    assert errors == AsRecord(e);
    ok := |errors| == 0;
  }

  /** `isFormValid`, which enables the submit button. */
  predicate SubmitEnabled(f: Form) {
    f.gender != "" && |Digits(f.phone)| >= 10 && f.idType != "" && |f.idNumber| >= 4
  }

  /** A form that validates has its button enabled. */
  lemma ValidImpliesEnabled(f: Form)
    requires Passes(Validate(f))
    ensures SubmitEnabled(f)
  {
  }

  /** The converse fails: the button is enabled for a four-character Aadhar
      number, which the validation then refuses. */
  lemma EnabledButRefused()
    ensures var f := Form("male", "9876543210", "Aadhar Card", "1234");
            SubmitEnabled(f) && !Passes(Validate(f))
  {
    TenDigitPhone("9876543210");
    ShortAadhar("1234");
  }

  lemma TenDigitPhone(phone: string)
    requires |phone| == 10 && AllDigits(phone)
    ensures |Digits(phone)| == 10
  {
    DigitsIdempotent(phone);
  }

  lemma ShortAadhar(idNumber: string)
    requires |idNumber| < 12
    ensures !TwelveDigits(RemoveSpaces(idNumber))
  {
  }

  /** The record submitted: the phone normalised, the document number upper
      case without white space. */
  function Submitted(f: Form): (p: Passenger)
    ensures p.gender == f.gender && p.idType == f.idType
    ensures forall i :: 0 <= i < |p.idNumber| ==> !IsSpace(p.idNumber[i]) && !('a' <= p.idNumber[i] <= 'z')
    ensures p.idNumber == Upper(RemoveSpaces(f.idNumber))
    ensures p.phone == NormalizePhone(f.phone) && |p.phone| <= 13
  {
    UpperRemoveSpaces(f.idNumber);
    var id := RemoveSpaces(Upper(f.idNumber));
    assert forall i :: 0 <= i < |id| ==> id[i] in id;
    Passenger(f.gender, NormalizePhone(f.phone), f.idType, id)
  }

  /** The phone of a validated form reaches the booking handler already in
      the form the handler stores: its normalisation keeps it unchanged. */
  lemma SubmittedPhoneKept(f: Form)
    requires Passes(Validate(f))
    ensures NormalizeBookingPhone(Submitted(f).phone) == Some(Submitted(f).phone)
  {
    var d := Digits(f.phone);
    var tail := d[|d| - 10..];
    NormalizedPhoneShape(f.phone);
    assert Submitted(f).phone == "+91" + tail;
    BookingPhoneKeepsPrefixed(tail);
  }
}
