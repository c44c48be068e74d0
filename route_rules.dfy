/** The constants and the small pure normalisations the HTTP handlers of
    server/routes.ts apply before they touch the store. */
module RouteRules {
  import opened Common
  import opened Text

  /** A new booking is held for 60 s. */
  const BookingHoldMs: int := 60000
  /** A seat lock lasts 120 s. */
  const SeatLockTtlMs: int := 120000
  /** An OTP is valid for 3 minutes. */
  const OtpTtlMs: int := 180000
  /** The OTP request cool-down window is 10 minutes. */
  const OtpWindowMs: int := 600000
  const OtpMaxAttempts: int := 3

  /** The booking handler's passenger phone rule: fewer than ten digits is
      refused; exactly ten get the Indian prefix; more are kept as given with a
      leading `+`. */
  function NormalizeBookingPhone(phone: string): (r: Option<string>)
    ensures r.None? <==> |Digits(phone)| < 10
    ensures r.Some? ==> |r.value| >= 11 && r.value[0] == '+' && AllDigits(r.value[1..])
    ensures r.Some? ==> |r.value| > |Digits(phone)| && r.value[|r.value| - |Digits(phone)|..] == Digits(phone)
    ensures |Digits(phone)| == 10 ==> r == Some("+91" + Digits(phone))
    ensures |Digits(phone)| > 10 ==> r == Some("+" + Digits(phone))
  {
    var d := Digits(phone);
    if |d| < 10 then None
    else if |d| == 10 then
      var p := "+91" + d;
      assert p[1..] == "91" + d;
      Some(p)
    else
      var p := "+" + d;
      assert p[1..] == d;
      Some(p)
  }

  /** A normalised booking phone is a fixed point: normalising it again gives
      it back. */
  lemma BookingPhoneIdempotent(phone: string)
    requires NormalizeBookingPhone(phone).Some?
    ensures NormalizeBookingPhone(NormalizeBookingPhone(phone).value) == NormalizeBookingPhone(phone)
  {
    var p := NormalizeBookingPhone(phone).value;
    var d := Digits(phone);
    var body := if |d| == 10 then "91" + d else d;
    assert p == "+" + body;
    DigitsAfterPlus(body);
  }

  /** The digits of a `+` and a digit string are that string. */
  lemma DigitsAfterPlus(body: string)
    requires AllDigits(body)
    ensures Digits("+" + body) == body
  {
    FilterAppend("+", body, IsDigit);
    assert Digits("+") == [];
    DigitsIdempotent(body);
  }

  const AllowedGenders: seq<string> := ["male", "female", "other", "unknown"]

  /** `passenger?.gender?.toLowerCase() || "unknown"`, then anything outside
      the allowed list becomes "unknown". */
  function NormalizeGender(gender: Option<string>): (r: string)
    ensures r in AllowedGenders
    ensures gender.Some? && Lower(gender.value) in AllowedGenders ==> r == Lower(gender.value)
    ensures gender.None? ==> r == "unknown"
    ensures gender.Some? && Lower(gender.value) !in AllowedGenders ==> r == "unknown"
  {
    var g := if gender.Some? then Lower(gender.value) else "";
    if g in AllowedGenders then g else "unknown"
  }

  /** Normalising an already stored gender changes nothing. */
  lemma GenderIdempotent(gender: Option<string>)
    ensures NormalizeGender(Some(NormalizeGender(gender))) == NormalizeGender(gender)
  {
    var g := NormalizeGender(gender);
    assert Lower(g) == g by {
      assert g == "male" || g == "female" || g == "other" || g == "unknown";
      LowerOfLowerCase(g);
    }
  }

  lemma LowerOfLowerCase(s: string)
    requires forall i :: 0 <= i < |s| ==> !('A' <= s[i] <= 'Z')
    ensures Lower(s) == s
  {
  }

  /** `seatNumber.trim().toUpperCase()`: the key notifications are stored
      and looked up under. */
  function SeatLabel(seatNumber: string): (r: string)
    ensures r == [] || (!IsSpace(r[0]) && !IsSpace(r[|r| - 1]))
    ensures forall i :: 0 <= i < |r| ==> !('a' <= r[i] <= 'z')
    ensures |r| == |Trim(seatNumber)| && forall i :: 0 <= i < |r| ==> r[i] == UpperChar(Trim(seatNumber)[i])
  {
    Upper(Trim(seatNumber))
  }

  lemma {:induction false} TrimNoEdgeSpaces(s: string)
    requires s == [] || (!IsSpace(s[0]) && !IsSpace(s[|s| - 1]))
    ensures Trim(s) == s
  {
    assert TrimStart(s) == s;
  }

  /** Labels are already normalised: normalising one again is the identity, so
      the subscribe and release paths agree on the key. */
  lemma SeatLabelIdempotent(seatNumber: string)
    ensures SeatLabel(SeatLabel(seatNumber)) == SeatLabel(seatNumber)
  {
    var t := Trim(seatNumber);
    var l := Upper(t);
    TrimNoEdgeSpaces(l);
    UpperIdempotent(t);
  }

  /** `userId.substring(0, 4) + '****'` in the public lock list. */
  function MaskUserId(userId: string): (r: string)
    ensures |r| == (if |userId| < 4 then |userId| else 4) + 4
    ensures r[|r| - 4..] == "****"
    ensures StartsWith(userId, r[..|r| - 4])
  {
    var keep := if |userId| < 4 then |userId| else 4;
    var r := userId[..keep] + "****";
    assert r[..|r| - 4] == userId[..keep];
    r
  }

  /** The mask never shows more than the first four characters: ids that
      agree on them mask alike. */
  lemma MaskHidesTail(a: string, b: string)
    requires |a| >= 4 && |b| >= 4 && a[..4] == b[..4]
    ensures MaskUserId(a) == MaskUserId(b)
  {
  }

  /** The placeholder address a phone-only user is created with. */
  function PhoneUserEmail(phone: string): (r: string)
    ensures |r| == |phone| + |"@phone.nextravel.local"|
    ensures r[..|phone|] == phone
  {
    phone + "@phone.nextravel.local"
  }
}
