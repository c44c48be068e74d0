/** The two formatting helpers of the booking confirmation e-mail
    (server/lib/booking-email.ts): the masked identity-document number and
    the capitalised gender. The e-mail body and its sending are outside the
    model. */
module BookingEmail {
  import opened Text

  /** `maskIdNumber`: six or more characters show the first two and the
      last two around four stars; four or five show the first and the last
      around two stars; anything shorter is four stars. */
  function MaskIdNumber(id: string): (r: string)
    ensures |id| >= 6 ==> |r| == 8 && r[..2] == id[..2] && r[2..6] == "****" && r[6..] == id[|id| - 2..]
    ensures 4 <= |id| < 6 ==> |r| == 4 && r[0] == id[0] && r[1..3] == "**" && r[3] == id[|id| - 1]
    ensures |id| < 4 ==> r == "****"
  {
    if |id| >= 6 then id[..2] + "****" + id[|id| - 2..]
    else if |id| >= 4 then id[..1] + "**" + id[|id| - 1..]
    else "****"
  }

  /** How many characters of the document number the mask shows. */
  function Shown(id: string): nat {
    if |id| >= 6 then 4 else if |id| >= 4 then 2 else 0
  }

  /** The mask never shows the whole number: at least two characters of any
      document of four or more characters stay hidden, and at most four are
      ever shown. */
  lemma MaskHidesSome(id: string)
    ensures Shown(id) <= 4
    ensures |id| >= 4 ==> Shown(id) <= |id| - 2
    ensures |MaskIdNumber(id)| - Shown(id) >= 2
  {
  }

  /** Two document numbers of the same length that agree on the characters
      the mask shows are indistinguishable in the e-mail. */
  lemma MaskDependsOnlyOnShown(a: string, b: string)
    requires |a| == |b|
    requires |a| >= 6 ==> a[..2] == b[..2] && a[|a| - 2..] == b[|b| - 2..]
    requires 4 <= |a| < 6 ==> a[0] == b[0] && a[|a| - 1] == b[|b| - 1]
    ensures MaskIdNumber(a) == MaskIdNumber(b)
  {
  }

  /** `formatGender`: the first character upper-cased, the rest kept. */
  function FormatGender(gender: string): (r: string)
    ensures |r| == |gender|
    ensures gender != [] ==> r[0] == UpperChar(gender[0]) && r[1..] == gender[1..]
  {
    if gender == [] then [] else [UpperChar(gender[0])] + gender[1..]
  }

  /** Formatting twice is formatting once. */
  lemma FormatGenderIdempotent(gender: string)
    ensures FormatGender(FormatGender(gender)) == FormatGender(gender)
  {
    if gender != [] {
      assert FormatGender(gender)[1..] == gender[1..];
    }
  }

  /** The four genders a booking stores are shown as "Male", "Female",
      "Other" and "Unknown". */
  lemma StoredGendersFormatted()
    ensures FormatGender("male") == "Male" && FormatGender("female") == "Female"
    ensures FormatGender("other") == "Other" && FormatGender("unknown") == "Unknown"
  {
    assert FormatGender("male") == ['M'] + "ale";
    assert FormatGender("female") == ['F'] + "emale";
    assert FormatGender("other") == ['O'] + "ther";
    assert FormatGender("unknown") == ['U'] + "nknown";
  }
}
