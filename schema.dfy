/** The request validators of shared/schema.ts. The table definitions of that
    file become the row datatypes of module Tables and the uniqueness part of
    `ReservationStore.Valid`. */
module Schema {
  import opened Common
  import opened Text
  import opened Decimal

  /** Body of POST /api/shows/:id/book after parsing. */
  datatype BookSeatsRequest = BookSeatsRequest(seatIds: seq<int>, idempotencyKey: string, userId: Option<string>)

  const MaxSeatsPerBooking: nat := 6

  /** `seatIds: z.array(z.number()).min(1).max(6)`; the key and the optional
      user id are strings by their types. */
  predicate ValidBookSeats(req: BookSeatsRequest) {
    1 <= |req.seatIds| <= MaxSeatsPerBooking
  }

  /** States of a left-to-right match of `^\+?[1-9]\d{1,14}$`. */
  datatype PhoneScan = Start | AfterPlus | InDigits(count: nat)

  function ScanPhone(s: string, i: nat, st: PhoneScan): bool
    requires i <= |s|
    decreases |s| - i
  {
    if i == |s| then st.InDigits? && 2 <= st.count <= 15
    else match st
      case Start =>
        if s[i] == '+' then ScanPhone(s, i + 1, AfterPlus)
        else if '1' <= s[i] <= '9' then ScanPhone(s, i + 1, InDigits(1))
        else false
      case AfterPlus =>
        if '1' <= s[i] <= '9' then ScanPhone(s, i + 1, InDigits(1)) else false
      case InDigits(n) =>
        if IsDigit(s[i]) && n < 15 then ScanPhone(s, i + 1, InDigits(n + 1)) else false
  }

  /** `requestOtpSchema.phoneNumber`: the regular expression `^\+?[1-9]\d{1,14}$`. */
  predicate ValidOtpPhone(s: string) {
    ScanPhone(s, 0, Start)
  }

  /** The number without its optional leading `+`. */
  function PhoneBody(s: string): string {
    if |s| > 0 && s[0] == '+' then s[1..] else s
  }

  /** An optional `+`, then 2 to 15 digits (the ITU-T E.164 maximum) of which
      the first is not 0. */
  predicate E164Shape(s: string) {
    var b := PhoneBody(s);
    2 <= |b| <= 15 && '1' <= b[0] <= '9' && AllDigits(b)
  }

  lemma {:induction false} ScanDigits(s: string, i: nat, k: nat)
    requires i <= |s| && k <= 15
    ensures ScanPhone(s, i, InDigits(k)) <==> AllDigits(s[i..]) && 2 <= k + |s| - i <= 15
    decreases |s| - i
  {
    if i < |s| {
      if IsDigit(s[i]) && k < 15 {
        ScanDigits(s, i + 1, k + 1);
        assert s[i..] == [s[i]] + s[i + 1..];
      } else if !IsDigit(s[i]) {
        assert !AllDigits(s[i..]) by { assert s[i..][0] == s[i]; }
      }
    }
  }

  /** The matcher accepts exactly the E.164-shaped numbers. */
  lemma OtpPhoneIsE164(s: string)
    ensures ValidOtpPhone(s) <==> E164Shape(s)
  {
    if |s| > 0 {
      var b := PhoneBody(s);
      if s[0] == '+' {
        if |s| > 1 && '1' <= s[1] <= '9' {
          ScanDigits(s, 2, 1);
          assert ScanPhone(s, 0, Start) == ScanPhone(s, 2, InDigits(1));
          assert b == [s[1]] + s[2..];
          assert AllDigits(b) <==> AllDigits(s[2..]) by {
            assert forall k :: 1 <= k < |b| ==> b[k] == s[2..][k - 1];
          }
        } else {
          assert ScanPhone(s, 0, Start) == ScanPhone(s, 1, AfterPlus);
          assert |s| > 1 ==> b[0] == s[1];
        }
      } else if '1' <= s[0] <= '9' {
        ScanDigits(s, 1, 1);
        assert b == [s[0]] + s[1..];
        assert AllDigits(b) <==> AllDigits(s[1..]) by {
          assert forall k :: 1 <= k < |b| ==> b[k] == s[1..][k - 1];
        }
      }
    }
  }

  // ------------------------------------------------------------ e-mail

  predicate AsciiLetter(c: char) {
    'a' <= c <= 'z' || 'A' <= c <= 'Z'
  }

  predicate AsciiAlnum(c: char) {
    AsciiLetter(c) || IsDigit(c)
  }

  /** `[A-Z0-9_'+\-\.]` under the case-insensitive flag. */
  predicate LocalChar(c: char) {
    AsciiAlnum(c) || c == '_' || c == '\'' || c == '+' || c == '-' || c == '.'
  }

  /** `(?!\.)(?!.*\.\.)([A-Z0-9_'+\-\.]*)[A-Z0-9_+-]` before the `@`: local
      characters, not starting with a dot, no two dots in a row, and ending
      in a character that is neither a dot nor an apostrophe. */
  predicate ValidLocalPart(l: string) {
    && |l| >= 1
    && (forall i :: 0 <= i < |l| ==> LocalChar(l[i]))
    && l[0] != '.' && l[|l| - 1] != '.' && l[|l| - 1] != '\''
    && (forall i :: 0 <= i < |l| - 1 ==> !(l[i] == '.' && l[i + 1] == '.'))
  }

  /** `[A-Z0-9][A-Z0-9\-]*`: one label of the domain. */
  predicate DomainLabel(s: string) {
    |s| >= 1 && AsciiAlnum(s[0]) && forall i :: 1 <= i < |s| ==> AsciiAlnum(s[i]) || s[i] == '-'
  }

  /** `[A-Z]{2,}`: the top-level domain. */
  predicate TopLevel(s: string) {
    |s| >= 2 && forall i :: 0 <= i < |s| ==> AsciiLetter(s[i])
  }

  /** `([A-Z0-9][A-Z0-9\-]*\.)+[A-Z]{2,}`: one or more labels, each followed
      by a dot, then the top-level domain. */
  predicate ValidDomain(d: string) {
    var parts := Split(d, '.');
    |parts| >= 2 && TopLevel(parts[|parts| - 1])
    && forall k :: 0 <= k < |parts| - 1 ==> DomainLabel(parts[k])
  }

  /** `z.string().email()` of requestOtpEmailSchema and verifyOtpEmailSchema:
      zod 3's pattern. Neither half may hold an `@`, so the address splits at
      its only `@` into the local part and the domain. */
  predicate ValidEmail(e: string) {
    var parts := Split(e, '@');
    |parts| == 2 && ValidLocalPart(parts[0]) && ValidDomain(parts[1])
  }

  /** An address with a single `@` is valid exactly when its two halves are
      a valid local part and a valid domain. */
  lemma EmailSplits(local: string, domain: string)
    requires forall i :: 0 <= i < |local| ==> local[i] != '@'
    requires forall i :: 0 <= i < |domain| ==> domain[i] != '@'
    ensures ValidEmail(local + ['@'] + domain) <==> ValidLocalPart(local) && ValidDomain(domain)
  {
    SplitCons(local, '@', domain);
    SplitNoSep(domain, '@');
  }

  /** A word without an `@` is refused. */
  lemma NoAtRefused()
    ensures !ValidEmail("foo")
  {
    SplitNoSep("foo", '@');
  }

  /** The domain of a plain address: one label, then a two-letter top level. */
  lemma PlainDomain()
    ensures ValidDomain("b.co")
  {
    assert "b.co" == "b" + ['.'] + "co";
    SplitCons("b", '.', "co");
    SplitNoSep("co", '.');
  }

  /** A plain address is accepted. */
  lemma PlainAddressAccepted()
    ensures ValidEmail("a@b.co")
  {
    var local: string, domain: string := "a", "b.co";
    EmailSplits(local, domain);
    PlainDomain();
    assert "a@b.co" == local + ['@'] + domain;
  }

  /** A domain without a dot is refused. */
  lemma DotlessDomainRefused()
    ensures !ValidEmail("a@b")
  {
    var local: string, domain: string := "a", "b";
    EmailSplits(local, domain);
    SplitNoSep(domain, '.');
    assert "a@b" == local + ['@'] + domain;
  }

  /** A local part that starts with a dot is refused. */
  lemma LeadingDotRefused()
    ensures !ValidEmail(".a@b.co")
  {
    var local: string, domain: string := ".a", "b.co";
    EmailSplits(local, domain);
    assert ".a@b.co" == local + ['@'] + domain;
  }

  const OtpLength: nat := 4

  /** `otp: z.string().length(4)` and `code: z.string().length(4)`. */
  predicate ValidOtpCode(code: string) {
    |code| == OtpLength
  }

  /** Every code the server issues (1000..9999, printed with `toString`)
      passes the verify schemas. */
  lemma IssuedCodesPassSchema(n: nat)
    requires 1000 <= n <= 9999
    ensures ValidOtpCode(NatToString(n)) && AllDigits(NatToString(n))
  {
    FourDigits(n);
  }
}
