/** One-time-password login (phone and e-mail flavours of
    /api/auth/request-otp and /api/auth/verify-otp): the rate limit on
    requests, the verify ladder, and the bulk updates of the users table. */
module Otp {
  import opened Common
  import opened Text
  import opened Decimal
  import opened Schema
  import opened Tables
  import opened RouteRules

  /** How the handlers find a user: by phone number or by e-mail. */
  datatype UserKey = ByPhone(phone: string) | ByEmail(email: string)

  /** The request schemas: a phone must match `requestOtpSchema`'s pattern,
      an e-mail `requestOtpEmailSchema`'s `email()`. */
  predicate RequestKeyValid(key: UserKey) {
    match key
    case ByPhone(p) => ValidOtpPhone(p)
    case ByEmail(e) => ValidEmail(e)
  }

  /** The verify schemas: `verifyOtpSchema` takes any phone string,
      `verifyOtpEmailSchema` requires a valid e-mail. */
  predicate VerifyKeyValid(key: UserKey) {
    match key
    case ByPhone(_) => true
    case ByEmail(e) => ValidEmail(e)
  }

  predicate MatchesKey(u: User, key: UserKey) {
    match key
    case ByPhone(p) => u.phoneNumber == Some(p)
    case ByEmail(e) => u.email == e
  }

  /** `getUserByPhone` / `getUserByEmail`: the first matching row. */
  function FindUser(users: seq<User>, key: UserKey): Option<nat> {
    FirstIndex(users, (u: User) => MatchesKey(u, key))
  }

  /** A request is refused with 429 while three or more attempts are on
      record and the previous request is under ten minutes old. */
  predicate RateLimited(u: User, now: int) {
    u.otpAttempts >= OtpMaxAttempts && u.lastOtpRequestAt.Some? && now - u.lastOtpRequestAt.value < OtpWindowMs
  }

  /** Past the window the counter is reset before a new code is issued. */
  predicate ResetDue(u: User, now: int) {
    u.otpAttempts >= OtpMaxAttempts && u.lastOtpRequestAt.Some? && now - u.lastOtpRequestAt.value >= OtpWindowMs
  }

  /** The columns a user is found by, and its id. */
  predicate SameIdentity(a: User, b: User) {
    a.id == b.id && a.phoneNumber == b.phoneNumber && a.email == b.email
  }

  /** The code, its deadline and the time it was requested. */
  predicate SameOtp(a: User, b: User) {
    a.otp == b.otp && a.otpExpiresAt == b.otpExpiresAt && a.lastOtpRequestAt == b.lastOtpRequestAt
  }

  /** `updateUserOtp*`: every matching row gets the code, a deadline three
      minutes on and the request time; its counter and identity stay, and
      the other rows are untouched. */
  function IssueAll(users: seq<User>, key: UserKey, code: string, now: int): (r: seq<User>)
    ensures |r| == |users|
    ensures forall i :: 0 <= i < |users| ==>
              SameIdentity(r[i], users[i]) && r[i].otpAttempts == users[i].otpAttempts
    ensures forall i :: 0 <= i < |users| && MatchesKey(users[i], key) ==>
              r[i].otp == Some(code) && r[i].otpExpiresAt == Some(now + OtpTtlMs) && r[i].lastOtpRequestAt == Some(now)
    ensures forall i :: 0 <= i < |users| && !MatchesKey(users[i], key) ==> r[i] == users[i]
  {
    seq(|users|, i requires 0 <= i < |users| =>
      if MatchesKey(users[i], key)
      then users[i].(otp := Some(code), otpExpiresAt := Some(now + OtpTtlMs), lastOtpRequestAt := Some(now))
      else users[i])
  }

  /** `resetOtpAttempts*`: the matching rows' counters go to 0, nothing
      else changes. */
  function ResetAll(users: seq<User>, key: UserKey): (r: seq<User>)
    ensures |r| == |users|
    ensures forall i :: 0 <= i < |users| ==> SameIdentity(r[i], users[i]) && SameOtp(r[i], users[i])
    ensures forall i :: 0 <= i < |users| && MatchesKey(users[i], key) ==> r[i].otpAttempts == 0
    ensures forall i :: 0 <= i < |users| && !MatchesKey(users[i], key) ==> r[i] == users[i]
  {
    seq(|users|, i requires 0 <= i < |users| =>
      if MatchesKey(users[i], key) then users[i].(otpAttempts := 0) else users[i])
  }

  /** `incrementOtpAttempts*`: the matching rows' counters go up by one,
      nothing else changes. */
  function BumpAll(users: seq<User>, key: UserKey): (r: seq<User>)
    ensures |r| == |users|
    ensures forall i :: 0 <= i < |users| ==> SameIdentity(r[i], users[i]) && SameOtp(r[i], users[i])
    ensures forall i :: 0 <= i < |users| && MatchesKey(users[i], key) ==> r[i].otpAttempts == users[i].otpAttempts + 1
    ensures forall i :: 0 <= i < |users| && !MatchesKey(users[i], key) ==> r[i] == users[i]
  {
    seq(|users|, i requires 0 <= i < |users| =>
      if MatchesKey(users[i], key) then users[i].(otpAttempts := users[i].otpAttempts + 1) else users[i])
  }

  /** The bulk updates keep the columns users are found by, so the lookup
      finds the same row afterwards. */
  lemma FindUserKept(users: seq<User>, updated: seq<User>, key: UserKey)
    requires |updated| == |users|
    requires forall i :: 0 <= i < |users| ==> SameIdentity(updated[i], users[i])
    ensures FindUser(updated, key) == FindUser(users, key)
  {
    assert forall i :: 0 <= i < |users| ==> (MatchesKey(updated[i], key) <==> MatchesKey(users[i], key));
  }

  datatype Verdict = NoOtpRequested | OtpExpired | OtpMismatch | OtpMatch

  /** The verify ladder after the user is found: no code on record, then
      expiry (strictly after the deadline), then mismatch, then match. The
      attempt counter is not consulted. */
  function CheckCode(u: User, code: string, now: int): Verdict {
    if u.otp.None? || u.otp.value == "" || u.otpExpiresAt.None? then NoOtpRequested
    else if now > u.otpExpiresAt.value then OtpExpired
    else if u.otp.value != code then OtpMismatch
    else OtpMatch
  }

  /** A code the request handler issued is accepted until its deadline,
      inclusive, and expired after it; any other code is a mismatch before
      the deadline. */
  lemma IssuedCodeLifetime(u: User, n: nat, issuedAt: int, now: int, other: string)
    requires 1000 <= n <= 9999
    requires other != NatToString(n)
    ensures var v := u.(otp := Some(NatToString(n)), otpExpiresAt := Some(issuedAt + OtpTtlMs),
                         lastOtpRequestAt := Some(issuedAt));
            && (now <= issuedAt + OtpTtlMs ==> CheckCode(v, NatToString(n), now) == OtpMatch
                                               && CheckCode(v, other, now) == OtpMismatch)
            && (now > issuedAt + OtpTtlMs ==> CheckCode(v, NatToString(n), now) == OtpExpired
                                              && CheckCode(v, other, now) == OtpExpired)
  {
    FourDigits(n);
  }

  /** The verdict does not depend on the attempt counter: verify never
      enforces the limit that the request handler keeps. */
  lemma CheckIgnoresAttempts(u: User, attempts: int, code: string, now: int)
    ensures CheckCode(u.(otpAttempts := attempts), code, now) == CheckCode(u, code, now)
  {
  }

  /** A successful verify leaves the code in place, so the same code keeps
      verifying until it expires. */
  lemma MatchIsReplayable(u: User, code: string, now: int, later: int)
    requires CheckCode(u, code, now) == OtpMatch
    requires later <= u.otpExpiresAt.value
    ensures CheckCode(u.(otpAttempts := 0), code, later) == OtpMatch
  {
  }

  /** A limited user is served again once the window has passed, at which
      point the counter is reset. */
  lemma RateLimitLapses(u: User, now: int, later: int)
    requires RateLimited(u, now)
    requires later >= u.lastOtpRequestAt.value + OtpWindowMs
    ensures !RateLimited(u, later) && ResetDue(u, later)
  {
  }

  /** After a code is issued, the user the verify handler finds holds it:
      that code matches until the deadline, any other is a mismatch, and
      after the deadline both are expired. */
  lemma IssuedCodeMatches(users: seq<User>, key: UserKey, code: string, other: string, now: int, t: int)
    requires code != "" && other != code
    requires FindUser(users, key).Some?
    ensures var r := IssueAll(users, key, code, now);
            var k := FindUser(users, key).value;
            && FindUser(r, key) == Some(k)
            && (t <= now + OtpTtlMs ==> CheckCode(r[k], code, t) == OtpMatch && CheckCode(r[k], other, t) == OtpMismatch)
            && (t > now + OtpTtlMs ==> CheckCode(r[k], code, t) == OtpExpired && CheckCode(r[k], other, t) == OtpExpired)
  {
    FindUserKept(users, IssueAll(users, key, code, now), key);
  }

  /** Resetting the counter lifts the rate limit on the user found, and no
      verdict changes. */
  lemma ResetLiftsLimit(users: seq<User>, key: UserKey, code: string, now: int)
    requires FindUser(users, key).Some?
    ensures var r := ResetAll(users, key);
            var k := FindUser(users, key).value;
            && FindUser(r, key) == Some(k)
            && !RateLimited(r[k], now) && !ResetDue(r[k], now)
            && CheckCode(r[k], code, now) == CheckCode(users[k], code, now)
  {
    FindUserKept(users, ResetAll(users, key), key);
  }

  /** A mismatch adds one to the counter of the user found and changes no
      verdict: the counter is only read by the request handler. */
  lemma BumpCountsOnce(users: seq<User>, key: UserKey, code: string, now: int)
    requires FindUser(users, key).Some?
    ensures var r := BumpAll(users, key);
            var k := FindUser(users, key).value;
            && FindUser(r, key) == Some(k)
            && r[k].otpAttempts == users[k].otpAttempts + 1
            && CheckCode(r[k], code, now) == CheckCode(users[k], code, now)
  {
    FindUserKept(users, BumpAll(users, key), key);
  }

  /** The row a first request creates: a phone user gets a placeholder
      e-mail, an e-mail user no phone. */
  function NewUser(id: int, key: UserKey): (u: User)
    ensures MatchesKey(u, key)
    ensures u.otp.None? && u.otpAttempts == 0 && u.lastOtpRequestAt.None?
  {
    match key
    case ByPhone(p) => User(id, Some(p), PhoneUserEmail(p), None, None, 0, None)
    case ByEmail(e) => User(id, None, e, None, None, 0, None)
  }

  /** Two labels and a top level, joined by dots, make a valid domain. */
  lemma ThreeLabelDomain(first: string, mid: string, tld: string)
    requires DomainLabel(first) && DomainLabel(mid) && TopLevel(tld)
    requires forall i :: 0 <= i < |first| ==> first[i] != '.'
    requires forall i :: 0 <= i < |mid| ==> mid[i] != '.'
    requires forall i :: 0 <= i < |tld| ==> tld[i] != '.'
    ensures ValidDomain(first + ['.'] + (mid + ['.'] + tld))
    ensures forall i :: 0 <= i < |first + ['.'] + (mid + ['.'] + tld)| ==> (first + ['.'] + (mid + ['.'] + tld))[i] != '@'
  {
    var w := first + ['.'] + (mid + ['.'] + tld);
    ThreeLabelSplit(first, mid, tld);
    forall i | 0 <= i < |w|
      ensures w[i] != '@'
    {
      if i < |first| {
        assert w[i] == first[i];
      } else if i > |first| + |mid| + 1 {
        assert w[i] == tld[i - |first| - |mid| - 2];
      } else if |first| < i < |first| + |mid| + 1 {
        assert w[i] == mid[i - |first| - 1];
      }
    }
  }

  lemma ThreeLabelSplit(first: string, mid: string, tld: string)
    requires forall i :: 0 <= i < |first| ==> first[i] != '.'
    requires forall i :: 0 <= i < |mid| ==> mid[i] != '.'
    requires forall i :: 0 <= i < |tld| ==> tld[i] != '.'
    ensures Split(first + ['.'] + (mid + ['.'] + tld), '.') == [first, mid, tld]
  {
    SplitCons(first, '.', mid + ['.'] + tld);
    SplitCons(mid, '.', tld);
    SplitNoSep(tld, '.');
  }

  /** The labels of the placeholder domain are letters only. */
  lemma PlaceholderLabels()
    ensures DomainLabel("phone") && DomainLabel("nextravel") && TopLevel("local")
    ensures forall i :: 0 <= i < |"phone"| ==> "phone"[i] != '.'
    ensures forall i :: 0 <= i < |"nextravel"| ==> "nextravel"[i] != '.'
    ensures forall i :: 0 <= i < |"local"| ==> "local"[i] != '.'
  {
  }

  lemma PlaceholderDomainParts()
    ensures "phone.nextravel.local" == "phone" + ['.'] + ("nextravel" + ['.'] + "local")
  {
  }

  /** The domain of the placeholder e-mail. */
  lemma PlaceholderDomainValid()
    ensures ValidDomain("phone.nextravel.local")
    ensures forall i :: 0 <= i < |"phone.nextravel.local"| ==> "phone.nextravel.local"[i] != '@'
  {
    PlaceholderLabels();
    ThreeLabelDomain("phone", "nextravel", "local");
    PlaceholderDomainParts();
  }

  /** A phone that passed the request schema is a valid local part: an
      optional `+` and digits, ending in a digit. */
  lemma PhoneIsLocalPart(phone: string)
    requires ValidOtpPhone(phone)
    ensures ValidLocalPart(phone)
    ensures forall i :: 0 <= i < |phone| ==> phone[i] != '@'
  {
    OtpPhoneIsE164(phone);
    var b := PhoneBody(phone);
    forall i | 0 <= i < |phone|
      ensures phone[i] == '+' || IsDigit(phone[i])
    {
      if i > 0 && phone[0] == '+' { assert phone[i] == b[i - 1]; }
      else if phone[0] != '+' { assert phone[i] == b[i]; }
    }
    assert IsDigit(phone[|phone| - 1]) by { assert phone[|phone| - 1] == b[|b| - 1]; }
  }

  /** The placeholder e-mail of a phone that passed the request schema is
      itself a valid e-mail, so the row it is stored in can also be reached
      through the e-mail endpoints. */
  lemma PlaceholderEmailValid(phone: string)
    requires ValidOtpPhone(phone)
    ensures ValidEmail(PhoneUserEmail(phone))
  {
    var d := "phone.nextravel.local";
    assert PhoneUserEmail(phone) == phone + ['@'] + d;
    PhoneIsLocalPart(phone);
    PlaceholderDomainValid();
    EmailSplits(phone, d);
  }

  /** The e-mail the created row would carry. */
  function NewUserEmail(key: UserKey): string {
    match key
    case ByPhone(p) => PhoneUserEmail(p)
    case ByEmail(e) => e
  }
}
