/** The one-time-code helpers of the email-verification flow
    (backend/utils/otpHelper.js). Time is a count of milliseconds since the
    epoch supplied by the caller (`Date.now()` / `new Date()`), and the random
    draw of `generateOTP` is supplied as the integer it turns into. */
module OtpHelper {
  import opened Common

  const MsPerMinute: int := 60 * 1000
  /** The `minutesValid = 10` default of `getOTPExpiryTime`. */
  const DefaultValidMinutes: int := 10
  /** The smallest code `generateOTP` yields and the width of its range. */
  const LowestCode: nat := 100000
  const CodeSpan: nat := 900000

  /** A value of a JSON request body, as the handler reads it (`undefined`
      and `null` behave alike here and are both `Null`). */
  datatype JsonValue = Null | Bool(b: bool) | Num(n: int) | Str(s: string)

  /** JavaScript truthiness of a JSON value. */
  predicate JsonTruthy(v: JsonValue) {
    match v
    case Null => false
    case Bool(b) => b
    case Num(n) => n != 0
    case Str(s) => s != ""
  }

  /** `v.toString()` for a value that is not `null`. */
  function JsonToString(v: JsonValue): string
    requires !v.Null?
  {
    match v
    case Bool(b) => if b then "true" else "false"
    case Num(n) => IntToString(n)
    case Str(s) => s
  }

  // ---- decimal notation, as `Number.prototype.toString()` writes integers ----

  predicate IsDigit(c: char) {
    '0' <= c <= '9'
  }

  predicate AllDigits(s: string) {
    forall k :: 0 <= k < |s| ==> IsDigit(s[k])
  }

  function DigitChar(d: nat): (c: char)
    requires d < 10
    ensures IsDigit(c) && c as int - '0' as int == d
  {
    ('0' as int + d) as char
  }

  function NatToString(n: nat): (s: string)
    ensures |s| >= 1
  {
    if n < 10 then [DigitChar(n)] else NatToString(n / 10) + [DigitChar(n % 10)]
  }

  function IntToString(i: int): (s: string)
    ensures |s| >= 1
  {
    if i < 0 then "-" + NatToString(-i) else NatToString(i)
  }

  /** The number a string of decimal digits denotes. */
  function DigitsValue(s: string): nat
    requires AllDigits(s)
  {
    if s == [] then 0 else 10 * DigitsValue(s[..|s| - 1]) + (s[|s| - 1] as int - '0' as int)
  }

  function Pow10(k: nat): (p: nat)
    ensures p >= 1
  {
    if k == 0 then 1 else 10 * Pow10(k - 1)
  }

  /** Writing a number in decimal and reading it back gives the number. */
  lemma {:induction false} NatToStringRoundTrip(n: nat)
    ensures AllDigits(NatToString(n))
    ensures DigitsValue(NatToString(n)) == n
  {
    if n >= 10 {
      NatToStringRoundTrip(n / 10);
      var s := NatToString(n);
      assert s[..|s| - 1] == NatToString(n / 10);
    }
  }

  /** A number in [10^k, 10^(k+1)) is written with exactly k + 1 digits. */
  lemma {:induction false} NatToStringLength(n: nat, k: nat)
    requires Pow10(k) <= n < Pow10(k + 1)
    ensures |NatToString(n)| == k + 1
  {
    if k > 0 {
      NatToStringLength(n / 10, k - 1);
    }
  }

  /** `Math.floor(100000 + Math.random() * 900000).toString()`, where
      `offset` is `Math.floor(Math.random() * 900000)`, an integer below
      900000 because `Math.random()` is below 1. */
  function GenerateOtp(offset: nat): (code: string)
    requires offset < CodeSpan
    ensures |code| == 6 && AllDigits(code)
    ensures DigitsValue(code) == LowestCode + offset
    ensures LowestCode <= DigitsValue(code) <= 999999
  {
    var n := LowestCode + offset;
    NatToStringRoundTrip(n);
    assert Pow10(5) == 100000 && Pow10(6) == 1000000;
    NatToStringLength(n, 5);
    NatToString(n)
  }

  /** `getOTPExpiryTime(minutesValid)`: `minutesValid` minutes after `now`;
      ten minutes when the argument is left out. */
  function ExpiryTime(now: int, minutesValid: Option<int>): (expiresAt: int)
    ensures minutesValid.None? ==> expiresAt == now + 600000
    ensures minutesValid.Some? ==> expiresAt - now == minutesValid.value * 60000
  {
    var minutes := match minutesValid case None => DefaultValidMinutes case Some(m) => m;
    now + minutes * MsPerMinute
  }

  /** `new Date() > new Date(expiryDate)`. A stored expiry of `null` reads as
      the epoch (`new Date(null)` is time 0). */
  function IsOtpExpired(now: int, expiresAt: Option<int>): (expired: bool)
    ensures expiresAt.Some? ==> (expired <==> now > expiresAt.value)
  {
    now > (match expiresAt case None => 0 case Some(t) => t)
  }

  /** `isOTPValid(storedOTP, providedOTP, expiryDate)`: fails closed on a
      falsy code on either side, fails once expired, and otherwise compares
      the stored code with the supplied value turned into a string. */
  function IsOtpValid(stored: Option<string>, supplied: JsonValue, expiresAt: Option<int>, now: int): (valid: bool)
    ensures valid ==> OptTruthy(stored) && JsonTruthy(supplied)
    ensures valid ==> !IsOtpExpired(now, expiresAt)
    ensures valid ==> stored.value == JsonToString(supplied)
    ensures OptTruthy(stored) && JsonTruthy(supplied) && !IsOtpExpired(now, expiresAt) ==>
      (valid <==> stored.value == JsonToString(supplied))
  {
    if !OptTruthy(stored) || !JsonTruthy(supplied) then false
    else if IsOtpExpired(now, expiresAt) then false
    else stored.value == JsonToString(supplied)
  }

  /** At exactly its expiry instant a code is still accepted; one millisecond
      later it is not. */
  lemma ExpiryIsInclusive(code: string, expiresAt: int)
    requires code != ""
    ensures IsOtpValid(Some(code), Str(code), Some(expiresAt), expiresAt)
    ensures !IsOtpValid(Some(code), Str(code), Some(expiresAt), expiresAt + 1)
  {
  }

  /** A code sent back as a JSON number matches its decimal string: the
      client may post `123456` or `"123456"`. */
  lemma NumericCodeMatches(n: nat, expiresAt: Option<int>, now: int)
    requires n > 0
    ensures IsOtpValid(Some(NatToString(n)), Num(n), expiresAt, now) == !IsOtpExpired(now, expiresAt)
  {
  }

  /** A freshly generated code with the default lifetime is accepted, whether
      sent as text or as a number, exactly until ten minutes after issue, and
      any different text is refused. */
  lemma {:induction false} FreshCodeAcceptedForTenMinutes(offset: nat, issuedAt: int, now: int, other: string)
    requires offset < CodeSpan
    requires other != GenerateOtp(offset)
    ensures var code, expiry := GenerateOtp(offset), Some(ExpiryTime(issuedAt, None));
      && (IsOtpValid(Some(code), Str(code), expiry, now) <==> now <= issuedAt + 600000)
      && (IsOtpValid(Some(code), Num(LowestCode + offset), expiry, now) <==> now <= issuedAt + 600000)
      && !IsOtpValid(Some(code), Str(other), expiry, now)
  {
    var code := GenerateOtp(offset);
    assert code == NatToString(LowestCode + offset);
    assert JsonToString(Num(LowestCode + offset)) == code;
  }

  /** A stored code that has been cleared (`null`) or is empty never matches,
      whatever is supplied and whenever. */
  lemma ClearedCodeNeverMatches(supplied: JsonValue, expiresAt: Option<int>, now: int)
    ensures !IsOtpValid(None, supplied, expiresAt, now)
    ensures !IsOtpValid(Some(""), supplied, expiresAt, now)
  {
  }
}
