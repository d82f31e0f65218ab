/**
 * The OMDb lookup as `DataManager.add_movie` sees it, and the conversion of
 * the reply's Year text to an integer column value.
 *
 * The HTTP request itself is not modelled: what the network delivered is a
 * `Reply` value given to the model, and `FetchOmdbData` is the outcome
 * `_fetch_omdb_data` derives from it.
 */
module Omdb {
  import opened Wrappers

  /**
   * The keys of a positive OMDb reply that `add_movie` reads. A positive
   * reply always carries Title; Director, Year and Poster are `None` when
   * the key is missing, as `dict.get` gives.
   */
  datatype LookupRecord = LookupRecord(
    title: string,
    director: Option<string>,
    year: Option<string>,
    poster: Option<string>)

  /**
   * What one request to the service delivered: an exception of the HTTP
   * library (connection error, timeout, error status, undecodable body),
   * or a decoded JSON object with its Response key (`None` when missing).
   */
  datatype Reply =
    | RequestFailed
    | Received(response: Option<string>, record: LookupRecord)

  /** The lookup yields the record exactly when the reply's Response is "True". */
  function FetchOmdbData(reply: Reply): (r: Option<LookupRecord>)
    ensures r.Some? <==> reply.Received? && reply.response == Some("True")
    ensures r.Some? ==> r.value == reply.record
  {
    match reply
    case RequestFailed => None
    case Received(response, record) => if response == Some("True") then Some(record) else None
  }

  predicate IsDigit(c: char)
  {
    '0' <= c <= '9'
  }

  predicate AllDigits(s: string)
  {
    forall i :: 0 <= i < |s| ==> IsDigit(s[i])
  }

  /** `str.isdigit()` on ASCII text: at least one character, all of them digits. */
  predicate IsDigitString(s: string)
  {
    s != [] && AllDigits(s)
  }

  function DigitValue(c: char): nat
    requires IsDigit(c)
  {
    c as int - '0' as int
  }

  function Digit(d: nat): char
    requires d < 10
  {
    ('0' as int + d) as char
  }

  function Pow10(k: nat): nat
  {
    if k == 0 then 1 else 10 * Pow10(k - 1)
  }

  /** `int(s)` on a string of ASCII digits: its base-10 value. */
  function DigitsValue(s: string): nat
    requires AllDigits(s)
    decreases |s|
  {
    if s == [] then 0 else DigitsValue(s[..|s| - 1]) * 10 + DigitValue(s[|s| - 1])
  }

  /**
   * The year column computed from the reply's Year value: an integer when the
   * text passes `isdigit()`, NULL otherwise (also when the key is missing).
   */
  function ParseYear(year: Option<string>): (r: Option<int>)
    ensures r.Some? <==> year.Some? && IsDigitString(year.value)
    ensures r.Some? ==> r.value == DigitsValue(year.value)
  {
    if year.Some? && IsDigitString(year.value) then Some(DigitsValue(year.value)) else None
  }

  /** The shortest base-10 text of `n`, the form `str(n)` gives. */
  function DecimalString(n: nat): (s: string)
    ensures IsDigitString(s)
    decreases n
  {
    if n < 10 then [Digit(n)] else DecimalString(n / 10) + [Digit(n % 10)]
  }

  /** Decimal text without superfluous leading zeros. */
  predicate Canonical(s: string)
  {
    IsDigitString(s) && (s[0] != '0' || |s| == 1)
  }

  /** Every year written in decimal parses back to itself. */
  lemma {:induction false} ParseDecimalString(n: nat)
    ensures ParseYear(Some(DecimalString(n))) == Some(n)
    decreases n
  {
    var s := DecimalString(n);
    if n < 10 {
      assert s[..|s| - 1] == [];
      assert DigitValue(s[0]) == n;
      assert DigitsValue(s) == n;
      assert IsDigitString(s);
    } else {
      ParseDecimalString(n / 10);
      assert s[..|s| - 1] == DecimalString(n / 10);
    }
  }

  lemma {:induction false} DecimalStringCanonical(n: nat)
    ensures Canonical(DecimalString(n))
    ensures n > 0 ==> DecimalString(n)[0] != '0'
    decreases n
  {
    if n >= 10 {
      DecimalStringCanonical(n / 10);
    }
  }

  lemma {:induction false} LeadingDigitPositive(s: string)
    requires IsDigitString(s) && s[0] != '0'
    ensures DigitsValue(s) >= 1
    decreases |s|
  {
    if |s| > 1 {
      var prefix := s[..|s| - 1];
      assert prefix[0] == s[0];
      LeadingDigitPositive(prefix);
    }
  }

  /** Decimal text without leading zeros is exactly the text of the value it parses to. */
  lemma {:induction false} CanonicalRoundTrip(s: string)
    requires Canonical(s)
    ensures DecimalString(DigitsValue(s)) == s
    decreases |s|
  {
    if |s| > 1 {
      var prefix := s[..|s| - 1];
      assert prefix[0] == s[0];
      LeadingDigitPositive(prefix);
      CanonicalRoundTrip(prefix);
      var v, d := DigitsValue(prefix), DigitValue(s[|s| - 1]);
      assert DigitsValue(s) == v * 10 + d;
      assert (v * 10 + d) / 10 == v && (v * 10 + d) % 10 == d;
      assert Digit(d) == s[|s| - 1];
      assert s == prefix + [s[|s| - 1]];
    }
  }

  /** A k-character digit string is below 10^k: a four-character Year is below 10000. */
  lemma {:induction false} DigitsValueBound(s: string)
    requires AllDigits(s)
    ensures DigitsValue(s) < Pow10(|s|)
    decreases |s|
  {
    if s != [] {
      DigitsValueBound(s[..|s| - 1]);
    }
  }

  /** Leading zeros are accepted and ignored, as `int("02010") == 2010`. */
  lemma {:induction false} LeadingZeroIgnored(s: string)
    requires AllDigits(s)
    ensures AllDigits(['0'] + s) && DigitsValue(['0'] + s) == DigitsValue(s)
    decreases |s|
  {
    var z := ['0'] + s;
    if s != [] {
      LeadingZeroIgnored(s[..|s| - 1]);
      assert z[..|z| - 1] == ['0'] + s[..|s| - 1];
    } else {
      assert z[..|z| - 1] == [];
    }
  }
}
