/**
 * The transaction token of payments/views.py: the string sent to the
 * payment gateway as `tran_id` when a payment is initiated, and the parser
 * that maps the `tran_id` of the gateway's success callback back to a cart.
 */
module PaymentToken {
  import opened Wrappers

  /** The literal prefix of every token (spelled as in the source). */
  const Prefix: string := "transectionId"

  /**
   * A calendar date. Years are limited to 1000..9999: `%Y` is four digits
   * there, while its padding below 1000 depends on the platform's C library.
   */
  datatype Date = Date(year: nat, month: nat, day: nat)

  function DaysInMonth(year: nat, month: nat): nat
  {
    if month == 2 then (if (year % 4 == 0 && year % 100 != 0) || year % 400 == 0 then 29 else 28)
    else if month == 4 || month == 6 || month == 9 || month == 11 then 30
    else 31
  }

  predicate ValidDate(d: Date)
  {
    1000 <= d.year <= 9999 && 1 <= d.month <= 12 && 1 <= d.day <= DaysInMonth(d.year, d.month)
  }

  predicate IsDigit(c: char)
  {
    '0' <= c <= '9'
  }

  predicate AllDigits(s: string)
  {
    forall i | 0 <= i < |s| :: IsDigit(s[i])
  }

  function DigitChar(d: nat): (c: char)
    requires d < 10
    ensures IsDigit(c)
  {
    ('0' as int + d) as char
  }

  function DigitValue(c: char): (d: nat)
    requires IsDigit(c)
    ensures d < 10 && DigitChar(d) == c
  {
    c as int - '0' as int
  }

  /** `str(n)` for a non-negative integer: its decimal digits, without leading zeros. */
  function Decimal(n: nat): (s: string)
    ensures |s| >= 1 && AllDigits(s)
    ensures s[0] == '0' ==> n == 0
  {
    if n < 10 then [DigitChar(n)] else Decimal(n / 10) + [DigitChar(n % 10)]
  }

  /** A two-digit zero-padded field (`%m`, `%d`). */
  function Pad2(n: nat): (s: string)
    requires n < 100
    ensures |s| == 2 && AllDigits(s)
  {
    [DigitChar(n / 10), DigitChar(n % 10)]
  }

  /** A four-digit year (`%Y`). */
  function Pad4(n: nat): (s: string)
    requires n < 10000
    ensures |s| == 4 && AllDigits(s)
  {
    [DigitChar(n / 1000), DigitChar(n / 100 % 10), DigitChar(n / 10 % 10), DigitChar(n % 10)]
  }

  /** `date.strftime('%Y%m%d')`: always eight digits. */
  function Yyyymmdd(d: Date): (s: string)
    requires ValidDate(d)
    ensures |s| == 8 && AllDigits(s)
  {
    Pad4(d.year) + Pad2(d.month) + Pad2(d.day)
  }

  /** The token of cart `cartId` on date `today`: `f"transectionId{cart_id}{today:%Y%m%d}"`. */
  function Token(cartId: nat, today: Date): (t: string)
    requires ValidDate(today)
    ensures |t| == |Prefix| + |Decimal(cartId)| + 8 && t[..|Prefix|] == Prefix
  {
    Prefix + Decimal(cartId) + Yyyymmdd(today)
  }

  /**
   * `s.replace("transectionId", "")`: one left-to-right pass that deletes
   * every non-overlapping occurrence of the prefix.
   */
  function RemovePrefixes(s: string): (r: string)
    ensures |r| <= |s|
  {
    if |s| >= |Prefix| && s[..|Prefix|] == Prefix then RemovePrefixes(s[|Prefix|..])
    else if s == [] then []
    else [s[0]] + RemovePrefixes(s[1..])
  }

  /** The value of a string of decimal digits. */
  function DigitsValue(s: string): nat
    requires AllDigits(s)
  {
    if s == [] then 0 else DigitsValue(s[..|s| - 1]) * 10 + DigitValue(s[|s| - 1])
  }

  /**
   * `int(s)` on an optional sign followed by one or more ASCII digits;
   * every other string is a ValueError, modelled as `None`.
   */
  function ParseInt(s: string): (r: Option<int>)
    ensures r.Some? ==> |s| >= 1
  {
    if s == [] then None
    else if (s[0] == '-' || s[0] == '+') && |s| >= 2 && AllDigits(s[1..]) then
      Some(if s[0] == '-' then -(DigitsValue(s[1..]) as int) else DigitsValue(s[1..]))
    else if AllDigits(s) then Some(DigitsValue(s))
    else None
  }

  /**
   * `extract_cart_id_from_tran_id`: delete the prefix, drop the last eight
   * characters (`[:-8]`, which leaves nothing of a string of eight or fewer)
   * and parse the rest as an integer. A missing token (`None.replace`
   * raises) and an unparsable rest both give `None`.
   */
  function ExtractCartId(tranId: Option<string>): Option<int>
  {
    match tranId
    case None => None
    case Some(t) =>
      var stripped := RemovePrefixes(t);
      ParseInt(if |stripped| <= 8 then [] else stripped[..|stripped| - 8])
  }

  // ---------------------------------------------------------------------------

  /** Parsing `str(n)` gives back `n`. */
  lemma {:induction false} DecimalRoundTrip(n: nat)
    ensures DigitsValue(Decimal(n)) == n
  {
    if n >= 10 {
      DecimalRoundTrip(n / 10);
      var s := Decimal(n);
      assert s[..|s| - 1] == Decimal(n / 10);
    }
  }

  /** A string without the letter 't' holds no occurrence of the prefix, so the replace leaves it as it is. */
  lemma {:induction false} NoPrefixUnchanged(s: string)
    requires forall i | 0 <= i < |s| :: s[i] != 't'
    ensures RemovePrefixes(s) == s
  {
    if |s| >= |Prefix| {
      assert s[..|Prefix|][0] == s[0];
      assert s[..|Prefix|] != Prefix;
    }
    if s != [] {
      assert forall i | 0 <= i < |s[1..]| :: s[1..][i] == s[i + 1];
      NoPrefixUnchanged(s[1..]);
    }
  }

  /** Any number of leading copies of the prefix are deleted. */
  lemma LeadingPrefixDeleted(s: string)
    ensures RemovePrefixes(Prefix + s) == RemovePrefixes(s)
  {
    assert (Prefix + s)[..|Prefix|] == Prefix;
    assert (Prefix + s)[|Prefix|..] == s;
  }

  /**
   * Round trip of the wire contract: the token built at initiation for any
   * cart on any date extracts back to that cart at the success callback.
   */
  lemma TokenRoundTrip(cartId: nat, today: Date)
    requires ValidDate(today)
    ensures ExtractCartId(Some(Token(cartId, today))) == Some(cartId)
  {
    var digits := Decimal(cartId);
    var rest := digits + Yyyymmdd(today);
    assert Token(cartId, today) == Prefix + rest;
    LeadingPrefixDeleted(rest);
    assert AllDigits(rest) by {
      forall i | 0 <= i < |rest| ensures IsDigit(rest[i]) {
        if i >= |digits| { assert rest[i] == Yyyymmdd(today)[i - |digits|]; }
      }
    }
    NoPrefixUnchanged(rest);
    assert rest[..|rest| - 8] == digits;
    DecimalRoundTrip(cartId);
  }

  /** Tokens of different carts differ, whatever their dates: the callback cannot confuse two carts. */
  lemma TokensOfDistinctCartsDiffer(c1: nat, d1: Date, c2: nat, d2: Date)
    requires ValidDate(d1) && ValidDate(d2) && c1 != c2
    ensures Token(c1, d1) != Token(c2, d2)
  {
    TokenRoundTrip(c1, d1);
    TokenRoundTrip(c2, d2);
  }

  /** Cart 7 on 2024-01-15 gives "transectionId720240115", which extracts to 7. */
  lemma TokenExample()
    ensures Token(7, Date(2024, 1, 15)) == "transectionId720240115"
    ensures ExtractCartId(Some("transectionId720240115")) == Some(7)
  {
    assert Yyyymmdd(Date(2024, 1, 15)) == "20240115";
    TokenRoundTrip(7, Date(2024, 1, 15));
  }

  /** No token, or one whose rest is eight characters or fewer, gives `None` instead of an exception. */
  lemma ShortTokensGiveNone(t: string)
    requires |RemovePrefixes(t)| <= 8
    ensures ExtractCartId(Some(t)) == None
    ensures ExtractCartId(None) == None
  {
  }

  /**
   * A rest that does not start with a digit or a sign gives `None`, for
   * instance "transectionIdNone20240115", the token of a missing cartId.
   */
  lemma NonNumericGivesNone(rest: string)
    requires |rest| > 8 && !IsDigit(rest[0]) && rest[0] != '-' && rest[0] != '+'
    requires forall i | 0 <= i < |rest| :: rest[i] != 't'
    ensures ExtractCartId(Some(Prefix + rest)) == None
  {
    LeadingPrefixDeleted(rest);
    NoPrefixUnchanged(rest);
    var body := rest[..|rest| - 8];
    assert body[0] == rest[0];
  }
}
