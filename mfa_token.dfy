/** Validation of the one-time MFA code typed by the operator
    (`get_mfa_token`): the line is trimmed, must parse as a Rust `u32`, and
    the trimmed text itself, not the number, is the token. */
module MfaToken {
  import opened Wrappers
  import opened AwsTypes

  const U32_MAX: nat := 0xFFFF_FFFF

  // ---------------------------------------------------------------------
  // Trimming, as `str::trim` does it
  // ---------------------------------------------------------------------

  /** Rust's `char::is_whitespace`: the Unicode White_Space property. */
  predicate IsWhitespace(c: char) {
    var n := c as int;
    || 0x09 <= n <= 0x0D
    || n == 0x20
    || n == 0x85
    || n == 0xA0
    || n == 0x1680
    || 0x2000 <= n <= 0x200A
    || n == 0x2028
    || n == 0x2029
    || n == 0x202F
    || n == 0x205F
    || n == 0x3000
  }

  predicate AllWhitespace(s: string) {
    forall i :: 0 <= i < |s| ==> IsWhitespace(s[i])
  }

  /** Neither begins nor ends with whitespace. */
  predicate IsTrimmed(s: string) {
    s == [] || (!IsWhitespace(s[0]) && !IsWhitespace(s[|s| - 1]))
  }

  /** Drops the leading whitespace: the result is the suffix of `s` that
      starts at its first non-whitespace character. */
  function TrimStart(s: string): (r: string)
    ensures |r| <= |s| && r == s[|s| - |r|..]
    ensures forall i :: 0 <= i < |s| - |r| ==> IsWhitespace(s[i])
    ensures r == [] || !IsWhitespace(r[0])
  {
    if s != [] && IsWhitespace(s[0]) then TrimStart(s[1..]) else s
  }

  /** Drops the trailing whitespace: the result is the prefix of `s` that
      ends at its last non-whitespace character. */
  function TrimEnd(s: string): (r: string)
    ensures |r| <= |s| && r == s[..|r|]
    ensures forall i :: |r| <= i < |s| ==> IsWhitespace(s[i])
    ensures r == [] || !IsWhitespace(r[|r| - 1])
  {
    if s != [] && IsWhitespace(s[|s| - 1]) then TrimEnd(s[..|s| - 1]) else s
  }

  /** `str::trim`. */
  function Trim(s: string): (r: string)
    ensures |r| <= |s|
    ensures IsTrimmed(r)
  {
    TrimEnd(TrimStart(s))
  }

  lemma {:induction false} TrimStartSkipsLead(lead: string, rest: string)
    requires AllWhitespace(lead)
    requires rest == [] || !IsWhitespace(rest[0])
    ensures TrimStart(lead + rest) == rest
  {
    if lead != [] {
      assert (lead + rest)[1..] == lead[1..] + rest;
      TrimStartSkipsLead(lead[1..], rest);
    }
  }

  lemma {:induction false} TrimEndSkipsTrail(rest: string, trail: string)
    requires AllWhitespace(trail)
    requires rest == [] || !IsWhitespace(rest[|rest| - 1])
    ensures TrimEnd(rest + trail) == rest
  {
    if trail != [] {
      var n := |trail| - 1;
      assert (rest + trail)[..|rest + trail| - 1] == rest + trail[..n];
      TrimEndSkipsTrail(rest, trail[..n]);
    } else {
      assert rest + trail == rest;
    }
  }

  /** Trimming removes exactly the surrounding whitespace: a text with no
      whitespace at either end, padded with whitespace, trims back to it. */
  lemma {:induction false} TrimSurrounded(lead: string, x: string, trail: string)
    requires AllWhitespace(lead) && AllWhitespace(trail)
    requires IsTrimmed(x)
    ensures Trim(lead + x + trail) == x
  {
    if x == [] {
      assert lead + x + trail == lead + trail;
      assert AllWhitespace(lead + trail) by {
        forall i | 0 <= i < |lead + trail| ensures IsWhitespace((lead + trail)[i]) {
          if i < |lead| {
            assert (lead + trail)[i] == lead[i];
          } else {
            assert (lead + trail)[i] == trail[i - |lead|];
          }
        }
      }
      TrimStartSkipsLead(lead + trail, []);
      assert lead + trail + [] == lead + trail;
    } else {
      assert lead + x + trail == lead + (x + trail);
      TrimStartSkipsLead(lead, x + trail);
      TrimEndSkipsTrail(x, trail);
    }
  }

  /** The source trims the line and then trims it again before parsing; the
      second trim changes nothing. */
  lemma TrimIdempotent(s: string)
    ensures Trim(Trim(s)) == Trim(s)
  {
    var t := Trim(s);
    assert [] + t + [] == t;
    TrimSurrounded([], t, []);
  }

  // ---------------------------------------------------------------------
  // Parsing, as `<u32 as FromStr>::from_str` does it
  // ---------------------------------------------------------------------

  /** The error kinds of Rust's `ParseIntError` for an unsigned type. */
  datatype IntErrorKind = Empty | InvalidDigit | PosOverflow

  predicate IsAsciiDigit(c: char) {
    '0' <= c <= '9'
  }

  predicate AllDigits(ds: string) {
    forall i :: 0 <= i < |ds| ==> IsAsciiDigit(ds[i])
  }

  function DigitValue(c: char): (d: nat)
    requires IsAsciiDigit(c)
    ensures d < 10
  {
    c as int - '0' as int
  }

  function Pow10(n: nat): (p: nat)
    ensures p >= 1
  {
    if n == 0 then 1 else 10 * Pow10(n - 1)
  }

  /** Positional decimal value: the first of n digits weighs 10^(n-1). */
  function DecimalValue(ds: string): nat
    requires AllDigits(ds)
  {
    if ds == [] then 0 else DigitValue(ds[0]) * Pow10(|ds| - 1) + DecimalValue(ds[1..])
  }

  /** The digit part of an unsigned literal: a single leading `+` is allowed. */
  function UnsignedDigits(s: string): string {
    if |s| > 0 && s[0] == '+' then s[1..] else s
  }

  /** What `u32` accepts: an optional `+`, at least one ASCII digit, and a
      value that fits in 32 bits.  Leading zeros are allowed. */
  predicate IsU32Literal(s: string) {
    var ds := UnsignedDigits(s);
    |ds| > 0 && AllDigits(ds) && DecimalValue(ds) <= U32_MAX
  }

  /** The digit loop of `from_str_radix`: each step multiplies the running
      value by ten and adds the digit, failing as soon as either operation
      leaves the `u32` range. */
  function Accumulate(acc: nat, ds: string): (r: Result<nat, IntErrorKind>)
    requires acc <= U32_MAX
    ensures r.Ok? <==> AllDigits(ds) && acc * Pow10(|ds|) + DecimalValue(ds) <= U32_MAX
    ensures r.Ok? ==> AllDigits(ds) && r.value == acc * Pow10(|ds|) + DecimalValue(ds)
    ensures r != Err(Empty)
    decreases |ds|
  {
    if ds == [] then
      Ok(acc)
    else if !IsAsciiDigit(ds[0]) then
      Err(InvalidDigit)
    else
      var d := DigitValue(ds[0]);
      var p := Pow10(|ds| - 1);
      assert Pow10(|ds|) == 10 * p;
      assert acc * Pow10(|ds|) == acc * 10 * p;
      assert AllDigits(ds) ==> AllDigits(ds[1..]) && DecimalValue(ds) == d * p + DecimalValue(ds[1..]);
      assert AllDigits(ds[1..]) ==> AllDigits(ds) by {
        if AllDigits(ds[1..]) {
          forall i | 0 <= i < |ds| ensures IsAsciiDigit(ds[i]) {
            if i > 0 { assert ds[i] == ds[1..][i - 1]; }
          }
        }
      }
      if acc * 10 > U32_MAX then
        assert acc * 10 * p >= acc * 10;
        Err(PosOverflow)
      else if acc * 10 + d > U32_MAX then
        assert (acc * 10 + d) * p >= acc * 10 + d;
        assert acc * 10 * p + d * p == (acc * 10 + d) * p;
        Err(PosOverflow)
      else
        assert acc * 10 * p + d * p == (acc * 10 + d) * p;
        Accumulate(acc * 10 + d, ds[1..])
  }

  /** `<u32 as FromStr>::from_str`, with the error kinds of current Rust: a
      lone sign is `InvalidDigit` (older releases said `Empty`).  The
      program ignores the kind. */
  function ParseU32(s: string): (r: Result<nat, IntErrorKind>)
    ensures r.Ok? <==> IsU32Literal(s)
    ensures r.Ok? ==> AllDigits(UnsignedDigits(s)) && r.value == DecimalValue(UnsignedDigits(s))
    ensures r == Err(Empty) <==> s == []
  {
    if s == [] then
      Err(Empty)
    else if s == "+" || s == "-" then
      Err(InvalidDigit)
    else
      Accumulate(0, UnsignedDigits(s))
  }

  // ---------------------------------------------------------------------
  // The token prompt
  // ---------------------------------------------------------------------

  /** `get_mfa_token` on the line the operator typed (its newline included).
      Accepted exactly when the trimmed line is a `u32` literal; the result is
      the trimmed text, so leading zeros and a leading `+` are kept.  A bad
      code ends the run: there is no second prompt. */
  function GetMfaToken(line: string): (r: Result<string, Error>)
    ensures r.Ok? <==> IsU32Literal(Trim(line))
    ensures r.Ok? ==> r.value == Trim(line)
    ensures r.Err? ==> r.error == InvalidMfaToken
  {
    var token := Trim(line);
    TrimIdempotent(line);
    match ParseU32(Trim(token))
    case Ok(_) => Ok(token)
    case Err(_) => Err(InvalidMfaToken)
  }

  /** A u32 literal is a non-empty run of ASCII digits with at most one `+`
      in front: it holds no whitespace, so trimming leaves it alone. */
  lemma U32LiteralHasNoWhitespace(s: string)
    requires IsU32Literal(s)
    ensures IsTrimmed(s)
    ensures forall i :: 0 <= i < |s| ==> !IsWhitespace(s[i])
  {
    var ds := UnsignedDigits(s);
    forall i | 0 <= i < |s| ensures !IsWhitespace(s[i]) {
      if s[0] == '+' {
        if i > 0 { assert s[i] == ds[i - 1]; }
      } else {
        assert s[i] == ds[i];
      }
    }
  }

  /** An accepted token contains no whitespace, and its digits (after an
      optional `+`) are all ASCII digits. */
  lemma AcceptedTokenShape(line: string)
    requires GetMfaToken(line).Ok?
    ensures var t := GetMfaToken(line).value;
      && |UnsignedDigits(t)| > 0
      && AllDigits(UnsignedDigits(t))
      && forall i :: 0 <= i < |t| ==> !IsWhitespace(t[i])
  {
    U32LiteralHasNoWhitespace(Trim(line));
  }

  /** A line made of whitespace, a literal and whitespace yields the literal
      untouched. */
  lemma GetMfaTokenPadded(lead: string, token: string, trail: string)
    requires AllWhitespace(lead) && AllWhitespace(trail)
    requires IsU32Literal(token)
    ensures GetMfaToken(lead + token + trail) == Ok(token)
  {
    U32LiteralHasNoWhitespace(token);
    TrimSurrounded(lead, token, trail);
  }

  // ---------------------------------------------------------------------
  // The codes the program is expected to accept and to reject
  // ---------------------------------------------------------------------

  lemma AcceptsSixDigits()
    ensures GetMfaToken("123456\n") == Ok("123456")
  {
    assert DecimalValue("123456") == 123456;
    assert "" + "123456" + "\n" == "123456\n";
    GetMfaTokenPadded("", "123456", "\n");
  }

  lemma KeepsLeadingZeros()
    ensures GetMfaToken("  000123\n") == Ok("000123")
  {
    assert DecimalValue("000123") == 123;
    assert "  " + "000123" + "\n" == "  000123\n";
    GetMfaTokenPadded("  ", "000123", "\n");
  }

  lemma RejectsEmpty()
    ensures GetMfaToken("\n") == Err(InvalidMfaToken)
  {
    assert "\n" + "" + "" == "\n";
    TrimSurrounded("\n", "", "");
  }

  lemma RejectsLetters()
    ensures GetMfaToken("abc123") == Err(InvalidMfaToken)
  {
    assert "" + "abc123" + "" == "abc123";
    TrimSurrounded("", "abc123", "");
    assert !IsAsciiDigit("abc123"[0]);
  }

  lemma RejectsInnerSpace()
    ensures GetMfaToken("12 34") == Err(InvalidMfaToken)
  {
    assert "" + "12 34" + "" == "12 34";
    TrimSurrounded("", "12 34", "");
    assert !IsAsciiDigit("12 34"[2]);
  }

  lemma AllDigitsAppend(a: string, b: string)
    requires AllDigits(a) && AllDigits(b)
    ensures AllDigits(a + b)
  {
    forall i | 0 <= i < |a + b| ensures IsAsciiDigit((a + b)[i]) {
      if i < |a| { assert (a + b)[i] == a[i]; } else { assert (a + b)[i] == b[i - |a|]; }
    }
  }

  /** The value of a concatenation: the left part is shifted by the length
      of the right part. */
  lemma {:induction false} DecimalValueAppend(a: string, b: string)
    requires AllDigits(a) && AllDigits(b)
    ensures AllDigits(a + b)
    ensures DecimalValue(a + b) == DecimalValue(a) * Pow10(|b|) + DecimalValue(b)
  {
    AllDigitsAppend(a, b);
    if a != [] {
      var rest := a[1..];
      assert AllDigits(rest) by {
        forall i | 0 <= i < |rest| ensures IsAsciiDigit(rest[i]) { assert rest[i] == a[i + 1]; }
      }
      assert (a + b)[1..] == rest + b;
      DecimalValueAppend(rest, b);
      Pow10Add(|rest|, |b|);
      var d, p, q := DigitValue(a[0]), Pow10(|rest|), Pow10(|b|);
      assert (a + b)[0] == a[0];
      assert DecimalValue(a + b) == d * Pow10(|rest| + |b|) + DecimalValue(rest + b);
      assert DecimalValue(a) == d * p + DecimalValue(rest);
      ShiftDistributes(d, p, q, DecimalValue(rest));
    } else {
      assert a + b == b;
    }
  }

  lemma ShiftDistributes(d: nat, p: nat, q: nat, x: nat)
    ensures d * (p * q) + x * q == (d * p + x) * q
  {
  }

  lemma {:induction false} Pow10Add(m: nat, n: nat)
    ensures Pow10(m + n) == Pow10(m) * Pow10(n)
  {
    if m > 0 {
      Pow10Add(m - 1, n);
      assert Pow10(m + n) == 10 * Pow10(m - 1 + n);
    }
  }

  /** The two halves of the ten-digit boundary values. */
  lemma HighHalf()
    ensures AllDigits("42949") && DecimalValue("42949") == 42949 && Pow10(5) == 100000
  {
    assert DecimalValue("42949") == 42949;
  }

  lemma LowHalfOfMax()
    ensures AllDigits("67295") && DecimalValue("67295") == 67295
  {
    assert DecimalValue("67295") == 67295;
  }

  lemma LowHalfAboveMax()
    ensures AllDigits("67296") && DecimalValue("67296") == 67296
  {
    assert DecimalValue("67296") == 67296;
  }

  lemma DecimalValueOfU32Max()
    ensures AllDigits("4294967295") && DecimalValue("4294967295") == U32_MAX
  {
    HighHalf();
    LowHalfOfMax();
    DecimalValueAppend("42949", "67295");
    assert "42949" + "67295" == "4294967295";
  }

  lemma DecimalValueAboveU32Max()
    ensures AllDigits("4294967296") && DecimalValue("4294967296") == U32_MAX + 1
  {
    HighHalf();
    LowHalfAboveMax();
    DecimalValueAppend("42949", "67296");
    assert "42949" + "67296" == "4294967296";
  }

  lemma AcceptsU32Max()
    ensures GetMfaToken("4294967295") == Ok("4294967295")
  {
    DecimalValueOfU32Max();
    assert "" + "4294967295" + "" == "4294967295";
    GetMfaTokenPadded("", "4294967295", "");
  }

  lemma RejectsAboveU32Max()
    ensures GetMfaToken("4294967296") == Err(InvalidMfaToken)
  {
    var s := "4294967296";
    assert !IsU32Literal(s) by {
      DecimalValueAboveU32Max();
      assert UnsignedDigits(s) == s;
    }
    assert Trim(s) == s by {
      assert "" + s + "" == s;
      TrimSurrounded("", s, "");
    }
  }
}
