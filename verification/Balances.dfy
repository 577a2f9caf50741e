/**
  Balances: the printed form in base units and in wei, the parser of both, and saturating
  arithmetic. Text is taken to be ASCII.
 */
module Balances {
  import opened Arithmetic
  import opened Ascii
  import opened Primitives
  import opened Wrappers

  const U256_MAX: nat := 0x1_0000000000000000_0000000000000000_0000000000000000_0000000000000000 - 1

  /** The base unit exponent of every currency here. */
  const SCALE: nat := 18

  // ----- characters

  predicate IsDigit(c: char) {
    '0' <= c <= '9'
  }

  predicate IsSpace(c: char) {
    c == ' ' || c == '\t' || c == '\n' || c == '\r' || c as int == 11 || c as int == 12
  }

  predicate IsLetter(c: char) {
    'a' <= c <= 'z' || 'A' <= c <= 'Z'
  }

  predicate AllDigits(s: string) {
    forall i :: 0 <= i < |s| ==> IsDigit(s[i])
  }

  predicate AllLetters(s: string) {
    forall i :: 0 <= i < |s| ==> IsLetter(s[i])
  }

  predicate EqIgnoreCase(s: string, t: string) {
    |s| == |t| && forall i :: 0 <= i < |s| ==> Lower(s[i]) == Lower(t[i])
  }

  // ----- decimal numbers

  function Pow10(n: nat): (p: nat)
    ensures p >= 1
  {
    if n == 0 then 1 else 10 * Pow10(n - 1)
  }

  function DigitChar(d: nat): (c: char)
    requires d < 10
    ensures IsDigit(c)
  {
    (48 + d) as char
  }

  function DigitValue(c: char): (d: nat)
    requires IsDigit(c)
    ensures d < 10
  {
    c as int - 48
  }

  function Decimal(n: nat): (s: string)
    ensures s != [] && AllDigits(s)
  {
    if n < 10 then [DigitChar(n)] else Decimal(n / 10) + [DigitChar(n % 10)]
  }

  function FromDecimal(s: string): (n: nat)
    requires AllDigits(s)
  {
    if s == [] then 0 else FromDecimal(s[..|s| - 1]) * 10 + DigitValue(s[|s| - 1])
  }

  function Repeat(c: char, n: nat): (s: string)
    ensures |s| == n && forall i :: 0 <= i < n ==> s[i] == c
  {
    seq(n, _ => c)
  }

  function TrimEnd(s: string, c: char): (t: string)
    ensures |t| <= |s| && t == s[..|t|] && (forall i :: |t| <= i < |s| ==> s[i] == c)
    ensures t != [] ==> t[|t| - 1] != c
  {
    if s != [] && s[|s| - 1] == c then TrimEnd(s[..|s| - 1], c) else s
  }

  // ----- printing

  /** At least one digit in front of the eighteen fractional ones. */
  function Padded(n: nat): (s: string)
    ensures |s| > SCALE && AllDigits(s)
  {
    var d := Decimal(n);
    if |d| <= SCALE then Repeat('0', SCALE + 1 - |d|) + d else d
  }

  /** `to_plain_string` of an unscaled number with eighteen fractional digits. */
  function PlainString(n: nat): (s: string) {
    var padded := Padded(n);
    padded[..|padded| - SCALE] + "." + padded[|padded| - SCALE..]
  }

  function AmountInBaseUnits(n: nat): (s: string) {
    TrimEnd(TrimEnd(PlainString(n), '0'), '.')
  }

  function Print(n: u256, c: Currency): (s: string) {
    AmountInBaseUnits(n) + " " + c.Name()
  }

  function FormatInWei(n: u256, c: Currency): (s: string) {
    Decimal(n) + " wei " + c.Name()
  }

  // ----- parsing

  /** Where the first letter is, or the length. */
  function FirstLetter(s: string): (i: nat)
    ensures i <= |s| && (forall j :: 0 <= j < i ==> !IsLetter(s[j])) && (i < |s| ==> IsLetter(s[i]))
  {
    if s == [] || IsLetter(s[0]) then 0 else 1 + FirstLetter(s[1..])
  }

  function TrimSpaces(s: string): (t: string)
    ensures |t| <= |s| && t == s[..|t|] && (t != [] ==> !IsSpace(t[|t| - 1]))
  {
    if s != [] && IsSpace(s[|s| - 1]) then TrimSpaces(s[..|s| - 1]) else s
  }

  /** The unit and the currency name behind the number: an optional `wei` with a separator, then letters only. */
  function SplitUnit(rest: string): (r: Option<(bool, string)>) {
    var name := if |rest| > 3 && (rest[3] == '_' || IsSpace(rest[3])) then rest[4..]
                else if |rest| >= 3 then rest[3..] else [];
    if "wei" <= rest && name != [] && AllLetters(name) then Some((true, name))
    else if rest != [] && AllLetters(rest) then Some((false, rest))
    else None
  }

  /** The three groups of the balance pattern: number, whether in wei, currency name. */
  function Captures(s: string): (r: Option<(string, bool, string)>) {
    var i := FirstLetter(s);
    var number := TrimSpaces(s[..i]);
    if |number| == i || number == [] || !IsDigit(number[|number| - 1])
       || (exists j :: 0 <= j < |number| && !IsDigit(number[j]) && !IsSpace(number[j]) && number[j] != '.') then None
    else
      match SplitUnit(s[i..])
      case None => None
      case Some((wei, name)) => Some((number, wei, name))
  }

  function RemoveBlanks(s: string): (t: string)
  {
    if s == [] then [] else (if s[0] == ' ' then [] else [s[0]]) + RemoveBlanks(s[1..])
  }

  function FirstDot(s: string): (i: nat)
    ensures i <= |s| && (forall j :: 0 <= j < i ==> s[j] != '.') && (i < |s| ==> s[i] == '.')
  {
    if s == [] || s[0] == '.' then 0 else 1 + FirstDot(s[1..])
  }

  /** An unscaled number and how many of its digits are fractional. */
  function ParseDecimal(s: string): (r: Option<(nat, nat)>) {
    var i := FirstDot(s);
    var digits := if i < |s| then s[..i] + s[i + 1..] else s;
    if digits == [] || !AllDigits(digits) then None
    else Some((FromDecimal(digits), if i < |s| then |s| - i - 1 else 0))
  }

  /** `unscaled` tenth-powers brought to `shift` more digits, dropping what is behind the point. */
  function Rescale(unscaled: nat, shift: nat, scale: nat): (v: nat) {
    MulNonNegative(unscaled, Pow10(shift));
    unscaled * Pow10(shift) / Pow10(scale)
  }

  function Parse(s: string, c: Currency): (r: Option<u256>) {
    match Captures(s)
    case None => None
    case Some((number, wei, name)) =>
      if !EqIgnoreCase(name, c.Name()) then None
      else
        match ParseDecimal(RemoveBlanks(number))
        case None => None
        case Some((unscaled, scale)) =>
          var value := Rescale(unscaled, if wei then 0 else SCALE, scale);
          if value > U256_MAX then None else Some(value)
  }

  // ----- decimal facts

  lemma {:induction false} FromToDecimal(n: nat)
    ensures FromDecimal(Decimal(n)) == n
  {
    if n >= 10 {
      FromToDecimal(n / 10);
      assert Decimal(n)[..|Decimal(n)| - 1] == Decimal(n / 10);
    }
  }

  lemma TenTimes(a: nat, p: nat)
    ensures a * p * 10 == a * (10 * p)
  {}

  lemma OneMoreZero(s: string)
    requires AllDigits(s)
    ensures AllDigits(s + ['0']) && FromDecimal(s + ['0']) == FromDecimal(s) * 10
  {
    assert (s + ['0'])[..|s|] == s;
  }

  lemma {:induction false} FromDecimalZerosBehind(s: string, m: nat)
    requires AllDigits(s)
    ensures AllDigits(s + Repeat('0', m)) && FromDecimal(s + Repeat('0', m)) == FromDecimal(s) * Pow10(m)
  {
    if m == 0 {
      assert s + Repeat('0', 0) == s;
    } else {
      FromDecimalZerosBehind(s, m - 1);
      assert s + Repeat('0', m) == (s + Repeat('0', m - 1)) + ['0'];
      assert Pow10(m) == 10 * Pow10(m - 1);
      hide FromDecimal, Pow10, Repeat;
      OneMoreZero(s + Repeat('0', m - 1));
      TenTimes(FromDecimal(s), Pow10(m - 1));
    }
  }

  lemma {:induction false} FromDecimalZerosBefore(s: string, m: nat)
    requires AllDigits(s)
    ensures AllDigits(Repeat('0', m) + s) && FromDecimal(Repeat('0', m) + s) == FromDecimal(s)
  {
    if s == [] {
      FromDecimalZerosBehind([], m);
      assert Repeat('0', m) + s == [] + Repeat('0', m);
    } else {
      FromDecimalZerosBefore(s[..|s| - 1], m);
      assert (Repeat('0', m) + s)[..m + |s| - 1] == Repeat('0', m) + s[..|s| - 1];
    }
  }

  lemma {:induction false} Pow10Add(m: nat, n: nat)
    ensures Pow10(m + n) == Pow10(m) * Pow10(n)
  {
    if m > 0 {
      Pow10Add(m - 1, n);
      assert Pow10(m + n) == 10 * Pow10(m - 1 + n);
      assert 10 * (Pow10(m - 1) * Pow10(n)) == (10 * Pow10(m - 1)) * Pow10(n);
    }
  }

  /** A number whose last `m` of `shift` digits are filled up is the number with those zeros written out. */
  lemma RescaleExact(unscaled: nat, shift: nat, scale: nat)
    requires scale <= shift
    ensures Rescale(unscaled, shift, scale) == unscaled * Pow10(shift - scale)
  {
    Pow10Add(shift - scale, scale);
    var high, low := Pow10(shift - scale), Pow10(scale);
    hide Pow10;
    assert unscaled * (high * low) == (unscaled * high) * low;
    DivModUnique(unscaled * (high * low), low, unscaled * high, 0);
  }

  lemma RescaleNothing(unscaled: nat)
    ensures Rescale(unscaled, 0, 0) == unscaled
  {
    RescaleExact(unscaled, 0, 0);
  }

  // ----- the shape of what is parsed

  /** Digits with at most one point in front of some of them. */
  function Number(whole: string, fraction: string): (s: string) {
    if fraction == [] then whole else whole + "." + fraction
  }

  lemma {:induction false} NoBlanks(s: string)
    requires forall i :: 0 <= i < |s| ==> s[i] != ' '
    ensures RemoveBlanks(s) == s
  {
    if s != [] {
      NoBlanks(s[1..]);
      assert s == [s[0]] + s[1..];
    }
  }

  lemma FirstDotAt(whole: string, rest: string)
    requires AllDigits(whole)
    ensures FirstDot(whole + "." + rest) == |whole|
  {
    var s := whole + "." + rest;
    assert s[|whole|] == '.';
    assert forall j :: 0 <= j < |whole| ==> s[j] == whole[j];
  }

  lemma PointParsed(whole: string, fraction: string)
    requires AllDigits(whole) && AllDigits(fraction) && fraction != []
    ensures AllDigits(whole + fraction)
    ensures ParseDecimal(whole + "." + fraction) == Some((FromDecimal(whole + fraction), |fraction|))
  {
    hide FromDecimal;
    var s := whole + "." + fraction;
    FirstDotAt(whole, fraction);
    hide FirstDot;
    assert s[..|whole|] == whole && s[|whole| + 1..] == fraction;
  }

  lemma NumberParsed(whole: string, fraction: string)
    requires AllDigits(whole) && AllDigits(fraction) && whole + fraction != []
    ensures AllDigits(whole + fraction)
    ensures ParseDecimal(RemoveBlanks(Number(whole, fraction))) == Some((FromDecimal(whole + fraction), |fraction|))
  {
    hide FromDecimal;
    var s := Number(whole, fraction);
    NoBlanks(s);
    if fraction == [] {
      assert FirstDot(s) == |s|;
      assert whole + fraction == whole;
    } else {
      PointParsed(whole, fraction);
    }
  }

  /** Digits, points and white space, with a digit at the end. */
  predicate Numeral(number: string) {
    && number != [] && IsDigit(number[|number| - 1])
    && forall c <- number :: IsDigit(c) || c == '.' || IsSpace(c)
  }

  predicate AllSpaces(gap: string) {
    forall i :: 0 <= i < |gap| ==> IsSpace(gap[i])
  }

  lemma {:induction false} SpacesTrimmed(number: string, gap: string)
    requires Numeral(number) && AllSpaces(gap)
    ensures TrimSpaces(number + gap) == number
  {
    if gap == [] {
      assert number + gap == number;
    } else {
      SpacesTrimmed(number, gap[..|gap| - 1]);
      assert (number + gap)[..|number| + |gap| - 1] == number + gap[..|gap| - 1];
    }
  }

  /** Letters start where a number and the white space behind it end. */
  lemma PrefixCaptured(number: string, gap: string, rest: string)
    requires Numeral(number) && gap != [] && AllSpaces(gap) && rest != [] && IsLetter(rest[0])
    ensures Captures(number + gap + rest) ==
            match SplitUnit(rest) case None => None case Some((wei, name)) => Some((number, wei, name))
  {
    hide SplitUnit, TrimSpaces;
    var s := number + gap + rest;
    var i := |number| + |gap|;
    assert s[i] == rest[0];
    forall j | 0 <= j < i ensures !IsLetter(s[j]) {
      if j < |number| {
        assert s[j] == number[j] && number[j] in number;
      } else {
        assert s[j] == gap[j - |number|];
      }
    }
    assert FirstLetter(s) == i;
    assert s[..i] == number + gap && s[i..] == rest;
    SpacesTrimmed(number, gap);
  }

  /** The name of a currency is not taken for a unit. */
  lemma UnitsSplit(c: Currency)
    ensures SplitUnit(c.Name()) == Some((false, c.Name()))
  {
    assert c.Name()[0] == 'w' || c.Name()[0] == 'x';
    assert c == WxHOPR ==> c.Name()[1] == 'x';
  }

  lemma ParsedBy(s: string, c: Currency, number: string, wei: bool, unscaled: nat, scale: nat)
    requires Captures(s) == Some((number, wei, c.Name()))
    requires ParseDecimal(RemoveBlanks(number)) == Some((unscaled, scale))
    ensures var value := Rescale(unscaled, if wei then 0 else SCALE, scale);
            Parse(s, c) == if value <= U256_MAX then Some(value) else None
  {
    hide Captures, ParseDecimal, RemoveBlanks, Rescale, Lower;
  }

  // ----- the main results

  lemma NumberIsNumeral(whole: string, fraction: string)
    requires AllDigits(whole) && AllDigits(fraction) && whole + fraction != []
    requires fraction == [] ==> whole != []
    ensures Numeral(Number(whole, fraction))
  {
    var number := Number(whole, fraction);
    forall c | c in number ensures IsDigit(c) || c == '.' {
      assert c in whole || c == '.' || c in fraction;
    }
  }

  lemma OneSpace()
    ensures AllSpaces(" ")
  {}

  lemma ParsesToRescaled(whole: string, fraction: string, c: Currency)
    requires AllDigits(whole) && AllDigits(fraction) && whole + fraction != []
    requires fraction == [] ==> whole != []
    ensures AllDigits(whole + fraction)
    ensures var value := Rescale(FromDecimal(whole + fraction), SCALE, |fraction|);
            Parse(Number(whole, fraction) + " " + c.Name(), c) == if value <= U256_MAX then Some(value) else None
  {
    hide SplitUnit, ParseDecimal, Captures, Rescale, RemoveBlanks, Parse, FromDecimal, Pow10, EqIgnoreCase;
    var number := Number(whole, fraction);
    NumberParsed(whole, fraction);
    UnitsSplit(c);
    OneSpace();
    hide AllSpaces, Numeral, Number;
    NumberIsNumeral(whole, fraction);
    assert IsLetter(c.Name()[0]);
    PrefixCaptured(number, " ", c.Name());
    ParsedBy(number + " " + c.Name(), c, number, false, FromDecimal(whole + fraction), |fraction|);
  }

  /** A number of the smallest unit lies at, or less than one unit below, an exact quotient. */
  predicate Floors(v: nat, total: nat, parts: nat) {
    v * parts <= total < (v + 1) * parts
  }

  /** A number with `shift` zeros behind it. */
  function Scaled(n: nat, shift: nat): (v: nat) {
    MulNonNegative(n, Pow10(shift));
    n * Pow10(shift)
  }

  lemma RescaleFloors(unscaled: nat, shift: nat, scale: nat)
    ensures Floors(Rescale(unscaled, shift, scale), Scaled(unscaled, shift), Pow10(scale))
  {
    var total, parts := Scaled(unscaled, shift), Pow10(scale);
    hide Pow10;
    assert total == parts * (total / parts) + total % parts;
  }

  lemma FloorsLimit(v: nat, total: nat, parts: nat, limit: nat)
    requires Floors(v, total, parts) && parts > 0
    ensures v < limit <==> total < limit * parts
  {
    MulMonotone(v + 1, limit, parts);
    MulMonotone(limit, v, parts);
  }

  /**
    A decimal number in base units is worth its digits times 10^18, cut off behind the eighteenth
    fractional digit; it is refused exactly when that reaches 2^256.
   */
  lemma ParseBaseUnits(whole: string, fraction: string, c: Currency)
    requires AllDigits(whole) && AllDigits(fraction) && whole + fraction != []
    requires fraction == [] ==> whole != []
    ensures AllDigits(whole + fraction)
    ensures var r := Parse(Number(whole, fraction) + " " + c.Name(), c);
            var total, parts := Scaled(FromDecimal(whole + fraction), 18), Pow10(|fraction|);
            && (r.Some? <==> total < (U256_MAX + 1) * parts)
            && (r.Some? ==> Floors(r.value, total, parts))
  {
    hide Parse, Rescale, Pow10, FromDecimal, Number, Scaled, Floors;
    ParsesToRescaled(whole, fraction, c);
    var unscaled := FromDecimal(whole + fraction);
    RescaleFloors(unscaled, SCALE, |fraction|);
    FloorsLimit(Rescale(unscaled, SCALE, |fraction|), Scaled(unscaled, SCALE), Pow10(|fraction|), U256_MAX + 1);
  }

  /** Between the unit and the name there may be nothing, an underscore or white space. */
  predicate Separates(sep: string) {
    sep == [] || (|sep| == 1 && (sep[0] == '_' || IsSpace(sep[0])))
  }

  lemma WeiSplit(sep: string, c: Currency)
    requires Separates(sep)
    ensures SplitUnit("wei" + sep + c.Name()) == Some((true, c.Name()))
  {
    var rest := "wei" + sep + c.Name();
    assert rest[..3] == "wei" && AllLetters(c.Name());
    if sep == [] {
      assert rest[3..] == c.Name() && !IsSpace(c.Name()[0]) && rest[3] == c.Name()[0];
    } else {
      assert rest[3] == sep[0] && rest[4..] == c.Name();
    }
  }

  lemma {:induction false} FromDecimalConcat(s: string, t: string)
    requires AllDigits(s) && AllDigits(t)
    ensures AllDigits(s + t) && FromDecimal(s + t) == FromDecimal(s) * Pow10(|t|) + FromDecimal(t)
    ensures FromDecimal(t) < Pow10(|t|)
  {
    if t == [] {
      assert s + t == s;
    } else {
      var u := t[..|t| - 1];
      FromDecimalConcat(s, u);
      assert (s + t)[..|s + t| - 1] == s + u;
      assert Pow10(|t|) == 10 * Pow10(|u|);
      assert FromDecimal(s + t) == FromDecimal(s + u) * 10 + DigitValue(t[|t| - 1]);
      assert FromDecimal(t) == FromDecimal(u) * 10 + DigitValue(t[|t| - 1]);
      hide FromDecimal, Pow10;
      TenTimes(FromDecimal(s), Pow10(|u|));
    }
  }

  lemma RescaleDown(n: nat, w: nat, f: nat, scale: nat)
    requires n == w * Pow10(scale) + f && f < Pow10(scale)
    ensures Rescale(n, 0, scale) == w
  {
    assert Pow10(0) == 1;
    var p := Pow10(scale);
    hide Pow10;
    assert n == p * w + f;
    DivModUnique(n, p, w, f);
  }

  lemma RescaleCuts(whole: string, fraction: string)
    requires AllDigits(whole) && AllDigits(fraction)
    ensures AllDigits(whole + fraction)
    ensures Rescale(FromDecimal(whole + fraction), 0, |fraction|) == FromDecimal(whole)
  {
    hide FromDecimal, Pow10, Rescale;
    FromDecimalConcat(whole, fraction);
    RescaleDown(FromDecimal(whole + fraction), FromDecimal(whole), FromDecimal(fraction), |fraction|);
  }

  /** A number in wei, however the unit is separated from the name, is worth its whole part. */
  lemma ParseWei(whole: string, fraction: string, sep: string, c: Currency)
    requires AllDigits(whole) && AllDigits(fraction) && whole + fraction != [] && Separates(sep)
    requires fraction == [] ==> whole != []
    ensures Parse(Number(whole, fraction) + " wei" + sep + c.Name(), c) ==
            if FromDecimal(whole) <= U256_MAX then Some(FromDecimal(whole)) else None
  {
    hide SplitUnit, ParseDecimal, Captures, Rescale, RemoveBlanks, Parse, FromDecimal, Pow10, EqIgnoreCase, Separates;
    OneSpace();
    hide AllSpaces, Numeral, Number;
    var number, rest := Number(whole, fraction), "wei" + sep + c.Name();
    NumberParsed(whole, fraction);
    NumberIsNumeral(whole, fraction);
    WeiSplit(sep, c);
    RescaleCuts(whole, fraction);
    var text := number + " wei" + sep + c.Name();
    assert text == number + " " + rest;
    assert rest[0] == 'w';
    PrefixCaptured(number, " ", rest);
    ParsedBy(text, c, number, true, FromDecimal(whole + fraction), |fraction|);
  }

  /** Printed in wei, every balance of every currency is parsed back. */
  lemma WeiRoundTrip(n: u256, c: Currency)
    ensures Parse(FormatInWei(n, c), c) == Some(n)
  {
    hide Parse, FromDecimal, Decimal;
    FromToDecimal(n);
    ParseWei(Decimal(n), [], " ", c);
    assert Decimal(n) + " wei" + " " + c.Name() == Decimal(n) + " wei " + c.Name();
  }

  // ----- the printed form in base units

  lemma TrimUnique(s: string, c: char, t: string)
    requires t <= s && (forall i :: |t| <= i < |s| ==> s[i] == c) && (t != [] ==> t[|t| - 1] != c)
    ensures TrimEnd(s, c) == t
  {
    var u := TrimEnd(s, c);
    assert t != [] ==> s[|t| - 1] != c;
    assert u != [] ==> s[|u| - 1] != c;
    assert |u| == |t| && s[..|t|] == t;
  }

  /** Trimming leaves the whole part and the fraction without its trailing zeros. */
  lemma TrimNumber(whole: string, fraction: string) returns (kept: string)
    requires AllDigits(whole) && AllDigits(fraction) && whole != []
    ensures kept != [] ==> kept[|kept| - 1] != '0'
    ensures AllDigits(kept) && |kept| <= |fraction| && fraction == kept + Repeat('0', |fraction| - |kept|)
    ensures TrimEnd(TrimEnd(whole + "." + fraction, '0'), '.') == Number(whole, kept)
  {
    kept := TrimEnd(fraction, '0');
    var s, t := whole + "." + fraction, whole + "." + kept;
    assert forall i :: |t| <= i < |s| ==> s[i] == fraction[i - |whole| - 1];
    TrimUnique(s, '0', t);
    if kept == [] {
      TrimUnique(t, '.', whole);
    } else {
      TrimUnique(t, '.', t);
    }
  }

  /** The plain string is a whole part, a point and eighteen digits that together denote the number. */
  lemma PlainParts(n: nat) returns (whole: string, fraction: string)
    ensures PlainString(n) == whole + "." + fraction && NoLeadingZeros(whole) && |fraction| == SCALE
    ensures AllDigits(whole) && AllDigits(fraction) && AllDigits(whole + fraction) && FromDecimal(whole + fraction) == n
  {
    hide FromDecimal, Decimal;
    var d := Decimal(n);
    var padded := Padded(n);
    FromToDecimal(n);
    DecimalShape(n);
    if |d| <= SCALE {
      FromDecimalZerosBefore(d, SCALE + 1 - |d|);
    }
    whole, fraction := padded[..|padded| - SCALE], padded[|padded| - SCALE..];
    assert whole + fraction == padded;
  }

  /** Printed in base units with trimmed zeros, every balance of every currency is parsed back. */
  lemma BaseRoundTrip(n: u256, c: Currency)
    ensures Parse(Print(n, c), c) == Some(n)
  {
    hide Parse, Rescale, FromDecimal, PlainString, Pow10, TrimEnd;
    var whole, fraction := PlainParts(n);
    var kept := TrimNumber(whole, fraction);
    ParsesToRescaled(whole, kept, c);
    assert whole + fraction == (whole + kept) + Repeat('0', SCALE - |kept|);
    FromDecimalZerosBehind(whole + kept, SCALE - |kept|);
    RescaleExact(FromDecimal(whole + kept), SCALE, |kept|);
  }

  /** The two printed forms of two balances are never mistaken for one another. */
  lemma PrintInjective(n: u256, m: u256, c: Currency)
    requires Print(n, c) == Print(m, c) || FormatInWei(n, c) == FormatInWei(m, c) || Print(n, c) == FormatInWei(m, c)
    ensures n == m
  {
    hide Parse, Print, FormatInWei;
    BaseRoundTrip(n, c);
    BaseRoundTrip(m, c);
    WeiRoundTrip(n, c);
    WeiRoundTrip(m, c);
  }

  /** A word of letters that begins with `wei` and goes on is a unit and a name, any other is a name. */
  lemma LettersSplit(letters: string)
    requires AllLetters(letters) && letters != []
    ensures SplitUnit(letters) ==
            if "wei" <= letters && |letters| > 3 then Some((true, letters[3..])) else Some((false, letters))
  {
  }

  /** The same letter, in whichever case. */
  predicate SameLetter(a: char, b: char) {
    || a == b
    || ('a' <= a <= 'z' && b as int == a as int - 32)
    || ('A' <= a <= 'Z' && b as int == a as int + 32)
  }

  predicate SameName(s: string, t: string) {
    |s| == |t| && forall i :: 0 <= i < |s| ==> SameLetter(s[i], t[i])
  }

  lemma CaseIgnored(s: string, t: string)
    ensures EqIgnoreCase(s, t) <==> SameName(s, t)
  {
    if |s| == |t| {
      forall i | 0 <= i < |s| ensures Lower(s[i]) == Lower(t[i]) <==> SameLetter(s[i], t[i]) {
        LowerAlike(s[i], t[i]);
      }
      hide Lower, SameLetter;
    }
  }

  lemma LowerAlike(a: char, b: char)
    ensures Lower(a) == Lower(b) <==> SameLetter(a, b)
  {}

  /**
    Behind a whole number, letters that begin with `wei` and go on name a currency in wei, all
    others name one in base units. The name is read without regard to case, and the name of
    another currency is refused.
   */
  lemma NameDecides(whole: string, letters: string, c: Currency)
    requires AllDigits(whole) && whole != [] && AllLetters(letters) && letters != []
    ensures var wei := "wei" <= letters && |letters| > 3;
            var name := if wei then letters[3..] else letters;
            var value := if wei then FromDecimal(whole) else FromDecimal(whole) * Pow10(18);
            Parse(whole + " " + letters, c) ==
            if SameName(name, c.Name()) && value <= U256_MAX then Some(value) else None
  {
    hide ParseDecimal, RemoveBlanks, Rescale, FromDecimal, Pow10, EqIgnoreCase, SameName, Captures, SplitUnit;
    NumberParsed(whole, []);
    assert whole + [] == whole;
    NumberIsNumeral(whole, []);
    LettersSplit(letters);
    OneSpace();
    PrefixCaptured(whole, " ", letters);
    RescaleNothing(FromDecimal(whole));
    RescaleExact(FromDecimal(whole), SCALE, 0);
    CaseIgnored(if "wei" <= letters && |letters| > 3 then letters[3..] else letters, c.Name());
  }

  /**
    Nothing else is read: an accepted text is digits, points and white space with a digit at the end,
    then white space, then the name of the currency, alone or behind `wei` and at most one separator.
   */
  lemma OnlyReads(s: string, c: Currency) returns (number: string, gap: string, unit: string, name: string)
    requires Parse(s, c).Some?
    ensures s == number + gap + unit + name
    ensures Numeral(number) && gap != [] && AllSpaces(gap) && SameName(name, c.Name())
    ensures unit == [] || ("wei" <= unit && Separates(unit[3..]))
  {
    NamedAs(s, c);
    hide *;
    var i := FirstLetter(s);
    var front, rest := s[..i], s[i..];
    UnitChecked(rest);
    CutSpaces(front);
    name := SplitUnit(rest).value.1;
    number := TrimSpaces(front);
    gap := front[|number|..];
    unit := rest[..|rest| - |name|];
    UnitShape(rest, unit, name);
    SplitAt(front, |number|);
    SplitAt(rest, |rest| - |name|);
    Joined(s, i, number, gap, rest, unit, name);
  }

  /** What the pattern makes of an accepted text. */
  lemma NamedAs(s: string, c: Currency)
    requires Parse(s, c).Some?
    ensures var i := FirstLetter(s);
            && Numeral(TrimSpaces(s[..i])) && |TrimSpaces(s[..i])| < i
            && SplitUnit(s[i..]).Some? && SameName(SplitUnit(s[i..]).value.1, c.Name())
  {
    hide ParseDecimal, RemoveBlanks, Rescale, Captures, SplitUnit, Numeral, TrimSpaces, SameName, EqIgnoreCase;
    NumberChecked(s);
    CaseIgnored(SplitUnit(s[FirstLetter(s)..]).value.1, c.Name());
  }

  lemma SplitAt(s: string, k: nat)
    requires k <= |s|
    ensures s == s[..k] + s[k..]
  {}

  lemma UnitShape(rest: string, unit: string, name: string)
    requires |name| <= |rest| && unit == rest[..|rest| - |name|]
    requires unit == [] || ("wei" <= rest && |unit| >= 3 && Separates(rest[3..|rest| - |name|]))
    ensures unit == [] || ("wei" <= unit && Separates(unit[3..]))
  {
    if unit != [] {
      assert unit[3..] == rest[3..|rest| - |name|];
    }
  }

  lemma Joined(s: string, i: nat, number: string, gap: string, rest: string, unit: string, name: string)
    requires i <= |s| && s[..i] == number + gap && s[i..] == rest == unit + name
    ensures s == number + gap + unit + name
  {
    assert s == s[..i] + s[i..];
    assert (number + gap) + (unit + name) == number + gap + unit + name;
  }

  lemma {:induction false} CutSpaces(s: string)
    ensures AllSpaces(s[|TrimSpaces(s)|..])
  {
    if s != [] && IsSpace(s[|s| - 1]) {
      var front := s[..|s| - 1];
      CutSpaces(front);
      assert forall k :: |TrimSpaces(s)| <= k < |front| ==> s[k] == front[k];
    }
  }

  lemma NumberChecked(s: string)
    requires Captures(s).Some?
    ensures var i := FirstLetter(s);
            && Numeral(TrimSpaces(s[..i])) && |TrimSpaces(s[..i])| < i
            && SplitUnit(s[i..]).Some? && Captures(s).value.2 == SplitUnit(s[i..]).value.1
  {
    hide SplitUnit;
    var number := TrimSpaces(s[..FirstLetter(s)]);
    forall x | x in number ensures IsDigit(x) || x == '.' || IsSpace(x) {
      var j :| 0 <= j < |number| && number[j] == x;
    }
  }

  lemma UnitChecked(rest: string)
    requires SplitUnit(rest).Some?
    ensures var (wei, name) := SplitUnit(rest).value;
            && |name| <= |rest| && rest[|rest| - |name|..] == name
            && (rest[..|rest| - |name|] == [] || ("wei" <= rest && |rest| - |name| >= 3
                                                  && Separates(rest[3..|rest| - |name|])))
  {
  }

  // ----- white space

  lemma {:induction false} BlanksRemovedApart(x: string, y: string)
    ensures RemoveBlanks(x + y) == RemoveBlanks(x) + RemoveBlanks(y)
  {
    if x == [] {
      assert x + y == y;
    } else {
      assert (x + y)[1..] == x[1..] + y && (x + y)[0] == x[0];
      var first := if x[0] == ' ' then [] else [x[0]];
      assert RemoveBlanks(x + y) == first + RemoveBlanks(x[1..] + y) && RemoveBlanks(x) == first + RemoveBlanks(x[1..]);
      BlanksRemovedApart(x[1..], y);
      hide RemoveBlanks;
      assert first + (RemoveBlanks(x[1..]) + RemoveBlanks(y)) == (first + RemoveBlanks(x[1..])) + RemoveBlanks(y);
    }
  }

  lemma BlankNumeral(x: string, y: string)
    requires Numeral(x + y) && y != []
    ensures Numeral(x + " " + y)
  {
    var longer := x + " " + y;
    assert longer[|longer| - 1] == (x + y)[|x + y| - 1];
    forall c | c in longer ensures IsDigit(c) || c == '.' || IsSpace(c) {
      assert c in x || c == ' ' || c in y;
      assert c in x || c in y ==> c in x + y;
    }
  }

  /** A blank anywhere in front of the last digit of a number changes nothing. */
  lemma BlankInside(x: string, y: string, gap: string, rest: string, c: Currency)
    requires Numeral(x + y) && y != [] && gap != [] && AllSpaces(gap) && rest != [] && IsLetter(rest[0])
    ensures Parse(x + " " + y + gap + rest, c) == Parse(x + y + gap + rest, c)
  {
    hide SplitUnit, ParseDecimal, Captures, Rescale, RemoveBlanks, EqIgnoreCase;
    var longer := x + " " + y;
    BlankNumeral(x, y);
    hide Numeral;
    PrefixCaptured(longer, gap, rest);
    PrefixCaptured(x + y, gap, rest);
    SameWithoutBlank(x, y);
  }

  lemma SameWithoutBlank(x: string, y: string)
    ensures RemoveBlanks(x + " " + y) == RemoveBlanks(x + y)
  {
    hide RemoveBlanks;
    BlanksRemovedApart(x + " ", y);
    BlanksRemovedApart(x, " ");
    BlanksRemovedApart(x, y);
    OneBlank();
    assert RemoveBlanks(x) + [] == RemoveBlanks(x);
  }

  lemma OneBlank()
    ensures RemoveBlanks(" ") == []
  {
    assert RemoveBlanks(" "[1..]) == [];
  }

  /** However much white space stands between the number and the name, it reads like one blank. */
  lemma GapRead(number: string, gap: string, rest: string, c: Currency)
    requires Numeral(number) && gap != [] && AllSpaces(gap) && rest != [] && IsLetter(rest[0])
    ensures Parse(number + gap + rest, c) == Parse(number + " " + rest, c)
  {
    hide SplitUnit, ParseDecimal, Captures, Rescale, RemoveBlanks, EqIgnoreCase;
    PrefixCaptured(number, gap, rest);
    PrefixCaptured(number, " ", rest);
  }

  lemma {:induction false} OthersStay(s: string, i: nat)
    requires i < |s| && s[i] != ' '
    ensures s[i] in RemoveBlanks(s)
  {
    if i > 0 {
      OthersStay(s[1..], i - 1);
    }
  }

  /** Any other white space inside a number is refused. */
  lemma OtherSpaceRefused(number: string, i: nat, gap: string, rest: string, c: Currency)
    requires Numeral(number) && i < |number| && IsSpace(number[i]) && number[i] != ' '
    requires gap != [] && AllSpaces(gap) && rest != [] && IsLetter(rest[0])
    ensures Parse(number + gap + rest, c) == None
  {
    hide SplitUnit, Captures, Rescale, EqIgnoreCase, FromDecimal;
    PrefixCaptured(number, gap, rest);
    OthersStay(number, i);
    NotADecimal(RemoveBlanks(number), number[i]);
  }

  lemma NotADecimal(s: string, x: char)
    requires x in s && !IsDigit(x) && x != '.'
    ensures ParseDecimal(s) == None
  {
    hide FromDecimal;
    var i := FirstDot(s);
    var j :| 0 <= j < |s| && s[j] == x;
    if i < |s| {
      var digits := s[..i] + s[i + 1..];
      assert digits[if j < i then j else j - 1] == x;
    }
  }

  // ----- the printed forms are the canonical ones

  /** No zeros in front, but one digit at least. */
  predicate NoLeadingZeros(whole: string) {
    AllDigits(whole) && whole != [] && (|whole| > 1 ==> whole[0] != '0')
  }

  /** A number without needless zeros. */
  predicate CanonicalNumber(whole: string, fraction: string) {
    && NoLeadingZeros(whole) && AllDigits(fraction) && |fraction| <= 18
    && (fraction != [] ==> fraction[|fraction| - 1] != '0')
  }

  /** What a number is worth in wei. */
  function Worth(whole: string, fraction: string): (n: nat)
    requires AllDigits(whole) && AllDigits(fraction) && |fraction| <= 18
  {
    Scaled(FromDecimal(whole + fraction), 18 - |fraction|)
  }

  lemma {:induction false} LeadingDigitCounts(s: string)
    requires AllDigits(s) && s != [] && s[0] != '0'
    ensures FromDecimal(s) > 0
  {
    if |s| > 1 {
      LeadingDigitCounts(s[..|s| - 1]);
    }
  }

  /** A number without leading zeros is printed as it stands. */
  lemma {:induction false} DecimalBack(s: string)
    requires NoLeadingZeros(s)
    ensures Decimal(FromDecimal(s)) == s
  {
    var t, d := s[..|s| - 1], DigitValue(s[|s| - 1]);
    assert DigitChar(d) == s[|s| - 1];
    assert s == t + [s[|s| - 1]];
    assert FromDecimal(s) == FromDecimal(t) * 10 + d;
    if t == [] {
      assert FromDecimal(s) == d;
    } else {
      LeadingDigitCounts(t);
      DecimalBack(t);
      hide FromDecimal, Decimal;
      DecimalStep(FromDecimal(t), d);
    }
  }

  lemma DecimalStep(v: nat, d: nat)
    requires v > 0 && d < 10
    ensures Decimal(v * 10 + d) == Decimal(v) + [DigitChar(d)]
  {
    var n := v * 10 + d;
    assert n / 10 == v && n % 10 == d;
  }

  lemma {:induction false} DecimalShape(n: nat)
    ensures NoLeadingZeros(Decimal(n)) && (n > 0 ==> Decimal(n)[0] != '0')
  {
    if n >= 10 {
      DecimalShape(n / 10);
      assert Decimal(n)[0] == Decimal(n / 10)[0];
    }
  }

  lemma {:induction false} LeadingZeros(s: string) returns (k: nat)
    requires AllDigits(s)
    ensures k <= |s| && s == Repeat('0', k) + s[k..] && (k < |s| ==> s[k] != '0')
  {
    if s == [] || s[0] != '0' {
      k := 0;
    } else {
      k := LeadingZeros(s[1..]);
      k := k + 1;
    }
  }

  lemma EmptyIsZero()
    ensures FromDecimal([]) == 0 && Decimal(0) == "0"
  {}

  /** Padding undoes the reading of nineteen digits, or of more without a zero in front. */
  lemma PaddedBack(s: string)
    requires AllDigits(s) && |s| > SCALE && (|s| > SCALE + 1 ==> s[0] != '0')
    ensures Padded(FromDecimal(s)) == s
  {
    hide FromDecimal, Decimal;
    EmptyIsZero();
    if s[0] != '0' {
      DecimalBack(s);
    } else {
      var k := LeadingZeros(s);
      FromDecimalZerosBefore(s[k..], k);
      if k < |s| {
        DecimalBack(s[k..]);
      } else {
        assert s[k..] == [] && Decimal(0) == "0";
        assert s == Repeat('0', SCALE) + "0";
      }
    }
  }

  lemma TrimsTo(whole: string, fraction: string, m: nat)
    requires CanonicalNumber(whole, fraction)
    ensures TrimEnd(TrimEnd(whole + "." + (fraction + Repeat('0', m)), '0'), '.') == Number(whole, fraction)
  {
    var t := whole + "." + fraction;
    var s := whole + "." + (fraction + Repeat('0', m));
    assert s == t + Repeat('0', m);
    TrimUnique(s, '0', t);
    TrimUnique(t, '.', if fraction == [] then whole else t);
  }

  lemma WorthOfDigits(whole: string, fraction: string)
    requires AllDigits(whole) && AllDigits(fraction) && |fraction| <= 18
    ensures var s := whole + fraction + Repeat('0', 18 - |fraction|);
            AllDigits(s) && FromDecimal(s) == Worth(whole, fraction)
  {
    hide FromDecimal, Pow10;
    FromDecimalZerosBehind(whole + fraction, 18 - |fraction|);
  }

  /** A canonical number is printed as it stands. */
  lemma CanonicalPrinted(whole: string, fraction: string)
    requires CanonicalNumber(whole, fraction)
    ensures AmountInBaseUnits(Worth(whole, fraction)) == Number(whole, fraction)
  {
    hide FromDecimal, TrimEnd, Decimal, Number, Padded, Worth;
    var m := 18 - |fraction|;
    var s := (whole + fraction) + Repeat('0', m);
    WorthOfDigits(whole, fraction);
    PaddedBack(s);
    assert s[..|s| - SCALE] == whole && s[|s| - SCALE..] == fraction + Repeat('0', m);
    assert PlainString(Worth(whole, fraction)) == whole + "." + (fraction + Repeat('0', m));
    hide PlainString, Repeat;
    TrimsTo(whole, fraction, m);
  }

  /** The printed number of every amount is canonical. */
  lemma PrintsCanonical(n: nat) returns (whole: string, fraction: string)
    ensures CanonicalNumber(whole, fraction) && AmountInBaseUnits(n) == Number(whole, fraction)
    ensures Worth(whole, fraction) == n
  {
    hide FromDecimal, Pow10, Decimal, PlainString, Number, TrimEnd, Repeat;
    var all;
    whole, all := PlainParts(n);
    fraction := TrimNumber(whole, all);
    assert whole + all == (whole + fraction) + Repeat('0', 18 - |fraction|);
    FromDecimalZerosBehind(whole + fraction, 18 - |fraction|);
  }

  lemma NumberInjective(whole: string, fraction: string, whole': string, fraction': string)
    requires AllDigits(whole) && AllDigits(fraction) && AllDigits(whole') && AllDigits(fraction')
    requires Number(whole, fraction) == Number(whole', fraction')
    ensures whole == whole' && fraction == fraction'
  {
    var s := Number(whole, fraction);
    if fraction != [] {
      assert s[|whole|] == '.';
    }
    if fraction' != [] {
      assert s[|whole'|] == '.';
    }
    if fraction != [] && fraction' != [] {
      assert |whole| == |whole'|;
      assert whole == s[..|whole|] == whole' && fraction == s[|whole| + 1..] == fraction';
    }
  }

  /**
    A balance is printed as the number without needless zeros that is worth it, and there is only
    one: a canonical number in front of the name is the printed form if and only if it is worth the balance.
   */
  lemma PrintExact(n: u256, c: Currency, whole: string, fraction: string)
    requires CanonicalNumber(whole, fraction)
    ensures Print(n, c) == Number(whole, fraction) + " " + c.Name() <==> Worth(whole, fraction) == n
  {
    hide AmountInBaseUnits, Number, Worth, FromDecimal, Pow10;
    var w, f := PrintsCanonical(n);
    CanonicalPrinted(whole, fraction);
    assert Print(n, c) == AmountInBaseUnits(n) + (" " + c.Name());
    assert Number(whole, fraction) + " " + c.Name() == Number(whole, fraction) + (" " + c.Name());
    if Print(n, c) == Number(whole, fraction) + " " + c.Name() {
      SameFront(AmountInBaseUnits(n), Number(whole, fraction), " " + c.Name());
      NumberInjective(whole, fraction, w, f);
    }
  }

  lemma SameFront(s: string, t: string, end: string)
    requires s + end == t + end
    ensures s == t
  {
    assert |s| == |t| && s == (s + end)[..|s|] && t == (t + end)[..|s|];
  }

  /** In wei a balance is printed with no leading zeros. */
  lemma WeiPrintExact(n: u256, c: Currency, digits: string)
    requires NoLeadingZeros(digits)
    ensures FormatInWei(n, c) == digits + " wei " + c.Name() <==> FromDecimal(digits) == n
  {
    hide FromDecimal, Decimal;
    DecimalBack(digits);
    FromToDecimal(n);
    if FormatInWei(n, c) == digits + " wei " + c.Name() {
      assert Decimal(n) + " wei " + c.Name() == Decimal(n) + (" wei " + c.Name());
      assert digits + " wei " + c.Name() == digits + (" wei " + c.Name());
      SameFront(Decimal(n), digits, " wei " + c.Name());
    }
  }

  // ----- saturating arithmetic

  function SaturatingAdd(a: u256, b: u256): (r: u256) {
    if a + b > U256_MAX then U256_MAX else a + b
  }

  function SaturatingSub(a: u256, b: u256): (r: u256) {
    if a < b then 0 else a - b
  }

  /** `Sum`: a fold from the left. */
  function Sum(acc: u256, xs: seq<u256>): (r: u256)
    decreases |xs|
  {
    if xs == [] then acc else Sum(SaturatingAdd(acc, xs[0]), xs[1..])
  }

  function Total(xs: seq<u256>): (t: nat)
  {
    if xs == [] then 0 else xs[0] + Total(xs[1..])
  }

  /** The fold saturates once, at the end: it is the true total or the maximum, in whatever order. */
  lemma {:induction false} SumSaturates(acc: u256, xs: seq<u256>)
    ensures Sum(acc, xs) == if acc + Total(xs) > U256_MAX then U256_MAX else acc + Total(xs)
    decreases |xs|
  {
    if xs != [] {
      SumSaturates(SaturatingAdd(acc, xs[0]), xs[1..]);
    }
  }

  /** Taking back what was added restores a balance exactly when the sum did not saturate. */
  lemma AddThenSub(a: u256, b: u256)
    ensures SaturatingSub(SaturatingAdd(a, b), b) == a <==> a + b <= U256_MAX
  {}

  /** The balance as a mutable value. */
  class Balance {
    var amount: u256

    constructor (amount: u256)
      ensures this.amount == amount
    {
      this.amount := amount;
    }

    method AddAssign(rhs: u256)
      modifies this
      ensures amount == if old(amount) + rhs > U256_MAX then U256_MAX else old(amount) + rhs
    {
      amount := SaturatingAdd(amount, rhs);
    }

    method SubAssign(rhs: u256)
      modifies this
      ensures amount == if old(amount) < rhs then 0 else old(amount) - rhs
    {
      amount := SaturatingSub(amount, rhs);
    }
  }
}
