/** Decimal price text to raw base units at a feed's scale and back, never through floating point. */
module PriceText {
  import opened Options
  import opened Arithmetic

  datatype Error = Empty | Exponent | Negative | TrailingSeparator | NotDecimal

  // ----- Digits --------------------------------------------------------------------------------

  predicate IsDigit(c: char) {
    '0' <= c <= '9'
  }

  predicate AllDigits(s: string) {
    forall c | c in s :: IsDigit(c)
  }

  function ValueOf(s: string): nat
    requires AllDigits(s)
  {
    if s == [] then 0
    else
      var last := s[|s| - 1];
      assert last in s;
      10 * ValueOf(s[..|s| - 1]) + (last as int - '0' as int)
  }

  function Zeros(k: nat): (s: string)
    ensures |s| == k && AllDigits(s) && forall c | c in s :: c == '0'
  {
    seq(k, _ => '0')
  }

  /** The decimal digits of a natural number, without leading zeros. */
  function Digits(n: nat): (s: string)
    ensures s != [] && AllDigits(s)
  {
    var last := ['0' + (n % 10) as char];
    if n < 10 then last else Digits(n / 10) + last
  }

  lemma {:induction false} DigitsValue(n: nat)
    ensures ValueOf(Digits(n)) == n
  {
    var s := Digits(n);
    if n >= 10 {
      DigitsValue(n / 10);
      assert s[..|s| - 1] == Digits(n / 10);
    } else {
      assert s[..|s| - 1] == [];
    }
  }

  lemma DigitsConcat(a: string, b: string)
    requires AllDigits(a) && AllDigits(b)
    ensures AllDigits(a + b)
  {
  }

  lemma ValueSnoc(s: string, c: char)
    requires AllDigits(s) && IsDigit(c)
    ensures AllDigits(s + [c]) && ValueOf(s + [c]) == 10 * ValueOf(s) + (c as int - '0' as int)
  {
  }

  lemma {:induction false} ValueConcat(a: string, b: string)
    requires AllDigits(a) && AllDigits(b)
    ensures AllDigits(a + b) && ValueOf(a + b) == ValueOf(a) * Pow10(|b|) + ValueOf(b) && ValueOf(b) < Pow10(|b|)
    decreases |b|
  {
    DigitsConcat(a, b);
    if b == [] {
      assert a + b == a;
    } else {
      var init, last := b[..|b| - 1], b[|b| - 1];
      assert last in b && b == init + [last] && a + b == (a + init) + [last];
      hide ValueOf;
      ValueConcat(a, init);
      ValueSnoc(a + init, last);
      ValueSnoc(init, last);
      Shifted(ValueOf(a), Pow10(|init|));
    }
  }

  lemma Shifted(x: nat, p: nat)
    ensures 10 * (x * p) == x * (10 * p)
  {
  }

  lemma {:induction false} ZerosValue(k: nat)
    ensures ValueOf(Zeros(k)) == 0
  {
    if k > 0 {
      ZerosValue(k - 1);
      assert Zeros(k)[..k - 1] == Zeros(k - 1);
    }
  }

  // ----- Parsing -------------------------------------------------------------------------------

  /** unicode.IsSpace. */
  predicate IsSpace(c: char) {
    var n := c as int;
    9 <= n <= 13 || n == 0x20 || n == 0x85 || n == 0xA0 || n == 0x1680 || 0x2000 <= n <= 0x200A
    || n == 0x2028 || n == 0x2029 || n == 0x202F || n == 0x205F || n == 0x3000
  }

  function TrimLeft(s: string): string {
    if s != [] && IsSpace(s[0]) then TrimLeft(s[1..]) else s
  }

  function TrimRight(s: string): string {
    if s != [] && IsSpace(s[|s| - 1]) then TrimRight(s[..|s| - 1]) else s
  }

  /** The length of the part before the first separator. */
  function CutAt(s: string): (i: nat)
    ensures i <= |s| && '.' !in s[..i] && (i < |s| ==> s[i] == '.')
  {
    if s == [] || s[0] == '.' then 0
    else
      var i := 1 + CutAt(s[1..]);
      assert s[..i] == [s[0]] + s[1..][..i - 1];
      i
  }

  /** Setting a big integer from base-10 text: an optional sign, then digits. */
  function FromText(s: string): Option<int> {
    var signed := s != [] && (s[0] == '+' || s[0] == '-');
    var digits := if signed then s[1..] else s;
    if digits == [] || !AllDigits(digits) then None
    else
      var n: int := ValueOf(digits);
      Some(if signed && s[0] == '-' then -n else n)
  }

  function ParseScaled(value: string, decimals: nat): Result<int, Error> {
    ParseTrimmed(TrimRight(TrimLeft(value)), decimals)
  }

  function ParseTrimmed(trimmed: string, decimals: nat): Result<int, Error> {
    if trimmed == "" then Err(Empty)
    else if 'e' in trimmed || 'E' in trimmed then Err(Exponent)
    else if trimmed[0] == '-' then Err(Negative)
    else
      var cut := CutAt(trimmed);
      var whole := if cut == 0 then "0" else trimmed[..cut];
      var frac := if cut < |trimmed| then trimmed[cut + 1..] else "";
      if cut < |trimmed| && frac == "" then Err(TrailingSeparator)
      else
        var kept := if |frac| > decimals then frac[..decimals] else frac;
        match FromText(whole + (kept + Zeros(decimals - |kept|)))
        case None => Err(NotDecimal)
        case Some(n) => Ok(n)
  }

  // ----- Printing ------------------------------------------------------------------------------

  function IntText(n: int): (s: string)
    ensures s != []
  {
    if n < 0 then "-" + Digits(-n) else Digits(n)
  }

  function TrimZeros(s: string): string {
    if s != [] && s[|s| - 1] == '0' then TrimZeros(s[..|s| - 1]) else s
  }

  function FormatScaled(value: int, decimals: nat): string {
    var text := IntText(value);
    if decimals == 0 then text
    else
      var digits := if |text| <= decimals then Zeros(decimals - |text| + 1) + text else text;
      var split := |digits| - decimals;
      var frac := TrimZeros(digits[split..]);
      if frac == "" then digits[..split] else digits[..split] + "." + frac
  }

  // ----- Plain text ----------------------------------------------------------------------------

  lemma PlainIsNotTrimmed(s: string)
    requires s != [] && !IsSpace(s[0]) && !IsSpace(s[|s| - 1])
    ensures TrimRight(TrimLeft(s)) == s
  {
  }

  lemma {:induction false} CutAtIs(s: string, i: nat)
    requires i <= |s| && '.' !in s[..i] && (i < |s| ==> s[i] == '.')
    ensures CutAt(s) == i
  {
  }

  lemma DigitsAreText(s: string)
    requires s != [] && AllDigits(s)
    ensures FromText(s) == Some(ValueOf(s))
  {
    assert s[0] in s;
  }

  function Plain(whole: string, frac: string): string {
    if frac == "" then whole else whole + "." + frac
  }

  /** The digits handed to the integer parser: the fraction cut, or padded with zeros, to `decimals` places. */
  function AtScale(whole: string, frac: string, decimals: nat): string {
    var kept := if |frac| > decimals then frac[..decimals] else frac;
    (if whole == "" then "0" else whole) + (kept + Zeros(decimals - |kept|))
  }

  lemma ScaledIsDigits(whole: string, frac: string, decimals: nat)
    requires AllDigits(whole) && AllDigits(frac)
    ensures AllDigits(AtScale(whole, frac, decimals)) && AtScale(whole, frac, decimals) != ""
  {
  }

  lemma PlainChars(whole: string, frac: string)
    requires AllDigits(whole) && AllDigits(frac)
    ensures forall c | c in Plain(whole, frac) :: IsDigit(c) || c == '.'
  {
  }

  lemma PlainIsCut(whole: string, frac: string)
    requires AllDigits(whole) && AllDigits(frac) && Plain(whole, frac) != ""
    ensures var text := Plain(whole, frac);
            && TrimRight(TrimLeft(text)) == text && 'e' !in text && 'E' !in text && text[0] != '-'
            && CutAt(text) == |whole|
            && (if frac == "" then |text| == |whole| else |text| == |whole| + 1 + |frac| && text[|whole| + 1..] == frac)
            && text[..|whole|] == whole
  {
    hide TrimRight, TrimLeft, CutAt;
    var text := Plain(whole, frac);
    PlainChars(whole, frac);
    assert text[0] in text && text[|text| - 1] in text;
    PlainIsNotTrimmed(text);
    assert text[..|whole|] == whole;
    assert '.' !in whole;
    CutAtIs(text, |whole|);
  }

  lemma PlainIsRead(whole: string, frac: string, decimals: nat)
    requires AllDigits(whole) && AllDigits(frac) && Plain(whole, frac) != ""
    ensures AllDigits(AtScale(whole, frac, decimals))
    ensures ParseScaled(Plain(whole, frac), decimals) == Ok(ValueOf(AtScale(whole, frac, decimals)))
  {
    hide ValueOf, FromText, TrimLeft, TrimRight, CutAt, AllDigits, Zeros;
    PlainIsCut(whole, frac);
    ScaledIsDigits(whole, frac, decimals);
    DigitsAreText(AtScale(whole, frac, decimals));
  }

  lemma {:induction false} Pow10Adds(a: nat, b: nat)
    ensures Pow10(a + b) == Pow10(a) * Pow10(b)
  {
    if a > 0 {
      Pow10Adds(a - 1, b);
      assert Pow10(a + b) == 10 * Pow10(a - 1 + b) && Pow10(a) == 10 * Pow10(a - 1);
      hide Pow10;
      Tenfold(Pow10(a - 1), Pow10(b));
    }
  }

  lemma Tenfold(a: nat, b: nat)
    ensures 10 * (a * b) == 10 * a * b
  {
  }

  lemma ZeroIsNothing()
    ensures AllDigits("") && AllDigits("0") && ValueOf("0") == 0
  {
    assert "0"[..0] == "";
  }

  lemma LeadingZero(whole: string, rest: string)
    requires AllDigits(whole) && AllDigits(rest)
    ensures AllDigits((if whole == "" then "0" else whole) + rest) && AllDigits(whole + rest)
    ensures ValueOf((if whole == "" then "0" else whole) + rest) == ValueOf(whole + rest)
  {
    DigitsConcat(whole, rest);
    if whole == "" {
      ZeroIsNothing();
      hide ValueOf;
      DigitsConcat("0", rest);
      ValueConcat("0", rest);
      assert whole + rest == rest;
    }
  }

  /** For plain text, the result is the floor of the number's value times ten to the scale: with `n` the number's digits
      read as one integer, `n / 10^|frac|` scaled up and rounded down. */
  lemma ParsesTheFloor(whole: string, frac: string, decimals: nat)
    requires AllDigits(whole) && AllDigits(frac) && Plain(whole, frac) != ""
    ensures AllDigits(whole + frac)
    ensures var n := ValueOf(whole + frac);
            var r := ParseScaled(Plain(whole, frac), decimals);
            r.Ok? && r.value * Pow10(|frac|) <= n * Pow10(decimals) < (r.value + 1) * Pow10(|frac|)
  {
    hide ValueOf, Pow10, ParseScaled, Plain, AtScale;
    DigitsConcat(whole, frac);
    PlainIsRead(whole, frac, decimals);
    if |frac| <= decimals {
      PaddedIsFloor(whole, frac, decimals);
    } else {
      CutIsFloor(whole, frac, decimals);
    }
  }

  lemma PaddedIsFloor(whole: string, frac: string, decimals: nat)
    requires AllDigits(whole) && AllDigits(frac) && |frac| <= decimals
    ensures AllDigits(whole + frac) && AllDigits(AtScale(whole, frac, decimals))
    ensures var r := ValueOf(AtScale(whole, frac, decimals));
            r * Pow10(|frac|) == ValueOf(whole + frac) * Pow10(decimals)
            && r * Pow10(|frac|) < (r + 1) * Pow10(|frac|)
  {
    hide ValueOf, Pow10;
    var pad := decimals - |frac|;
    DigitsConcat(whole, frac);
    DigitsConcat(frac, Zeros(pad));
    ScaledIsDigits(whole, frac, decimals);
    LeadingZero(whole, frac + Zeros(pad));
    assert whole + (frac + Zeros(pad)) == (whole + frac) + Zeros(pad);
    ValueConcat(whole + frac, Zeros(pad));
    ZerosValue(pad);
    Pow10Adds(pad, |frac|);
    ScaledUp(ValueOf(whole + frac), Pow10(pad), Pow10(|frac|));
  }

  lemma CutIsFloor(whole: string, frac: string, decimals: nat)
    requires AllDigits(whole) && AllDigits(frac) && |frac| > decimals
    ensures AllDigits(whole + frac) && AllDigits(AtScale(whole, frac, decimals))
    ensures var r := ValueOf(AtScale(whole, frac, decimals));
            r * Pow10(|frac|) <= ValueOf(whole + frac) * Pow10(decimals) < (r + 1) * Pow10(|frac|)
  {
    hide ValueOf, Pow10;
    var kept, cut := frac[..decimals], frac[decimals..];
    assert forall c | c in kept :: c in frac;
    assert forall c | c in cut :: c in frac;
    assert kept + Zeros(0) == kept;
    DigitsConcat(whole, frac);
    DigitsConcat(whole, kept);
    ScaledIsDigits(whole, frac, decimals);
    LeadingZero(whole, kept);
    assert whole + frac == (whole + kept) + cut;
    ValueConcat(whole + kept, cut);
    Pow10Adds(|cut|, decimals);
    ScaledDown(ValueOf(whole + kept), ValueOf(cut), Pow10(|cut|), Pow10(decimals));
  }

  lemma ScaledUp(n: nat, p: nat, q: nat)
    requires q > 0
    ensures (n * p) * q == n * (p * q) && (n * p + 1) * q == (n * p) * q + q
  {
  }

  lemma ScaledDown(r: nat, low: nat, p: nat, q: nat)
    requires low < p && q > 0
    ensures r * (p * q) <= (r * p + low) * q < (r + 1) * (p * q)
  {
    MulStrict(low, p, q);
    assert (r * p + low) * q == r * (p * q) + low * q;
    assert (r + 1) * (p * q) == r * (p * q) + p * q;
    assert low * q >= 0;
  }

  // ----- Every text ----------------------------------------------------------------------------

  predicate AllSpaces(s: string) {
    forall c | c in s :: IsSpace(c)
  }

  /** The code points of Unicode's White_Space property. */
  lemma SpacesInFull(c: char)
    ensures IsSpace(c) <==>
            c as int in {0x09, 0x0A, 0x0B, 0x0C, 0x0D, 0x20, 0x85, 0xA0, 0x1680, 0x2000, 0x2001, 0x2002, 0x2003, 0x2004,
                         0x2005, 0x2006, 0x2007, 0x2008, 0x2009, 0x200A, 0x2028, 0x2029, 0x202F, 0x205F, 0x3000}
  {
  }

  lemma {:induction false} LeftTrimmed(left: string, text: string)
    requires AllSpaces(left) && (text != "" ==> !IsSpace(text[0]))
    ensures TrimLeft(left + text) == text
  {
    if left == "" {
      assert left + text == text;
    } else {
      assert left[0] in left && (left + text)[1..] == left[1..] + text;
      LeftTrimmed(left[1..], text);
    }
  }

  lemma {:induction false} RightTrimmed(text: string, right: string)
    requires AllSpaces(right) && (text != "" ==> !IsSpace(text[|text| - 1]))
    ensures TrimRight(text + right) == text
  {
    if right == "" {
      assert text + right == text;
    } else {
      var n := |right| - 1;
      assert right[n] in right && (text + right)[..|text| + n] == text + right[..n];
      RightTrimmed(text, right[..n]);
    }
  }

  ghost predicate Bare(text: string) {
    text != "" ==> !IsSpace(text[0]) && !IsSpace(text[|text| - 1])
  }

  lemma Trimmed(left: string, text: string, right: string)
    requires AllSpaces(left) && AllSpaces(right) && Bare(text)
    ensures TrimRight(TrimLeft(left + text + right)) == text
  {
    hide IsSpace;
    if text == "" {
      assert left + text + right == (left + right) + "";
      LeftTrimmed(left + right, "");
    } else {
      assert left + text + right == left + (text + right);
      LeftTrimmed(left, text + right);
      RightTrimmed(text, right);
    }
  }

  /** Spaces around a text change nothing. */
  lemma SpacesAreIgnored(left: string, text: string, right: string, decimals: nat)
    requires AllSpaces(left) && AllSpaces(right) && Bare(text)
    ensures ParseScaled(left + text + right, decimals) == ParseScaled(text, decimals)
  {
    Trimmed(left, text, right);
    Trimmed("", text, "");
    assert "" + text + "" == text;
    hide TrimLeft, TrimRight, ParseTrimmed;
  }

  /** Setting an integer from text reads an optional sign and at least one digit, and nothing else. */
  lemma IntegersInFull(s: string)
    ensures match FromText(s)
            case Some(n) =>
              || (s != "" && AllDigits(s) && n == ValueOf(s))
              || (|s| > 1 && s[0] == '+' && AllDigits(s[1..]) && n == ValueOf(s[1..]))
              || (|s| > 1 && s[0] == '-' && AllDigits(s[1..]) && n == -(ValueOf(s[1..]) as int))
            case None =>
              (s == "" || !AllDigits(s)) && !(|s| > 1 && s[0] in "+-" && AllDigits(s[1..]))
  {
    if s != "" { assert s[0] in s; }
  }

  lemma IntTextReadsBack(n: int)
    ensures FromText(IntText(n)) == Some(n)
  {
    if n < 0 {
      DigitsValue(-n);
      assert IntText(n)[1..] == Digits(-n);
    } else {
      DigitsValue(n);
      DigitsAreText(Digits(n));
    }
  }

  /** The errors that come before the digits, each exactly when. */
  lemma ErrorsInFull(text: string, decimals: nat)
    requires Bare(text)
    ensures var r := ParseScaled(text, decimals);
            && (r == Err(Empty) <==> text == "")
            && (r == Err(Exponent) <==> 'e' in text || 'E' in text)
            && (r == Err(Negative) <==> text != "" && text[0] == '-' && 'e' !in text && 'E' !in text)
            && (r == Err(TrailingSeparator) <==>
                text != "" && text[|text| - 1] == '.' && '.' !in text[..|text| - 1] && text[0] != '-'
                && 'e' !in text && 'E' !in text)
  {
    hide FromText, Zeros;
    if text != "" {
      PlainIsNotTrimmed(text);
      if text[|text| - 1] == '.' && '.' !in text[..|text| - 1] { CutAtIs(text, |text| - 1); }
      hide TrimLeft, TrimRight;
    }
  }

  /** Any other text is read as its digits before the first separator, past a plus sign, and after it up to the scale;
      what follows the scale is not looked at. */
  lemma ParseInFull(whole: string, frac: string, decimals: nat)
    requires var text := Plain(whole, frac);
             text != "" && Bare(text) && '.' !in whole && text[0] != '-' && 'e' !in text && 'E' !in text
    ensures var digits := if whole != "" && whole[0] == '+' then whole[1..] else whole;
            var kept := if |frac| > decimals then frac[..decimals] else frac;
            ParseScaled(Plain(whole, frac), decimals) ==
            if AllDigits(digits + kept) && (whole == "+" ==> decimals > 0)
            then Ok(ValueOf(digits + kept) * Pow10(decimals - |kept|)) else Err(NotDecimal)
  {
    hide ValueOf, AllDigits, TrimLeft, TrimRight, CutAt, FromText;
    var text := Plain(whole, frac);
    PlainIsNotTrimmed(text);
    assert text[..|whole|] == whole;
    CutAtIs(text, |whole|);
    if frac != "" { assert text[|whole| + 1..] == frac; }
    var kept := if |frac| > decimals then frac[..decimals] else frac;
    DigitsOrNot(whole, kept, decimals - |kept|);
  }

  lemma DigitsOrNot(whole: string, kept: string, pad: nat)
    requires whole == "" || whole[0] != '-'
    ensures var digits := if whole != "" && whole[0] == '+' then whole[1..] else whole;
            FromText((if whole == "" then "0" else whole) + (kept + Zeros(pad))) ==
            if AllDigits(digits + kept) && (whole == "+" ==> kept != "" || pad > 0)
            then Some(ValueOf(digits + kept) * Pow10(pad)) else None
  {
    hide ValueOf, Pow10, AllDigits, FromText;
    var digits := if whole != "" && whole[0] == '+' then whole[1..] else whole;
    var all := (digits + kept) + Zeros(pad);
    var text := (if whole == "" then "0" else whole) + (kept + Zeros(pad));
    IntegersInFull(text);
    if whole == "" {
      assert text[0] == '0' && digits + kept == kept && all == kept + Zeros(pad);
    } else if whole[0] == '+' {
      assert text[0] == '+' && text[1..] == all;
      PlusIsNoDigit(text);
    } else {
      assert text[0] == whole[0] && text == all;
    }
    if AllDigits(digits + kept) {
      ValueConcat(digits + kept, Zeros(pad));
      ZerosValue(pad);
      if whole == "" {
        ZeroIsNothing();
        LeadingZero("", kept + Zeros(pad));
        assert "" + (kept + Zeros(pad)) == all;
      }
    } else {
      NotDigits(digits + kept, Zeros(pad));
      if whole == "" { NotDigitsAfter("0", kept + Zeros(pad)); }
    }
  }

  lemma PlusIsNoDigit(text: string)
    requires text != "" && text[0] == '+'
    ensures !AllDigits(text)
  {
    assert text[0] in text;
  }

  lemma NotDigits(a: string, b: string)
    requires !AllDigits(a)
    ensures !AllDigits(a + b)
  {
    var c :| c in a && !IsDigit(c);
    assert c in a + b;
  }

  lemma NotDigitsAfter(a: string, b: string)
    requires !AllDigits(b)
    ensures !AllDigits(a + b)
  {
    var c :| c in b && !IsDigit(c);
    assert c in a + b;
  }

  // ----- Round trip ----------------------------------------------------------------------------

  lemma {:induction false} TrimmedZeros(s: string)
    ensures |TrimZeros(s)| <= |s| && s == TrimZeros(s) + Zeros(|s| - |TrimZeros(s)|)
  {
    if s != [] && s[|s| - 1] == '0' {
      var init := s[..|s| - 1];
      TrimmedZeros(init);
      assert Zeros(|s| - |TrimZeros(s)|) == Zeros(|init| - |TrimZeros(s)|) + "0";
      assert s == init + "0";
    }
  }

  lemma PaddedDigits(value: nat, width: nat)
    ensures var padded := Zeros(width) + Digits(value); AllDigits(padded) && ValueOf(padded) == value
  {
    ValueConcat(Zeros(width), Digits(value));
    ZerosValue(width);
    DigitsValue(value);
  }

  lemma {:induction false} NoLeadingZero(n: nat)
    ensures n < 10 ==> |Digits(n)| == 1
    ensures n > 0 ==> Digits(n)[0] != '0'
  {
    if n >= 10 { NoLeadingZero(n / 10); }
  }

  lemma {:induction false} NoTrailingZero(s: string)
    ensures TrimZeros(s) != "" ==> TrimZeros(s)[|TrimZeros(s)| - 1] != '0'
  {
    if s != [] && s[|s| - 1] == '0' { NoTrailingZero(s[..|s| - 1]); }
  }

  lemma Unscaled(text: string)
    requires text != ""
    ensures AtScale(text, "", 0) == text
  {
    assert "" + Zeros(0) == "";
  }

  /** The digits to print at a scale above zero: enough for one before the separator, and no leading zero before it. */
  lemma PrintedDigits(value: nat, decimals: nat) returns (digits: string)
    requires decimals > 0
    ensures |digits| > decimals && AllDigits(digits) && ValueOf(digits) == value
    ensures |digits| > decimals + 1 ==> digits[0] != '0'
    ensures var split := |digits| - decimals;
            var frac := TrimZeros(digits[split..]);
            FormatScaled(value, decimals) == Plain(digits[..split], frac)
  {
    hide ValueOf, Digits, TrimZeros, AllDigits;
    var text := Digits(value);
    NoLeadingZero(value);
    var width := if |text| <= decimals then decimals - |text| + 1 else 0;
    digits := Zeros(width) + text;
    PaddedDigits(value, width);
    if width == 0 { assert digits == text; }
  }

  /** An amount is printed as plain text of its value, with no zero that could be left out. */
  lemma FormatIsPlain(value: nat, decimals: nat) returns (whole: string, frac: string)
    ensures AllDigits(whole) && whole != "" && AllDigits(frac) && FormatScaled(value, decimals) == Plain(whole, frac)
    ensures AllDigits(AtScale(whole, frac, decimals)) && ValueOf(AtScale(whole, frac, decimals)) == value
    ensures |whole| > 1 ==> whole[0] != '0'
    ensures |frac| <= decimals && (frac != "" ==> frac[|frac| - 1] != '0')
  {
    hide ValueOf, Digits, TrimZeros;
    if decimals == 0 {
      whole, frac := Digits(value), "";
      DigitsValue(value);
      NoLeadingZero(value);
      Unscaled(whole);
    } else {
      hide AtScale, FormatScaled, Plain, AllDigits;
      var digits := PrintedDigits(value, decimals);
      var split := |digits| - decimals;
      var tail := digits[split..];
      whole, frac := digits[..split], TrimZeros(tail);
      assert whole + tail == digits;
      SplitDigits(whole, tail);
      TrimmedZeros(tail);
      NoTrailingZero(tail);
    }
  }

  lemma DigitsSplit(a: string, b: string)
    requires AllDigits(a + b)
    ensures AllDigits(a) && AllDigits(b)
  {
  }

  lemma SplitDigits(whole: string, tail: string)
    requires AllDigits(whole + tail) && whole != ""
    ensures AllDigits(whole) && AllDigits(TrimZeros(tail)) && AtScale(whole, TrimZeros(tail), |tail|) == whole + tail
  {
    hide TrimZeros, AllDigits;
    TrimmedZeros(tail);
    DigitsSplit(whole, tail);
    DigitsSplit(TrimZeros(tail), Zeros(|tail| - |TrimZeros(tail)|));
  }

  lemma ReadsBack(value: nat, decimals: nat)
    ensures ParseScaled(FormatScaled(value, decimals), decimals) == Ok(value)
  {
    hide ParseScaled, ValueOf, FormatScaled, AtScale;
    var whole, frac := FormatIsPlain(value, decimals);
    PlainIsRead(whole, frac, decimals);
  }

  /** The sign of a negative value survives printing, and no text holding one is ever read as a value below zero. */
  lemma ParseIsNeverNegative(text: string, decimals: nat)
    ensures ParseScaled(text, decimals).Ok? ==> ParseScaled(text, decimals).value >= 0
  {
  }

  /** Printing and reading back is the identity exactly on the amounts that are not negative. */
  lemma RoundTripExactlyWhen(value: int, decimals: nat)
    ensures ParseScaled(FormatScaled(value, decimals), decimals) == Ok(value) <==> value >= 0
  {
    if value >= 0 {
      ReadsBack(value, decimals);
    } else {
      ParseIsNeverNegative(FormatScaled(value, decimals), decimals);
    }
  }
}
