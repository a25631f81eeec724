/** Reading and printing the elementary parts of JSON text: numbers, names and strings. Text is a
    sequence of code points; readers work on what is left of the input. */
module JsonText {
  import opened Sequences

  /** What the UTF-8 reader can deliver. */
  type Char = c: int | 0 <= c < 0x8000_0000 witness 0

  type Text = seq<Char>

  datatype Error =
    | JustMinus | LeadingZero | NoFraction | EmptyExponent | OutOfRange
    | InvalidName
    | Unterminated | ControlCharacter | SurrogateCharacter | PrivateUseCharacter | NonUnicodeCharacter
    | InvalidEscape | InvalidHex | ZeroByte | MissingLowSurrogate | EscapedSurrogate | EscapedPrivateUse
    | LeadingPoint | ByteOrderMark | InvalidCharacter
    | UnterminatedArray | UnterminatedObject | BracketExpected | KeyNotString | ColonExpected | KeyAlreadySet
    | CommaExpected | Misplaced | EmptyInput | OnlyOneValue

  const QUOTE: Char := 0x22
  const BACKSLASH: Char := 0x5c
  const SLASH: Char := 0x2f
  const MINUS: Char := 0x2d
  const PLUS: Char := 0x2b
  const POINT: Char := 0x2e
  const ZERO: Char := 0x30
  const NINE: Char := 0x39
  const LOWER_A: Char := 0x61
  const LOWER_E: Char := 0x65
  const LOWER_F: Char := 0x66
  const LOWER_U: Char := 0x75
  const LOWER_Z: Char := 0x7a
  const UPPER_A: Char := 0x41
  const UPPER_E: Char := 0x45
  const UPPER_F: Char := 0x46

  predicate IsDigit(c: Char) { ZERO <= c <= NINE }

  predicate IsLetter(c: Char) { LOWER_A <= c <= LOWER_Z }

  predicate StartsDigit(t: Text) { t != [] && IsDigit(t[0]) }

  predicate StartsWith(t: Text, c: Char) { t != [] && t[0] == c }

  // ------------------------------------------------ numbers

  /** A part of the text has been moved to `p`, `t` is left; or the text is malformed. */
  datatype Scan = Bad(error: Error) | Good(p: Text, t: Text)

  function DigitRun(p: Text, t: Text): (r: Scan)
    ensures r.Good? && |p| <= |r.p| && |r.t| <= |t|
    ensures StartsDigit(t) ==> |r.t| < |t|
    decreases |t|
  {
    if StartsDigit(t) then DigitRun(p + [t[0]], t[1..]) else Good(p, t)
  }

  /** The same where at least one digit is needed. */
  function SomeDigits(p: Text, t: Text, otherwise: Error): Scan {
    if StartsDigit(t) then DigitRun(p, t) else Bad(otherwise)
  }

  function Sign(t: Text): Scan {
    if StartsWith(t, MINUS) then if StartsDigit(t[1..]) then Good([MINUS], t[1..]) else Bad(JustMinus)
    else Good([], t)
  }

  function Whole(p: Text, t: Text): Scan {
    if StartsWith(t, ZERO) then if StartsDigit(t[1..]) then Bad(LeadingZero) else Good(p + [ZERO], t[1..])
    else DigitRun(p, t)
  }

  function Fraction(p: Text, t: Text): Scan {
    if StartsWith(t, POINT) then SomeDigits(p + [POINT], t[1..], NoFraction) else Good(p, t)
  }

  predicate StartsExponent(t: Text) { StartsWith(t, LOWER_E) || StartsWith(t, UPPER_E) }

  predicate StartsSign(t: Text) { StartsWith(t, PLUS) || StartsWith(t, MINUS) }

  function Exponent(p: Text, t: Text): Scan {
    if !StartsExponent(t) then Good(p, t)
    else if StartsSign(t[1..]) then SomeDigits(p + [t[0]] + [t[1]], t[2..], EmptyExponent)
    else SomeDigits(p + [t[0]], t[1..], EmptyExponent)
  }

  /** The longest number at the start of the text. */
  function ScanNumber(t: Text): (r: Scan)
    ensures r.Good? && (StartsDigit(t) || StartsWith(t, MINUS)) ==> |r.t| < |t|
  {
    var s := Sign(t);
    if s.Bad? then s
    else
      var w := Whole(s.p, s.t);
      if w.Bad? then w
      else
        var f := Fraction(w.p, w.t);
        if f.Bad? then f else Exponent(f.p, f.t)
  }

  // ------------------------------------------------ names

  function LetterRun(p: Text, t: Text): (r: Scan)
    ensures r.Good? && |r.t| <= |t| && p <= r.p
    ensures t != [] && IsLetter(t[0]) ==> |r.t| < |t|
    decreases |t|
  {
    if t != [] && IsLetter(t[0]) then LetterRun(p + [t[0]], t[1..]) else Good(p, t)
  }

  lemma {:induction false} LetterRunReads(p: Text, letters: Text, t: Text)
    requires (forall i :: 0 <= i < |letters| ==> IsLetter(letters[i])) && (t == [] || !IsLetter(t[0]))
    ensures LetterRun(p, letters + t) == Good(p + letters, t)
    decreases |letters|
  {
    if letters == [] {
      assert letters + t == t && p + letters == p;
    } else {
      assert (letters + t)[1..] == letters[1..] + t;
      LetterRunReads(p + [letters[0]], letters[1..], t);
      assert p + letters == p + [letters[0]] + letters[1..];
    }
  }

  // ------------------------------------------------ what a number is

  ghost predicate Digits(t: Text) { forall i :: 0 <= i < |t| ==> IsDigit(t[i]) }

  /** Section 6 of RFC 7159: the parts of a number. An empty fraction or exponent is absent. */
  datatype Parts = Parts(minus: bool, whole: Text, fraction: Text, e: Char, sign: Text, exponent: Text)

  ghost predicate ValidParts(n: Parts) {
    && n.whole != [] && Digits(n.whole) && (n.whole[0] == ZERO ==> |n.whole| == 1)
    && Digits(n.fraction) && Digits(n.exponent)
    && (n.e == LOWER_E || n.e == UPPER_E)
    && (n.sign == [] || n.sign == [PLUS] || n.sign == [MINUS])
  }

  function SignPart(n: Parts): Text { if n.minus then [MINUS] else [] }

  function FractionPart(n: Parts): Text { if n.fraction == [] then [] else [POINT] + n.fraction }

  function ExponentPart(n: Parts): Text { if n.exponent == [] then [] else [n.e] + (n.sign + n.exponent) }

  function Spelled(n: Parts): Text { SignPart(n) + (n.whole + (FractionPart(n) + ExponentPart(n))) }

  ghost predicate IsNumber(t: Text) { exists n: Parts :: ValidParts(n) && Spelled(n) == t }

  /** Text that cannot continue a number or a name. */
  predicate Ends(t: Text) {
    t == [] || !(IsDigit(t[0]) || IsLetter(t[0]) || t[0] == POINT || t[0] == UPPER_E)
  }

  lemma {:induction false} DigitRunReads(p: Text, digits: Text, t: Text)
    requires Digits(digits) && !StartsDigit(t)
    ensures DigitRun(p, digits + t) == Good(p + digits, t)
    decreases |digits|
  {
    if digits == [] {
      assert digits + t == t && p + digits == p;
    } else {
      assert (digits + t)[1..] == digits[1..] + t;
      DigitRunReads(p + [digits[0]], digits[1..], t);
      assert p + digits == p + [digits[0]] + digits[1..];
    }
  }

  lemma {:induction false} DigitRunSplits(p: Text, t: Text) returns (digits: Text)
    ensures Digits(digits) && DigitRun(p, t).p == p + digits && t == digits + DigitRun(p, t).t
    ensures !StartsDigit(DigitRun(p, t).t) && (StartsDigit(t) ==> digits != [] && digits[0] == t[0])
    decreases |t|
  {
    if StartsDigit(t) {
      var rest := DigitRunSplits(p + [t[0]], t[1..]);
      digits := [t[0]] + rest;
      ConcatAssoc(p, [t[0]], rest);
      ConcatAssoc([t[0]], rest, DigitRun(p, t).t);
      assert t == [t[0]] + t[1..];
    } else {
      digits := [];
    }
  }

  /** Every number is read to its end when something else follows. */
  lemma NumberReads(n: Parts, t: Text)
    requires ValidParts(n) && Ends(t)
    ensures ScanNumber(Spelled(n) + t) == Good(Spelled(n), t)
  {
    var minus, whole, frac, exp := SignPart(n), n.whole, FractionPart(n), ExponentPart(n);
    ConcatAssoc(minus, whole + (frac + exp), t);
    ConcatAssoc(whole, frac + exp, t);
    ConcatAssoc(frac, exp, t);
    SignReads(n, whole + (frac + (exp + t)));
    WholeReads(minus, whole, frac + (exp + t));
    FractionReads(minus + whole, n, exp + t);
    ExponentReads(minus + whole + frac, n, t);
    ConcatAssoc(minus + whole, frac, exp);
    ConcatAssoc(minus, whole, frac + exp);
  }

  lemma SignReads(n: Parts, t: Text)
    requires StartsDigit(t)
    ensures Sign(SignPart(n) + t) == Good(SignPart(n), t)
  {
    if n.minus {
      assert ([MINUS] + t)[1..] == t;
    } else {
      assert [] + t == t;
    }
  }

  lemma WholeReads(p: Text, whole: Text, t: Text)
    requires whole != [] && Digits(whole) && (whole[0] == ZERO ==> |whole| == 1) && !StartsDigit(t)
    ensures Whole(p, whole + t) == Good(p + whole, t)
  {
    if whole[0] == ZERO {
      assert whole == [ZERO] && (whole + t)[1..] == t;
    } else {
      DigitRunReads(p, whole, t);
    }
  }

  lemma FractionReads(p: Text, n: Parts, t: Text)
    requires Digits(n.fraction) && !StartsDigit(t) && !StartsWith(t, POINT)
    ensures Fraction(p, FractionPart(n) + t) == Good(p + FractionPart(n), t)
  {
    if n.fraction == [] {
      assert [] + t == t && p + [] == p;
    } else {
      assert (([POINT] + n.fraction) + t)[1..] == n.fraction + t;
      DigitRunReads(p + [POINT], n.fraction, t);
      ConcatAssoc(p, [POINT], n.fraction);
    }
  }

  lemma ExponentReads(p: Text, n: Parts, t: Text)
    requires ValidParts(n) && Ends(t)
    ensures Exponent(p, ExponentPart(n) + t) == Good(p + ExponentPart(n), t)
  {
    if n.exponent == [] {
      assert [] + t == t && p + [] == p;
    } else if n.sign == [] {
      UnsignedReads(p, n.e, n.exponent, t);
      assert n.sign + n.exponent == n.exponent;
    } else {
      SignedReads(p, n.e, n.sign[0], n.exponent, t);
      assert n.sign == [n.sign[0]];
    }
  }

  lemma UnsignedReads(p: Text, e: Char, exponent: Text, t: Text)
    requires (e == LOWER_E || e == UPPER_E) && exponent != [] && Digits(exponent) && !StartsDigit(t)
    ensures Exponent(p, ([e] + exponent) + t) == Good(p + ([e] + exponent), t)
  {
    assert (([e] + exponent) + t)[1..] == exponent + t;
    DigitRunReads(p + [e], exponent, t);
    ConcatAssoc(p, [e], exponent);
  }

  lemma SignedReads(p: Text, e: Char, sign: Char, exponent: Text, t: Text)
    requires (e == LOWER_E || e == UPPER_E) && (sign == PLUS || sign == MINUS)
    requires exponent != [] && Digits(exponent) && !StartsDigit(t)
    ensures Exponent(p, ([e] + ([sign] + exponent)) + t) == Good(p + ([e] + ([sign] + exponent)), t)
  {
    var text := ([e] + ([sign] + exponent)) + t;
    assert text[1..] == ([sign] + exponent) + t;
    assert text[2..] == exponent + t;
    DigitRunReads(p + [e] + [sign], exponent, t);
    ConcatAssoc(p + [e], [sign], exponent);
    ConcatAssoc(p, [e], [sign] + exponent);
  }

  /** What is read is a number, taken off the start of the text, and no shorter than it could be. */
  lemma NumberSplits(t: Text)
    requires ScanNumber(t).Good? && (StartsDigit(t) || StartsWith(t, MINUS))
    ensures var r := ScanNumber(t); IsNumber(r.p) && t == r.p + r.t && |r.t| < |t| && !StartsDigit(r.t)
  {
    var s := Sign(t);
    var w, whole := WholeSplits(s.p, s.t);
    var f, fraction := FractionSplits(w.p, w.t);
    var n := ExponentSplits(f.p, f.t, Parts(StartsWith(t, MINUS), whole, fraction, LOWER_E, [], []));
    var r := Exponent(f.p, f.t);
    assert FractionPart(n) == FractionPart(Parts(false, [], fraction, LOWER_E, [], []));
    SignSplits(t, n);
    SpelledFrom(n, r.t);
    assert r.p == Spelled(n) && t == Spelled(n) + r.t;
  }

  lemma SignSplits(t: Text, n: Parts)
    requires Sign(t).Good? && n.minus == StartsWith(t, MINUS)
    ensures Sign(t).p == SignPart(n) && t == SignPart(n) + Sign(t).t
  {
    if n.minus {
      assert t == [MINUS] + t[1..];
    } else {
      assert t == [] + t;
    }
  }

  lemma SpelledFrom(n: Parts, t: Text)
    ensures SignPart(n) + n.whole + FractionPart(n) + ExponentPart(n) == Spelled(n)
    ensures SignPart(n) + (n.whole + (FractionPart(n) + (ExponentPart(n) + t))) == Spelled(n) + t
  {
    ConcatAssoc(SignPart(n) + n.whole, FractionPart(n), ExponentPart(n));
    ConcatAssoc(SignPart(n), n.whole, FractionPart(n) + ExponentPart(n));
    ConcatAssoc(FractionPart(n), ExponentPart(n), t);
    ConcatAssoc(n.whole, FractionPart(n) + ExponentPart(n), t);
    ConcatAssoc(SignPart(n), n.whole + (FractionPart(n) + ExponentPart(n)), t);
  }

  lemma WholeSplits(p: Text, t: Text) returns (w: Scan, whole: Text)
    requires Whole(p, t).Good? && StartsDigit(t)
    ensures w == Whole(p, t) && w.p == p + whole && t == whole + w.t && !StartsDigit(w.t)
    ensures whole != [] && Digits(whole) && (whole[0] == ZERO ==> |whole| == 1)
  {
    w := Whole(p, t);
    if t[0] == ZERO {
      whole := [ZERO];
      assert t == [ZERO] + t[1..];
    } else {
      whole := DigitRunSplits(p, t);
    }
  }

  lemma FractionSplits(p: Text, t: Text) returns (f: Scan, fraction: Text)
    requires Fraction(p, t).Good? && !StartsDigit(t)
    ensures f == Fraction(p, t) && Digits(fraction) && !StartsDigit(f.t)
    ensures var part := FractionPart(Parts(false, [], fraction, LOWER_E, [], [])); f.p == p + part && t == part + f.t
  {
    f := Fraction(p, t);
    if StartsWith(t, POINT) {
      fraction := DigitRunSplits(p + [POINT], t[1..]);
      ConcatAssoc(p, [POINT], fraction);
      assert t == [POINT] + t[1..];
      ConcatAssoc([POINT], fraction, f.t);
    } else {
      fraction := [];
      assert p + [] == p && [] + t == t;
    }
  }

  lemma ExponentSplits(p: Text, t: Text, n0: Parts) returns (n: Parts)
    requires Exponent(p, t).Good? && !StartsDigit(t) && ValidParts(n0)
    ensures n.minus == n0.minus && n.whole == n0.whole && n.fraction == n0.fraction && ValidParts(n)
    ensures var r := Exponent(p, t); r.p == p + ExponentPart(n) && t == ExponentPart(n) + r.t && !StartsDigit(r.t)
  {
    var r := Exponent(p, t);
    if !StartsExponent(t) {
      n := n0.(exponent := []);
      assert p + [] == p && [] + t == t;
    } else if StartsSign(t[1..]) {
      var exponent := DigitRunSplits(p + [t[0]] + [t[1]], t[2..]);
      n := n0.(e := t[0], sign := [t[1]], exponent := exponent);
      ConcatAssoc(p + [t[0]], [t[1]], exponent);
      ConcatAssoc(p, [t[0]], [t[1]] + exponent);
      SignedText(t, exponent, r.t);
    } else {
      var exponent := DigitRunSplits(p + [t[0]], t[1..]);
      n := n0.(e := t[0], sign := [], exponent := exponent);
      assert [] + exponent == exponent;
      ConcatAssoc(p, [t[0]], exponent);
      assert t == [t[0]] + t[1..];
      ConcatAssoc([t[0]], exponent, r.t);
    }
  }

  lemma SignedText(t: Text, exponent: Text, rest: Text)
    requires |t| >= 2 && t[2..] == exponent + rest
    ensures t == ([t[0]] + ([t[1]] + exponent)) + rest
  {
    assert t == [t[0]] + ([t[1]] + t[2..]);
    ConcatAssoc([t[1]], exponent, rest);
    ConcatAssoc([t[0]], [t[1]] + exponent, rest);
  }
}
