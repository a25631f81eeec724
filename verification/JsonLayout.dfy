/** What printed text looks like: which characters it has, and where its blanks are. */
module JsonLayout {
  import opened Sequences
  import opened JsonText
  import opened JsonStrings
  import opened JsonSpec

  // ------------------------------------------------ printed strings

  predicate Printable(c: Char) { 0x20 <= c < 0x7f }

  /** Characters that are printed as they are. */
  predicate AsIs(c: Char, escape: bool) {
    0x20 <= c && c != QUOTE && c != BACKSLASH && (escape ==> c < 0x7f)
  }

  /** Characters that have an escape of one letter. */
  predicate HasShort(c: Char) { c in {QUOTE, BACKSLASH, 0x09, 0x0a, 0x0d} }

  ghost predicate AllPrintable(t: Text) { forall i :: 0 <= i < |t| ==> Printable(t[i]) }

  lemma EscapedPrintable(x: nat)
    requires x < 0x10000
    ensures |Escaped(x)| == 6 && AllPrintable(Escaped(x))
    ensures forall i :: 0 <= i < 6 ==> !(UPPER_A <= Escaped(x)[i] <= UPPER_F)
  {
    var t := Escaped(x);
    forall i | 0 <= i < 6 ensures Printable(t[i]) && !(UPPER_A <= t[i] <= UPPER_F) {
      if i >= 2 { assert t[i] == Hex4(x)[i - 2]; }
    }
  }

  /** How long the text of a character is: nothing is escaped without need, a letter is used where
      there is one, and numbers have their digits in lower case. */
  lemma CharLength(u: Char, escape: bool)
    ensures var t := PrintChar(u, escape);
            if AsIs(u, escape) then t == [u]
            else
              && |t| == (if HasShort(u) then 2 else if 0x10000 <= u < 0x110000 then 12 else 6)
              && t[0] == BACKSLASH && AllPrintable(t)
              && forall i :: 0 <= i < |t| ==> !(UPPER_A <= t[i] <= UPPER_F)
  {
    if !AsIs(u, escape) && !HasShort(u) {
      if u < 0x10000 {
        EscapedPrintable(u);
      } else if u < 0x110000 {
        PairPrintable(u);
      } else {
        EscapedPrintable(REPLACEMENT);
      }
    }
  }

  lemma PairPrintable(u: Char)
    requires 0x10000 <= u < 0x110000
    ensures var t := Escaped(0xd800 + (u - 0x10000) / 0x400) + Escaped(0xdc00 + u % 0x400);
            && |t| == 12 && t[0] == BACKSLASH && AllPrintable(t)
            && forall i :: 0 <= i < |t| ==> !(UPPER_A <= t[i] <= UPPER_F)
  {
    EscapedPrintable(0xd800 + (u - 0x10000) / 0x400);
    EscapedPrintable(0xdc00 + u % 0x400);
  }

  /** With escapes a string is printed in ASCII, without control characters. */
  lemma {:induction false} EscapedString(s: Str)
    ensures AllPrintable(PrintChars(s, true)) && AllPrintable(PrintString(s, true))
  {
    if s != [] {
      CharLength(s[0], true);
      EscapedString(s[1..]);
    }
  }

  /** What needs no escape is printed as it is. */
  lemma {:induction false} PlainString(s: Str, escape: bool)
    requires forall i :: 0 <= i < |s| ==> AsIs(s[i], escape)
    ensures PrintString(s, escape) == [QUOTE] + (s + [QUOTE])
  {
    PlainChars(s, escape);
  }

  lemma {:induction false} PlainChars(s: Str, escape: bool)
    requires forall i :: 0 <= i < |s| ==> AsIs(s[i], escape)
    ensures PrintChars(s, escape) == s
  {
    if s != [] {
      CharLength(s[0], escape);
      PlainChars(s[1..], escape);
      assert s == [s[0]] + s[1..];
    }
  }

  // ------------------------------------------------ the characters of printed text

  /** Printable characters, and the newlines and tabs of the layout. */
  ghost predicate Ascii(t: Text) { forall i :: 0 <= i < |t| ==> Printable(t[i]) || t[i] == 0x0a || t[i] == 0x09 }

  /** Characters that stand for themselves in numbers and names. */
  predicate Ordinary(c: Char) { IsDigit(c) || IsLetter(c) || c in {MINUS, PLUS, POINT, UPPER_E} }

  ghost predicate Word(t: Text) { t != [] && AllOrdinary(t) }

  ghost predicate AllOrdinary(t: Text) { forall i :: 0 <= i < |t| ==> Ordinary(t[i]) }

  lemma OrdinaryConcat(a: Text, b: Text)
    requires AllOrdinary(a) && AllOrdinary(b)
    ensures AllOrdinary(a + b)
  {
  }

  lemma NumberWord(t: Text)
    requires IsNumber(t)
    ensures Word(t)
  {
    var n: Parts :| ValidParts(n) && Spelled(n) == t;
    PartsOrdinary(n);
    OrdinaryConcat(FractionPart(n), ExponentPart(n));
    OrdinaryConcat(n.whole, FractionPart(n) + ExponentPart(n));
    OrdinaryConcat(SignPart(n), n.whole + (FractionPart(n) + ExponentPart(n)));
  }

  lemma PartsOrdinary(n: Parts)
    requires ValidParts(n)
    ensures AllOrdinary(SignPart(n)) && AllOrdinary(n.whole)
    ensures AllOrdinary(FractionPart(n)) && AllOrdinary(ExponentPart(n))
  {
    OrdinaryConcat([POINT], n.fraction);
    OrdinaryConcat(n.sign, n.exponent);
    OrdinaryConcat([n.e], n.sign + n.exponent);
  }

  lemma {:induction false} TabsAre(depth: nat)
    ensures |Tabs(depth)| == depth && forall i :: 0 <= i < depth ==> Tabs(depth)[i] == 0x09
  {
    if depth > 0 { TabsAre(depth - 1); }
  }

  lemma SpaceAscii(o: Options, depth: nat)
    ensures Ascii(Space(o, depth))
  {
    TabsAre(depth);
  }

  lemma AsciiConcat(a: Text, b: Text)
    requires Ascii(a) && Ascii(b)
    ensures Ascii(a + b)
  {
  }

  lemma NumberAscii(nums: Numbers, d: real)
    requires Conforming(nums)
    ensures Ascii(nums.format(d))
  {
    NumberWord(nums.format(d));
  }

  lemma {:induction false} ValueAscii(nums: Numbers, o: Options, v: Value, depth: nat)
    requires Conforming(nums) && o.escape
    ensures Ascii(PrintValue(nums, o, v, depth))
    decreases v
  {
    match v
    case Null =>
    case Bool(b) =>
    case Number(d) => NumberAscii(nums, d);
    case String(s) => EscapedString(s);
    case Array(elements) =>
      if elements != [] {
        ElementsAscii(nums, o, elements, depth);
        AsciiConcat([LEFT_BRACKET], PrintElements(nums, o, elements, depth));
      }
    case Object(pairs) =>
      if pairs != [] {
        PairsAscii(nums, o, pairs, depth);
        AsciiConcat([LEFT_BRACE], PrintPairs(nums, o, pairs, depth));
      }
  }

  lemma {:induction false} ElementsAscii(nums: Numbers, o: Options, elements: seq<Value>, depth: nat)
    requires Conforming(nums) && o.escape && elements != []
    ensures Ascii(PrintElements(nums, o, elements, depth))
    decreases elements
  {
    var value := PrintValue(nums, o, elements[0], depth + 1);
    SpaceAscii(o, depth + 1);
    SpaceAscii(o, depth);
    ValueAscii(nums, o, elements[0], depth + 1);
    var tail := Space(o, depth) + [RIGHT_BRACKET];
    if |elements| > 1 {
      ElementsAscii(nums, o, elements[1..], depth);
      tail := [COMMA] + PrintElements(nums, o, elements[1..], depth);
    }
    AsciiConcat(value, tail);
    AsciiConcat(Space(o, depth + 1), value + tail);
  }

  lemma {:induction false} PairsAscii(nums: Numbers, o: Options, pairs: seq<Pair>, depth: nat)
    requires Conforming(nums) && o.escape && pairs != []
    ensures Ascii(PrintPairs(nums, o, pairs, depth))
    decreases pairs
  {
    var key, value := PrintString(pairs[0].key, o.escape), PrintValue(nums, o, pairs[0].value, depth + 1);
    SpaceAscii(o, depth + 1);
    SpaceAscii(o, depth);
    EscapedString(pairs[0].key);
    ValueAscii(nums, o, pairs[0].value, depth + 1);
    var tail := Space(o, depth) + [RIGHT_BRACE];
    if |pairs| > 1 {
      PairsAscii(nums, o, pairs[1..], depth);
      tail := [COMMA] + PrintPairs(nums, o, pairs[1..], depth);
    }
    AsciiConcat(value, tail);
    AsciiConcat([COLON, 0x20], value + tail);
    AsciiConcat(key, [COLON, 0x20] + (value + tail));
    AsciiConcat(Space(o, depth + 1), key + ([COLON, 0x20] + (value + tail)));
  }

  /** With escapes everything is printed in ASCII. */
  lemma PrintAscii(nums: Numbers, o: Options, v: Value)
    requires Conforming(nums) && o.escape
    ensures Ascii(Print(nums, o, v))
  {
    ValueAscii(nums, o, v, 0);
  }

  // ------------------------------------------------ where the blanks are

  /** What stands before a place in the text, as far as blanks depend on it. */
  datatype Mark = Opening | Comma | Colon | Other

  function MarkOf(c: Char): Mark {
    if c == LEFT_BRACKET || c == LEFT_BRACE then Opening
    else if c == COMMA then Comma
    else if c == COLON then Colon
    else Other
  }

  predicate Closes(c: Char) { c == RIGHT_BRACKET || c == RIGHT_BRACE }

  function Deeper(c: Char, depth: int): int {
    if MarkOf(c).Opening? then depth + 1 else if Closes(c) then depth - 1 else depth
  }

  /** The number of blanks at the start of a text. */
  function Blanks(t: Text): (n: nat)
    ensures n <= |t|
  {
    if t != [] && IsSpace(t[0]) then 1 + Blanks(t[1..]) else 0
  }

  /** What comes after a string, when its opening quote was before `t`. */
  function AfterString(t: Text): (r: Text)
    ensures |r| <= |t|
    decreases |t|
  {
    if t == [] then []
    else if t[0] == QUOTE then t[1..]
    else if t[0] == BACKSLASH && |t| >= 2 then AfterString(t[2..])
    else AfterString(t[1..])
  }

  /** A new line with one tab for every bracket that is open, or a single blank. */
  ghost predicate IsLine(o: Options, w: Text, depth: int) {
    if o.indent then w != [] && |w| == depth + 1 && w[0] == 0x0a && forall i :: 0 < i < |w| ==> w[i] == 0x09
    else w == [0x20]
  }

  /** The blanks between two characters: a line after an opening bracket and after a comma, a line
      before a closing bracket, a blank after a colon, a newline at the end, and nothing elsewhere. */
  ghost predicate IsGap(o: Options, before: Mark, w: Text, rest: Text, depth: int) {
    if rest == [] then w == [0x0a]
    else if before.Opening? && Closes(rest[0]) then w == []
    else if before.Opening? || before.Comma? then IsLine(o, w, depth)
    else if Closes(rest[0]) then IsLine(o, w, depth - 1)
    else if before.Colon? then w == [0x20]
    else w == []
  }

  /** All blanks outside strings are as they should be; `depth` brackets are open. */
  ghost predicate LaidOut(o: Options, t: Text, before: Mark, depth: int)
    decreases |t|, 1
  {
    var n := Blanks(t);
    IsGap(o, before, t[..n], t[n..], depth) && (t[n..] == [] || Goes(o, t[n..], depth))
  }

  /** The same for a text that goes on with a character. */
  ghost predicate Goes(o: Options, t: Text, depth: int)
    requires t != []
    decreases |t|, 0
  {
    if t[0] == QUOTE then LaidOut(o, AfterString(t[1..]), Other, depth)
    else LaidOut(o, t[1..], MarkOf(t[0]), Deeper(t[0], depth))
  }

  /** Blanks and what follows them. */
  lemma {:induction false} BlanksAre(w: Text, t: Text)
    requires (forall i :: 0 <= i < |w| ==> IsSpace(w[i])) && (t == [] || !IsSpace(t[0]))
    ensures Blanks(w + t) == |w| && (w + t)[..|w|] == w && (w + t)[|w|..] == t
    decreases |w|
  {
    if w == [] {
      assert w + t == t;
    } else {
      assert (w + t)[1..] == w[1..] + t;
      BlanksAre(w[1..], t);
    }
  }

  lemma Gap(o: Options, before: Mark, w: Text, t: Text, depth: int)
    requires (forall i :: 0 <= i < |w| ==> IsSpace(w[i])) && t != [] && !IsSpace(t[0])
    requires IsGap(o, before, w, t, depth) && Goes(o, t, depth)
    ensures LaidOut(o, w + t, before, depth)
  {
    BlanksAre(w, t);
  }

  lemma NoGap(o: Options, before: Mark, t: Text, depth: int)
    requires t != [] && !IsSpace(t[0]) && IsGap(o, before, [], t, depth) && Goes(o, t, depth)
    ensures LaidOut(o, t, before, depth)
  {
    Gap(o, before, [], t, depth);
    assert [] + t == t;
  }

  /** One character that is no quote, and what follows it. */
  lemma Char1(o: Options, c: Char, t: Text, depth: int)
    requires c != QUOTE && LaidOut(o, t, MarkOf(c), Deeper(c, depth))
    ensures Goes(o, [c] + t, depth)
  {
    assert ([c] + t)[1..] == t;
  }

  lemma SpaceIsLine(o: Options, depth: nat)
    ensures IsLine(o, Space(o, depth), depth) && forall i :: 0 <= i < |Space(o, depth)| ==> IsSpace(Space(o, depth)[i])
  {
    TabsAre(depth);
  }

  lemma {:induction false} WordLaid(o: Options, word: Text, t: Text, depth: int)
    requires Word(word) && LaidOut(o, t, Other, depth)
    ensures Goes(o, word + t, depth)
    decreases |word|
  {
    var rest := word[1..];
    assert word + t == [word[0]] + (rest + t);
    if rest == [] {
      assert rest + t == t;
    } else {
      WordLaid(o, rest, t, depth);
      NoGap(o, Other, rest + t, depth);
    }
    Char1(o, word[0], rest + t, depth);
  }

  lemma {:induction false} AfterChars(s: Str, escape: bool, t: Text)
    ensures AfterString(PrintChars(s, escape) + ([QUOTE] + t)) == t
    decreases |s|
  {
    if s == [] {
      assert [] + ([QUOTE] + t) == [QUOTE] + t && ([QUOTE] + t)[1..] == t;
    } else {
      var more := PrintChars(s[1..], escape) + ([QUOTE] + t);
      AfterChars(s[1..], escape, t);
      AfterChar(s[0], escape, more);
      ConcatAssoc(PrintChar(s[0], escape), PrintChars(s[1..], escape), [QUOTE] + t);
    }
  }

  lemma AfterChar(u: Char, escape: bool, t: Text)
    ensures AfterString(PrintChar(u, escape) + t) == AfterString(t)
  {
    CharLength(u, escape);
    var text := PrintChar(u, escape);
    if AsIs(u, escape) {
      assert ([u] + t)[1..] == t;
    } else if HasShort(u) {
      assert (text + t)[2..] == t;
    } else if 0x10000 <= u < 0x110000 {
      var x, y := 0xd800 + (u - 0x10000) / 0x400, 0xdc00 + u % 0x400;
      ConcatAssoc(Escaped(x), Escaped(y), t);
      AfterEscaped(x, Escaped(y) + t);
      AfterEscaped(y, t);
    } else {
      AfterEscaped(if u < 0x10000 then u else REPLACEMENT, t);
    }
  }

  lemma AfterEscaped(x: nat, t: Text)
    requires x < 0x10000
    ensures AfterString(Escaped(x) + t) == AfterString(t)
  {
    var hex := Hex4(x);
    assert (Escaped(x) + t)[2..] == hex + t;
    AfterPlain(hex, t);
  }

  lemma {:induction false} AfterPlain(w: Text, t: Text)
    requires forall i :: 0 <= i < |w| ==> w[i] != QUOTE && w[i] != BACKSLASH
    ensures AfterString(w + t) == AfterString(t)
    decreases |w|
  {
    if w == [] {
      assert w + t == t;
    } else {
      assert (w + t)[1..] == w[1..] + t;
      AfterPlain(w[1..], t);
    }
  }

  lemma StringLaid(o: Options, s: Str, t: Text, depth: int)
    requires LaidOut(o, t, Other, depth)
    ensures Goes(o, PrintString(s, o.escape) + t, depth)
  {
    var chars := PrintChars(s, o.escape);
    ConcatAssoc(chars, [QUOTE], t);
    assert (PrintString(s, o.escape) + t)[1..] == (chars + [QUOTE]) + t;
    AfterChars(s, o.escape, t);
  }

  lemma CloseLaid(o: Options, depth: nat, c: Char, t: Text)
    requires Closes(c) && LaidOut(o, t, Other, depth)
    ensures LaidOut(o, (Space(o, depth) + [c]) + t, Other, depth + 1)
  {
    SpaceIsLine(o, depth);
    ConcatAssoc(Space(o, depth), [c], t);
    Char1(o, c, t, depth + 1);
    Gap(o, Other, Space(o, depth), [c] + t, depth + 1);
  }

  lemma CommaLaid(o: Options, depth: int, t: Text)
    requires LaidOut(o, t, Comma, depth)
    ensures LaidOut(o, [COMMA] + t, Other, depth)
  {
    Char1(o, COMMA, t, depth);
    NoGap(o, Other, [COMMA] + t, depth);
  }

  /** A value begins with a character that is no blank and no closing bracket. */
  lemma ValueStarts(nums: Numbers, o: Options, v: Value, depth: nat)
    requires Conforming(nums)
    ensures var t := PrintValue(nums, o, v, depth); t != [] && !IsSpace(t[0]) && !Closes(t[0])
  {
    if v.Number? { NumberWord(nums.format(v.d)); }
  }

  lemma {:induction false} ValueLaid(nums: Numbers, o: Options, v: Value, depth: nat, t: Text)
    requires Conforming(nums) && LaidOut(o, t, Other, depth)
    ensures PrintValue(nums, o, v, depth) + t != [] && Goes(o, PrintValue(nums, o, v, depth) + t, depth)
    decreases v
  {
    match v
    case Null => WordLaid(o, NULL_NAME, t, depth);
    case Bool(b) => WordLaid(o, if b then TRUE_NAME else FALSE_NAME, t, depth);
    case Number(d) =>
      NumberWord(nums.format(d));
      WordLaid(o, nums.format(d), t, depth);
    case String(s) => StringLaid(o, s, t, depth);
    case Array(elements) =>
      if elements == [] {
        EmptyLaid(o, LEFT_BRACKET, RIGHT_BRACKET, t, depth);
      } else {
        ElementsLaid(nums, o, elements, depth, t, Opening);
        OpenLaid(o, LEFT_BRACKET, PrintElements(nums, o, elements, depth), t, depth);
      }
    case Object(pairs) =>
      if pairs == [] {
        EmptyLaid(o, LEFT_BRACE, RIGHT_BRACE, t, depth);
      } else {
        PairsLaid(nums, o, pairs, depth, t, Opening);
        OpenLaid(o, LEFT_BRACE, PrintPairs(nums, o, pairs, depth), t, depth);
      }
  }

  lemma EmptyLaid(o: Options, open: Char, close: Char, t: Text, depth: int)
    requires MarkOf(open).Opening? && Closes(close) && LaidOut(o, t, Other, depth)
    ensures Goes(o, [open, close] + t, depth)
  {
    AtOnceLaid(o, close, t, depth);
    OpenLaid(o, open, [close], t, depth);
    assert [open, close] == [open] + [close];
  }

  lemma AtOnceLaid(o: Options, close: Char, t: Text, depth: int)
    requires Closes(close) && LaidOut(o, t, Other, depth)
    ensures LaidOut(o, [close] + t, Opening, depth + 1)
  {
    Char1(o, close, t, depth + 1);
    NoGap(o, Opening, [close] + t, depth + 1);
  }

  lemma OpenLaid(o: Options, open: Char, inside: Text, t: Text, depth: int)
    requires MarkOf(open).Opening? && LaidOut(o, inside + t, Opening, depth + 1)
    ensures Goes(o, ([open] + inside) + t, depth)
  {
    ConcatAssoc([open], inside, t);
    Char1(o, open, inside + t, depth);
  }

  lemma {:induction false} ElementsLaid(nums: Numbers, o: Options, elements: seq<Value>, depth: nat, t: Text,
                                        mark: Mark)
    requires Conforming(nums) && elements != [] && LaidOut(o, t, Other, depth) && (mark.Opening? || mark.Comma?)
    ensures LaidOut(o, PrintElements(nums, o, elements, depth) + t, mark, depth + 1)
    decreases elements
  {
    var value, tail := PrintValue(nums, o, elements[0], depth + 1), Space(o, depth) + [RIGHT_BRACKET];
    if |elements| == 1 {
      CloseLaid(o, depth, RIGHT_BRACKET, t);
    } else {
      var more := PrintElements(nums, o, elements[1..], depth);
      ElementsLaid(nums, o, elements[1..], depth, t, Comma);
      CommaLaid(o, depth + 1, more + t);
      ConcatAssoc([COMMA], more, t);
      tail := [COMMA] + more;
    }
    ValueLaid(nums, o, elements[0], depth + 1, tail + t);
    LineLaid(nums, o, elements[0], depth + 1, tail + t, mark);
    ConcatAssoc(value, tail, t);
    ConcatAssoc(Space(o, depth + 1), value + tail, t);
  }

  lemma LineLaid(nums: Numbers, o: Options, v: Value, depth: nat, t: Text, mark: Mark)
    requires Conforming(nums) && (mark.Opening? || mark.Comma?)
    requires PrintValue(nums, o, v, depth) + t != [] && Goes(o, PrintValue(nums, o, v, depth) + t, depth)
    ensures LaidOut(o, Space(o, depth) + (PrintValue(nums, o, v, depth) + t), mark, depth)
  {
    SpaceIsLine(o, depth);
    ValueStarts(nums, o, v, depth);
    Gap(o, mark, Space(o, depth), PrintValue(nums, o, v, depth) + t, depth);
  }

  lemma ColonLaid(o: Options, value: Text, depth: int)
    requires value != [] && !IsSpace(value[0]) && !Closes(value[0]) && Goes(o, value, depth)
    ensures LaidOut(o, [COLON, 0x20] + value, Other, depth)
  {
    Gap(o, Colon, [0x20], value, depth);
    Char1(o, COLON, [0x20] + value, depth);
    assert [COLON, 0x20] + value == [COLON] + ([0x20] + value);
    NoGap(o, Other, [COLON, 0x20] + value, depth);
  }

  lemma KeyLine(o: Options, key: Str, t: Text, depth: nat, mark: Mark)
    requires LaidOut(o, t, Other, depth) && (mark.Opening? || mark.Comma?)
    ensures LaidOut(o, Space(o, depth) + (PrintString(key, o.escape) + t), mark, depth)
  {
    StringLaid(o, key, t, depth);
    SpaceIsLine(o, depth);
    Gap(o, mark, Space(o, depth), PrintString(key, o.escape) + t, depth);
  }

  /** A key, a colon, a blank and a value. */
  lemma KeyLaid(nums: Numbers, o: Options, p: Pair, depth: nat, t: Text, mark: Mark)
    requires Conforming(nums) && (mark.Opening? || mark.Comma?)
    requires PrintValue(nums, o, p.value, depth) + t != [] && Goes(o, PrintValue(nums, o, p.value, depth) + t, depth)
    ensures LaidOut(o, Space(o, depth) + (PrintString(p.key, o.escape) + ([COLON, 0x20] +
                       (PrintValue(nums, o, p.value, depth) + t))), mark, depth)
  {
    var value := PrintValue(nums, o, p.value, depth) + t;
    ValueStarts(nums, o, p.value, depth);
    ColonLaid(o, value, depth);
    KeyLine(o, p.key, [COLON, 0x20] + value, depth, mark);
  }

  lemma {:induction false} PairsLaid(nums: Numbers, o: Options, pairs: seq<Pair>, depth: nat, t: Text, mark: Mark)
    requires Conforming(nums) && pairs != [] && LaidOut(o, t, Other, depth) && (mark.Opening? || mark.Comma?)
    ensures LaidOut(o, PrintPairs(nums, o, pairs, depth) + t, mark, depth + 1)
    decreases pairs
  {
    var key, value := PrintString(pairs[0].key, o.escape), PrintValue(nums, o, pairs[0].value, depth + 1);
    var tail := Space(o, depth) + [RIGHT_BRACE];
    if |pairs| == 1 {
      CloseLaid(o, depth, RIGHT_BRACE, t);
    } else {
      var more := PrintPairs(nums, o, pairs[1..], depth);
      PairsLaid(nums, o, pairs[1..], depth, t, Comma);
      CommaLaid(o, depth + 1, more + t);
      ConcatAssoc([COMMA], more, t);
      tail := [COMMA] + more;
    }
    ValueLaid(nums, o, pairs[0].value, depth + 1, tail + t);
    KeyLaid(nums, o, pairs[0], depth + 1, tail + t, mark);
    ConcatAssoc(value, tail, t);
    ConcatAssoc([COLON, 0x20], value + tail, t);
    ConcatAssoc(key, [COLON, 0x20] + (value + tail), t);
    ConcatAssoc(Space(o, depth + 1), key + ([COLON, 0x20] + (value + tail)), t);
  }

  /** Everything that is printed is laid out: brackets and commas on lines of their own depth, or
      with single blanks, and no blank anywhere else. */
  lemma PrintLaidOut(nums: Numbers, o: Options, v: Value)
    requires Conforming(nums)
    ensures LaidOut(o, Print(nums, o, v), Other, 0)
  {
    var end: Text := [0x0a];
    BlanksAre(end, []);
    assert end + [] == end;
    ValueLaid(nums, o, v, 0, end);
    ValueStarts(nums, o, v, 0);
    NoGap(o, Other, Print(nums, o, v), 0);
  }
}
