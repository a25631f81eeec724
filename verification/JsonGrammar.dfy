/** The language the parser accepts, as a grammar: trees of tokens with the blanks before them
    (RFC 7159, sections 2 to 7, without the characters and numbers that are refused). The parser
    accepts exactly the texts of these trees and gives exactly their values. */
module JsonGrammar {
  import opened Sequences
  import opened JsonText
  import opened JsonStrings

  // ------------------------------------------------ characters of strings

  /** How one character of a string is written: as it is, by a letter, by its number, as a pair. */
  datatype Form = Raw(c: Char) | Short(letter: Char, c: Char) | Code(hex: Text) | Codes(high: Text, low: Text)

  ghost predicate IsHex4(h: Text) { |h| == 4 && forall i :: 0 <= i < 4 ==> IsHex(h[i]) }

  ghost function HexNumber(h: Text): (x: nat)
    requires IsHex4(h)
    ensures x < 0x10000
  {
    ((HexValue(h[0]) * 16 + HexValue(h[1])) * 16 + HexValue(h[2])) * 16 + HexValue(h[3])
  }

  /** The letters after a backslash and what they stand for. */
  const SHORT_FORMS: map<Char, Char> :=
    map[QUOTE := QUOTE, BACKSLASH := BACKSLASH, SLASH := SLASH, 0x62 := 0x08, 0x66 := 0x0c, 0x6e := 0x0a, 0x72 := 0x0d,
        0x74 := 0x09]

  ghost function PairNumber(high: Text, low: Text): nat
    requires IsHex4(high) && IsHex4(low)
  {
    0x10000 + HexNumber(high) % 0x400 * 0x400 + HexNumber(low) % 0x400
  }

  ghost predicate ValidForm(f: Form) {
    match f
    case Raw(c) => c != QUOTE && c != BACKSLASH && (0x20 <= c < 0xd800 || 0xf900 <= c < 0xf0000)
    case Short(letter, c) => letter in SHORT_FORMS && SHORT_FORMS[letter] == c
    case Code(hex) => IsHex4(hex) && (1 <= HexNumber(hex) < 0xd800 || 0xf900 <= HexNumber(hex))
    case Codes(high, low) =>
      && IsHex4(high) && 0xd800 <= HexNumber(high) < 0xdc00
      && IsHex4(low) && 0xdc00 <= HexNumber(low) < 0xe000
      && PairNumber(high, low) <= 0xf0000
  }

  ghost function FormText(f: Form): Text {
    match f
    case Raw(c) => [c]
    case Short(letter, _) => [BACKSLASH, letter]
    case Code(hex) => [BACKSLASH, LOWER_U] + hex
    case Codes(high, low) => ([BACKSLASH, LOWER_U] + high) + ([BACKSLASH, LOWER_U] + low)
  }

  ghost function FormChar(f: Form): (c: Char)
    requires ValidForm(f)
    ensures c != 0
  {
    match f
    case Raw(c) => c
    case Short(_, c) => c
    case Code(hex) => HexNumber(hex)
    case Codes(high, low) => PairNumber(high, low)
  }

  lemma HexAccepted(h: Text, t: Text)
    requires IsHex4(h)
    ensures ReadHex4(h + t) == Hex(HexNumber(h), t)
  {
    assert (h + t)[4..] == t;
    assert forall i :: 0 <= i < 4 ==> (h + t)[i] == h[i];
  }

  lemma HexFound(t: Text)
    requires ReadHex4(t).Hex?
    ensures IsHex4(t[..4]) && HexNumber(t[..4]) == ReadHex4(t).x && t == t[..4] + ReadHex4(t).t
  {
  }

  lemma CodeAccepted(hex: Text, t: Text)
    requires IsHex4(hex)
    ensures ReadChar(([BACKSLASH, LOWER_U] + hex) + t) == ReadUnicode(hex + t) &&
            ReadHex4(hex + t) == Hex(HexNumber(hex), t)
  {
    var text := ([BACKSLASH, LOWER_U] + hex) + t;
    assert text[1..][1..] == hex + t;
    HexAccepted(hex, t);
  }

  lemma ShortAccepted(letter: Char, t: Text)
    requires letter in SHORT_FORMS
    ensures ReadChar([BACKSLASH, letter] + t) == OneChar(SHORT_FORMS[letter], t)
  {
    var text := [BACKSLASH, letter] + t;
    assert text[1..] == [letter] + t;
    assert text[1..][1..] == t;
  }

  lemma CodesAccepted(high: Text, low: Text, t: Text)
    requires ValidForm(Codes(high, low))
    ensures ReadChar(FormText(Codes(high, low)) + t) == OneChar(PairNumber(high, low), t)
  {
    var rest := ([BACKSLASH, LOWER_U] + low) + t;
    ConcatAssoc([BACKSLASH, LOWER_U] + high, [BACKSLASH, LOWER_U] + low, t);
    CodeAccepted(high, rest);
    LowAccepted(HexNumber(high), low, t);
  }

  lemma LowAccepted(x: nat, low: Text, t: Text)
    requires 0xd800 <= x < 0xdc00 && IsHex4(low) && 0xdc00 <= HexNumber(low) < 0xe000
    requires 0x10000 + x % 0x400 * 0x400 + HexNumber(low) % 0x400 <= 0xf0000
    ensures ReadLow(x, ([BACKSLASH, LOWER_U] + low) + t) ==
            OneChar(0x10000 + x % 0x400 * 0x400 + HexNumber(low) % 0x400, t)
  {
    var rest := ([BACKSLASH, LOWER_U] + low) + t;
    assert rest[0] == BACKSLASH && rest[1] == LOWER_U && rest[2..] == low + t;
    HexAccepted(low, t);
  }

  lemma FormAccepted(f: Form, t: Text)
    requires ValidForm(f)
    ensures !StartsWith(FormText(f) + t, QUOTE) && ReadChar(FormText(f) + t) == OneChar(FormChar(f), t)
  {
    match f
    case Raw(c) => RawReads(c, t);
    case Short(letter, c) => ShortAccepted(letter, t);
    case Code(hex) => CodeAccepted(hex, t);
    case Codes(high, low) => CodesAccepted(high, low, t);
  }

  /** Every character that is read was written in one of the forms. */
  lemma FormFound(t: Text) returns (f: Form)
    requires ReadChar(t).OneChar? && !StartsWith(t, QUOTE)
    ensures ValidForm(f) && FormChar(f) == ReadChar(t).c && t == FormText(f) + ReadChar(t).t
  {
    if t[0] != BACKSLASH {
      f := Raw(t[0]);
      assert t == [t[0]] + t[1..];
    } else if t[1] != LOWER_U {
      f := Short(t[1], ReadChar(t).c);
      assert t == [BACKSLASH, t[1]] + t[1..][1..];
    } else {
      f := UnicodeFound(t[2..]);
      assert t[1..][1..] == t[2..];
      assert t == [BACKSLASH, LOWER_U] + t[2..];
      EscapeText(f, t[2..], ReadChar(t).t);
    }
  }

  /** The text of a form by number, after its first backslash and letter. */
  ghost function AfterU(f: Form): Text
    requires f.Code? || f.Codes?
  {
    if f.Code? then f.hex else f.high + ([BACKSLASH, LOWER_U] + f.low)
  }

  lemma EscapeText(f: Form, t: Text, rest: Text)
    requires (f.Code? || f.Codes?) && t == AfterU(f) + rest
    ensures [BACKSLASH, LOWER_U] + t == FormText(f) + rest
  {
    ConcatAssoc([BACKSLASH, LOWER_U], AfterU(f), rest);
    if f.Codes? { ConcatAssoc([BACKSLASH, LOWER_U], f.high, [BACKSLASH, LOWER_U] + f.low); }
  }

  lemma UnicodeFound(t: Text) returns (f: Form)
    requires ReadUnicode(t).OneChar?
    ensures (f.Code? || f.Codes?) && ValidForm(f) && FormChar(f) == ReadUnicode(t).c &&
            t == AfterU(f) + ReadUnicode(t).t
  {
    HexFound(t);
    var x, t' := ReadHex4(t).x, ReadHex4(t).t;
    if x < 0xd800 || x >= 0xf900 {
      f := Code(t[..4]);
    } else {
      HexFound(t'[2..]);
      f := Codes(t[..4], t'[2..][..4]);
      assert t' == [BACKSLASH, LOWER_U] + t'[2..];
      ConcatAssoc([BACKSLASH, LOWER_U], f.low, ReadUnicode(t).t);
      ConcatAssoc(f.high, [BACKSLASH, LOWER_U] + f.low, ReadUnicode(t).t);
    }
  }

  // ------------------------------------------------ strings

  ghost predicate ValidForms(forms: seq<Form>) { forall i :: 0 <= i < |forms| ==> ValidForm(forms[i]) }

  ghost function FormsText(forms: seq<Form>): Text {
    if forms == [] then [] else FormText(forms[0]) + FormsText(forms[1..])
  }

  ghost function FormsString(forms: seq<Form>): Str
    requires ValidForms(forms)
  {
    if forms == [] then [] else [FormChar(forms[0])] + FormsString(forms[1..])
  }

  lemma {:induction false} StringAccepted(p: Str, forms: seq<Form>, t: Text)
    requires ValidForms(forms)
    ensures ReadString(p, FormsText(forms) + ([QUOTE] + t)) == GoodString(p + FormsString(forms), t)
    decreases |forms|
  {
    if forms == [] {
      var text := FormsText(forms) + ([QUOTE] + t);
      assert text == [QUOTE] + t && text[1..] == t && p + FormsString(forms) == p;
    } else {
      var f, rest := forms[0], FormsText(forms[1..]) + ([QUOTE] + t);
      ConcatAssoc(FormText(f), FormsText(forms[1..]), [QUOTE] + t);
      FormAccepted(f, rest);
      StringAccepted(p + [FormChar(f)], forms[1..], t);
      ConcatAssoc(p, [FormChar(f)], FormsString(forms[1..]));
    }
  }

  lemma {:induction false} StringFound(p: Str, t: Text) returns (forms: seq<Form>)
    requires ReadString(p, t).GoodString?
    ensures ValidForms(forms) && ReadString(p, t).s == p + FormsString(forms)
    ensures t == FormsText(forms) + ([QUOTE] + ReadString(p, t).t)
    decreases |t|
  {
    if StartsWith(t, QUOTE) {
      forms := [];
      assert t == [QUOTE] + t[1..] && p + [] == p;
    } else {
      var f := FormFound(t);
      var c := ReadChar(t).c;
      var rest := StringFound(p + [c], ReadChar(t).t);
      forms := [f] + rest;
      assert forms[1..] == rest;
      ConcatAssoc(p, [c], FormsString(rest));
      ConcatAssoc(FormText(f), FormsText(rest), [QUOTE] + ReadString(p, t).t);
    }
  }
}
