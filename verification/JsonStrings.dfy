/** Strings in JSON text: escapes, surrogate pairs and the characters that are not accepted. */
module JsonStrings {
  import opened Sequences
  import opened JsonText

  /** Strings end at the first zero, so they have none inside. */
  type Str = s: Text | forall i :: 0 <= i < |s| ==> s[i] != 0

  const REPLACEMENT: Char := 0xfffd

  // ------------------------------------------------ hexadecimal digits

  function HexDigit(d: nat): (c: Char)
    requires d < 16
  {
    if d < 10 then ZERO + d else LOWER_A + (d - 10)
  }

  predicate IsHex(c: Char) { IsDigit(c) || LOWER_A <= c <= LOWER_F || UPPER_A <= c <= UPPER_F }

  function HexValue(c: Char): (d: nat)
    requires IsHex(c)
    ensures d < 16
  {
    if IsDigit(c) then c - ZERO else if c >= LOWER_A then c - LOWER_A + 10 else c - UPPER_A + 10
  }

  function Hex4(x: nat): (t: Text)
    requires x < 0x10000
    ensures |t| == 4
  {
    [HexDigit(x / 16 / 16 / 16), HexDigit(x / 16 / 16 % 16), HexDigit(x / 16 % 16), HexDigit(x % 16)]
  }

  datatype HexScan = BadHex | Hex(x: nat, t: Text)

  function ReadHex4(t: Text): (r: HexScan)
    ensures r.Hex? ==> r.x < 0x10000 && |r.t| == |t| - 4
  {
    if |t| >= 4 && IsHex(t[0]) && IsHex(t[1]) && IsHex(t[2]) && IsHex(t[3]) then
      Hex(((HexValue(t[0]) * 16 + HexValue(t[1])) * 16 + HexValue(t[2])) * 16 + HexValue(t[3]), t[4..])
    else BadHex
  }

  lemma HexReads(x: nat, t: Text)
    requires x < 0x10000
    ensures ReadHex4(Hex4(x) + t) == Hex(x, t)
  {
    var text := Hex4(x) + t;
    assert text[4..] == t;
    var a := x / 16;
    var b := a / 16;
    assert text[0] == HexDigit(b / 16) && text[1] == HexDigit(b % 16) && text[2] == HexDigit(a % 16) &&
           text[3] == HexDigit(x % 16);
    DigitReads(b / 16);
    DigitReads(b % 16);
    DigitReads(a % 16);
    DigitReads(x % 16);
  }

  lemma DigitReads(d: nat)
    requires d < 16
    ensures IsHex(HexDigit(d)) && HexValue(HexDigit(d)) == d
  {
  }

  // ------------------------------------------------ reading

  datatype CharScan = BadChar(error: Error) | OneChar(c: Char, t: Text)

  /** After a backslash and `u`. */
  function ReadUnicode(t: Text): (r: CharScan)
    ensures r.OneChar? ==> r.c != 0 && |r.t| < |t|
  {
    match ReadHex4(t)
    case BadHex => BadChar(InvalidHex)
    case Hex(x, t') =>
      if x == 0 then BadChar(ZeroByte)
      else if x < 0xd800 || x >= 0xf900 then OneChar(x, t')
      else if x < 0xdc00 then ReadLow(x, t')
      else if x < 0xe000 then BadChar(EscapedSurrogate)
      else BadChar(EscapedPrivateUse)
  }

  /** The low surrogate after the high one `x`. */
  function ReadLow(x: nat, t: Text): (r: CharScan)
    requires 0xd800 <= x < 0xdc00
    ensures r.OneChar? ==> 0x10000 <= r.c <= 0xf0000 && |r.t| < |t|
  {
    if !(|t| >= 2 && t[0] == BACKSLASH && t[1] == LOWER_U) then BadChar(MissingLowSurrogate)
    else match ReadHex4(t[2..])
      case BadHex => BadChar(InvalidHex)
      case Hex(y, t') =>
        if !(0xdc00 <= y < 0xe000) then BadChar(MissingLowSurrogate)
        else
          var c := 0x10000 + x % 0x400 * 0x400 + y % 0x400;
          if c > 0xf0000 then BadChar(EscapedPrivateUse) else OneChar(c, t')
  }

  function ReadEscape(t: Text): (r: CharScan)
    ensures r.OneChar? ==> r.c != 0 && |r.t| < |t|
  {
    if t == [] then BadChar(InvalidEscape)
    else if t[0] == QUOTE || t[0] == BACKSLASH || t[0] == SLASH then OneChar(t[0], t[1..])
    else if t[0] == 0x62 then OneChar(0x08, t[1..])
    else if t[0] == 0x66 then OneChar(0x0c, t[1..])
    else if t[0] == 0x6e then OneChar(0x0a, t[1..])
    else if t[0] == 0x72 then OneChar(0x0d, t[1..])
    else if t[0] == 0x74 then OneChar(0x09, t[1..])
    else if t[0] == LOWER_U then ReadUnicode(t[1..])
    else BadChar(InvalidEscape)
  }

  /** Why a character may not stand in a string as it is. */
  function Refused(c: Char): (e: Error)
    requires c < 0x20 || 0xd800 <= c < 0xf900 || 0xf0000 <= c
  {
    if c < 0x20 then if c == 0x0d || c == 0x0a then Unterminated else ControlCharacter
    else if c < 0xe000 then SurrogateCharacter
    else if c > 0x10ffff then NonUnicodeCharacter
    else PrivateUseCharacter
  }

  /** One character of a string. */
  function ReadChar(t: Text): (r: CharScan)
    ensures r.OneChar? ==> r.c != 0 && |r.t| < |t|
  {
    if t == [] then BadChar(Unterminated)
    else if t[0] < 0x20 || 0xd800 <= t[0] < 0xf900 || 0xf0000 <= t[0] then BadChar(Refused(t[0]))
    else if t[0] == BACKSLASH then ReadEscape(t[1..])
    else OneChar(t[0], t[1..])
  }

  datatype StringScan = BadString(error: Error) | GoodString(s: Str, t: Text)

  /** The rest of a string after its opening quote, of which `p` has been read. */
  function ReadString(p: Str, t: Text): (r: StringScan)
    ensures r.GoodString? ==> p <= r.s && |r.t| < |t|
    decreases |t|
  {
    if StartsWith(t, QUOTE) then GoodString(p, t[1..])
    else match ReadChar(t)
      case BadChar(e) => BadString(e)
      case OneChar(c, t') => ReadString(p + [c], t')
  }

  // ------------------------------------------------ printing

  function Escaped(x: nat): (t: Text)
    requires x < 0x10000
  {
    [BACKSLASH, LOWER_U] + Hex4(x)
  }

  function PrintChar(u: Char, escape: bool): (t: Text) {
    if u == QUOTE || u == BACKSLASH then [BACKSLASH, u]
    else if u < 0x20 then
      if u == 0x09 then [BACKSLASH, 0x74]
      else if u == 0x0a then [BACKSLASH, 0x6e]
      else if u == 0x0d then [BACKSLASH, 0x72]
      else Escaped(u)
    else if u >= 0x7f && escape then
      if u < 0x10000 then Escaped(u)
      else if u < 0x110000 then Escaped(0xd800 + (u - 0x10000) / 0x400) + Escaped(0xdc00 + u % 0x400)
      else Escaped(REPLACEMENT)
    else [u]
  }

  function PrintChars(s: Str, escape: bool): Text {
    if s == [] then [] else PrintChar(s[0], escape) + PrintChars(s[1..], escape)
  }

  function PrintString(s: Str, escape: bool): Text {
    [QUOTE] + (PrintChars(s, escape) + [QUOTE])
  }

  // ------------------------------------------------ reading back

  /** Characters that a string can have after it was read. */
  predicate Readable(u: Char) { 1 <= u < 0xd800 || 0xf900 <= u <= 0xf0000 }

  /** Characters that survive printing and reading back. The last one survives only escaped. */
  predicate Survives(u: Char, escape: bool) { Readable(u) && (escape || u != 0xf0000) }

  ghost predicate AllSurvive(s: Str, escape: bool) { forall i :: 0 <= i < |s| ==> Survives(s[i], escape) }

  lemma EscapedReads(x: nat, t: Text)
    requires x < 0x10000
    ensures ReadChar(Escaped(x) + t) == ReadUnicode(Hex4(x) + t) && ReadHex4(Hex4(x) + t) == Hex(x, t)
  {
    HexReads(x, t);
    assert (Escaped(x) + t)[1..][1..] == Hex4(x) + t;
  }

  lemma PairDecodes(u: Char)
    requires 0x10000 <= u < 0x110000
    ensures var x, y := 0xd800 + (u - 0x10000) / 0x400, 0xdc00 + u % 0x400;
            0xd800 <= x < 0xdc00 <= y < 0xe000 && 0x10000 + x % 0x400 * 0x400 + y % 0x400 == u
  {
    var q, r := (u - 0x10000) / 0x400, (u - 0x10000) % 0x400;
    assert u == 0x10000 + q * 0x400 + r;
    assert u % 0x400 == r;
    assert (0xd800 + q) % 0x400 == q;
    assert (0xdc00 + r) % 0x400 == r;
  }

  lemma PairReads(u: Char, t: Text)
    requires 0x10000 <= u < 0x110000
    ensures ReadChar(Escaped(0xd800 + (u - 0x10000) / 0x400) + Escaped(0xdc00 + u % 0x400) + t) ==
            if u > 0xf0000 then BadChar(EscapedPrivateUse) else OneChar(u, t)
  {
    var x, y := 0xd800 + (u - 0x10000) / 0x400, 0xdc00 + u % 0x400;
    PairDecodes(u);
    ConcatAssoc(Escaped(x), Escaped(y), t);
    EscapedReads(x, Escaped(y) + t);
    LowReads(x, y, t);
  }

  lemma LowReads(x: nat, y: nat, t: Text)
    requires 0xd800 <= x < 0xdc00 && y < 0x10000
    ensures var c := 0x10000 + x % 0x400 * 0x400 + y % 0x400;
            ReadLow(x, Escaped(y) + t) ==
            if !(0xdc00 <= y < 0xe000) then BadChar(MissingLowSurrogate)
            else if c > 0xf0000 then BadChar(EscapedPrivateUse) else OneChar(c, t)
  {
    HexReads(y, t);
    assert (Escaped(y) + t)[2..] == Hex4(y) + t;
  }

  lemma CharReads(u: Char, escape: bool, t: Text)
    requires Survives(u, escape)
    ensures !StartsWith(PrintChar(u, escape) + t, QUOTE) && ReadChar(PrintChar(u, escape) + t) == OneChar(u, t)
  {
    if u == QUOTE || u == BACKSLASH || u == 0x09 || u == 0x0a || u == 0x0d {
      ShortReads(u, escape, t);
    } else if u < 0x20 || (u >= 0x7f && escape && u < 0x10000) {
      EscapedAs(u, t);
    } else if u >= 0x7f && escape {
      PairReads(u, t);
    } else {
      RawReads(u, t);
    }
  }

  lemma EscapedAs(u: Char, t: Text)
    requires 1 <= u < 0x10000 && !(0xd800 <= u < 0xf900)
    ensures !StartsWith(Escaped(u) + t, QUOTE) && ReadChar(Escaped(u) + t) == OneChar(u, t)
  {
    EscapedReads(u, t);
  }

  lemma RawReads(u: Char, t: Text)
    requires Survives(u, false) && u >= 0x20 && u != QUOTE && u != BACKSLASH
    ensures !StartsWith([u] + t, QUOTE) && ReadChar([u] + t) == OneChar(u, t)
  {
    assert ([u] + t)[1..] == t;
  }

  lemma ShortReads(u: Char, escape: bool, t: Text)
    requires |PrintChar(u, escape)| == 2
    ensures !StartsWith(PrintChar(u, escape) + t, QUOTE) && ReadChar(PrintChar(u, escape) + t) == OneChar(u, t)
  {
    var text := PrintChar(u, escape) + t;
    assert text[1..] == [PrintChar(u, escape)[1]] + t;
    assert text[1..][1..] == t;
  }

  /** A character that does not survive is refused, or another one is read in its place. */
  lemma CharLost(u: Char, escape: bool, t: Text)
    requires u != 0 && !Survives(u, escape) && !(escape && 0xd800 <= u < 0xdc00)
    ensures !StartsWith(PrintChar(u, escape) + t, QUOTE)
    ensures var r := ReadChar(PrintChar(u, escape) + t); r.BadChar? || (r.t == t && r.c != u)
  {
    if escape {
      if u < 0x10000 {
        EscapedReads(u, t);
      } else if u < 0x110000 {
        PairReads(u, t);
      } else {
        EscapedReads(REPLACEMENT, t);
      }
    }
  }

  /** An escaped high surrogate is refused, unless the next character makes it a pair. */
  lemma HighLost(u: Char, s: Str, rest: Text)
    requires 0xd800 <= u < 0xdc00
    ensures var t := PrintChars(s, true) + ([QUOTE] + rest);
            && !StartsWith(PrintChar(u, true) + t, QUOTE)
            && var r := ReadChar(PrintChar(u, true) + t);
               r.BadChar? || (s != [] && r.t == PrintChars(s[1..], true) + ([QUOTE] + rest) && r.c != u)
  {
    var t := PrintChars(s, true) + ([QUOTE] + rest);
    EscapedReads(u, t);
    if s == [] {
      assert t == [QUOTE] + rest;
    } else {
      var v, t' := s[0], PrintChars(s[1..], true) + ([QUOTE] + rest);
      ConcatAssoc(PrintChar(v, true), PrintChars(s[1..], true), [QUOTE] + rest);
      assert t == PrintChar(v, true) + t';
      NextAfterHigh(u, v, t');
    }
  }

  lemma NextAfterHigh(x: nat, v: Char, t: Text)
    requires 0xd800 <= x < 0xdc00 && v != 0
    ensures var r := ReadLow(x, PrintChar(v, true) + t); r.BadChar? || (r.t == t && 0x10000 <= r.c)
  {
    var text := PrintChar(v, true);
    if |text| > 2 {
      if v < 0x10000 {
        LowReads(x, v, t);
      } else if v < 0x110000 {
        PairDecodes(v);
        var hi, lo := 0xd800 + (v - 0x10000) / 0x400, 0xdc00 + v % 0x400;
        ConcatAssoc(Escaped(hi), Escaped(lo), t);
        LowReads(x, hi, Escaped(lo) + t);
      } else {
        LowReads(x, REPLACEMENT, t);
      }
    }
  }

  /** A printed string is read to its end if it is read at all, and comes back as it was exactly
      when all its characters survive. */
  ghost predicate ComesBack(p: Str, s: Str, escape: bool, rest: Text) {
    var r := ReadString(p, PrintChars(s, escape) + ([QUOTE] + rest));
    && (r.GoodString? ==> r.t == rest)
    && (r == GoodString(p + s, rest) <==> AllSurvive(s, escape))
  }

  lemma Regroup(p: Text, s: Text)
    requires s != []
    ensures p + s == p + [s[0]] + s[1..]
  {
  }

  lemma KeptBack(p: Str, s: Str, escape: bool, rest: Text)
    requires s != [] && Survives(s[0], escape) && ComesBack(p + [s[0]], s[1..], escape, rest)
    ensures ComesBack(p, s, escape, rest)
  {
    var u, t' := s[0], PrintChars(s[1..], escape) + ([QUOTE] + rest);
    ConcatAssoc(PrintChar(u, escape), PrintChars(s[1..], escape), [QUOTE] + rest);
    CharReads(u, escape, t');
    Regroup(p, s);
    AllSurviveFirst(s, escape);
  }

  lemma LostBack(p: Str, s: Str, escape: bool, rest: Text, s': Str)
    requires s != [] && !Survives(s[0], escape)
    requires var t := PrintChars(s, escape) + ([QUOTE] + rest);
             && !StartsWith(t, QUOTE)
             && var r := ReadChar(t);
                r.OneChar? ==>
                  r.c != s[0] && r.t == PrintChars(s', escape) + ([QUOTE] + rest) &&
                  ComesBack(p + [r.c], s', escape, rest)
    ensures ComesBack(p, s, escape, rest)
  {
    var t := PrintChars(s, escape) + ([QUOTE] + rest);
    var r := ReadChar(t);
    if r.OneChar? { Differs(p, r.c, s, ReadString(p, t)); }
  }

  lemma {:induction false} StringBack(p: Str, s: Str, escape: bool, rest: Text)
    ensures ComesBack(p, s, escape, rest)
    decreases |s|
  {
    var t := PrintChars(s, escape) + ([QUOTE] + rest);
    if s == [] {
      assert t == [QUOTE] + rest && t[1..] == rest && p + s == p;
    } else if Survives(s[0], escape) {
      StringBack(p + [s[0]], s[1..], escape, rest);
      KeptBack(p, s, escape, rest);
    } else {
      var s' := LostAt(s, escape, rest);
      var r := ReadChar(t);
      if r.OneChar? { StringBack(p + [r.c], s', escape, rest); }
      LostBack(p, s, escape, rest, s');
    }
  }

  lemma LostAt(s: Str, escape: bool, rest: Text) returns (s': Str)
    requires s != [] && !Survives(s[0], escape)
    ensures |s'| < |s|
    ensures var t := PrintChars(s, escape) + ([QUOTE] + rest);
            && !StartsWith(t, QUOTE)
            && var r := ReadChar(t); r.OneChar? ==> r.c != s[0] && r.t == PrintChars(s', escape) + ([QUOTE] + rest)
  {
    var u, t' := s[0], PrintChars(s[1..], escape) + ([QUOTE] + rest);
    ConcatAssoc(PrintChar(u, escape), PrintChars(s[1..], escape), [QUOTE] + rest);
    if escape && 0xd800 <= u < 0xdc00 {
      HighLost(u, s[1..], rest);
      s' := if |s| > 1 then s[1..][1..] else [];
    } else {
      CharLost(u, escape, t');
      s' := s[1..];
    }
  }

  lemma AllSurviveFirst(s: Str, escape: bool)
    requires s != [] && Survives(s[0], escape)
    ensures AllSurvive(s, escape) <==> AllSurvive(s[1..], escape)
  {
    assert s == [s[0]] + s[1..];
    assert forall i :: 0 <= i < |s[1..]| ==> s[1..][i] == s[i + 1];
    assert forall i :: 0 < i < |s| ==> s[i] == s[1..][i - 1];
  }

  lemma Differs(p: Str, c: Char, s: Str, r: StringScan)
    requires s != [] && c != s[0] && c != 0 && (r.GoodString? ==> p + [c] <= r.s)
    ensures r.GoodString? ==> r.s != p + s
  {
    assert (p + [c])[|p|] == c && (p + s)[|p|] == s[0];
  }

  /** Whatever is read has readable characters only. */
  lemma {:induction false} StringReadable(p: Str, t: Text)
    requires AllSurvive(p, true)
    ensures var r := ReadString(p, t); r.GoodString? ==> AllSurvive(r.s, true)
    decreases |t|
  {
    if !StartsWith(t, QUOTE) && ReadChar(t).OneChar? {
      CharReadable(t);
      StringReadable(p + [ReadChar(t).c], ReadChar(t).t);
    }
  }

  lemma CharReadable(t: Text)
    requires ReadChar(t).OneChar?
    ensures Readable(ReadChar(t).c)
  {
  }
}
