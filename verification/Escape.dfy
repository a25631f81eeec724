/** Escaping of binary data in CSV fields, into a buffer of limited size. */
module Escape {
  import opened Sequences
  import opened Words

  const NUL: byte := 0x00
  const NEWLINE: byte := 0x0a
  const BACKSLASH: byte := 0x5c
  const ZERO: byte := 0x30
  const LETTER_N: byte := 0x6e

  /** Printable characters other than space. */
  predicate IsGraph(c: byte) { 0x21 <= c <= 0x7e }

  predicate IsAlnum(c: byte) { 0x30 <= c <= 0x39 || 0x41 <= c <= 0x5a || 0x61 <= c <= 0x7a }

  /** Separators the configuration accepts: one ASCII character, not alphanumeric, and none of
      `.`, `-`, `#`, `_`, `\`, `/` and newline. */
  predicate Allowed(sep: byte) {
    1 <= sep <= 0x7f && !IsAlnum(sep) && sep !in {0x2e, 0x2d, 0x23, 0x5f, BACKSLASH, NEWLINE, 0x2f}
  }

  function Octal(c: byte): seq<byte> { [ZERO + c / 64, ZERO + c / 8 % 8, ZERO + c % 8] }

  function Code(sep: byte, c: byte): (r: seq<byte>)
    ensures 1 <= |r| <= 4
  {
    if c == NUL then [BACKSLASH, ZERO]
    else if c == BACKSLASH then [BACKSLASH, BACKSLASH]
    else if c == NEWLINE then [BACKSLASH, LETTER_N]
    else if c == sep then if IsGraph(sep) then [BACKSLASH, sep] else [BACKSLASH] + Octal(sep)
    else [c]
  }

  function Encoded(sep: byte, data: seq<byte>): seq<byte> {
    if data == [] then [] else Code(sep, data[0]) + Encoded(sep, data[1..])
  }

  lemma {:induction false} EncodedConcat(sep: byte, x: seq<byte>, y: seq<byte>)
    ensures Encoded(sep, x + y) == Encoded(sep, x) + Encoded(sep, y)
  {
    if x == [] {
      assert x + y == y;
    } else {
      assert (x + y)[1..] == x[1..] + y;
      EncodedConcat(sep, x[1..], y);
      ConcatAssoc(Code(sep, x[0]), Encoded(sep, x[1..]), Encoded(sep, y));
    }
  }

  lemma EncodedSnoc(sep: byte, data: seq<byte>, c: byte)
    ensures Encoded(sep, data + [c]) == Encoded(sep, data) + Code(sep, c)
  {
    EncodedConcat(sep, data, [c]);
    assert [c][1..] == [] && Code(sep, c) + [] == Code(sep, c);
  }

  lemma EncodedGrows(sep: byte, data: seq<byte>, m: nat)
    requires m <= |data|
    ensures |Encoded(sep, data[..m])| <= |Encoded(sep, data)|
  {
    EncodedConcat(sep, data[..m], data[m..]);
    assert data == data[..m] + data[m..];
  }

  // ------------------------------------------------ reading back

  datatype Data = Broken | Data(data: seq<byte>)

  /** Where the separator is not graphic its code is three octal digits. */
  function Decoded(sep: byte, text: seq<byte>): Data
    decreases |text|
  {
    if text == [] then Data([])
    else if text[0] != BACKSLASH then Prepend(text[0], Decoded(sep, text[1..]))
    else if |text| < 2 then Broken
    else if text[1] == ZERO then Prepend(NUL, Decoded(sep, text[2..]))
    else if text[1] == BACKSLASH then Prepend(BACKSLASH, Decoded(sep, text[2..]))
    else if text[1] == LETTER_N then Prepend(NEWLINE, Decoded(sep, text[2..]))
    else if text[1] == sep then Prepend(sep, Decoded(sep, text[2..]))
    else if |text| >= 4 && text[1..4] == Octal(sep) then Prepend(sep, Decoded(sep, text[4..]))
    else Broken
  }

  function Prepend(c: byte, d: Data): Data {
    if d.Broken? then Broken else Data([c] + d.data)
  }

  /** A separator whose code cannot be mistaken for that of a zero byte. */
  predicate Unambiguous(sep: byte) { IsGraph(sep) || sep >= 0x40 }

  lemma CodeDecodes(sep: byte, c: byte, rest: seq<byte>)
    requires Allowed(sep) && Unambiguous(sep)
    ensures Decoded(sep, Code(sep, c) + rest) == Prepend(c, Decoded(sep, rest))
  {
    var code := Code(sep, c);
    var text := code + rest;
    assert text[|code|..] == rest;
    if |code| == 4 {
      assert text[1..4] == Octal(sep);
    } else if |code| == 2 {
      assert text[0] == BACKSLASH && text[1] == code[1];
    } else {
      assert text[0] == c;
    }
  }

  lemma {:induction false} DecodesBack(sep: byte, data: seq<byte>)
    requires Allowed(sep) && Unambiguous(sep)
    ensures Decoded(sep, Encoded(sep, data)) == Data(data)
    decreases |data|
  {
    if data != [] {
      DecodesBack(sep, data[1..]);
      CodeDecodes(sep, data[0], Encoded(sep, data[1..]));
      assert data == [data[0]] + data[1..];
    }
  }

  /** With any other separator two different strings have the same code. */
  lemma Ambiguous(sep: byte)
    requires Allowed(sep) && !Unambiguous(sep)
    ensures var x, y := [sep], [NUL, ZERO + sep / 8 % 8, ZERO + sep % 8]; x != y && Encoded(sep, x) == Encoded(sep, y)
  {
    var b, c := ZERO + sep / 8 % 8, ZERO + sep % 8;
    EncodedSnoc(sep, [], sep);
    EncodedSnoc(sep, [], NUL);
    EncodedSnoc(sep, [NUL], b);
    EncodedSnoc(sep, [NUL, b], c);
    assert [] + [sep] == [sep] && [] + [NUL] == [NUL] && [NUL] + [b] == [NUL, b] && [NUL, b] + [c] == [NUL, b, c];
    assert sep / 64 == 0;
  }

  /** Text without newlines, zero bytes, or separators that are not escaped. */
  ghost predicate Clean(sep: byte, text: seq<byte>)
    decreases |text|
  {
    if text == [] then true
    else if text[0] == BACKSLASH then |text| >= 2 && text[1] != NEWLINE && text[1] != NUL && Clean(sep, text[2..])
    else text[0] != sep && text[0] != NEWLINE && text[0] != NUL && Clean(sep, text[1..])
  }

  lemma {:induction false} EncodedClean(sep: byte, data: seq<byte>)
    requires Allowed(sep)
    ensures Clean(sep, Encoded(sep, data))
    decreases |data|
  {
    if data != [] {
      EncodedClean(sep, data[1..]);
      CodeClean(sep, data[0], Encoded(sep, data[1..]));
    }
  }

  lemma CodeClean(sep: byte, c: byte, rest: seq<byte>)
    requires Allowed(sep) && Clean(sep, rest)
    ensures Clean(sep, Code(sep, c) + rest)
  {
    var code := Code(sep, c);
    var text := code + rest;
    if |code| == 4 {
      var octal := Octal(sep);
      assert text[2..] == [octal[1], octal[2]] + rest;
      assert text[2..][1..] == [octal[2]] + rest;
      assert text[2..][1..][1..] == rest;
    } else if |code| == 2 {
      assert text[2..] == rest;
    } else {
      assert text[1..] == rest;
    }
  }

  /** Bytes that have to be escaped. */
  predicate Special(sep: byte, c: byte) { c == NUL || c == BACKSLASH || c == NEWLINE || c == sep }

  /** How many of the bytes are special. */
  function Specials(sep: byte, data: seq<byte>): nat {
    if data == [] then 0 else (if Special(sep, data[0]) then 1 else 0) + Specials(sep, data[1..])
  }

  /** Nothing is escaped without need: every special byte costs one more byte, or three where it is a
      separator that is not graphic, and what has no special byte stays as it is. */
  lemma {:induction false} EncodedShort(sep: byte, data: seq<byte>)
    ensures Specials(sep, data) == 0 ==> Encoded(sep, data) == data
    ensures IsGraph(sep) ==> |Encoded(sep, data)| == |data| + Specials(sep, data)
    ensures |data| + Specials(sep, data) <= |Encoded(sep, data)| <= |data| + 3 * Specials(sep, data)
    decreases |data|
  {
    if data != [] {
      EncodedShort(sep, data[1..]);
      assert data == [data[0]] + data[1..];
    }
  }

  // ------------------------------------------------ the buffer

  /** Append to the text in the buffer if it fits, with a byte left for the end of the string. */
  method WriteIfFits(str: array<byte>, at: nat, s: seq<byte>) returns (ok: bool)
    requires at < str.Length
    modifies str
    ensures ok == (at + |s| <= str.Length - 1)
    ensures ok ==> str[..at + |s|] == old(str[..at]) + s
    ensures !ok ==> str[..] == old(str[..])
  {
    if at + |s| > str.Length - 1 {
      return false;
    }
    for i := 0 to |s|
      invariant str[..at + i] == old(str[..at]) + s[..i]
    {
      str[at + i] := s[i];
      assert s[..i + 1] == s[..i] + [s[i]];
    }
    assert s[..|s|] == s;
    return true;
  }

  /** Escape as much of the data as fits: the text is the code of the longest prefix that leaves
      room for the end of the string. */
  method Escape(str: array<byte>, sep: byte, data: seq<byte>) returns (len: nat, ghost taken: nat)
    modifies str
    ensures str.Length == 0 ==> len == 0
    ensures str.Length > 0 ==> len < str.Length && str[len] == NUL
    ensures str.Length > 0 ==> taken <= |data| && str[..len] == Encoded(sep, data[..taken])
    ensures str.Length > 0 ==> forall m :: taken < m <= |data| ==> |Encoded(sep, data[..m])| > str.Length - 1
  {
    taken := 0;
    if str.Length == 0 {
      return 0, 0;
    }
    len := 0;
    var i := 0;
    var full := false;
    while len < str.Length - 1 && i < |data| && !full
      invariant 0 <= i <= |data| && len < str.Length && str[..len] == Encoded(sep, data[..i])
      invariant full ==> i < |data| && len + |Code(sep, data[i])| > str.Length - 1
      decreases !full, |data| - i
    {
      assert data[..i + 1] == data[..i] + [data[i]];
      EncodedSnoc(sep, data[..i], data[i]);
      var code := Code(sep, data[i]);
      var ok := WriteIfFits(str, len, code);
      if ok {
        len := len + |code|;
        i := i + 1;
      } else {
        full := true;
      }
    }
    ghost var text := str[..len];
    str[len] := NUL;
    assert str[..len] == text;
    taken := i;
    forall m | taken < m <= |data| ensures |Encoded(sep, data[..m])| > str.Length - 1 {
      assert data[..i + 1] == data[..i] + [data[i]];
      EncodedSnoc(sep, data[..i], data[i]);
      EncodedGrows(sep, data[..m], i + 1);
      assert data[..m][..i + 1] == data[..i + 1];
    }
  }
}
