/** The printer: values appended to an output buffer. */
module JsonPrinter {
  import opened Sequences
  import opened JsonText
  import opened JsonStrings
  import opened JsonSpec
  import L = JsonLayout

  class Printer {
    const nums: Numbers
    const options: Options
    var out: Text
    var outIndent: nat

    constructor (nums: Numbers, options: Options)
      ensures this.nums == nums && this.options == options && out == [] && outIndent == 0
    {
      this.nums, this.options, out, outIndent := nums, options, [], 0;
    }

    method Put(t: Text)
      modifies `out
      ensures out == old(out) + t
    {
      out := out + t;
    }

    method PutHex4(x: nat)
      requires x < 0x10000
      modifies `out
      ensures out == old(out) + Escaped(x)
    {
      Put([BACKSLASH, LOWER_U] + Hex4(x));
    }

    method WriteChar(u: Char)
      modifies `out
      ensures out == old(out) + PrintChar(u, options.escape)
    {
      if u == QUOTE || u == BACKSLASH {
        Put([BACKSLASH, u]);
      } else if u < 0x20 {
        if u == 0x09 {
          Put([BACKSLASH, 0x74]);
        } else if u == 0x0a {
          Put([BACKSLASH, 0x6e]);
        } else if u == 0x0d {
          Put([BACKSLASH, 0x72]);
        } else {
          PutHex4(u);
        }
      } else if u >= 0x7f && options.escape {
        if u < 0x10000 {
          PutHex4(u);
        } else if u < 0x110000 {
          ghost var hi, lo := Escaped(0xd800 + (u - 0x10000) / 0x400), Escaped(0xdc00 + u % 0x400);
          ConcatAssoc(out, hi, lo);
          PutHex4(0xd800 + (u - 0x10000) / 0x400);
          PutHex4(0xdc00 + u % 0x400);
        } else {
          PutHex4(REPLACEMENT);
        }
      } else {
        Put([u]);
      }
    }

    method WriteString(s: Str)
      modifies `out
      ensures out == old(out) + PrintString(s, options.escape)
      ensures options.escape ==> L.AllPrintable(out[|old(out)|..])
      ensures (forall i :: 0 <= i < |s| ==> L.AsIs(s[i], options.escape)) ==>
                out == old(out) + ([QUOTE] + (s + [QUOTE]))
    {
      WriteQuoted(s);
      assert out[|old(out)|..] == PrintString(s, options.escape);
      L.EscapedString(s);
      if forall i :: 0 <= i < |s| ==> L.AsIs(s[i], options.escape) { L.PlainString(s, options.escape); }
    }

    method WriteQuoted(s: Str)
      modifies `out
      ensures out == old(out) + PrintString(s, options.escape)
    {
      ghost var done := old(out) + PrintString(s, options.escape);
      ConcatAssoc(out, [QUOTE], PrintChars(s, options.escape) + [QUOTE]);
      Put([QUOTE]);
      assert s[0..] == s;
      for i := 0 to |s|
        invariant out + (PrintChars(s[i..], options.escape) + [QUOTE]) == done
      {
        assert s[i..][1..] == s[i + 1..];
        ConcatAssoc(PrintChar(s[i], options.escape), PrintChars(s[i + 1..], options.escape), [QUOTE]);
        ConcatAssoc(out, PrintChar(s[i], options.escape), PrintChars(s[i + 1..], options.escape) + [QUOTE]);
        WriteChar(s[i]);
      }
      assert [] + [QUOTE] == [QUOTE];
      Put([QUOTE]);
    }

    method WriteSpace()
      modifies `out
      ensures out == old(out) + Space(options, outIndent)
    {
      if options.indent {
        ghost var done := out + Space(options, outIndent);
        ConcatAssoc(out, [0x0a], Tabs(outIndent));
        Put([0x0a]);
        for i := 0 to outIndent
          invariant out + Tabs(outIndent - i) == done
        {
          ConcatAssoc(out, [0x09], Tabs(outIndent - i - 1));
          Put([0x09]);
        }
        assert out + [] == out;
      } else {
        Put([0x20]);
      }
    }

    /** The end of an array or an object. */
    method Close(c: Char)
      requires outIndent > 0
      modifies this
      ensures outIndent == old(outIndent) - 1 && out == old(out) + (Space(options, outIndent) + [c])
    {
      outIndent := outIndent - 1;
      ConcatAssoc(out, Space(options, outIndent), [c]);
      WriteSpace();
      Put([c]);
    }

    method WriteValue(v: Value)
      modifies this
      ensures outIndent == old(outIndent) && out == old(out) + PrintValue(nums, options, v, outIndent)
      decreases v, 1
    {
      match v
      case Null => Put(NULL_NAME);
      case Bool(b) => Put(if b then TRUE_NAME else FALSE_NAME);
      case Number(d) => Put(nums.format(d));
      case String(s) => WriteString(s);
      case Array(elements) =>
        if elements == [] {
          Put([LEFT_BRACKET, RIGHT_BRACKET]);
        } else {
          ConcatAssoc(out, [LEFT_BRACKET], PrintElements(nums, options, elements, outIndent));
          Put([LEFT_BRACKET]);
          WriteElements(v);
        }
      case Object(pairs) =>
        if pairs == [] {
          Put([LEFT_BRACE, RIGHT_BRACE]);
        } else {
          ConcatAssoc(out, [LEFT_BRACE], PrintPairs(nums, options, pairs, outIndent));
          Put([LEFT_BRACE]);
          WritePairs(v);
        }
    }

    /** What is still to be printed of an array after `i` elements. */
    ghost function ElementsLeft(elements: seq<Value>, i: nat, depth: nat): Text
      requires i <= |elements| && elements != []
    {
      if i == 0 then PrintElements(nums, options, elements, depth)
      else if i < |elements| then [COMMA] + PrintElements(nums, options, elements[i..], depth)
      else Space(options, depth) + [RIGHT_BRACKET]
    }

    method WriteElements(v: Value)
      requires v.Array? && v.elements != []
      modifies this
      ensures outIndent == old(outIndent) && out == old(out) + PrintElements(nums, options, v.elements, outIndent)
      decreases v, 0
    {
      ghost var depth := outIndent;
      ghost var done := out + PrintElements(nums, options, v.elements, depth);
      outIndent := outIndent + 1;
      for i := 0 to |v.elements|
        invariant outIndent == depth + 1 && out + ElementsLeft(v.elements, i, depth) == done
      {
        ghost var rest, value := v.elements[i..], PrintValue(nums, options, v.elements[i], depth + 1);
        ghost var after := ElementsLeft(v.elements, i + 1, depth);
        assert rest[0] == v.elements[i] && rest[1..] == v.elements[i + 1..];
        assert v.elements[0..] == v.elements;
        ConcatAssoc(out, [COMMA], PrintElements(nums, options, rest, depth));
        if i > 0 {
          Put([COMMA]);
        }
        assert PrintElements(nums, options, rest, depth) == Space(options, depth + 1) + (value + after);
        ConcatAssoc(out, Space(options, depth + 1), value + after);
        WriteSpace();
        ConcatAssoc(out, value, after);
        WriteValue(v.elements[i]);
      }
      Close(RIGHT_BRACKET);
    }

    /** What is still to be printed of an object after `i` pairs. */
    ghost function PairsLeft(pairs: seq<Pair>, i: nat, depth: nat): Text
      requires i <= |pairs| && pairs != []
    {
      if i == 0 then PrintPairs(nums, options, pairs, depth)
      else if i < |pairs| then [COMMA] + PrintPairs(nums, options, pairs[i..], depth)
      else Space(options, depth) + [RIGHT_BRACE]
    }

    /** One pair on a line of its own, with what follows it. */
    ghost function PairThen(p: Pair, depth: nat, after: Text): Text {
      var key, value := PrintString(p.key, options.escape), PrintValue(nums, options, p.value, depth);
      Space(options, depth) + (key + ([COLON, 0x20] + (value + after)))
    }

    method WritePair(p: Pair, ghost after: Text)
      modifies this
      ensures outIndent == old(outIndent) && out + after == old(out) + PairThen(p, outIndent, after)
      decreases p.value, 2
    {
      ghost var key, value := PrintString(p.key, options.escape), PrintValue(nums, options, p.value, outIndent);
      ConcatAssoc(out, Space(options, outIndent), key + ([COLON, 0x20] + (value + after)));
      WriteSpace();
      ConcatAssoc(out, key, [COLON, 0x20] + (value + after));
      WriteString(p.key);
      ConcatAssoc(out, [COLON, 0x20], value + after);
      Put([COLON, 0x20]);
      ConcatAssoc(out, value, after);
      WriteValue(p.value);
    }

    method WritePairs(v: Value)
      requires v.Object? && v.pairs != []
      modifies this
      ensures outIndent == old(outIndent) && out == old(out) + PrintPairs(nums, options, v.pairs, outIndent)
      decreases v, 0
    {
      ghost var depth := outIndent;
      ghost var done := out + PrintPairs(nums, options, v.pairs, depth);
      outIndent := outIndent + 1;
      for i := 0 to |v.pairs|
        invariant outIndent == depth + 1 && out + PairsLeft(v.pairs, i, depth) == done
      {
        ghost var rest, after := v.pairs[i..], PairsLeft(v.pairs, i + 1, depth);
        assert rest[0] == v.pairs[i] && rest[1..] == v.pairs[i + 1..];
        assert v.pairs[0..] == v.pairs;
        ConcatAssoc(out, [COMMA], PrintPairs(nums, options, rest, depth));
        if i > 0 {
          Put([COMMA]);
        }
        assert PrintPairs(nums, options, rest, depth) == PairThen(v.pairs[i], depth + 1, after);
        WritePair(v.pairs[i], after);
      }
      Close(RIGHT_BRACE);
    }

    method Write(v: Value)
      requires outIndent == 0
      modifies this
      ensures outIndent == 0 && out == old(out) + Print(nums, options, v)
      ensures Conforming(nums) ==>
                var t := out[|old(out)|..];
                L.LaidOut(options, t, L.Other, 0) && (options.escape ==> L.Ascii(t))
    {
      ConcatAssoc(out, PrintValue(nums, options, v, 0), [0x0a]);
      WriteValue(v);
      Put([0x0a]);
      if Conforming(nums) {
        assert out[|old(out)|..] == Print(nums, options, v);
        L.PrintLaidOut(nums, options, v);
        if options.escape { L.PrintAscii(nums, options, v); }
      }
    }
  }
}
