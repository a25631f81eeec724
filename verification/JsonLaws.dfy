/** Printing and reading back: for every value, the text comes back as the value exactly when its
    strings, keys and numbers survive; and everything that was read once survives with escapes. */
module JsonLaws {
  import opened Sequences
  import opened JsonText
  import opened JsonStrings
  import opened JsonSpec

  // ------------------------------------------------ which values come back

  /** A number is unchanged by printing and reading. */
  predicate Exact(nums: Numbers, d: real) { nums.strtod(nums.format(d)) == Double(d) }

  ghost predicate Fine(nums: Numbers, escape: bool, v: Value)
    decreases v
  {
    match v
    case Null => true
    case Bool(_) => true
    case Number(d) => Exact(nums, d)
    case String(s) => AllSurvive(s, escape)
    case Array(elements) => FineElements(nums, escape, elements)
    case Object(pairs) => FinePairs(nums, escape, [], pairs)
  }

  ghost predicate FineElements(nums: Numbers, escape: bool, elements: seq<Value>)
    decreases elements
  {
    elements == [] || (Fine(nums, escape, elements[0]) && FineElements(nums, escape, elements[1..]))
  }

  /** The keys differ from each other and from those of the pairs before. */
  ghost predicate FinePairs(nums: Numbers, escape: bool, before: seq<Pair>, pairs: seq<Pair>)
    decreases pairs
  {
    pairs == [] ||
    (&& AllSurvive(pairs[0].key, escape) && !HasKey(before, pairs[0].key) && Fine(nums, escape, pairs[0].value)
     && FinePairs(nums, escape, before + [pairs[0]], pairs[1..]))
  }

  // ------------------------------------------------ tokens

  lemma {:induction false} SkipTabs(depth: nat, t: Text)
    ensures SkipSpace(Tabs(depth) + t) == SkipSpace(t)
  {
    if depth == 0 {
      assert Tabs(0) + t == t;
    } else {
      assert (Tabs(depth) + t)[1..] == Tabs(depth - 1) + t;
      SkipTabs(depth - 1, t);
    }
  }

  lemma SkipsSpace(nums: Numbers, o: Options, depth: nat, t: Text)
    ensures SkipSpace(Space(o, depth) + t) == SkipSpace(t)
    ensures ReadToken(nums, Space(o, depth) + t) == ReadToken(nums, t)
  {
    if o.indent {
      assert (Space(o, depth) + t)[1..] == Tabs(depth) + t;
      SkipTabs(depth, t);
    } else {
      assert ([0x20] + t)[1..] == t;
    }
  }

  /** Only the first token decides how a value starts. */
  lemma SameValue(nums: Numbers, t: Text, t': Text)
    requires ReadToken(nums, t) == ReadToken(nums, t')
    ensures ReadValue(nums, t) == ReadValue(nums, t')
  {
  }

  lemma PunctuationReads(nums: Numbers, c: Char, t: Text)
    requires c in {LEFT_BRACKET, RIGHT_BRACKET, LEFT_BRACE, RIGHT_BRACE, COLON, COMMA}
    ensures ReadToken(nums, [c] + t) == PunctuationToken(c, t)
  {
    assert ([c] + t)[1..] == t;
  }

  lemma NameReads(nums: Numbers, name: Text, t: Text)
    requires name in {NULL_NAME, TRUE_NAME, FALSE_NAME} && Ends(t)
    ensures ReadToken(nums, name + t) == NameToken(name, t)
  {
    assert name != [] && IsLetter(name[0]) && (name + t)[0] == name[0];
    LetterRunReads([], name, t);
    assert [] + name == name;
  }

  lemma NumberReadsBack(nums: Numbers, d: real, t: Text)
    requires Conforming(nums) && Ends(t)
    ensures ReadToken(nums, nums.format(d) + t) == NumberToken(nums, Good(nums.format(d), t))
  {
    assert IsNumber(nums.format(d));
    var n :| ValidParts(n) && Spelled(n) == nums.format(d);
    NumberReads(n, t);
  }

  lemma StringReadsBack(nums: Numbers, s: Str, escape: bool, t: Text)
    ensures var r := ReadToken(nums, PrintString(s, escape) + t);
            r.OneToken? ==> r.token.Scalar? && r.token.v.String? && r.t == t &&
                            (r.token.v.s == s <==> AllSurvive(s, escape))
    ensures AllSurvive(s, escape) ==> ReadToken(nums, PrintString(s, escape) + t).OneToken?
  {
    var text := PrintString(s, escape) + t;
    ConcatAssoc(PrintChars(s, escape), [QUOTE], t);
    assert text[1..] == PrintChars(s, escape) + ([QUOTE] + t);
    StringBack([], s, escape, t);
    assert [] + s == s;
  }

  // ------------------------------------------------ values

  /** Reading the text of a value either fails, or ends where the text ends and gives the value
      exactly when it is fine. A value never looks like the end of an array or an object. */
  ghost predicate Back(nums: Numbers, o: Options, v: Value, depth: nat, t: Text) {
    var text := PrintValue(nums, o, v, depth) + t;
    var r := ReadValue(nums, text);
    && !r.End? && (r.Got? ==> r.t == t)
    && (r == Got(v, t) <==> Fine(nums, o.escape, v))
    && (ReadToken(nums, text).OneToken? ==>
          !ReadToken(nums, text).token.EndArray? && !ReadToken(nums, text).token.EndObject?)
  }

  lemma ScalarBack(nums: Numbers, o: Options, v: Value, depth: nat, t: Text)
    requires Conforming(nums) && Ends(t) && !v.Array? && !v.Object?
    ensures Back(nums, o, v, depth, t)
  {
    match v
    case Null => NameReads(nums, NULL_NAME, t);
    case Bool(b) => NameReads(nums, if b then TRUE_NAME else FALSE_NAME, t);
    case Number(d) => NumberReadsBack(nums, d, t);
    case String(s) => StringReadsBack(nums, s, o.escape, t);
  }

  ghost predicate ElementsBack(nums: Numbers, o: Options, elements: seq<Value>, depth: nat, t: Text, before: seq<Value>)
    requires elements != []
  {
    var r := ReadElements(nums, PrintElements(nums, o, elements, depth) + t, before);
    && !r.End? && (r.Got? ==> r.t == t && r.v.Array? && before <= r.v.elements)
    && (r == Got(Array(before + elements), t) <==> FineElements(nums, o.escape, elements))
  }

  /** What follows the first element of an array. */
  function AfterElement(nums: Numbers, o: Options, elements: seq<Value>, depth: nat, t: Text): Text
    requires elements != []
  {
    if |elements| == 1 then Space(o, depth) + ([RIGHT_BRACKET] + t)
    else [COMMA] + (PrintElements(nums, o, elements[1..], depth) + t)
  }

  lemma ElementsText(nums: Numbers, o: Options, elements: seq<Value>, depth: nat, t: Text)
    requires elements != []
    ensures var value := PrintValue(nums, o, elements[0], depth + 1) + AfterElement(nums, o, elements, depth, t);
            && Ends(AfterElement(nums, o, elements, depth, t))
            && PrintElements(nums, o, elements, depth) + t == Space(o, depth + 1) + value
            && ReadToken(nums, PrintElements(nums, o, elements, depth) + t) == ReadToken(nums, value)
            && ReadValue(nums, PrintElements(nums, o, elements, depth) + t) == ReadValue(nums, value)
  {
    var first := PrintValue(nums, o, elements[0], depth + 1);
    var tail: Text :=
      if |elements| == 1 then Space(o, depth) + [RIGHT_BRACKET]
      else [COMMA] + PrintElements(nums, o, elements[1..], depth);
    if |elements| == 1 {
      ConcatAssoc(Space(o, depth), [RIGHT_BRACKET], t);
    } else {
      ConcatAssoc([COMMA], PrintElements(nums, o, elements[1..], depth), t);
    }
    ConcatAssoc(first, tail, t);
    ConcatAssoc(Space(o, depth + 1), first + tail, t);
    var value := first + AfterElement(nums, o, elements, depth, t);
    SkipsSpace(nums, o, depth + 1, value);
    SameValue(nums, Space(o, depth + 1) + value, value);
  }

  lemma AfterReads(nums: Numbers, o: Options, elements: seq<Value>, depth: nat, t: Text)
    requires elements != []
    ensures ReadToken(nums, AfterElement(nums, o, elements, depth, t)) ==
            if |elements| == 1 then OneToken(EndArray, t)
            else OneToken(ValueSep, PrintElements(nums, o, elements[1..], depth) + t)
  {
    if |elements| == 1 {
      SkipsSpace(nums, o, depth, [RIGHT_BRACKET] + t);
      PunctuationReads(nums, RIGHT_BRACKET, t);
    } else {
      PunctuationReads(nums, COMMA, PrintElements(nums, o, elements[1..], depth) + t);
    }
  }

  /** One element and the rest of the array. */
  lemma ElementsStep(nums: Numbers, o: Options, elements: seq<Value>, depth: nat, t: Text, before: seq<Value>)
    requires elements != [] && Back(nums, o, elements[0], depth + 1, AfterElement(nums, o, elements, depth, t))
    requires |elements| > 1 ==> forall v :: ElementsBack(nums, o, elements[1..], depth, t, before + [v])
    ensures ElementsBack(nums, o, elements, depth, t, before)
  {
    ElementsText(nums, o, elements, depth, t);
    AfterReads(nums, o, elements, depth, t);
    var first := ReadValue(nums, PrintElements(nums, o, elements, depth) + t);
    if first.Got? {
      var next := before + [first.v];
      assert before <= next;
      if |elements| == 1 {
        assert elements == [elements[0]] && elements[1..] == [];
        assert before + [first.v] == before + elements <==> first.v == elements[0] by {
          assert (before + [first.v])[|before|] == first.v && (before + elements)[|before|] == elements[0];
        }
      } else {
        assert ElementsBack(nums, o, elements[1..], depth, t, next);
        NextDiffers(before, first.v, elements, ReadElements(nums, PrintElements(nums, o, elements, depth) + t, before));
      }
    }
  }

  lemma NextDiffers(before: seq<Value>, v: Value, elements: seq<Value>, r: Read)
    requires elements != [] && (r.Got? ==> r.v.Array? && before + [v] <= r.v.elements)
    ensures r.Got? && r.v.elements == before + elements ==> v == elements[0]
    ensures v == elements[0] ==> before + [v] + elements[1..] == before + elements
    ensures r.Got? ==> before <= r.v.elements
  {
    assert (before + [v])[|before|] == v && (before + elements)[|before|] == elements[0];
  }

  // ------------------------------------------------ objects

  ghost predicate PairsBack(nums: Numbers, o: Options, pairs: seq<Pair>, depth: nat, t: Text, before: seq<Pair>)
    requires pairs != []
  {
    var r := ReadPairs(nums, PrintPairs(nums, o, pairs, depth) + t, before);
    && !r.End? && (r.Got? ==> r.t == t && r.v.Object? && before <= r.v.pairs)
    && (r == Got(Object(before + pairs), t) <==> FinePairs(nums, o.escape, before, pairs))
  }

  /** What follows the first value of an object. */
  function AfterValue(nums: Numbers, o: Options, pairs: seq<Pair>, depth: nat, t: Text): Text
    requires pairs != []
  {
    if |pairs| == 1 then Space(o, depth) + ([RIGHT_BRACE] + t)
    else [COMMA] + (PrintPairs(nums, o, pairs[1..], depth) + t)
  }

  function ValueText(nums: Numbers, o: Options, pairs: seq<Pair>, depth: nat, t: Text): Text
    requires pairs != []
  {
    PrintValue(nums, o, pairs[0].value, depth + 1) + AfterValue(nums, o, pairs, depth, t)
  }

  function KeyText(nums: Numbers, o: Options, pairs: seq<Pair>, depth: nat, t: Text): Text
    requires pairs != []
  {
    PrintString(pairs[0].key, o.escape) + ([COLON] + ([0x20] + ValueText(nums, o, pairs, depth, t)))
  }

  lemma PairsText(nums: Numbers, o: Options, pairs: seq<Pair>, depth: nat, t: Text)
    requires pairs != []
    ensures PrintPairs(nums, o, pairs, depth) + t == Space(o, depth + 1) + KeyText(nums, o, pairs, depth, t)
    ensures Ends(AfterValue(nums, o, pairs, depth, t))
  {
    var key, value := PrintString(pairs[0].key, o.escape), PrintValue(nums, o, pairs[0].value, depth + 1);
    var tail: Text :=
      if |pairs| == 1 then Space(o, depth) + [RIGHT_BRACE]
      else [COMMA] + PrintPairs(nums, o, pairs[1..], depth);
    if |pairs| == 1 {
      ConcatAssoc(Space(o, depth), [RIGHT_BRACE], t);
    } else {
      ConcatAssoc([COMMA], PrintPairs(nums, o, pairs[1..], depth), t);
    }
    ConcatAssoc(value, tail, t);
    ConcatAssoc([COLON, 0x20], value + tail, t);
    ConcatAssoc(key, [COLON, 0x20] + (value + tail), t);
    ConcatAssoc(Space(o, depth + 1), key + ([COLON, 0x20] + (value + tail)), t);
    assert [COLON] + [0x20] == [COLON, 0x20];
    ConcatAssoc([COLON], [0x20], ValueText(nums, o, pairs, depth, t));
  }

  /** The key of the first pair is read, or reading fails; then comes its value. */
  lemma KeyReads(nums: Numbers, o: Options, pairs: seq<Pair>, depth: nat, t: Text)
    requires pairs != []
    ensures var text := PrintPairs(nums, o, pairs, depth) + t;
            var k := ReadKeyPart(nums, ReadValue(nums, text));
            && (k.GoodKey? ==> k.t == [0x20] + ValueText(nums, o, pairs, depth, t) &&
                               (k.key == pairs[0].key <==> AllSurvive(pairs[0].key, o.escape)))
            && (AllSurvive(pairs[0].key, o.escape) ==> k.GoodKey?)
            && (ReadToken(nums, text).OneToken? ==> !ReadToken(nums, text).token.EndObject?)
  {
    var text, rest := PrintPairs(nums, o, pairs, depth) + t, [0x20] + ValueText(nums, o, pairs, depth, t);
    PairsText(nums, o, pairs, depth, t);
    SkipsSpace(nums, o, depth + 1, KeyText(nums, o, pairs, depth, t));
    StringReadsBack(nums, pairs[0].key, o.escape, [COLON] + rest);
    PunctuationReads(nums, COLON, rest);
  }

  lemma SpaceBeforeValue(nums: Numbers, t: Text)
    ensures ReadValue(nums, [0x20] + t) == ReadValue(nums, t)
  {
    SkipsSpace(nums, Options(false, false), 0, t);
    SameValue(nums, [0x20] + t, t);
  }

  lemma AfterValueReads(nums: Numbers, o: Options, pairs: seq<Pair>, depth: nat, t: Text)
    requires pairs != []
    ensures ReadToken(nums, AfterValue(nums, o, pairs, depth, t)) ==
            if |pairs| == 1 then OneToken(EndObject, t)
            else OneToken(ValueSep, PrintPairs(nums, o, pairs[1..], depth) + t)
  {
    if |pairs| == 1 {
      SkipsSpace(nums, o, depth, [RIGHT_BRACE] + t);
      PunctuationReads(nums, RIGHT_BRACE, t);
    } else {
      PunctuationReads(nums, COMMA, PrintPairs(nums, o, pairs[1..], depth) + t);
    }
  }

  lemma PairDiffers(before: seq<Pair>, p: Pair, pairs: seq<Pair>, r: Read)
    requires pairs != [] && (r.Got? ==> r.v.Object? && before + [p] <= r.v.pairs)
    ensures r.Got? && r.v.pairs == before + pairs ==> p == pairs[0]
    ensures p == pairs[0] ==> before + [p] + pairs[1..] == before + pairs
    ensures r.Got? ==> before <= r.v.pairs
  {
    assert (before + [p])[|before|] == p && (before + pairs)[|before|] == pairs[0];
  }

  /** How the first pair is read, and what comes of the rest. */
  lemma PairReads(nums: Numbers, o: Options, pairs: seq<Pair>, depth: nat, t: Text, before: seq<Pair>)
    returns (k: ReadKey, v: Read)
    requires pairs != [] && Back(nums, o, pairs[0].value, depth + 1, AfterValue(nums, o, pairs, depth, t))
    ensures var r := ReadPairs(nums, PrintPairs(nums, o, pairs, depth) + t, before);
            if k.BadKey? then r == Fail(k.error) && !AllSurvive(pairs[0].key, o.escape)
            else
              && (k.key == pairs[0].key <==> AllSurvive(pairs[0].key, o.escape))
              && !v.End? && (v.Got? && v.v == pairs[0].value <==> Fine(nums, o.escape, pairs[0].value))
              && (v.Fail? ==> r == Fail(v.error))
              && (v.Got? && HasKey(before, k.key) ==> r == Fail(KeyAlreadySet))
              && (v.Got? && !HasKey(before, k.key) ==>
                    r == if |pairs| == 1 then Got(Object(before + [Pair(k.key, v.v)]), t)
                         else ReadPairs(nums, PrintPairs(nums, o, pairs[1..], depth) + t, before + [Pair(k.key, v.v)]))
  {
    var text := PrintPairs(nums, o, pairs, depth) + t;
    KeyReads(nums, o, pairs, depth, t);
    SpaceBeforeValue(nums, ValueText(nums, o, pairs, depth, t));
    AfterValueReads(nums, o, pairs, depth, t);
    k := ReadKeyPart(nums, ReadValue(nums, text));
    v := ReadValue(nums, ValueText(nums, o, pairs, depth, t));
  }

  /** One pair and the rest of the object. */
  lemma PairsStep(nums: Numbers, o: Options, pairs: seq<Pair>, depth: nat, t: Text, before: seq<Pair>)
    requires pairs != [] && Back(nums, o, pairs[0].value, depth + 1, AfterValue(nums, o, pairs, depth, t))
    requires |pairs| > 1 ==> forall p :: PairsBack(nums, o, pairs[1..], depth, t, before + [p])
    ensures PairsBack(nums, o, pairs, depth, t, before)
  {
    var k, v := PairReads(nums, o, pairs, depth, t, before);
    if k.GoodKey? && v.Got? && !HasKey(before, k.key) {
      var p := Pair(k.key, v.v);
      if |pairs| == 1 {
        assert pairs == [pairs[0]] && pairs[1..] == [];
        PairDiffers(before, p, pairs, Got(Object(before + [p]), t));
      } else {
        assert PairsBack(nums, o, pairs[1..], depth, t, before + [p]);
        PairDiffers(before, p, pairs, ReadPairs(nums, PrintPairs(nums, o, pairs, depth) + t, before));
      }
    }
  }

  // ------------------------------------------------ all values

  lemma {:induction false} ValueBack(nums: Numbers, o: Options, v: Value, depth: nat, t: Text)
    requires Conforming(nums) && Ends(t)
    ensures Back(nums, o, v, depth, t)
    decreases v
  {
    match v
    case Array(elements) =>
      if elements == [] {
        EmptyArrayBack(nums, o, depth, t);
      } else {
        AllElementsBack(nums, o, elements, depth, t, []);
        ElementsText(nums, o, elements, depth, t);
        ValueBack(nums, o, elements[0], depth + 1, AfterElement(nums, o, elements, depth, t));
        ArrayBack(nums, o, elements, depth, t);
      }
    case Object(pairs) =>
      if pairs == [] {
        EmptyObjectBack(nums, o, depth, t);
      } else {
        AllPairsBack(nums, o, pairs, depth, t, []);
        ObjectBack(nums, o, pairs, depth, t);
      }
    case _ => ScalarBack(nums, o, v, depth, t);
  }

  lemma {:induction false} AllElementsBack(nums: Numbers, o: Options, elements: seq<Value>, depth: nat, t: Text,
                                           before: seq<Value>)
    requires Conforming(nums) && elements != []
    ensures ElementsBack(nums, o, elements, depth, t, before)
    decreases elements
  {
    ElementsText(nums, o, elements, depth, t);
    ValueBack(nums, o, elements[0], depth + 1, AfterElement(nums, o, elements, depth, t));
    if |elements| > 1 {
      forall v ensures ElementsBack(nums, o, elements[1..], depth, t, before + [v]) {
        AllElementsBack(nums, o, elements[1..], depth, t, before + [v]);
      }
    }
    ElementsStep(nums, o, elements, depth, t, before);
  }

  lemma {:induction false} AllPairsBack(nums: Numbers, o: Options, pairs: seq<Pair>, depth: nat, t: Text,
                                        before: seq<Pair>)
    requires Conforming(nums) && pairs != []
    ensures PairsBack(nums, o, pairs, depth, t, before)
    decreases pairs
  {
    PairsText(nums, o, pairs, depth, t);
    ValueBack(nums, o, pairs[0].value, depth + 1, AfterValue(nums, o, pairs, depth, t));
    if |pairs| > 1 {
      forall p ensures PairsBack(nums, o, pairs[1..], depth, t, before + [p]) {
        AllPairsBack(nums, o, pairs[1..], depth, t, before + [p]);
      }
    }
    PairsStep(nums, o, pairs, depth, t, before);
  }

  lemma EmptyArrayBack(nums: Numbers, o: Options, depth: nat, t: Text)
    ensures Back(nums, o, Array([]), depth, t)
  {
    assert [LEFT_BRACKET, RIGHT_BRACKET] + t == [LEFT_BRACKET] + ([RIGHT_BRACKET] + t);
    PunctuationReads(nums, LEFT_BRACKET, [RIGHT_BRACKET] + t);
    PunctuationReads(nums, RIGHT_BRACKET, t);
  }

  lemma EmptyObjectBack(nums: Numbers, o: Options, depth: nat, t: Text)
    ensures Back(nums, o, Object([]), depth, t)
  {
    assert [LEFT_BRACE, RIGHT_BRACE] + t == [LEFT_BRACE] + ([RIGHT_BRACE] + t);
    PunctuationReads(nums, LEFT_BRACE, [RIGHT_BRACE] + t);
    PunctuationReads(nums, RIGHT_BRACE, t);
  }

  lemma OpenArray(nums: Numbers, t: Text)
    requires ReadToken(nums, t).OneToken? ==> !ReadToken(nums, t).token.EndArray?
    ensures ReadToken(nums, [LEFT_BRACKET] + t) == OneToken(BeginArray, t)
    ensures ReadValue(nums, [LEFT_BRACKET] + t) == ReadElements(nums, t, [])
  {
    PunctuationReads(nums, LEFT_BRACKET, t);
  }

  lemma OpenObject(nums: Numbers, t: Text)
    requires ReadToken(nums, t).OneToken? ==> !ReadToken(nums, t).token.EndObject?
    ensures ReadToken(nums, [LEFT_BRACE] + t) == OneToken(BeginObject, t)
    ensures ReadValue(nums, [LEFT_BRACE] + t) == ReadPairs(nums, t, [])
  {
    PunctuationReads(nums, LEFT_BRACE, t);
  }

  lemma ArrayBack(nums: Numbers, o: Options, elements: seq<Value>, depth: nat, t: Text)
    requires elements != [] && ElementsBack(nums, o, elements, depth, t, [])
    requires Back(nums, o, elements[0], depth + 1, AfterElement(nums, o, elements, depth, t))
    ensures Back(nums, o, Array(elements), depth, t)
  {
    ConcatAssoc([LEFT_BRACKET], PrintElements(nums, o, elements, depth), t);
    ElementsText(nums, o, elements, depth, t);
    OpenArray(nums, PrintElements(nums, o, elements, depth) + t);
    assert [] + elements == elements;
  }

  lemma ObjectBack(nums: Numbers, o: Options, pairs: seq<Pair>, depth: nat, t: Text)
    requires pairs != [] && PairsBack(nums, o, pairs, depth, t, [])
    ensures Back(nums, o, Object(pairs), depth, t)
  {
    ConcatAssoc([LEFT_BRACE], PrintPairs(nums, o, pairs, depth), t);
    KeyReads(nums, o, pairs, depth, t);
    OpenObject(nums, PrintPairs(nums, o, pairs, depth) + t);
    assert [] + pairs == pairs;
  }

  /** The round trip, for every value and all options: what is parsed from the printed text is the
      value exactly when the value is fine. */
  lemma RoundTrip(nums: Numbers, o: Options, v: Value)
    requires Conforming(nums)
    ensures Parse(nums, Print(nums, o, v)) == Got(v, []) <==> Fine(nums, o.escape, v)
  {
    ValueBack(nums, o, v, 0, [0x0a]);
    assert [0x0a][1..] == [];
    assert SkipSpace([0x0a]) == [];
  }
}
