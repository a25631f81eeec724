/** Everything that can be read can be printed so that it is read again: parsing normalises. */
module JsonNormal {
  import opened JsonText
  import opened JsonStrings
  import opened JsonSpec
  import opened JsonLaws

  // ------------------------------------------------ numbers and strings apart

  ghost predicate NumbersExact(nums: Numbers, v: Value)
    decreases v
  {
    match v
    case Number(d) => Exact(nums, d)
    case Array(elements) => forall i :: 0 <= i < |elements| ==> NumbersExact(nums, elements[i])
    case Object(pairs) => forall i :: 0 <= i < |pairs| ==> NumbersExact(nums, pairs[i].value)
    case _ => true
  }

  /** Every string and key survives, and the keys of every object are distinct. */
  ghost predicate StringsSurvive(escape: bool, v: Value)
    decreases v
  {
    match v
    case String(s) => AllSurvive(s, escape)
    case Array(elements) => forall i :: 0 <= i < |elements| ==> StringsSurvive(escape, elements[i])
    case Object(pairs) =>
      && Distinct(pairs)
      && (forall i :: 0 <= i < |pairs| ==> AllSurvive(pairs[i].key, escape) && StringsSurvive(escape, pairs[i].value))
    case _ => true
  }

  /** Some string or key has the character. */
  ghost predicate Mentions(v: Value, u: Char)
    decreases v
  {
    match v
    case String(s) => u in s
    case Array(elements) => exists i :: 0 <= i < |elements| && Mentions(elements[i], u)
    case Object(pairs) => exists i :: 0 <= i < |pairs| && (u in pairs[i].key || Mentions(pairs[i].value, u))
    case _ => false
  }

  /** A value is fine when its numbers are exact and its strings survive. */
  lemma {:induction false} FineMeans(nums: Numbers, escape: bool, v: Value)
    ensures Fine(nums, escape, v) <==> NumbersExact(nums, v) && StringsSurvive(escape, v)
    decreases v
  {
    match v
    case Array(elements) =>
      forall i | 0 <= i < |elements|
        ensures Fine(nums, escape, elements[i]) <==>
                NumbersExact(nums, elements[i]) && StringsSurvive(escape, elements[i])
      {
        FineMeans(nums, escape, elements[i]);
      }
      FineElementsMeans(nums, escape, elements);
    case Object(pairs) =>
      forall i | 0 <= i < |pairs|
        ensures Fine(nums, escape, pairs[i].value) <==>
                NumbersExact(nums, pairs[i].value) && StringsSurvive(escape, pairs[i].value)
      {
        FineMeans(nums, escape, pairs[i].value);
      }
      FinePairsMeans(nums, escape, [], pairs);
      assert [] + pairs == pairs;
    case _ =>
  }

  lemma {:induction false} FineElementsMeans(nums: Numbers, escape: bool, elements: seq<Value>)
    ensures FineElements(nums, escape, elements) <==>
            forall i :: 0 <= i < |elements| ==> Fine(nums, escape, elements[i])
    decreases elements
  {
    if elements != [] {
      FineElementsMeans(nums, escape, elements[1..]);
      assert forall i :: 0 < i < |elements| ==> elements[i] == elements[1..][i - 1];
      assert forall i :: 0 <= i < |elements[1..]| ==> elements[1..][i] == elements[i + 1];
    }
  }

  lemma {:induction false} FinePairsMeans(nums: Numbers, escape: bool, before: seq<Pair>, pairs: seq<Pair>)
    requires Distinct(before)
    ensures FinePairs(nums, escape, before, pairs) <==>
            && Distinct(before + pairs)
            && (forall i :: 0 <= i < |pairs| ==> AllSurvive(pairs[i].key, escape) && Fine(nums, escape, pairs[i].value))
    decreases pairs
  {
    if pairs == [] {
      assert before + pairs == before;
    } else {
      var p, rest := pairs[0], pairs[1..];
      assert before + pairs == (before + [p]) + rest;
      assert forall i :: 0 < i < |pairs| ==> pairs[i] == rest[i - 1];
      assert forall i :: 0 <= i < |rest| ==> rest[i] == pairs[i + 1];
      DistinctSnoc(before, p);
      if !HasKey(before, p.key) {
        FinePairsMeans(nums, escape, before + [p], rest);
      } else {
        DistinctPrefix(before + [p], rest);
      }
    }
  }

  lemma DistinctSnoc(before: seq<Pair>, p: Pair)
    requires Distinct(before)
    ensures Distinct(before + [p]) <==> !HasKey(before, p.key)
  {
    if HasKey(before, p.key) {
      var i :| 0 <= i < |before| && before[i].key == p.key;
      assert (before + [p])[i].key == (before + [p])[|before|].key;
    }
  }

  lemma DistinctPrefix(a: seq<Pair>, b: seq<Pair>)
    ensures Distinct(a + b) ==> Distinct(a)
  {
    assert forall i :: 0 <= i < |a| ==> (a + b)[i] == a[i];
  }

  // ------------------------------------------------ what was read

  lemma {:induction false} ReadSurvives(nums: Numbers, t: Text)
    ensures ReadValue(nums, t).Got? ==> StringsSurvive(true, ReadValue(nums, t).v)
    decreases |t|, 0
  {
    var r := ReadToken(nums, t);
    if r.OneToken? {
      match r.token
      case Scalar(v) => ScalarSurvives(nums, SkipSpace(t));
      case BeginArray => ElementsSurvive(nums, r.t, []);
      case BeginObject => PairsSurvive(nums, r.t, []);
      case _ =>
    }
  }

  lemma ScalarSurvives(nums: Numbers, u: Text)
    requires TokenAt(nums, u).OneToken? && TokenAt(nums, u).token.Scalar?
    ensures StringsSurvive(true, TokenAt(nums, u).token.v)
  {
    if u != [] && u[0] == QUOTE { StringReadable([], u[1..]); }
  }

  lemma {:induction false} ElementsSurvive(nums: Numbers, t: Text, elements: seq<Value>)
    requires StringsSurvive(true, Array(elements))
    ensures ReadElements(nums, t, elements).Got? ==> StringsSurvive(true, ReadElements(nums, t, elements).v)
    decreases |t|, 1
  {
    ReadSurvives(nums, t);
    var r := ReadValue(nums, t);
    if r.Got? {
      var next := ReadToken(nums, r.t);
      if next.OneToken? && next.token.ValueSep? {
        ElementsSurvive(nums, next.t, elements + [r.v]);
      }
    }
  }

  lemma {:induction false} PairsSurvive(nums: Numbers, t: Text, pairs: seq<Pair>)
    requires StringsSurvive(true, Object(pairs))
    ensures ReadPairs(nums, t, pairs).Got? ==> StringsSurvive(true, ReadPairs(nums, t, pairs).v)
    decreases |t|, 1
  {
    ReadSurvives(nums, t);
    var k := ReadKeyPart(nums, ReadValue(nums, t));
    if k.GoodKey? {
      ReadSurvives(nums, k.t);
      var r := ReadValue(nums, k.t);
      if r.Got? && !HasKey(pairs, k.key) {
        var p := Pair(k.key, r.v);
        DistinctSnoc(pairs, p);
        assert StringsSurvive(true, Object(pairs + [p]));
        var next := ReadToken(nums, r.t);
        if next.OneToken? && next.token.ValueSep? {
          PairsSurvive(nums, next.t, pairs + [p]);
        }
      }
    }
  }

  // ------------------------------------------------ normalisation

  /** Strings that survive with escapes survive without them unless they have the one character
      that is accepted only escaped. */
  lemma {:induction false} RawSurvives(v: Value)
    requires StringsSurvive(true, v)
    ensures StringsSurvive(false, v) <==> !Mentions(v, 0xf0000)
    decreases v
  {
    match v
    case Array(elements) =>
      forall i | 0 <= i < |elements| ensures StringsSurvive(false, elements[i]) <==> !Mentions(elements[i], 0xf0000) {
        RawSurvives(elements[i]);
      }
    case Object(pairs) =>
      forall i | 0 <= i < |pairs|
        ensures StringsSurvive(false, pairs[i].value) <==> !Mentions(pairs[i].value, 0xf0000)
      {
        RawSurvives(pairs[i].value);
      }
    case _ =>
  }

  /** Every text that parses: its value printed with escapes parses to the same value, if its
      numbers are exact; printed raw it does so if, besides, it lacks the last character. Neither
      holds in any other case. */
  lemma Normalises(nums: Numbers, indent: bool, t: Text)
    requires Conforming(nums) && Parse(nums, t).Got?
    ensures var v := Parse(nums, t).v;
            && (Parse(nums, Print(nums, Options(true, indent), v)) == Got(v, []) <==> NumbersExact(nums, v))
            && (Parse(nums, Print(nums, Options(false, indent), v)) == Got(v, []) <==>
                NumbersExact(nums, v) && !Mentions(v, 0xf0000))
  {
    var v := Parse(nums, t).v;
    ReadSurvives(nums, t);
    RoundTrip(nums, Options(true, indent), v);
    RoundTrip(nums, Options(false, indent), v);
    FineMeans(nums, true, v);
    FineMeans(nums, false, v);
    RawSurvives(v);
  }

  /** The character that makes the difference: its escaped form parses... */
  lemma LastCharacterEscaped(nums: Numbers)
    ensures Parse(nums, PrintString([0xf0000], true)) == Got(String([0xf0000]), [])
  {
    var t := PrintString([0xf0000], true);
    StringReadsBack(nums, [0xf0000], true, []);
    assert t + [] == t;
  }

  /** ...but what is then printed raw does not. */
  lemma LastCharacterRaw(nums: Numbers)
    ensures Parse(nums, Print(nums, Options(false, false), String([0xf0000]))) == Fail(PrivateUseCharacter)
  {
    assert PrintChars([0xf0000], false) == [0xf0000] + [] == [0xf0000];
    var raw := Print(nums, Options(false, false), String([0xf0000]));
    assert raw == [QUOTE, 0xf0000, QUOTE, 0x0a];
    assert ReadString([], raw[1..]) == BadString(PrivateUseCharacter);
  }
}
