/** Values in the grammar, and that the parser accepts exactly the texts of the grammar. */
module JsonTrees {
  import opened Sequences
  import opened JsonText
  import opened JsonStrings
  import opened JsonSpec
  import opened JsonLaws
  import opened JsonNormal
  import opened JsonGrammar

  /** A value as it is written, with the blanks before each of its tokens. */
  datatype Tree =
    | Name(space: Text, v: Value)
    | Num(space: Text, parts: Parts, d: real)
    | Quoted(space: Text, forms: seq<Form>)
    | NoItems(space: Text, inner: Text)
    | Items(space: Text, items: seq<Item>)
    | NoMembers(space: Text, inner: Text)
    | Members(space: Text, members: seq<Member>)

  /** An element and the blanks before the comma or bracket after it. */
  datatype Item = Item(tree: Tree, after: Text)

  datatype Member = Member(space: Text, key: seq<Form>, colon: Text, tree: Tree, after: Text)

  ghost predicate Blank(t: Text) { forall i :: 0 <= i < |t| ==> IsSpace(t[i]) }

  // ------------------------------------------------ text

  function NameText(v: Value): Text {
    if v == Null then NULL_NAME else if v == Bool(true) then TRUE_NAME else FALSE_NAME
  }

  ghost function QuotedText(forms: seq<Form>): Text { [QUOTE] + (FormsText(forms) + [QUOTE]) }

  ghost function TreeText(tree: Tree): Text
    decreases tree
  {
    tree.space + (
      match tree
      case Name(_, v) => NameText(v)
      case Num(_, parts, _) => Spelled(parts)
      case Quoted(_, forms) => QuotedText(forms)
      case NoItems(_, inner) => [LEFT_BRACKET] + (inner + [RIGHT_BRACKET])
      case Items(_, items) => [LEFT_BRACKET] + ItemsText(items)
      case NoMembers(_, inner) => [LEFT_BRACE] + (inner + [RIGHT_BRACE])
      case Members(_, members) => [LEFT_BRACE] + MembersText(members))
  }

  ghost function ItemsText(items: seq<Item>): Text
    decreases items
  {
    if items == [] then []
    else
      TreeText(items[0].tree) +
      (items[0].after + (if |items| == 1 then [RIGHT_BRACKET] else [COMMA] + ItemsText(items[1..])))
  }

  ghost function MembersText(members: seq<Member>): Text
    decreases members
  {
    if members == [] then []
    else
      var m := members[0];
      m.space + (QuotedText(m.key) + (m.colon + ([COLON] + (TreeText(m.tree) +
      (m.after + (if |members| == 1 then [RIGHT_BRACE] else [COMMA] + MembersText(members[1..])))))))
  }

  // ------------------------------------------------ meaning

  ghost predicate Proper(nums: Numbers, tree: Tree)
    decreases tree, 0
  {
    && Blank(tree.space)
    && match tree
       case Name(_, v) => v == Null || v.Bool?
       case Num(_, parts, d) => ValidParts(parts) && nums.strtod(Spelled(parts)) == Double(d)
       case Quoted(_, forms) => ValidForms(forms)
       case NoItems(_, inner) => Blank(inner)
       case Items(_, items) => items != [] && ProperItems(nums, items)
       case NoMembers(_, inner) => Blank(inner)
       case Members(_, members) => members != [] && ProperMembers(nums, members) && Distinct(MemberPairs(nums, members))
  }

  ghost predicate ProperItems(nums: Numbers, items: seq<Item>)
    decreases items, 0
  {
    items == [] || (Proper(nums, items[0].tree) && Blank(items[0].after) && ProperItems(nums, items[1..]))
  }

  ghost predicate ProperMembers(nums: Numbers, members: seq<Member>)
    decreases members, 0
  {
    members == [] ||
    (var m := members[0];
     Blank(m.space) && ValidForms(m.key) && Blank(m.colon) && Proper(nums, m.tree) && Blank(m.after) &&
     ProperMembers(nums, members[1..]))
  }

  ghost function TreeValue(nums: Numbers, tree: Tree): Value
    requires Proper(nums, tree)
    decreases tree, 1
  {
    match tree
    case Name(_, v) => v
    case Num(_, _, d) => Number(d)
    case Quoted(_, forms) => String(FormsString(forms))
    case NoItems(_, _) => Array([])
    case Items(_, items) => Array(ItemValues(nums, items))
    case NoMembers(_, _) => Object([])
    case Members(_, members) => Object(MemberPairs(nums, members))
  }

  ghost function ItemValues(nums: Numbers, items: seq<Item>): seq<Value>
    requires ProperItems(nums, items)
    decreases items, 1
  {
    if items == [] then [] else [TreeValue(nums, items[0].tree)] + ItemValues(nums, items[1..])
  }

  ghost function MemberPairs(nums: Numbers, members: seq<Member>): seq<Pair>
    requires ProperMembers(nums, members)
    decreases members, 1
  {
    if members == [] then []
    else [Pair(FormsString(members[0].key), TreeValue(nums, members[0].tree))] + MemberPairs(nums, members[1..])
  }

  // ------------------------------------------------ blanks

  lemma {:induction false} SkipBlank(space: Text, t: Text)
    requires Blank(space)
    ensures SkipSpace(space + t) == SkipSpace(t)
  {
    if space == [] {
      assert space + t == t;
    } else {
      assert (space + t)[1..] == space[1..] + t;
      SkipBlank(space[1..], t);
    }
  }

  lemma BlankBefore(nums: Numbers, space: Text, t: Text)
    requires Blank(space)
    ensures ReadToken(nums, space + t) == ReadToken(nums, t) && ReadValue(nums, space + t) == ReadValue(nums, t)
  {
    SkipBlank(space, t);
    SameValue(nums, space + t, t);
  }

  lemma {:induction false} BlankFound(t: Text) returns (space: Text)
    ensures Blank(space) && t == space + SkipSpace(t)
  {
    if t != [] && IsSpace(t[0]) {
      var rest := BlankFound(t[1..]);
      space := [t[0]] + rest;
      assert t == [t[0]] + t[1..];
    } else {
      space := [];
    }
  }

  lemma BlankEnds(space: Text, c: Char, t: Text)
    requires Blank(space) && c in {COMMA, RIGHT_BRACKET, RIGHT_BRACE}
    ensures Ends(space + ([c] + t))
  {
    if space == [] { assert space + ([c] + t) == [c] + t; }
  }

  // ------------------------------------------------ the readers, sealed

  /** The seals on the readers: a proof looks at a reader only where it asserts its guard. */
  ghost predicate OpenToken(x: int) { true }

  ghost predicate OpenValue(x: int) { true }

  ghost predicate OpenList(x: int) { true }

  ghost predicate TokenRead(nums: Numbers, t: Text, token: Token, rest: Text) {
    forall x :: OpenToken(x) ==> ReadToken(nums, t) == OneToken(token, rest)
  }

  ghost predicate ValueRead(nums: Numbers, t: Text, v: Value, rest: Text) {
    forall x :: OpenValue(x) ==> ReadValue(nums, t) == Got(v, rest)
  }

  ghost predicate ElementsRead(nums: Numbers, t: Text, before: seq<Value>, v: Value, rest: Text) {
    forall x :: OpenList(x) ==> ReadElements(nums, t, before) == Got(v, rest)
  }

  ghost predicate PairsRead(nums: Numbers, t: Text, before: seq<Pair>, v: Value, rest: Text) {
    forall x :: OpenList(x) ==> ReadPairs(nums, t, before) == Got(v, rest)
  }

  // ------------------------------------------------ texts of the grammar are accepted

  ghost predicate Accepted(nums: Numbers, tree: Tree, t: Text)
    requires Proper(nums, tree)
  {
    var text := TreeText(tree) + t;
    forall x :: OpenValue(x) ==>
      && ReadValue(nums, text) == Got(TreeValue(nums, tree), t)
      && ReadToken(nums, text).OneToken?
      && !ReadToken(nums, text).token.EndArray? && !ReadToken(nums, text).token.EndObject?
  }

  /** A quote starts a string. */
  lemma QuoteReads(nums: Numbers, u: Text)
    ensures ReadToken(nums, [QUOTE] + u) == StringToken(ReadString([], u))
  {
    assert SkipSpace([QUOTE] + u) == [QUOTE] + u;
    assert ([QUOTE] + u)[1..] == u;
  }

  lemma QuotedReads(nums: Numbers, forms: seq<Form>, t: Text)
    requires ValidForms(forms)
    ensures ReadToken(nums, QuotedText(forms) + t) == OneToken(Scalar(String(FormsString(forms))), t)
  {
    ConcatAssoc(FormsText(forms), [QUOTE], t);
    ConcatAssoc([QUOTE], FormsText(forms) + [QUOTE], t);
    QuoteReads(nums, FormsText(forms) + ([QUOTE] + t));
    StringAccepted([], forms, t);
    assert [] + FormsString(forms) == FormsString(forms);
  }

  lemma NumReads(nums: Numbers, parts: Parts, d: real, t: Text)
    requires ValidParts(parts) && nums.strtod(Spelled(parts)) == Double(d) && Ends(t)
    ensures ReadToken(nums, Spelled(parts) + t) == OneToken(Scalar(Number(d)), t)
  {
    NumberReads(parts, t);
  }

  lemma ScalarAccepted(nums: Numbers, tree: Tree, t: Text)
    requires Proper(nums, tree) && Ends(t) && (tree.Name? || tree.Num? || tree.Quoted?)
    ensures Accepted(nums, tree, t)
  {
    var body :=
      if tree.Name? then NameText(tree.v)
      else if tree.Num? then Spelled(tree.parts)
      else QuotedText(tree.forms);
    ConcatAssoc(tree.space, body, t);
    BlankBefore(nums, tree.space, body + t);
    if tree.Name? {
      NameReads(nums, NameText(tree.v), t);
    } else if tree.Num? {
      NumReads(nums, tree.parts, tree.d, t);
    } else {
      QuotedReads(nums, tree.forms, t);
    }
  }

  lemma EmptyAccepted(nums: Numbers, tree: Tree, t: Text)
    requires Proper(nums, tree) && (tree.NoItems? || tree.NoMembers?)
    ensures Accepted(nums, tree, t)
  {
    var open := if tree.NoItems? then LEFT_BRACKET else LEFT_BRACE;
    var close := if tree.NoItems? then RIGHT_BRACKET else RIGHT_BRACE;
    var inside := tree.inner + ([close] + t);
    ConcatAssoc(tree.inner, [close], t);
    ConcatAssoc([open], tree.inner + [close], t);
    ConcatAssoc(tree.space, [open] + (tree.inner + [close]), t);
    BlankBefore(nums, tree.space, [open] + inside);
    BlankBefore(nums, tree.inner, [close] + t);
    PunctuationReads(nums, open, inside);
    PunctuationReads(nums, close, t);
  }

  /** What follows the first element. */
  ghost function ItemTail(items: seq<Item>, t: Text): Text
    requires items != []
  {
    items[0].after + (if |items| == 1 then [RIGHT_BRACKET] + t else [COMMA] + (ItemsText(items[1..]) + t))
  }

  lemma ItemTailText(items: seq<Item>, t: Text)
    requires items != [] && Blank(items[0].after)
    ensures ItemsText(items) + t == TreeText(items[0].tree) + ItemTail(items, t) && Ends(ItemTail(items, t))
  {
    var after, close: Text := items[0].after, if |items| == 1 then [RIGHT_BRACKET] else [COMMA] + ItemsText(items[1..]);
    ConcatAssoc(TreeText(items[0].tree), after + close, t);
    ConcatAssoc(after, close, t);
    if |items| == 1 {
      BlankEnds(after, RIGHT_BRACKET, t);
    } else {
      ConcatAssoc([COMMA], ItemsText(items[1..]), t);
      BlankEnds(after, COMMA, ItemsText(items[1..]) + t);
    }
  }

  lemma ItemTailReads(nums: Numbers, items: seq<Item>, t: Text)
    requires items != [] && Blank(items[0].after)
    ensures ItemsText(items) + t == TreeText(items[0].tree) + ItemTail(items, t)
    ensures ReadToken(nums, ItemTail(items, t)) ==
            if |items| == 1 then OneToken(EndArray, t) else OneToken(ValueSep, ItemsText(items[1..]) + t)
  {
    ItemTailText(items, t);
    if |items| == 1 {
      BlankBefore(nums, items[0].after, [RIGHT_BRACKET] + t);
      PunctuationReads(nums, RIGHT_BRACKET, t);
    } else {
      BlankBefore(nums, items[0].after, [COMMA] + (ItemsText(items[1..]) + t));
      PunctuationReads(nums, COMMA, ItemsText(items[1..]) + t);
    }
  }

  /** How the first element is read, and what comes of the rest. */
  lemma ItemReads(nums: Numbers, items: seq<Item>, t: Text, before: seq<Value>, v: Value)
    requires items != [] && ProperItems(nums, items) && Accepted(nums, items[0].tree, ItemTail(items, t))
    requires var first := TreeValue(nums, items[0].tree);
             if |items| == 1 then v == Array(before + [first])
             else ElementsRead(nums, ItemsText(items[1..]) + t, before + [first], v, t)
    ensures ElementsRead(nums, ItemsText(items) + t, before, v, t)
  {
    assert OpenValue(0);
    assert OpenList(0);
    ItemTailReads(nums, items, t);
  }

  lemma {:induction false} ItemsAccepted(nums: Numbers, items: seq<Item>, t: Text, before: seq<Value>)
    requires items != [] && ProperItems(nums, items)
    ensures ElementsRead(nums, ItemsText(items) + t, before, Array(before + ItemValues(nums, items)), t)
    ensures Accepted(nums, items[0].tree, ItemTail(items, t))
    decreases items
  {
    ItemTailText(items, t);
    TreeAccepted(nums, items[0].tree, ItemTail(items, t));
    var v := TreeValue(nums, items[0].tree);
    if |items| == 1 {
      assert items[1..] == [] && ItemValues(nums, items) == [v] + [] == [v];
    } else {
      ItemsAccepted(nums, items[1..], t, before + [v]);
      assert before + ItemValues(nums, items) == (before + [v]) + ItemValues(nums, items[1..]);
    }
    ItemReads(nums, items, t, before, Array(before + ItemValues(nums, items)));
  }

  /** What follows the first key. */
  ghost function MemberTail(members: seq<Member>, t: Text): Text
    requires members != []
  {
    members[0].after + (if |members| == 1 then [RIGHT_BRACE] + t else [COMMA] + (MembersText(members[1..]) + t))
  }

  ghost function KeyTail(members: seq<Member>, t: Text): Text
    requires members != []
  {
    members[0].colon + ([COLON] + (TreeText(members[0].tree) + MemberTail(members, t)))
  }

  lemma MemberTailText(members: seq<Member>, t: Text)
    requires members != [] && Blank(members[0].after)
    ensures MembersText(members) + t == members[0].space + (QuotedText(members[0].key) + KeyTail(members, t))
    ensures Ends(MemberTail(members, t))
  {
    var m := members[0];
    var close: Text := if |members| == 1 then [RIGHT_BRACE] else [COMMA] + MembersText(members[1..]);
    MemberText(members, t);
    ConcatAssoc(TreeText(m.tree), m.after + close, t);
    ConcatAssoc(m.after, close, t);
    if |members| == 1 {
      BlankEnds(m.after, RIGHT_BRACE, t);
    } else {
      ConcatAssoc([COMMA], MembersText(members[1..]), t);
      BlankEnds(m.after, COMMA, MembersText(members[1..]) + t);
    }
  }

  lemma MemberTailReads(nums: Numbers, members: seq<Member>, t: Text)
    requires members != [] && Blank(members[0].after)
    ensures ReadToken(nums, MemberTail(members, t)) ==
            if |members| == 1 then OneToken(EndObject, t) else OneToken(ValueSep, MembersText(members[1..]) + t)
  {
    if |members| == 1 {
      BlankBefore(nums, members[0].after, [RIGHT_BRACE] + t);
      PunctuationReads(nums, RIGHT_BRACE, t);
    } else {
      BlankBefore(nums, members[0].after, [COMMA] + (MembersText(members[1..]) + t));
      PunctuationReads(nums, COMMA, MembersText(members[1..]) + t);
    }
  }

  lemma MemberKeyReads(nums: Numbers, members: seq<Member>, t: Text)
    requires members != [] && ProperMembers(nums, members)
    ensures var text := MembersText(members) + t;
            && ReadKeyPart(nums, ReadValue(nums, text)) ==
               GoodKey(FormsString(members[0].key), TreeText(members[0].tree) + MemberTail(members, t))
            && ReadToken(nums, text).OneToken? && !ReadToken(nums, text).token.EndObject?
  {
    var m, rest := members[0], TreeText(members[0].tree) + MemberTail(members, t);
    MemberTailText(members, t);
    BlankBefore(nums, m.space, QuotedText(m.key) + KeyTail(members, t));
    QuotedReads(nums, m.key, KeyTail(members, t));
    BlankBefore(nums, m.colon, [COLON] + rest);
    PunctuationReads(nums, COLON, rest);
  }

  /** How the first pair is read, and what comes of the rest. */
  lemma MemberReads(nums: Numbers, members: seq<Member>, t: Text, before: seq<Pair>, v: Value)
    requires members != [] && ProperMembers(nums, members)
    requires Accepted(nums, members[0].tree, MemberTail(members, t))
    requires !HasKey(before, FormsString(members[0].key))
    requires var p := Pair(FormsString(members[0].key), TreeValue(nums, members[0].tree));
             if |members| == 1 then v == Object(before + [p])
             else PairsRead(nums, MembersText(members[1..]) + t, before + [p], v, t)
    ensures PairsRead(nums, MembersText(members) + t, before, v, t)
  {
    assert OpenValue(0);
    assert OpenList(0);
    MemberKeyReads(nums, members, t);
    MemberTailReads(nums, members, t);
  }

  lemma {:induction false} MembersAccepted(nums: Numbers, members: seq<Member>, t: Text, before: seq<Pair>)
    requires members != [] && ProperMembers(nums, members) && Distinct(before + MemberPairs(nums, members))
    ensures PairsRead(nums, MembersText(members) + t, before, Object(before + MemberPairs(nums, members)), t)
    decreases members
  {
    var p := Pair(FormsString(members[0].key), TreeValue(nums, members[0].tree));
    MemberTailText(members, t);
    TreeAccepted(nums, members[0].tree, MemberTail(members, t));
    NewKey(before, p, MemberPairs(nums, members[1..]));
    if |members| == 1 {
      assert members[1..] == [] && MemberPairs(nums, members) == [p] + [] == [p];
    } else {
      assert before + MemberPairs(nums, members) == (before + [p]) + MemberPairs(nums, members[1..]);
      MembersAccepted(nums, members[1..], t, before + [p]);
    }
    MemberReads(nums, members, t, before, Object(before + MemberPairs(nums, members)));
  }

  lemma NewKey(before: seq<Pair>, p: Pair, rest: seq<Pair>)
    requires Distinct(before + ([p] + rest))
    ensures !HasKey(before, p.key)
  {
    var all := before + ([p] + rest);
    assert all[|before|] == p && forall i :: 0 <= i < |before| ==> all[i] == before[i];
  }

  lemma {:induction false} TreeAccepted(nums: Numbers, tree: Tree, t: Text)
    requires Proper(nums, tree) && Ends(t)
    ensures Accepted(nums, tree, t)
    decreases tree
  {
    match tree
    case Items(space, items) =>
      ItemsAccepted(nums, items, t, []);
      ListAccepted(nums, tree, t);
    case Members(space, members) =>
      assert [] + MemberPairs(nums, members) == MemberPairs(nums, members);
      MembersAccepted(nums, members, t, []);
      RecordAccepted(nums, tree, t);
    case NoItems(_, _) => EmptyAccepted(nums, tree, t);
    case NoMembers(_, _) => EmptyAccepted(nums, tree, t);
    case _ => ScalarAccepted(nums, tree, t);
  }

  lemma ListAccepted(nums: Numbers, tree: Tree, t: Text)
    requires Proper(nums, tree) && tree.Items?
    requires ElementsRead(nums, ItemsText(tree.items) + t, [], Array([] + ItemValues(nums, tree.items)), t)
    requires Accepted(nums, tree.items[0].tree, ItemTail(tree.items, t))
    ensures Accepted(nums, tree, t)
  {
    assert OpenValue(0);
    assert OpenList(0);
    var inside := ItemsText(tree.items) + t;
    ItemTailText(tree.items, t);
    ConcatAssoc([LEFT_BRACKET], ItemsText(tree.items), t);
    ConcatAssoc(tree.space, [LEFT_BRACKET] + ItemsText(tree.items), t);
    BlankBefore(nums, tree.space, [LEFT_BRACKET] + inside);
    OpenArray(nums, inside);
    assert [] + ItemValues(nums, tree.items) == ItemValues(nums, tree.items);
  }

  lemma RecordAccepted(nums: Numbers, tree: Tree, t: Text)
    requires Proper(nums, tree) && tree.Members?
    requires PairsRead(nums, MembersText(tree.members) + t, [], Object([] + MemberPairs(nums, tree.members)), t)
    ensures Accepted(nums, tree, t)
  {
    assert OpenList(0);
    var inside := MembersText(tree.members) + t;
    MemberKeyReads(nums, tree.members, t);
    ConcatAssoc([LEFT_BRACE], MembersText(tree.members), t);
    ConcatAssoc(tree.space, [LEFT_BRACE] + MembersText(tree.members), t);
    BlankBefore(nums, tree.space, [LEFT_BRACE] + inside);
    OpenObject(nums, inside);
    assert [] + MemberPairs(nums, tree.members) == MemberPairs(nums, tree.members);
  }

  // ------------------------------------------------ what is accepted is in the grammar

  lemma {:induction false} LetterRunSplits(p: Text, t: Text)
    ensures LetterRun(p, t).p + LetterRun(p, t).t == p + t
    decreases |t|
  {
    if t != [] && IsLetter(t[0]) {
      LetterRunSplits(p + [t[0]], t[1..]);
      assert p + [t[0]] + t[1..] == p + t;
    }
  }

  // What each reader has read before it succeeds.

  lemma OpenElements(nums: Numbers, t: Text, before: seq<Value>, v: Value, rest: Text)
    returns (e: Value, t1: Text, token: Token, t2: Text)
    requires ElementsRead(nums, t, before, v, rest)
    ensures ValueRead(nums, t, e, t1) && TokenRead(nums, t1, token, t2) && |t2| < |t1| < |t|
    ensures (token.EndArray? && v == Array(before + [e]) && rest == t2) ||
            (token.ValueSep? && ElementsRead(nums, t2, before + [e], v, rest))
  {
    assert OpenList(0);
    var r := ReadValue(nums, t);
    var next := ReadToken(nums, r.t);
    e, t1, token, t2 := r.v, r.t, next.token, next.t;
  }

  lemma OpenKey(nums: Numbers, t: Text, key: Str, t2: Text) returns (t1: Text)
    requires ReadKeyPart(nums, ReadValue(nums, t)) == GoodKey(key, t2)
    ensures ValueRead(nums, t, String(key), t1) && TokenRead(nums, t1, NameSep, t2) && |t2| < |t1| < |t|
  {
    t1 := ReadValue(nums, t).t;
  }

  lemma OpenPairs(nums: Numbers, t: Text, before: seq<Pair>, v: Value, rest: Text)
    returns (key: Str, t1: Text, t2: Text, e: Value, t3: Text, token: Token, t4: Text)
    requires PairsRead(nums, t, before, v, rest)
    ensures ValueRead(nums, t, String(key), t1) && TokenRead(nums, t1, NameSep, t2) && |t2| < |t1| < |t|
    ensures ValueRead(nums, t2, e, t3) && TokenRead(nums, t3, token, t4) && |t4| < |t3| < |t2| && !HasKey(before, key)
    ensures (token.EndObject? && v == Object(before + [Pair(key, e)]) && rest == t4) ||
            (token.ValueSep? && PairsRead(nums, t4, before + [Pair(key, e)], v, rest))
  {
    assert OpenList(0);
    var k := ReadKeyPart(nums, ReadValue(nums, t));
    t1 := OpenKey(nums, t, k.key, k.t);
    var r := ReadValue(nums, k.t);
    var next := ReadToken(nums, r.t);
    key, t2, e, t3, token, t4 := k.key, k.t, r.v, r.t, next.token, next.t;
  }

  lemma OpenOne(nums: Numbers, t: Text, v: Value, rest: Text) returns (token: Token, t1: Text)
    requires ValueRead(nums, t, v, rest)
    ensures TokenRead(nums, t, token, t1) && |t1| < |t|
    ensures (token == Scalar(v) && rest == t1) ||
            (token.BeginArray? && v == Array([]) && TokenRead(nums, t1, EndArray, rest)) ||
            (token.BeginArray? && ElementsRead(nums, t1, [], v, rest)) ||
            (token.BeginObject? && v == Object([]) && TokenRead(nums, t1, EndObject, rest)) ||
            (token.BeginObject? && PairsRead(nums, t1, [], v, rest))
  {
    assert OpenValue(0);
    var r := ReadToken(nums, t);
    token, t1 := r.token, r.t;
  }

  // ------------------------------------------------ tokens found

  lemma NumFound(nums: Numbers, space: Text, u: Text, v: Value, rest: Text) returns (tree: Tree)
    requires Blank(space) && u != [] && (IsDigit(u[0]) || u[0] == MINUS)
    requires NumberToken(nums, ScanNumber(u)) == OneToken(Scalar(v), rest)
    ensures Proper(nums, tree) && TreeValue(nums, tree) == v && space + u == TreeText(tree) + rest
  {
    NumberSplits(u);
    var p := ScanNumber(u).p;
    var n :| ValidParts(n) && Spelled(n) == p;
    tree := Num(space, n, v.d);
    ConcatAssoc(space, p, rest);
  }

  lemma NameFound(nums: Numbers, space: Text, u: Text, v: Value, rest: Text) returns (tree: Tree)
    requires Blank(space) && NameToken(LetterRun([], u).p, LetterRun([], u).t) == OneToken(Scalar(v), rest)
    ensures Proper(nums, tree) && TreeValue(nums, tree) == v && space + u == TreeText(tree) + rest
  {
    LetterRunSplits([], u);
    assert [] + u == u;
    tree := Name(space, v);
    ConcatAssoc(space, NameText(v), rest);
  }

  lemma QuotedFound(nums: Numbers, space: Text, u: Text, v: Value, rest: Text) returns (tree: Tree)
    requires Blank(space) && StartsWith(u, QUOTE) && StringToken(ReadString([], u[1..])) == OneToken(Scalar(v), rest)
    ensures tree.Quoted? && Proper(nums, tree) && TreeValue(nums, tree) == v && space + u == TreeText(tree) + rest
  {
    var forms := StringFound([], u[1..]);
    assert [] + FormsString(forms) == FormsString(forms);
    tree := Quoted(space, forms);
    QuotedSplits(u, forms, rest);
    ConcatAssoc(space, QuotedText(forms), rest);
  }

  lemma QuotedSplits(u: Text, forms: seq<Form>, rest: Text)
    requires StartsWith(u, QUOTE) && u[1..] == FormsText(forms) + ([QUOTE] + rest)
    ensures u == QuotedText(forms) + rest
  {
    assert u == [QUOTE] + u[1..];
    ConcatAssoc(FormsText(forms), [QUOTE], rest);
    ConcatAssoc([QUOTE], FormsText(forms) + [QUOTE], rest);
  }

  lemma ScalarFound(nums: Numbers, t: Text, v: Value, rest: Text) returns (tree: Tree)
    requires TokenRead(nums, t, Scalar(v), rest)
    ensures Proper(nums, tree) && TreeValue(nums, tree) == v && t == TreeText(tree) + rest
    ensures v.String? ==> tree.Quoted?
  {
    assert OpenToken(0);
    var space := BlankFound(t);
    var u := SkipSpace(t);
    if IsDigit(u[0]) || u[0] == MINUS {
      tree := NumFound(nums, space, u, v, rest);
    } else if IsLetter(u[0]) {
      tree := NameFound(nums, space, u, v, rest);
    } else {
      tree := QuotedFound(nums, space, u, v, rest);
    }
  }

  function Mark(token: Token): Char {
    match token
    case BeginArray => LEFT_BRACKET
    case EndArray => RIGHT_BRACKET
    case BeginObject => LEFT_BRACE
    case EndObject => RIGHT_BRACE
    case NameSep => COLON
    case _ => COMMA
  }

  lemma MarkAt(nums: Numbers, u: Text, token: Token, rest: Text)
    requires TokenAt(nums, u) == OneToken(token, rest) && !token.EOF? && !token.Scalar?
    ensures u == [Mark(token)] + rest
  {
    assert u == [u[0]] + u[1..];
  }

  lemma MarkFound(nums: Numbers, t: Text, token: Token, rest: Text) returns (space: Text)
    requires TokenRead(nums, t, token, rest) && !token.EOF? && !token.Scalar?
    ensures Blank(space) && t == space + ([Mark(token)] + rest)
  {
    assert OpenToken(0);
    space := BlankFound(t);
    MarkAt(nums, SkipSpace(t), token, rest);
  }

  // ------------------------------------------------ values found

  lemma OpenText(space: Text, c: Char, inside: Text, t: Text)
    ensures space + ([c] + (inside + t)) == (space + ([c] + inside)) + t
  {
    ConcatAssoc([c], inside, t);
    ConcatAssoc(space, [c] + inside, t);
  }

  lemma EmptyText(space: Text, open: Char, inner: Text, close: Char, t: Text)
    ensures space + ([open] + (inner + ([close] + t))) == (space + ([open] + (inner + [close]))) + t
  {
    ConcatAssoc(inner, [close], t);
    OpenText(space, open, inner + [close], t);
  }

  lemma LastText(first: Text, after: Text, c: Char, t: Text)
    ensures first + (after + ([c] + t)) == (first + (after + [c])) + t
  {
    ConcatAssoc(after, [c], t);
    ConcatAssoc(first, after + [c], t);
  }

  lemma MoreText(first: Text, after: Text, rest: Text, t: Text)
    ensures first + (after + ([COMMA] + (rest + t))) == (first + (after + ([COMMA] + rest))) + t
  {
    OpenText(after, COMMA, rest, t);
    ConcatAssoc(first, after + ([COMMA] + rest), t);
  }

  lemma {:induction false} ValueFound(nums: Numbers, t: Text, v: Value, rest: Text) returns (tree: Tree)
    requires ValueRead(nums, t, v, rest)
    ensures Proper(nums, tree) && TreeValue(nums, tree) == v && t == TreeText(tree) + rest
    ensures v.String? ==> tree.Quoted?
    decreases |t|, 0
  {
    var token, t1 := OpenOne(nums, t, v, rest);
    if token.Scalar? {
      tree := ScalarFound(nums, t, v, rest);
    } else {
      var space := MarkFound(nums, t, token, t1);
      if token.BeginArray? {
        tree := ArrayFound(nums, space, t1, v, rest);
      } else {
        tree := ObjectFound(nums, space, t1, v, rest);
      }
    }
  }

  lemma {:induction false} ArrayFound(nums: Numbers, space: Text, t: Text, v: Value, rest: Text) returns (tree: Tree)
    requires Blank(space)
    requires (v == Array([]) && TokenRead(nums, t, EndArray, rest)) || ElementsRead(nums, t, [], v, rest)
    ensures Proper(nums, tree) && TreeValue(nums, tree) == v && space + ([LEFT_BRACKET] + t) == TreeText(tree) + rest
    ensures v.Array?
    decreases |t|, 3
  {
    if v == Array([]) && TokenRead(nums, t, EndArray, rest) {
      var inner := MarkFound(nums, t, EndArray, rest);
      tree := NoItems(space, inner);
      EmptyText(space, LEFT_BRACKET, inner, RIGHT_BRACKET, rest);
    } else {
      var items := ItemsFound(nums, t, [], v, rest);
      assert OpenAre(0);
      assert [] + ItemValues(nums, items) == ItemValues(nums, items);
      tree := Items(space, items);
      OpenText(space, LEFT_BRACKET, ItemsText(items), rest);
    }
  }

  lemma {:induction false} ObjectFound(nums: Numbers, space: Text, t: Text, v: Value, rest: Text) returns (tree: Tree)
    requires Blank(space)
    requires (v == Object([]) && TokenRead(nums, t, EndObject, rest)) || PairsRead(nums, t, [], v, rest)
    ensures Proper(nums, tree) && TreeValue(nums, tree) == v && space + ([LEFT_BRACE] + t) == TreeText(tree) + rest
    ensures v.Object?
    decreases |t|, 3
  {
    if v == Object([]) && TokenRead(nums, t, EndObject, rest) {
      var inner := MarkFound(nums, t, EndObject, rest);
      tree := NoMembers(space, inner);
      EmptyText(space, LEFT_BRACE, inner, RIGHT_BRACE, rest);
    } else {
      var members := MembersFound(nums, t, [], v, rest);
      assert OpenAre(0);
      assert [] + MemberPairs(nums, members) == MemberPairs(nums, members);
      tree := Members(space, members);
      OpenText(space, LEFT_BRACE, MembersText(members), rest);
    }
  }

  /** Asserting this opens `ItemsAre` and `MembersAre`. */
  ghost predicate OpenAre(x: int) { true }

  /** The items write the text `t` up to `rest`, and complete the elements `before` to the value `v`. */
  ghost predicate ItemsAre(nums: Numbers, items: seq<Item>, before: seq<Value>, v: Value, t: Text, rest: Text) {
    forall x :: OpenAre(x) ==>
      items != [] && ProperItems(nums, items) && v == Array(before + ItemValues(nums, items)) &&
      t == ItemsText(items) + rest
  }

  lemma LastItem(nums: Numbers, item: Item, before: seq<Value>, t: Text, rest: Text)
    requires Proper(nums, item.tree) && Blank(item.after)
    requires t == TreeText(item.tree) + (item.after + ([RIGHT_BRACKET] + rest))
    ensures ItemsAre(nums, [item], before, Array(before + [TreeValue(nums, item.tree)]), t, rest)
  {
    assert [item][1..] == [];
    assert [TreeValue(nums, item.tree)] + [] == [TreeValue(nums, item.tree)];
    LastText(TreeText(item.tree), item.after, RIGHT_BRACKET, rest);
  }

  lemma NextItem(nums: Numbers, item: Item, more: seq<Item>, before: seq<Value>, v: Value, t: Text, t2: Text,
                 rest: Text)
    requires Proper(nums, item.tree) && Blank(item.after)
    requires ItemsAre(nums, more, before + [TreeValue(nums, item.tree)], v, t2, rest)
    requires t == TreeText(item.tree) + (item.after + ([COMMA] + t2))
    ensures ItemsAre(nums, [item] + more, before, v, t, rest)
  {
    assert OpenAre(0);
    assert ([item] + more)[1..] == more;
    MoreText(TreeText(item.tree), item.after, ItemsText(more), rest);
    assert before + ([TreeValue(nums, item.tree)] + ItemValues(nums, more)) ==
           (before + [TreeValue(nums, item.tree)]) + ItemValues(nums, more);
  }

  lemma {:induction false} ItemFound(nums: Numbers, t: Text, e: Value, t1: Text, token: Token, t2: Text)
    returns (item: Item)
    requires ValueRead(nums, t, e, t1) && TokenRead(nums, t1, token, t2) && !token.EOF? && !token.Scalar?
    ensures Proper(nums, item.tree) && Blank(item.after) && TreeValue(nums, item.tree) == e
    ensures t == TreeText(item.tree) + (item.after + ([Mark(token)] + t2))
    decreases |t|, 1
  {
    var tree := ValueFound(nums, t, e, t1);
    var after := MarkFound(nums, t1, token, t2);
    item := Item(tree, after);
  }

  lemma {:induction false} ItemsFound(nums: Numbers, t: Text, before: seq<Value>, v: Value, rest: Text)
    returns (items: seq<Item>)
    requires ElementsRead(nums, t, before, v, rest)
    ensures ItemsAre(nums, items, before, v, t, rest)
    decreases |t|, 2
  {
    var e, t1, token, t2 := OpenElements(nums, t, before, v, rest);
    var item := ItemFound(nums, t, e, t1, token, t2);
    if token.EndArray? {
      items := [item];
      LastItem(nums, item, before, t, rest);
    } else {
      var more := ItemsFound(nums, t2, before + [e], v, rest);
      items := [item] + more;
      NextItem(nums, item, more, before, v, t, t2, rest);
    }
  }

  ghost predicate ProperMember(nums: Numbers, m: Member) {
    Blank(m.space) && ValidForms(m.key) && Blank(m.colon) && Proper(nums, m.tree) && Blank(m.after)
  }

  ghost function MemberPair(nums: Numbers, m: Member): Pair
    requires ProperMember(nums, m)
  {
    Pair(FormsString(m.key), TreeValue(nums, m.tree))
  }

  /** A pair up to the comma or brace after it. */
  ghost function MemberHead(m: Member, t: Text): Text {
    m.space + (QuotedText(m.key) + (m.colon + ([COLON] + (TreeText(m.tree) + (m.after + t)))))
  }

  lemma MemberText(members: seq<Member>, t: Text)
    requires members != []
    ensures var m := members[0];
            var close: Text := if |members| == 1 then [RIGHT_BRACE] else [COMMA] + MembersText(members[1..]);
            MembersText(members) + t ==
            m.space + (QuotedText(m.key) + (m.colon + ([COLON] + ((TreeText(m.tree) + (m.after + close)) + t))))
  {
    var m := members[0];
    var close: Text := if |members| == 1 then [RIGHT_BRACE] else [COMMA] + MembersText(members[1..]);
    var value := TreeText(m.tree) + (m.after + close);
    ConcatAssoc([COLON], value, t);
    ConcatAssoc(m.colon, [COLON] + value, t);
    ConcatAssoc(QuotedText(m.key), m.colon + ([COLON] + value), t);
    ConcatAssoc(m.space, QuotedText(m.key) + (m.colon + ([COLON] + value)), t);
  }

  /** The members write the text `t` up to `rest`, and complete the pairs `before` to the value `v`. */
  ghost predicate MembersAre(nums: Numbers, members: seq<Member>, before: seq<Pair>, v: Value, t: Text, rest: Text) {
    forall x :: OpenAre(x) ==>
      && members != [] && ProperMembers(nums, members) && v == Object(before + MemberPairs(nums, members))
      && t == MembersText(members) + rest && Distinct(before + MemberPairs(nums, members))
  }

  lemma LastMember(nums: Numbers, m: Member, before: seq<Pair>, t: Text, rest: Text)
    requires ProperMember(nums, m) && t == MemberHead(m, [RIGHT_BRACE] + rest) &&
             Distinct(before + [MemberPair(nums, m)])
    ensures MembersAre(nums, [m], before, Object(before + [MemberPair(nums, m)]), t, rest)
  {
    assert [m][1..] == [];
    assert [MemberPair(nums, m)] + [] == [MemberPair(nums, m)];
    LastText(TreeText(m.tree), m.after, RIGHT_BRACE, rest);
    MemberText([m], rest);
  }

  lemma NextMember(nums: Numbers, m: Member, more: seq<Member>, before: seq<Pair>, v: Value, t: Text, t4: Text,
                   rest: Text)
    requires ProperMember(nums, m) && t == MemberHead(m, [COMMA] + t4)
    requires MembersAre(nums, more, before + [MemberPair(nums, m)], v, t4, rest)
    ensures MembersAre(nums, [m] + more, before, v, t, rest)
  {
    assert OpenAre(0);
    assert ([m] + more)[1..] == more;
    MoreText(TreeText(m.tree), m.after, MembersText(more), rest);
    MemberText([m] + more, rest);
    assert before + ([MemberPair(nums, m)] + MemberPairs(nums, more)) ==
           (before + [MemberPair(nums, m)]) + MemberPairs(nums, more);
  }

  lemma {:induction false} MemberFound(nums: Numbers, t: Text, key: Str, t1: Text, t2: Text, e: Value, t3: Text,
                                       token: Token, t4: Text)
    returns (m: Member)
    requires ValueRead(nums, t, String(key), t1) && TokenRead(nums, t1, NameSep, t2) && |t2| < |t|
    requires ValueRead(nums, t2, e, t3) && TokenRead(nums, t3, token, t4) && !token.EOF? && !token.Scalar?
    ensures ProperMember(nums, m) && MemberPair(nums, m) == Pair(key, e) && t == MemberHead(m, [Mark(token)] + t4)
    decreases |t|, 1
  {
    var name := ValueFound(nums, t, String(key), t1);
    var colon := MarkFound(nums, t1, NameSep, t2);
    var item := ItemFound(nums, t2, e, t3, token, t4);
    m := Member(name.space, name.forms, colon, item.tree, item.after);
    ConcatAssoc(name.space, QuotedText(name.forms), t1);
  }

  lemma {:induction false} MembersFound(nums: Numbers, t: Text, before: seq<Pair>, v: Value, rest: Text)
    returns (members: seq<Member>)
    requires PairsRead(nums, t, before, v, rest) && Distinct(before)
    ensures MembersAre(nums, members, before, v, t, rest)
    decreases |t|, 2
  {
    var key, t1, t2, e, t3, token, t4 := OpenPairs(nums, t, before, v, rest);
    var m := MemberFound(nums, t, key, t1, t2, e, t3, token, t4);
    DistinctSnoc(before, Pair(key, e));
    if token.EndObject? {
      members := [m];
      LastMember(nums, m, before, t, rest);
    } else {
      var more := MembersFound(nums, t4, before + [Pair(key, e)], v, rest);
      members := [m] + more;
      NextMember(nums, m, more, before, v, t, t4, rest);
    }
  }

  // ------------------------------------------------ whole texts

  /** Every text of the grammar, with blanks after it, parses to its value. */
  lemma GrammarParses(nums: Numbers, tree: Tree, tail: Text)
    requires Proper(nums, tree) && Blank(tail)
    ensures Parse(nums, TreeText(tree) + tail) == Got(TreeValue(nums, tree), [])
  {
    assert OpenValue(0);
    EndsTail(tail);
    TreeAccepted(nums, tree, tail);
    SkipBlank(tail, []);
    assert tail + [] == tail;
  }

  lemma EndsTail(tail: Text)
    requires Blank(tail)
    ensures Ends(tail)
  {
  }

  lemma OpenParse(nums: Numbers, t: Text) returns (v: Value, tail: Text)
    requires Parse(nums, t).Got?
    ensures v == Parse(nums, t).v && ValueRead(nums, t, v, tail) && TokenRead(nums, tail, EOF, [])
  {
    v, tail := ReadValue(nums, t).v, ReadValue(nums, t).t;
  }

  lemma EndFound(nums: Numbers, tail: Text)
    requires TokenRead(nums, tail, EOF, [])
    ensures Blank(tail)
  {
    assert OpenToken(0);
    var space := BlankFound(tail);
    assert space + [] == space;
  }

  /** Every text that parses is one of the grammar, with blanks after it, and has that value. */
  lemma ParsedIsGrammar(nums: Numbers, t: Text) returns (tree: Tree, tail: Text)
    requires Parse(nums, t).Got?
    ensures Proper(nums, tree) && Blank(tail) && t == TreeText(tree) + tail && TreeValue(nums, tree) == Parse(nums, t).v
  {
    var v;
    v, tail := OpenParse(nums, t);
    tree := ValueFound(nums, t, v, tail);
    EndFound(nums, tail);
  }

  /** The text is one of the grammar with the value `v`, followed by blanks. */
  ghost predicate Denotes(nums: Numbers, t: Text, v: Value) {
    exists tree, tail ::
      Proper(nums, tree) && Blank(tail) && t == TreeText(tree) + tail && TreeValue(nums, tree) == v
  }

  /** The parser accepts exactly the texts of the grammar, and gives exactly their values; no text
      has two. */
  lemma ParsesExactly(nums: Numbers, t: Text, v: Value)
    ensures Parse(nums, t) == Got(v, []) <==> Denotes(nums, t, v)
    ensures Parse(nums, t).Got? <==>
            exists tree, tail :: Proper(nums, tree) && Blank(tail) && t == TreeText(tree) + tail
  {
    if Parse(nums, t).Got? {
      var tree, tail := ParsedIsGrammar(nums, t);
      GrammarParses(nums, tree, tail);
    }
    if Denotes(nums, t, v) {
      var tree, tail :|
        Proper(nums, tree) && Blank(tail) && t == TreeText(tree) + tail && TreeValue(nums, tree) == v;
      GrammarParses(nums, tree, tail);
    }
    if exists tree, tail :: Proper(nums, tree) && Blank(tail) && t == TreeText(tree) + tail {
      var tree, tail :| Proper(nums, tree) && Blank(tail) && t == TreeText(tree) + tail;
      GrammarParses(nums, tree, tail);
    }
  }
}
