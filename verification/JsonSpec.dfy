/** JSON values, how they are printed, and how text is read, as functions. */
module JsonSpec {
  import opened JsonText
  import opened JsonStrings

  datatype Value =
    | Null
    | Bool(b: bool)
    | Number(d: real)
    | String(s: Str)
    | Array(elements: seq<Value>)
    | Object(pairs: seq<Pair>)

  datatype Pair = Pair(key: Str, value: Value)

  /** What the C library does with numbers: `strtod`, which may report a number out of range, and
      `printf` with the format for doubles. Finite doubles are reals. */
  datatype Double = Range | Double(d: real)

  datatype Numbers = Numbers(strtod: Text -> Double, format: real -> Text)

  /** Finite doubles are printed as numbers. */
  ghost predicate Conforming(nums: Numbers) { forall d: real :: IsNumber(nums.format(d)) }

  // ------------------------------------------------ tokens

  datatype Token = EOF | Scalar(v: Value) | BeginArray | EndArray | BeginObject | EndObject | NameSep | ValueSep

  datatype TokenScan = BadToken(error: Error) | OneToken(token: Token, t: Text)

  predicate IsSpace(c: Char) { c == 0x20 || c == 0x09 || c == 0x0a || c == 0x0d }

  function SkipSpace(t: Text): (r: Text)
    ensures |r| <= |t| && (r == [] || !IsSpace(r[0]))
  {
    if t != [] && IsSpace(t[0]) then SkipSpace(t[1..]) else t
  }

  const NULL_NAME: Text := [0x6e, 0x75, 0x6c, 0x6c]
  const TRUE_NAME: Text := [0x74, 0x72, 0x75, 0x65]
  const FALSE_NAME: Text := [0x66, 0x61, 0x6c, 0x73, 0x65]

  const LEFT_BRACKET: Char := 0x5b
  const RIGHT_BRACKET: Char := 0x5d
  const LEFT_BRACE: Char := 0x7b
  const RIGHT_BRACE: Char := 0x7d
  const COLON: Char := 0x3a
  const COMMA: Char := 0x2c

  function NumberToken(nums: Numbers, s: Scan): TokenScan {
    match s
    case Bad(e) => BadToken(e)
    case Good(p, t) =>
      match nums.strtod(p)
      case Range => BadToken(OutOfRange)
      case Double(d) => OneToken(Scalar(Number(d)), t)
  }

  function NameToken(name: Text, t: Text): TokenScan {
    if name == NULL_NAME then OneToken(Scalar(Null), t)
    else if name == FALSE_NAME then OneToken(Scalar(Bool(false)), t)
    else if name == TRUE_NAME then OneToken(Scalar(Bool(true)), t)
    else BadToken(InvalidName)
  }

  function StringToken(s: StringScan): TokenScan {
    match s
    case BadString(e) => BadToken(e)
    case GoodString(s, t) => OneToken(Scalar(String(s)), t)
  }

  function PunctuationToken(c: Char, t: Text): TokenScan {
    if c == LEFT_BRACKET then OneToken(BeginArray, t)
    else if c == RIGHT_BRACKET then OneToken(EndArray, t)
    else if c == LEFT_BRACE then OneToken(BeginObject, t)
    else if c == RIGHT_BRACE then OneToken(EndObject, t)
    else if c == COLON then OneToken(NameSep, t)
    else if c == COMMA then OneToken(ValueSep, t)
    else if c == POINT then BadToken(LeadingPoint)
    else if c == 0xfeff then BadToken(ByteOrderMark)
    else BadToken(InvalidCharacter)
  }

  /** The token at the start of a text without leading space. */
  function TokenAt(nums: Numbers, u: Text): (r: TokenScan)
    ensures r.OneToken? ==> if r.token.EOF? then r.t == [] else |r.t| < |u|
  {
    if u == [] then OneToken(EOF, [])
    else if IsDigit(u[0]) || u[0] == MINUS then NumberToken(nums, ScanNumber(u))
    else if IsLetter(u[0]) then NameToken(LetterRun([], u).p, LetterRun([], u).t)
    else if u[0] == QUOTE then StringToken(ReadString([], u[1..]))
    else PunctuationToken(u[0], u[1..])
  }

  function ReadToken(nums: Numbers, t: Text): (r: TokenScan)
    ensures r.OneToken? ==> if r.token.EOF? then r.t == [] else |r.t| < |t|
  {
    TokenAt(nums, SkipSpace(t))
  }

  // ------------------------------------------------ values

  datatype Read = Fail(error: Error) | End | Got(v: Value, t: Text)

  predicate HasKey(pairs: seq<Pair>, key: Str) { exists i :: 0 <= i < |pairs| && pairs[i].key == key }

  ghost predicate Distinct(pairs: seq<Pair>) {
    forall i, j :: 0 <= i < j < |pairs| ==> pairs[i].key != pairs[j].key
  }

  /** The next value. Before an array or an object is read, its first token is looked at. */
  function ReadValue(nums: Numbers, t: Text): (r: Read)
    ensures r.Got? ==> |r.t| < |t|
    decreases |t|, 0
  {
    match ReadToken(nums, t)
    case BadToken(e) => Fail(e)
    case OneToken(token, t1) =>
      match token
      case EOF => End
      case Scalar(v) => Got(v, t1)
      case BeginArray =>
        var first := ReadToken(nums, t1);
        if first.BadToken? then Fail(first.error)
        else if first.token.EndArray? then Got(Array([]), first.t) else ReadElements(nums, t1, [])
      case BeginObject =>
        var first := ReadToken(nums, t1);
        if first.BadToken? then Fail(first.error)
        else if first.token.EndObject? then Got(Object([]), first.t) else ReadPairs(nums, t1, [])
      case _ => Fail(Misplaced)
  }

  /** The rest of an array that has a next element. */
  function ReadElements(nums: Numbers, t: Text, elements: seq<Value>): (r: Read)
    ensures r.Got? ==> |r.t| < |t|
    decreases |t|, 1
  {
    match ReadValue(nums, t)
    case Fail(e) => Fail(e)
    case End => Fail(UnterminatedArray)
    case Got(v, t1) =>
      match ReadToken(nums, t1)
      case BadToken(e) => Fail(e)
      case OneToken(token, t2) =>
        if token.EndArray? then Got(Array(elements + [v]), t2)
        else if token.ValueSep? then ReadElements(nums, t2, elements + [v])
        else Fail(BracketExpected)
  }

  /** A key and the colon after it. */
  datatype ReadKey = BadKey(error: Error) | GoodKey(key: Str, t: Text)

  function ReadKeyPart(nums: Numbers, r: Read): (k: ReadKey)
    ensures k.GoodKey? ==> r.Got? && |k.t| < |r.t|
  {
    match r
    case Fail(e) => BadKey(e)
    case End => BadKey(UnterminatedObject)
    case Got(k, t1) =>
      if !k.String? then BadKey(KeyNotString)
      else match ReadToken(nums, t1)
        case BadToken(e) => BadKey(e)
        case OneToken(token, t2) => if token.NameSep? then GoodKey(k.s, t2) else BadKey(ColonExpected)
  }

  /** The rest of an object that has a next pair. */
  function ReadPairs(nums: Numbers, t: Text, pairs: seq<Pair>): (r: Read)
    ensures r.Got? ==> |r.t| < |t|
    decreases |t|, 1
  {
    match ReadKeyPart(nums, ReadValue(nums, t))
    case BadKey(e) => Fail(e)
    case GoodKey(key, t2) =>
      match ReadValue(nums, t2)
      case Fail(e) => Fail(e)
      case End => Fail(UnterminatedObject)
      case Got(v, t3) =>
        if HasKey(pairs, key) then Fail(KeyAlreadySet)
        else match ReadToken(nums, t3)
          case BadToken(e) => Fail(e)
          case OneToken(token, t4) =>
            if token.EndObject? then Got(Object(pairs + [Pair(key, v)]), t4)
            else if token.ValueSep? then ReadPairs(nums, t4, pairs + [Pair(key, v)])
            else Fail(CommaExpected)
  }

  /** A text with exactly one value. */
  function Parse(nums: Numbers, t: Text): (r: Read)
    ensures !r.End?
  {
    match ReadValue(nums, t)
    case Fail(e) => Fail(e)
    case End => Fail(EmptyInput)
    case Got(v, t1) =>
      match ReadToken(nums, t1)
      case BadToken(e) => Fail(e)
      case OneToken(token, t2) => if token.EOF? then Got(v, t2) else Fail(OnlyOneValue)
  }

  // ------------------------------------------------ printing

  datatype Options = Options(escape: bool, indent: bool)

  function Tabs(depth: nat): Text {
    if depth == 0 then [] else [0x09] + Tabs(depth - 1)
  }

  function Space(o: Options, depth: nat): Text {
    if o.indent then [0x0a] + Tabs(depth) else [0x20]
  }

  function PrintValue(nums: Numbers, o: Options, v: Value, depth: nat): Text
    decreases v
  {
    match v
    case Null => NULL_NAME
    case Bool(b) => if b then TRUE_NAME else FALSE_NAME
    case Number(d) => nums.format(d)
    case String(s) => PrintString(s, o.escape)
    case Array(elements) =>
      if elements == [] then [LEFT_BRACKET, RIGHT_BRACKET]
      else [LEFT_BRACKET] + PrintElements(nums, o, elements, depth)
    case Object(pairs) =>
      if pairs == [] then [LEFT_BRACE, RIGHT_BRACE]
      else [LEFT_BRACE] + PrintPairs(nums, o, pairs, depth)
  }

  /** Elements of an array, up to its closing bracket. */
  function PrintElements(nums: Numbers, o: Options, elements: seq<Value>, depth: nat): Text
    requires elements != []
    decreases elements
  {
    Space(o, depth + 1) + (PrintValue(nums, o, elements[0], depth + 1) +
    if |elements| == 1 then Space(o, depth) + [RIGHT_BRACKET]
    else [COMMA] + PrintElements(nums, o, elements[1..], depth))
  }

  /** Pairs of an object, up to its closing brace. */
  function PrintPairs(nums: Numbers, o: Options, pairs: seq<Pair>, depth: nat): Text
    requires pairs != []
    decreases pairs
  {
    Space(o, depth + 1) + (PrintString(pairs[0].key, o.escape) + ([COLON, 0x20] +
    (PrintValue(nums, o, pairs[0].value, depth + 1) +
    if |pairs| == 1 then Space(o, depth) + [RIGHT_BRACE]
    else [COMMA] + PrintPairs(nums, o, pairs[1..], depth))))
  }

  function Print(nums: Numbers, o: Options, v: Value): Text {
    PrintValue(nums, o, v, 0) + [0x0a]
  }
}
