/** The parser: one character and one token of lookahead over a stream of characters. */
module JsonParser {
  import opened JsonText
  import opened JsonStrings
  import opened JsonSpec
  import opened JsonObject

  datatype Result<T> = Ok(value: T) | Err(error: Error)

  /** The end of the text, or the next value. */
  datatype Next = Ended | Next(v: Value)

  datatype Lookahead = NoToken | Peeked(token: Token)

  /** The text that begins with a character already taken from the stream; -1 is the end. */
  function Cur(c: int, t: Text): Text
    requires c < 0x8000_0000
  {
    if c < 0 then [] else [c] + t
  }

  class Parser {
    const nums: Numbers

    /** What the stream still holds, and whether its end was seen. */
    var input: Text
    var inEof: bool
    var nextChar: int

    /** A token that was looked at, and the text from it on. */
    var nextToken: Lookahead
    ghost var mark: Text

    /** The stream just gave `c`. */
    ghost predicate At(c: int)
      reads `input, `inEof
    {
      -1 <= c < 0x8000_0000 && if c < 0 then input == [] && inEof else !inEof
    }

    /** What is left to read, a character that was put back included. */
    ghost function Unread(): Text
      requires nextChar < 0x8000_0000
      reads `input, `nextChar
    {
      if nextChar < 0 then input else [nextChar] + input
    }

    ghost predicate Reading()
      reads `input, `inEof, `nextChar
    {
      -1 <= nextChar < 0x8000_0000 && (inEof ==> input == [] && nextChar < 0)
    }

    constructor (nums: Numbers, input: Text)
      ensures this.nums == nums && Valid() && mark == input
    {
      this.nums, this.input, inEof, nextChar, nextToken, mark := nums, input, false, -1, NoToken, input;
    }

    method GetChar() returns (c: int)
      requires !inEof
      modifies `input, `inEof
      ensures At(c) && Cur(c, input) == old(input) && (c >= 0 ==> input == old(input)[1..])
    {
      if input == [] {
        inEof := true;
        return -1;
      }
      c := input[0];
      input := input[1..];
    }

    // ---------------------------------------------- numbers

    method AppendDigits(c: int, p: Text) returns (c': int, p': Text)
      requires At(c)
      modifies `input, `inEof
      ensures At(c')
      ensures DigitRun(p, Cur(c, old(input))) == Good(p', Cur(c', input))
    {
      c', p' := c, p;
      while ZERO <= c' <= NINE
        invariant At(c')
        invariant DigitRun(p', Cur(c', input)) == DigitRun(p, Cur(c, old(input)))
        decreases |Cur(c', input)|
      {
        p' := p' + [c'];
        assert Cur(c', input)[1..] == input;
        c' := GetChar();
      }
    }

    method ParseSign(c: int) returns (r: Result<int>, p: Text)
      requires At(c) && c >= 0
      modifies `input, `inEof
      ensures r.Err? ==> Sign(Cur(c, old(input))) == Bad(r.error)
      ensures r.Ok? ==> At(r.value)
      ensures r.Ok? ==> Sign(Cur(c, old(input))) == Good(p, Cur(r.value, input))
    {
      assert Cur(c, input)[1..] == input;
      p := [];
      if c == MINUS {
        p := [MINUS];
        var d := GetChar();
        if !(ZERO <= d <= NINE) {
          return Err(JustMinus), p;
        }
        return Ok(d), p;
      }
      r := Ok(c);
    }

    method ParseWhole(c: int, p: Text) returns (r: Result<int>, p': Text)
      requires At(c) && c >= 0
      modifies `input, `inEof
      ensures r.Err? ==> Whole(p, Cur(c, old(input))) == Bad(r.error)
      ensures r.Ok? ==> At(r.value)
      ensures r.Ok? ==> Whole(p, Cur(c, old(input))) == Good(p', Cur(r.value, input))
    {
      assert Cur(c, input)[1..] == input;
      if c == ZERO {
        p' := p + [ZERO];
        var d := GetChar();
        if ZERO <= d <= NINE {
          return Err(LeadingZero), p';
        }
        r := Ok(d);
      } else {
        var d, digits := AppendDigits(c, p);
        r, p' := Ok(d), digits;
      }
    }

    method ParseFraction(c: int, p: Text) returns (r: Result<int>, p': Text)
      requires At(c)
      modifies `input, `inEof
      ensures r.Err? ==> Fraction(p, Cur(c, old(input))) == Bad(r.error)
      ensures r.Ok? ==> At(r.value)
      ensures r.Ok? ==> Fraction(p, Cur(c, old(input))) == Good(p', Cur(r.value, input))
    {
      p' := p;
      if c == POINT {
        assert Cur(c, input)[1..] == input;
        var d := GetChar();
        r, p' := ParseSomeDigits(d, p + [POINT], NoFraction);
      } else {
        r := Ok(c);
      }
    }

    method ParseExponent(c: int, p: Text) returns (r: Result<int>, p': Text)
      requires At(c)
      modifies `input, `inEof
      ensures r.Err? ==> Exponent(p, Cur(c, old(input))) == Bad(r.error)
      ensures r.Ok? ==> At(r.value)
      ensures r.Ok? ==> Exponent(p, Cur(c, old(input))) == Good(p', Cur(r.value, input))
    {
      p' := p;
      if c == LOWER_E || c == UPPER_E {
        ghost var t := Cur(c, input);
        assert t[1..] == input;
        p' := p + [c];
        var d := GetChar();
        if d == PLUS || d == MINUS {
          assert StartsSign(t[1..]) && t[1] == d && t[2..] == input;
          p' := p' + [d];
          d := GetChar();
        } else {
          assert !StartsSign(t[1..]);
        }
        r, p' := ParseSomeDigits(d, p', EmptyExponent);
      } else {
        r := Ok(c);
      }
    }

    method ParseSomeDigits(c: int, p: Text, otherwise: Error) returns (r: Result<int>, p': Text)
      requires At(c)
      modifies `input, `inEof
      ensures r.Err? ==> SomeDigits(p, Cur(c, old(input)), otherwise) == Bad(r.error)
      ensures r.Ok? ==> At(r.value) && SomeDigits(p, Cur(c, old(input)), otherwise) == Good(p', Cur(r.value, input))
    {
      if !(ZERO <= c <= NINE) {
        return Err(otherwise), p;
      }
      var d, digits := AppendDigits(c, p);
      r, p' := Ok(d), digits;
    }

    method UngetChar(c: int)
      requires At(c)
      modifies `nextChar
      ensures Reading() && Unread() == Cur(c, input)
    {
      nextChar := c;
    }

    method ScanDigits(c: int) returns (r: Result<int>, p: Text)
      requires At(c) && c >= 0
      modifies `input, `inEof
      ensures r.Err? ==> ScanNumber(Cur(c, old(input))) == Bad(r.error)
      ensures r.Ok? ==> At(r.value) && ScanNumber(Cur(c, old(input))) == Good(p, Cur(r.value, input))
    {
      r, p := ParseSign(c);
      if r.Err? { return; }
      r, p := ParseWhole(r.value, p);
      if r.Err? { return; }
      r, p := ParseFraction(r.value, p);
      if r.Err? { return; }
      r, p := ParseExponent(r.value, p);
    }
 
    method ParseNumber(c: int) returns (r: Result<Token>)
      requires At(c) && c >= 0
      modifies `input, `inEof, `nextChar
      ensures r.Err? ==> NumberToken(nums, ScanNumber(Cur(c, old(input)))) == BadToken(r.error)
      ensures r.Ok? ==> Reading() && NumberToken(nums, ScanNumber(Cur(c, old(input)))) == OneToken(r.value, Unread())
    {
      var d, p := ScanDigits(c);
      if d.Err? {
        return Err(d.error);
      }
      UngetChar(d.value);
      match nums.strtod(p)
      case Range => r := Err(OutOfRange);
      case Double(x) => r := Ok(Scalar(Number(x)));
    }

    // ---------------------------------------------- names

    /** Names go to a buffer of 16 bytes; what does not fit is an error anyway. */
    method ParseName(c: int) returns (r: Result<Token>)
      requires At(c) && c >= 0
      modifies `input, `inEof, `nextChar
      ensures var run := LetterRun([], Cur(c, old(input)));
              && (r.Err? ==> NameToken(run.p, run.t) == BadToken(r.error))
              && (r.Ok? ==> Reading() && NameToken(run.p, run.t) == OneToken(r.value, Unread()))
    {
      var d, name := c, [];
      ghost var letters: Text := [];
      while LOWER_A <= d <= LOWER_Z
        invariant At(d) && LetterRun(letters, Cur(d, input)) == LetterRun([], Cur(c, old(input)))
        invariant name == if |letters| < 15 then letters else letters[..15]
        decreases |Cur(d, input)|
      {
        if |name| < 15 {
          name := name + [d];
        }
        letters := letters + [d];
        assert Cur(d, input)[1..] == input;
        d := GetChar();
      }
      if |name| >= 15 {
        return Err(InvalidName);
      }
      UngetChar(d);
      if name == NULL_NAME {
        r := Ok(Scalar(Null));
      } else if name == FALSE_NAME {
        r := Ok(Scalar(Bool(false)));
      } else if name == TRUE_NAME {
        r := Ok(Scalar(Bool(true)));
      } else {
        r := Err(InvalidName);
      }
    }

    // ---------------------------------------------- strings

    method ParseHexDigit() returns (r: Result<nat>)
      requires !inEof
      modifies `input, `inEof
      ensures r.Err? ==> r.error == InvalidHex && (old(input) == [] || !IsHex(old(input)[0]))
      ensures r.Ok? ==> !inEof && old(input) != [] && IsHex(old(input)[0])
      ensures r.Ok? ==> r.value == HexValue(old(input)[0]) && input == old(input)[1..]
    {
      var c := GetChar();
      if ZERO <= c <= NINE {
        r := Ok(c - ZERO);
      } else if LOWER_A <= c <= LOWER_F {
        r := Ok(c - LOWER_A + 10);
      } else if UPPER_A <= c <= UPPER_F {
        r := Ok(c - UPPER_A + 10);
      } else {
        r := Err(InvalidHex);
      }
    }

    method ParseHex4() returns (r: Result<nat>)
      requires !inEof
      modifies `input, `inEof
      ensures r.Err? ==> r.error == InvalidHex && ReadHex4(old(input)).BadHex?
      ensures r.Ok? ==> !inEof && ReadHex4(old(input)) == Hex(r.value, input)
    {
      var x := 0;
      ghost var t := input;
      for i := 0 to 4
        invariant !inEof && |t| >= i && input == t[i..]
        invariant (forall j :: 0 <= j < i ==> IsHex(t[j])) && x == HexPrefix(t, i)
      {
        x := x * 16;
        var d := ParseHexDigit();
        if d.Err? {
          return d;
        }
        x := x + d.value;
      }
      HexPrefixIs(t);
      r := Ok(x);
    }

    /** The low surrogate that has to follow the high one. */
    method ParseLow(x: nat) returns (r: Result<Char>)
      requires !inEof && 0xd800 <= x < 0xdc00
      modifies `input, `inEof
      ensures r.Err? ==> ReadLow(x, old(input)) == BadChar(r.error)
      ensures r.Ok? ==> !inEof && ReadLow(x, old(input)) == OneChar(r.value, input)
    {
      var y := 0;
      var c := GetChar();
      if c == BACKSLASH {
        c := GetChar();
        if c == LOWER_U {
          assert old(input)[2..] == input;
          var h := ParseHex4();
          if h.Err? {
            return Err(InvalidHex);
          }
          y := h.value;
        }
      }
      if !(0xdc00 <= y < 0xe000) {
        return Err(MissingLowSurrogate);
      }
      var u := 0x10000 + x % 0x400 * 0x400 + y % 0x400;
      if u > 0xf0000 {
        return Err(EscapedPrivateUse);
      }
      r := Ok(u);
    }

    method ParseUnicode() returns (r: Result<Char>)
      requires !inEof
      modifies `input, `inEof
      ensures r.Err? ==> ReadUnicode(old(input)) == BadChar(r.error)
      ensures r.Ok? ==> !inEof && ReadUnicode(old(input)) == OneChar(r.value, input)
    {
      var h := ParseHex4();
      if h.Err? {
        return Err(InvalidHex);
      }
      var x := h.value;
      if x == 0 {
        r := Err(ZeroByte);
      } else if 0xd800 <= x < 0xf900 {
        if x < 0xdc00 {
          r := ParseLow(x);
        } else if x < 0xe000 {
          r := Err(EscapedSurrogate);
        } else {
          r := Err(EscapedPrivateUse);
        }
      } else {
        r := Ok(x);
      }
    }

    method ParseEscape() returns (r: Result<Char>)
      requires !inEof
      modifies `input, `inEof
      ensures r.Err? ==> ReadEscape(old(input)) == BadChar(r.error)
      ensures r.Ok? ==> !inEof && ReadEscape(old(input)) == OneChar(r.value, input)
    {
      var c := GetChar();
      if c == QUOTE || c == BACKSLASH || c == SLASH {
        r := Ok(c);
      } else if c == 0x62 {
        r := Ok(0x08);
      } else if c == 0x66 {
        r := Ok(0x0c);
      } else if c == 0x6e {
        r := Ok(0x0a);
      } else if c == 0x72 {
        r := Ok(0x0d);
      } else if c == 0x74 {
        r := Ok(0x09);
      } else if c == LOWER_U {
        r := ParseUnicode();
      } else {
        r := Err(InvalidEscape);
      }
    }

    method ParseChar(c: int) returns (r: Result<Char>)
      requires At(c)
      modifies `input, `inEof
      ensures r.Err? ==> ReadChar(Cur(c, old(input))) == BadChar(r.error)
      ensures r.Ok? ==> !inEof && ReadChar(Cur(c, old(input))) == OneChar(r.value, input)
    {
      assert c >= 0 ==> Cur(c, input)[1..] == input;
      if c < 0x20 {
        return Err(if c < 0 || c == 0x0d || c == 0x0a then Unterminated else ControlCharacter);
      }
      if 0xd800 <= c < 0xf900 {
        return Err(if c < 0xe000 then SurrogateCharacter else PrivateUseCharacter);
      }
      if c >= 0xf0000 {
        return Err(if c > 0x10ffff then NonUnicodeCharacter else PrivateUseCharacter);
      }
      if c == BACKSLASH {
        r := ParseEscape();
      } else {
        r := Ok(c);
      }
    }

    method ParseString() returns (r: Result<Token>)
      requires !inEof && nextChar == -1
      modifies `input, `inEof
      ensures r.Err? ==> StringToken(ReadString([], old(input))) == BadToken(r.error)
      ensures r.Ok? ==> Reading() && StringToken(ReadString([], old(input))) == OneToken(r.value, Unread())
    {
      var p: Str := [];
      var c := GetChar();
      while c != QUOTE
        invariant At(c) && ReadString(p, Cur(c, input)) == ReadString([], old(input))
        decreases |Cur(c, input)|
      {
        var u := ParseChar(c);
        if u.Err? {
          return Err(u.error);
        }
        p := p + [u.value];
        c := GetChar();
      }
      assert Cur(c, input)[1..] == input;
      r := Ok(Scalar(String(p)));
    }

    // ---------------------------------------------- tokens

    method SkipBlanks(c: int) returns (c': int)
      requires At(c)
      modifies `input, `inEof
      ensures At(c') && Cur(c', input) == SkipSpace(Cur(c, old(input)))
    {
      c' := c;
      while c' == 0x20 || c' == 0x09 || c' == 0x0a || c' == 0x0d
        invariant At(c') && SkipSpace(Cur(c', input)) == SkipSpace(Cur(c, old(input)))
        decreases |Cur(c', input)|
      {
        assert Cur(c', input)[1..] == input;
        c' := GetChar();
      }
    }

    method ReadPunctuation(c: Char) returns (r: Result<Token>)
      ensures r == match PunctuationToken(c, []) case BadToken(e) => Err(e) case OneToken(token, _) => Ok(token)
    {
      if c == LEFT_BRACKET {
        r := Ok(BeginArray);
      } else if c == RIGHT_BRACKET {
        r := Ok(EndArray);
      } else if c == LEFT_BRACE {
        r := Ok(BeginObject);
      } else if c == RIGHT_BRACE {
        r := Ok(EndObject);
      } else if c == COLON {
        r := Ok(NameSep);
      } else if c == COMMA {
        r := Ok(ValueSep);
      } else if c == POINT {
        r := Err(LeadingPoint);
      } else if c == 0xfeff {
        r := Err(ByteOrderMark);
      } else {
        r := Err(InvalidCharacter);
      }
    }

    /** The token that starts with `c`. */
    method TokenFrom(c: int) returns (r: Result<Token>)
      requires At(c) && nextChar == -1
      modifies `input, `inEof, `nextChar
      ensures r.Err? ==> TokenAt(nums, Cur(c, old(input))) == BadToken(r.error)
      ensures r.Ok? ==> Reading() && TokenAt(nums, Cur(c, old(input))) == OneToken(r.value, Unread())
    {
      assert c >= 0 ==> Cur(c, input)[1..] == input;
      if c < 0 {
        r := Ok(EOF);
      } else if ZERO <= c <= NINE || c == MINUS {
        r := ParseNumber(c);
      } else if LOWER_A <= c <= LOWER_Z {
        r := ParseName(c);
      } else if c == QUOTE {
        r := ParseString();
      } else {
        r := ReadPunctuation(c);
      }
    }

    method FetchToken() returns (r: Result<Token>)
      requires Reading()
      modifies `input, `inEof, `nextChar
      ensures r.Err? ==> ReadToken(nums, old(Unread())) == BadToken(r.error)
      ensures r.Ok? ==> Reading() && ReadToken(nums, old(Unread())) == OneToken(r.value, Unread())
    {
      if inEof {
        return Ok(EOF);
      }
      var c := nextChar;
      if c >= 0 {
        nextChar := -1;
      } else {
        c := GetChar();
      }
      c := SkipBlanks(c);
      r := TokenFrom(c);
    }

    /** The text from the next token on; a token that was looked at is still to come. */
    ghost predicate Valid()
      reads this
    {
      && Reading()
      && (nextToken.NoToken? ==> mark == Unread())
      && (nextToken.Peeked? ==> ReadToken(nums, mark) == OneToken(nextToken.token, Unread()))
    }

    /** Looking at a token does not change the tokens to come. */
    method PeekToken() returns (r: Result<Token>)
      requires Valid()
      modifies `input, `inEof, `nextChar, `nextToken
      ensures r.Err? ==> ReadToken(nums, mark) == BadToken(r.error)
      ensures r.Ok? ==> Valid() && ReadToken(nums, mark).OneToken? && ReadToken(nums, mark).token == r.value
    {
      if nextToken.Peeked? {
        return Ok(nextToken.token);
      }
      r := FetchToken();
      if r.Ok? {
        nextToken := Peeked(r.value);
      }
    }

    method NextToken() returns (r: Result<Token>)
      requires Valid()
      modifies this
      ensures r.Err? ==> ReadToken(nums, old(mark)) == BadToken(r.error)
      ensures r.Ok? ==> Valid() && ReadToken(nums, old(mark)) == OneToken(r.value, mark)
    {
      if nextToken.Peeked? {
        r := Ok(nextToken.token);
        nextToken := NoToken;
      } else {
        r := FetchToken();
      }
      if r.Ok? {
        mark := Unread();
      }
    }

    // ---------------------------------------------- values

    /** What was read, against what the specification says from the text `t` on. */
    ghost predicate Reads(r: Result<Next>, spec: Read)
      reads this
    {
      match r
      case Err(e) => spec == Fail(e)
      case Ok(Ended) => Valid() && spec == End
      case Ok(Next(v)) => Valid() && spec == Got(v, mark)
    }

    method NextValue() returns (r: Result<Next>)
      requires Valid()
      modifies this
      ensures Reads(r, ReadValue(nums, old(mark)))
      decreases |mark|, 0
    {
      var t := NextToken();
      if t.Err? {
        return Err(t.error);
      }
      match t.value
      case EOF => r := Ok(Ended);
      case Scalar(v) => r := Ok(Next(v));
      case BeginArray => r := ParseArray();
      case BeginObject => r := ParseObject();
      case _ => r := Err(Misplaced);
    }

    method ParseArray() returns (r: Result<Next>)
      requires Valid()
      modifies this
      ensures Reads(r, ArrayFrom(nums, old(mark)))
      decreases |mark|, 2
    {
      var first := PeekToken();
      if first.Err? {
        return Err(first.error);
      }
      if first.value.EndArray? {
        var _ := NextToken();
        return Ok(Next(Array([])));
      }
      r := ParseElements();
    }

    method ParseElements() returns (r: Result<Next>)
      requires Valid()
      modifies this
      ensures Reads(r, ReadElements(nums, old(mark), []))
      decreases |mark|, 1
    {
      var elements := [];
      while true
        invariant Valid() && |mark| <= |old(mark)|
        invariant ReadElements(nums, mark, elements) == ReadElements(nums, old(mark), [])
        decreases |mark|
      {
        var v := NextValue();
        if v.Err? {
          return v;
        }
        if v.value.Ended? {
          return Err(UnterminatedArray);
        }
        elements := elements + [v.value.v];
        var t := NextToken();
        if t.Err? {
          return Err(t.error);
        }
        if t.value.EndArray? {
          return Ok(Next(Array(elements)));
        }
        if !t.value.ValueSep? {
          return Err(BracketExpected);
        }
      }
    }

    method ParseObject() returns (r: Result<Next>)
      requires Valid()
      modifies this
      ensures Reads(r, ObjectFrom(nums, old(mark)))
      decreases |mark|, 3
    {
      var first := PeekToken();
      if first.Err? {
        return Err(first.error);
      }
      if first.value.EndObject? {
        var _ := NextToken();
        return Ok(Next(Object([])));
      }
      r := ParsePairs();
    }

    /** A key and the colon after it. */
    method ParseKey() returns (r: Result<Str>)
      requires Valid()
      modifies this
      ensures r.Err? ==> ReadKeyPart(nums, ReadValue(nums, old(mark))) == BadKey(r.error)
      ensures r.Ok? ==> Valid() && ReadKeyPart(nums, ReadValue(nums, old(mark))) == GoodKey(r.value, mark)
      decreases |mark|, 1
    {
      var k := NextValue();
      if k.Err? {
        return Err(k.error);
      }
      if k.value.Ended? {
        return Err(UnterminatedObject);
      }
      if !k.value.v.String? {
        return Err(KeyNotString);
      }
      var t := NextToken();
      if t.Err? {
        return Err(t.error);
      }
      if !t.value.NameSep? {
        return Err(ColonExpected);
      }
      r := Ok(k.value.v.s);
    }

    method ParsePairs() returns (r: Result<Next>)
      requires Valid()
      modifies this
      ensures Reads(r, ReadPairs(nums, old(mark), []))
      decreases |mark|, 2
    {
      var o := new Members();
      while true
        invariant Valid() && |mark| <= |old(mark)| && Distinct(o.pairs)
        invariant ReadPairs(nums, mark, o.pairs) == ReadPairs(nums, old(mark), [])
        decreases |mark|
      {
        var k := ParseKey();
        if k.Err? {
          return Err(k.error);
        }
        var v := NextValue();
        if v.Err? {
          return v;
        }
        if v.value.Ended? {
          return Err(UnterminatedObject);
        }
        var present := o.Get(k.value);
        if present.Found? {
          return Err(KeyAlreadySet);
        }
        o.Set(k.value, Found(v.value.v));
        var t := NextToken();
        if t.Err? {
          return Err(t.error);
        }
        if t.value.EndObject? {
          return Ok(Next(Object(o.pairs)));
        }
        if !t.value.ValueSep? {
          return Err(CommaExpected);
        }
      }
    }

    /** A whole text with one value. */
    method ParseText() returns (r: Result<Value>)
      requires Valid()
      modifies this
      ensures r.Err? ==> Parse(nums, old(mark)) == Fail(r.error)
      ensures r.Ok? ==> Parse(nums, old(mark)) == Got(r.value, [])
    {
      var n := NextValue();
      if n.Err? {
        return Err(n.error);
      }
      if n.value.Ended? {
        return Err(EmptyInput);
      }
      var t := NextToken();
      if t.Err? {
        return Err(t.error);
      }
      if !t.value.EOF? {
        return Err(OnlyOneValue);
      }
      r := Ok(n.value.v);
    }
  }

  function ArrayFrom(nums: Numbers, t: Text): Read {
    var first := ReadToken(nums, t);
    if first.BadToken? then Fail(first.error)
    else if first.token.EndArray? then Got(Array([]), first.t) else ReadElements(nums, t, [])
  }

  function ObjectFrom(nums: Numbers, t: Text): Read {
    var first := ReadToken(nums, t);
    if first.BadToken? then Fail(first.error)
    else if first.token.EndObject? then Got(Object([]), first.t) else ReadPairs(nums, t, [])
  }

  function HexPrefix(t: Text, n: nat): nat
    requires n <= |t| && forall j :: 0 <= j < n ==> IsHex(t[j])
  {
    if n == 0 then 0 else HexPrefix(t, n - 1) * 16 + HexValue(t[n - 1])
  }

  lemma HexPrefixIs(t: Text)
    requires |t| >= 4 && forall j :: 0 <= j < 4 ==> IsHex(t[j])
    ensures ReadHex4(t) == Hex(HexPrefix(t, 4), t[4..])
  {
    assert HexPrefix(t, 1) == HexPrefix(t, 0) * 16 + HexValue(t[0]);
    assert HexPrefix(t, 2) == HexPrefix(t, 1) * 16 + HexValue(t[1]);
    assert HexPrefix(t, 3) == HexPrefix(t, 2) * 16 + HexValue(t[2]);
  }
}
