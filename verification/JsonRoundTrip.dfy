/** The printer and the parser together. */
module JsonRoundTrip {
  import opened JsonText
  import opened JsonSpec
  import opened JsonLaws
  import opened JsonParser
  import opened JsonPrinter
  import opened JsonTrees

  /** The parser accepts the texts of the grammar, and no others, with their values. */
  method Recognise(nums: Numbers, t: Text) returns (r: Result<Value>)
    ensures r.Ok? ==> Denotes(nums, t, r.value)
    ensures r.Err? ==> forall v :: !Denotes(nums, t, v)
  {
    var parser := new Parser(nums, t);
    r := parser.ParseText();
    if r.Ok? {
      ParsesExactly(nums, t, r.value);
    } else {
      forall v ensures !Denotes(nums, t, v) {
        ParsesExactly(nums, t, v);
      }
    }
  }

  /** Print a value and parse the text: the value is back exactly when it is fine. */
  method Reparse(nums: Numbers, options: Options, v: Value) returns (r: Result<Value>)
    requires Conforming(nums)
    ensures r == Ok(v) <==> Fine(nums, options.escape, v)
  {
    var printer := new Printer(nums, options);
    printer.Write(v);
    assert [] + Print(nums, options, v) == Print(nums, options, v);
    var parser := new Parser(nums, printer.out);
    r := parser.ParseText();
    RoundTrip(nums, options, v);
  }
}
