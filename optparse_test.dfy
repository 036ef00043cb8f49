/** Client scenarios for the parser, driven only through its contracts */
module OptParseTest {
  import opened OptParse

  /** The callback `test` of the test module */
  const TestCallback: HandlerId := 0

  /** Register `-test`, then parse ["binary", "-test", "test"] with count 3:
      one call of the `-test` handler on "test", and success. */
  method TestParsing() returns (r: ParseResult)
    ensures r == Ok([Invocation(TestCallback, "test")])
  {
    var parser := new Parser("test");
    parser.Register("-test", "test", TestCallback);
    var args := ["binary", "-test", "test"];
    r := parser.Parse(args, 3);
    ParseDispatchesEveryPair(parser.argmap, args, 3);
  }

  /** An unbalanced count and an unknown flag both fail before any call;
      an unbalanced count is reported even when `args` is shorter than the
      count; flags are matched exactly, so "-Test" is not "-test". */
  method TestRejections()
    returns (odd: ParseResult, short: ParseResult, unknown: ParseResult, caseChanged: ParseResult)
    ensures odd == Err(InvalidLength(1))
    ensures short == Err(InvalidLength(1))
    ensures unknown == Err(UnknownFlag("-unknown", []))
    ensures caseChanged == Err(UnknownFlag("-Test", []))
  {
    var empty := new Parser("test");
    odd := empty.Parse(["binary", "-test"], 2);
    short := empty.Parse(["binary"], 2);
    unknown := empty.Parse(["binary", "-unknown", "x"], 3);
    var parser := new Parser("test");
    parser.Register("-test", "test", TestCallback);
    caseChanged := parser.Parse(["binary", "-Test", "x"], 3);
  }

  /** A second registration of a flag replaces the first, for every later
      parse; pairs run left to right and stop at the first unknown flag. */
  method TestReRegistration(first: HandlerId, second: HandlerId, other: HandlerId)
    returns (r: ParseResult, stopped: ParseResult)
    ensures r == Ok([Invocation(second, "a"), Invocation(other, "b")])
    ensures stopped == Err(UnknownFlag("-z", [Invocation(second, "a")]))
  {
    var parser := new Parser("demo");
    parser.Register("-x", "first", first);
    parser.Register("-y", "other", other);
    parser.Register("-x", "second", second);
    var args := ["prog", "-x", "a", "-y", "b"];
    r := parser.Parse(args, 5);
    ParseDispatchesEveryPair(parser.argmap, args, 5);
    var bad := ["prog", "-x", "a", "-z", "c", "-y", "d"];
    stopped := parser.Parse(bad, 7);
    ParseAbortsAtFirstUnknown(parser.argmap, bad, 7, 1);
  }
}
