/** A command-line flag dispatcher: a registry from flag names to callbacks,
    and a parser that walks the argument vector in (flag, value) pairs and
    invokes the callback registered for each flag, left to right.

    Callbacks are foreign closures with arbitrary effects; here each one is an
    opaque identifier, and invoking it is recorded as an `Invocation` in the
    trace that `Parse` returns. The two fatal exits of the original become
    error results. */
module OptParse {

  /** The `u8` that carries the argument count */
  newtype u8 = x: int | 0 <= x < 256

  /** An opaque identifier standing for a user callback `Fn(String)` */
  type HandlerId = nat

  datatype Option<T> = None | Some(value: T)

  /** A registered handler: its callback and its description.
      `Func(f, d)` is the model of `Func::new(f, d)`. */
  datatype Func = Func(closure: HandlerId, description: string)

  /** The registry `argmap`: one handler per flag, keys compared exactly */
  type Registry = map<string, Func>

  /** One call of a callback `handler` on the string `arg`; building one is
      the model of `Parser::execute(arg, handler)`. */
  datatype Invocation = Invocation(handler: HandlerId, arg: string)

  /** The callbacks invoked so far, oldest first */
  type Trace = seq<Invocation>

  /** The two fatal conditions of `parse`. `InvalidLength` carries the number
      of arguments after the program name, as the diagnostic prints it;
      `UnknownFlag` carries the flag and the invocations that had already
      happened when the parser stopped. */
  datatype ParseError =
    | InvalidLength(count: int)
    | UnknownFlag(flag: string, invoked: Trace)

  datatype ParseResult = Ok(trace: Trace) | Err(error: ParseError)

  /** One flag token with the value token that follows it */
  datatype Pair = Pair(flag: string, value: string)

  /** Exact-match lookup of a flag: found exactly when the flag is a key,
      and then the handler stored under it. */
  function ResolveFunc(argmap: Registry, flag: string): (r: Option<Func>)
    ensures r.Some? <==> flag in argmap
    ensures r.Some? ==> r.value == argmap[flag]
  {
    if flag in argmap then Some(argmap[flag]) else None
  }

  /** Registering under `flag` replaces that flag's entry, and no other */
  lemma RegisterThenResolve(argmap: Registry, flag: string, desc: string, f: HandlerId, g: string)
    ensures ResolveFunc(argmap[flag := Func(f, desc)], g)
         == if g == flag then Some(Func(f, desc)) else ResolveFunc(argmap, g)
  {
  }

  /** Two registrations of one flag: the second is the only one visible */
  lemma LastRegistrationWins(argmap: Registry, flag: string,
                             desc1: string, f1: HandlerId, desc2: string, f2: HandlerId)
    ensures argmap[flag := Func(f1, desc1)][flag := Func(f2, desc2)]
         == argmap[flag := Func(f2, desc2)]
    ensures ResolveFunc(argmap[flag := Func(f1, desc1)][flag := Func(f2, desc2)], flag)
         == Some(Func(f2, desc2))
  {
  }

  /** Splits an even-length token list into consecutive (flag, value) pairs */
  function Pairs(tokens: seq<string>): (ps: seq<Pair>)
    requires |tokens| % 2 == 0
    ensures |ps| == |tokens| / 2
    ensures forall k :: 0 <= k < |ps| ==> ps[k] == Pair(tokens[2 * k], tokens[2 * k + 1])
    decreases |tokens|
  {
    if tokens == [] then [] else [Pair(tokens[0], tokens[1])] + Pairs(tokens[2..])
  }

  /** The inverse of `Pairs`: the tokens a pair list was made of */
  function Flatten(ps: seq<Pair>): (tokens: seq<string>)
    ensures |tokens| == 2 * |ps|
  {
    if ps == [] then [] else [ps[0].flag, ps[0].value] + Flatten(ps[1..])
  }

  /** Pair splitting loses no token and invents none */
  lemma {:induction false} FlattenPairs(tokens: seq<string>)
    requires |tokens| % 2 == 0
    ensures Flatten(Pairs(tokens)) == tokens
    decreases |tokens|
  {
    if tokens != [] {
      assert Pairs(tokens)[1..] == Pairs(tokens[2..]);
      FlattenPairs(tokens[2..]);
    }
  }

  /** ... and every pair list is the splitting of its own tokens */
  lemma {:induction false} PairsFlatten(ps: seq<Pair>)
    ensures Pairs(Flatten(ps)) == ps
  {
    if ps != [] {
      assert Flatten(ps)[2..] == Flatten(ps[1..]);
      PairsFlatten(ps[1..]);
    }
  }

  /** The flag and the value of the k-th pair after the program name */
  function FlagAt(args: seq<string>, k: nat): string
    requires 2 * k + 1 < |args|
  {
    args[2 * k + 1]
  }

  function ValueAt(args: seq<string>, k: nat): string
    requires 2 * k + 2 < |args|
  {
    args[2 * k + 2]
  }

  /** Every flag of `ps` has a handler */
  predicate AllRegistered(argmap: Registry, ps: seq<Pair>)
  {
    forall k :: 0 <= k < |ps| ==> ps[k].flag in argmap
  }

  /** The invocations that dispatching a fully registered pair list makes:
      the k-th pair's handler on the k-th pair's value, one per pair. */
  function Calls(argmap: Registry, ps: seq<Pair>): (t: Trace)
    requires AllRegistered(argmap, ps)
    ensures |t| == |ps|
    ensures forall k :: 0 <= k < |ps| ==> t[k] == Invocation(argmap[ps[k].flag].closure, ps[k].value)
  {
    if ps == [] then []
    else [Invocation(argmap[ps[0].flag].closure, ps[0].value)] + Calls(argmap, ps[1..])
  }

  /** The position of the first pair whose flag has no handler, or |ps| */
  function FirstUnknown(argmap: Registry, ps: seq<Pair>): (k: nat)
    ensures k <= |ps|
    ensures AllRegistered(argmap, ps[..k])
    ensures k < |ps| ==> ps[k].flag !in argmap
  {
    if ps == [] || ps[0].flag !in argmap then 0
    else
      var k := 1 + FirstUnknown(argmap, ps[1..]);
      assert ps[..k] == [ps[0]] + ps[1..][..k - 1];
      k
  }

  /** Dispatches the pairs `ps` left to right after the invocations `done`:
      each flag is resolved and its callback invoked on the value; the first
      flag without a handler stops the run. */
  function DispatchFrom(argmap: Registry, ps: seq<Pair>, done: Trace): (r: ParseResult)
    ensures r.Ok? ==> |r.trace| == |done| + |ps| && r.trace[..|done|] == done
    ensures r.Err? ==> r.error.UnknownFlag?
    ensures r.Err? ==> |done| <= |r.error.invoked| < |done| + |ps|
                       && r.error.invoked[..|done|] == done
    decreases |ps|
  {
    if ps == [] then Ok(done)
    else match ResolveFunc(argmap, ps[0].flag)
      case None => Err(UnknownFlag(ps[0].flag, done))
      case Some(func) =>
        DispatchFrom(argmap, ps[1..], done + [Invocation(func.closure, ps[0].value)])
  }

  /** Dispatching pairs whose flags all have handlers succeeds, with every
      pair's call appended in order. */
  lemma {:induction false} DispatchFromAll(argmap: Registry, ps: seq<Pair>, done: Trace)
    requires AllRegistered(argmap, ps)
    ensures DispatchFrom(argmap, ps, done) == Ok(done + Calls(argmap, ps))
    decreases |ps|
  {
    if ps != [] {
      var c := Invocation(argmap[ps[0].flag].closure, ps[0].value);
      assert AllRegistered(argmap, ps[1..]) by {
        forall j | 0 <= j < |ps[1..]| ensures ps[1..][j].flag in argmap {
          assert ps[1..][j] == ps[j + 1];
        }
      }
      DispatchFromAll(argmap, ps[1..], done + [c]);
      assert Calls(argmap, ps) == [c] + Calls(argmap, ps[1..]);
      assert done + [c] + Calls(argmap, ps[1..]) == done + Calls(argmap, ps);
    }
  }

  /** Dispatching stops at pair k when its flag has no handler and all
      earlier flags have one, after exactly the calls of the earlier pairs. */
  lemma {:induction false} DispatchFromStops(argmap: Registry, ps: seq<Pair>, done: Trace, k: nat)
    requires k < |ps|
    requires AllRegistered(argmap, ps[..k])
    requires ps[k].flag !in argmap
    ensures DispatchFrom(argmap, ps, done)
         == Err(UnknownFlag(ps[k].flag, done + Calls(argmap, ps[..k])))
    decreases k
  {
    if k == 0 {
      assert Calls(argmap, ps[..0]) == [];
      assert done + [] == done;
    } else {
      assert ps[..k][0] == ps[0];
      var c := Invocation(argmap[ps[0].flag].closure, ps[0].value);
      var rest := ps[1..];
      assert rest[k - 1] == ps[k];
      assert ps[..k][1..] == rest[..k - 1];
      var before := rest[..k - 1];
      assert AllRegistered(argmap, before) by {
        forall j | 0 <= j < |before| ensures before[j].flag in argmap {
          assert before[j] == ps[..k][j + 1];
        }
      }
      DispatchFromStops(argmap, rest, done + [c], k - 1);
      assert Calls(argmap, ps[..k]) == [c] + Calls(argmap, rest[..k - 1]);
      assert done + [c] + Calls(argmap, rest[..k - 1]) == done + Calls(argmap, ps[..k]);
    }
  }

  /** The meaning of `parse` on a registry: fail on an odd number of
      arguments after the program name, otherwise dispatch the pairs
      (args[1], args[2]), (args[3], args[4]), ... of the first `arglen`
      arguments. An odd count is reported before any argument is read, so
      only a balanced count needs `arglen` arguments. */
  function ParseArgs(argmap: Registry, args: seq<string>, arglen: int): (r: ParseResult)
    requires 1 <= arglen
    requires (arglen - 1) % 2 != 0 || arglen <= |args|
    ensures (r.Err? && r.error.InvalidLength?) <==> (arglen - 1) % 2 != 0
    ensures r.Ok? ==> |r.trace| == (arglen - 1) / 2
    ensures r.Err? && r.error.UnknownFlag? ==> |r.error.invoked| < (arglen - 1) / 2
  {
    if (arglen - 1) % 2 != 0 then Err(InvalidLength(arglen - 1))
    else DispatchFrom(argmap, Pairs(args[1..arglen]), [])
  }

  /** The pairs `parse` reads are the source positions 2k+1 and 2k+2 */
  lemma PairsOfArgs(args: seq<string>, arglen: int, k: nat)
    requires 1 <= arglen <= |args| && (arglen - 1) % 2 == 0
    requires k < (arglen - 1) / 2
    ensures Pairs(args[1..arglen])[k] == Pair(FlagAt(args, k), ValueAt(args, k))
  {
  }

  /** `parse` succeeds exactly when the count is balanced and every flag in
      the pairs has a handler. */
  lemma ParseSucceedsIff(argmap: Registry, args: seq<string>, arglen: int)
    requires 1 <= arglen
    requires (arglen - 1) % 2 != 0 || arglen <= |args|
    ensures ParseArgs(argmap, args, arglen).Ok?
        <==> (arglen - 1) % 2 == 0
             && forall k :: 0 <= k < (arglen - 1) / 2 ==> FlagAt(args, k) in argmap
  {
    if (arglen - 1) % 2 == 0 {
      var ps := Pairs(args[1..arglen]);
      var k := FirstUnknown(argmap, ps);
      if k < |ps| {
        DispatchFromStops(argmap, ps, [], k);
        PairsOfArgs(args, arglen, k);
      } else {
        assert ps[..k] == ps;
        DispatchFromAll(argmap, ps, []);
        forall j | 0 <= j < (arglen - 1) / 2 ensures FlagAt(args, j) in argmap {
          PairsOfArgs(args, arglen, j);
        }
      }
    }
  }

  /** When the count is balanced and every flag has a handler, every pair is
      dispatched once, in order: the k-th call is the handler of args[2k+1]
      on args[2k+2]. */
  lemma ParseDispatchesEveryPair(argmap: Registry, args: seq<string>, arglen: int)
    requires 1 <= arglen <= |args| && (arglen - 1) % 2 == 0
    requires forall k :: 0 <= k < (arglen - 1) / 2 ==> FlagAt(args, k) in argmap
    ensures ParseArgs(argmap, args, arglen).Ok?
    ensures var t := ParseArgs(argmap, args, arglen).trace;
      |t| == (arglen - 1) / 2
      && forall k :: 0 <= k < |t| ==>
           t[k] == Invocation(argmap[FlagAt(args, k)].closure, ValueAt(args, k))
  {
    var ps := Pairs(args[1..arglen]);
    assert AllRegistered(argmap, ps) by {
      forall k | 0 <= k < |ps| ensures ps[k].flag in argmap {
        PairsOfArgs(args, arglen, k);
      }
    }
    DispatchFromAll(argmap, ps, []);
    var t := Calls(argmap, ps);
    assert ParseArgs(argmap, args, arglen) == Ok(t);
    forall k | 0 <= k < |t|
      ensures t[k] == Invocation(argmap[FlagAt(args, k)].closure, ValueAt(args, k))
    {
      PairsOfArgs(args, arglen, k);
    }
  }

  /** When the first pair with an unregistered flag is pair k, `parse` fails
      naming that flag, after the calls of pairs 0..k-1 in order and no
      others. */
  lemma ParseAbortsAtFirstUnknown(argmap: Registry, args: seq<string>, arglen: int, k: nat)
    requires 1 <= arglen <= |args| && (arglen - 1) % 2 == 0
    requires k < (arglen - 1) / 2
    requires forall j :: 0 <= j < k ==> FlagAt(args, j) in argmap
    requires FlagAt(args, k) !in argmap
    ensures var r := ParseArgs(argmap, args, arglen);
      r.Err? && r.error.UnknownFlag? && r.error.flag == FlagAt(args, k)
      && |r.error.invoked| == k
      && forall j :: 0 <= j < k ==>
           r.error.invoked[j] == Invocation(argmap[FlagAt(args, j)].closure, ValueAt(args, j))
  {
    var ps := Pairs(args[1..arglen]);
    forall j | 0 <= j <= k ensures ps[j] == Pair(FlagAt(args, j), ValueAt(args, j)) {
      PairsOfArgs(args, arglen, j);
    }
    assert AllRegistered(argmap, ps[..k]);
    DispatchFromStops(argmap, ps, [], k);
  }

  /** The parser: a registry and a top-level description */
  class Parser {
    var argmap: Registry
    var description: string

    /** An empty registry and the description stored verbatim */
    constructor (desc: string)
      ensures argmap == map[] && description == desc
    {
      argmap := map[];
      description := desc;
    }

    /** Stores the handler under `flag`, replacing any earlier one */
    method Register(flag: string, desc: string, func: HandlerId)
      modifies this
      ensures argmap == old(argmap)[flag := Func(func, desc)]
      ensures argmap.Keys == old(argmap).Keys + {flag}
      ensures description == old(description)
    {
      argmap := argmap[flag := Func(func, desc)];
    }

    /** Checks the count, then for x = 1, 3, 5, ... < arglen resolves
        args[x] and invokes its callback on args[x+1], stopping at the first
        unknown flag. */
    method Parse(args: seq<string>, arglen: u8) returns (r: ParseResult)
      requires 1 <= arglen
      requires (arglen as int - 1) % 2 != 0 || arglen as int <= |args|
      ensures (arglen as int - 1) % 2 != 0 ==> r == Err(InvalidLength(arglen as int - 1))
      ensures r == ParseArgs(argmap, args, arglen as int)
    {
      if (arglen - 1) % 2 != 0 {
        return Err(InvalidLength((arglen - 1) as int));
      }
      ghost var ps := Pairs(args[1..arglen]);
      var trace: Trace := [];
      var x: u8 := 1;
      ghost var k: nat := 0;
      while x < arglen
        invariant x as int == 2 * k + 1 <= arglen as int
        invariant DispatchFrom(argmap, ps[k..], trace) == DispatchFrom(argmap, ps, [])
      {
        var flag := args[x];
        var arg := args[x + 1];
        assert ps[k] == Pair(flag, arg);
        assert ps[k..][1..] == ps[k + 1..];
        match ResolveFunc(argmap, flag) {
          case None =>
            return Err(UnknownFlag(flag, trace));
          case Some(func) =>
            trace := trace + [Invocation(func.closure, arg)];
        }
        x := x + 2;
        k := k + 1;
      }
      return Ok(trace);
    }
  }
}
