# optparse: a verified model of the flag dispatcher

`src/optparse.rs` is a small command-line flag parser. A `Parser` holds a
registry `argmap` from flag names to handlers (`Func`: a callback and a
description) and a top-level description. `register` stores a handler under a
flag, replacing any earlier one. `parse(args, arglen)` rejects an argument
vector whose length after the program name is odd. Otherwise it walks
x = 1, 3, 5, … below `arglen`, resolves `args[x]` in the registry and calls
its callback on `args[x+1]`. An unknown flag stops the run.

This project models that file in Dafny (module `OptParse`, `optparse.dfy`)
plus the file's test scenario (module `OptParseTest`, `optparse_test.dfy`):

- A callback is an opaque `HandlerId`. Calling it is recorded as an
  `Invocation(handler, arg)` appended to a trace. Building that record is
  the model of `Parser::execute`, which applies the callback and nothing else.
- `Func::new(f, d)` is the datatype constructor `Func(f, d)`.
- `Parser` is a class with the fields `argmap: map<string, Func>` and
  `description`. `argmap` is updated in place by `Register`; `description`
  is set once by the constructor.
- `resolve_func` reads only `self.argmap`. It is the function
  `ResolveFunc(argmap, flag)` and returns an `Option`. The process exit on
  a missing flag becomes the `None` case.
- `Parser.Parse` keeps the source's loop over a `u8` index. The loop is
  proved equal to `ParseArgs`, a pure definition. `ParseArgs` checks the
  parity, splits `args[1..arglen]` into `Pairs`, and dispatches them left to
  right with `DispatchFrom`. Both fatal exits become results:
  `Err(InvalidLength(arglen - 1))` and `Err(UnknownFlag(flag, invoked))`.
  `invoked` holds the calls that had already happened.
- The lemmas prove what `ParseArgs` means in terms of source positions:
  - it succeeds exactly when the count is balanced and every flag has a handler;
  - on success the k-th call is the handler of `args[2k+1]` applied to `args[2k+2]`;
  - on the first unknown flag at pair k, exactly the calls of pairs 0..k-1 have happened.

`parse` requires `1 <= arglen`, and `arglen <= |args|` whenever
`arglen - 1` is even. An odd count is reported before any argument is read,
so it needs no such bound (`["binary"]` with count 2 gives the
invalid-length error). Because `arglen` is a `u8`, it is at most 255. With
these bounds, every `args[x]` and `args[x + 1]` the loop reads is in
bounds, and `x + 1` and `x + 2` do not overflow the `u8`. Dafny checks each
of these in `Parse`. The usual caller passes `arglen == |args|`, as the
test does. The code does not need that: arguments past `arglen` are not
read, and the model allows them.

## Model

| member | source | states |
|---|---|---|
| `OptParse.Parser.constructor` | src/optparse.rs:80-85 | a new parser has an empty registry and stores the given description verbatim |
| `OptParse.Parser.Register` | src/optparse.rs:90-92 | the registry afterwards is the old one with `flag` mapped to `Func(func, desc)`; the key set grows by `flag` only; the description is unchanged |
| `OptParse.RegisterThenResolve` | src/optparse.rs:90-92 | after a registration, resolving that flag gives the new handler and resolving any other flag gives what it gave before |
| `OptParse.LastRegistrationWins` | src/optparse.rs:91 | registering a flag twice is the same as registering only the second handler, and resolving it gives the second |
| `OptParse.ResolveFunc` | src/optparse.rs:125-133 | succeeds exactly when the flag is a key of the registry (exact sequence equality, no normalisation) and then returns that key's handler; otherwise fails |
| `OptParse.Pairs` | src/optparse.rs:110-114 | an even-length token list splits into half as many pairs, the k-th pair being (tokens[2k], tokens[2k+1]) |
| `OptParse.FlattenPairs` | src/optparse.rs:110-114 | flattening the pairs gives back exactly the tokens, so each token is read once and by one pair |
| `OptParse.PairsFlatten` | src/optparse.rs:110-114 | every pair list is the splitting of its own flattened tokens |
| `OptParse.PairsOfArgs` | src/optparse.rs:110-114 | the k-th pair of `args[1..arglen]` is (`args[2k+1]`, `args[2k+2]`), the two positions the loop reads |
| `OptParse.Calls` | src/optparse.rs:115-117 | for fully registered pairs, one invocation per pair, the k-th applying the k-th flag's callback to the k-th value |
| `OptParse.FirstUnknown` | src/optparse.rs:128-131 | the first pair whose flag has no handler (or the pair count if none): every earlier flag is registered and this one is not |
| `OptParse.DispatchFrom` | src/optparse.rs:110-119 | the reference definition of the loop, with an accumulator of earlier calls; its own contract says a success adds one call per pair after the earlier ones, and a failure is always an unknown flag whose calls extend the earlier ones by fewer than one per pair; `DispatchFromAll` and `DispatchFromStops` characterise it fully |
| `OptParse.DispatchFromAll` | src/optparse.rs:110-119 | dispatching pairs whose flags are all registered succeeds with every pair's call appended in order |
| `OptParse.DispatchFromStops` | src/optparse.rs:110-118 | dispatching stops at the first unknown flag with an unknown-flag error naming it, after exactly the calls of the pairs before it |
| `OptParse.ParseArgs` | src/optparse.rs:104-120 | the reference definition of `parse`; its own contract says the error is an invalid length exactly when `arglen - 1` is odd, a success has `(arglen - 1) / 2` calls, and an unknown-flag error has fewer; `ParseSucceedsIff`, `ParseDispatchesEveryPair` and `ParseAbortsAtFirstUnknown` characterise it fully |
| `OptParse.ParseSucceedsIff` | src/optparse.rs:104-120 | `parse` succeeds if and only if `arglen - 1` is even and every flag `args[2k+1]` is registered |
| `OptParse.ParseDispatchesEveryPair` | src/optparse.rs:110-119 | when all flags are registered, the trace has one call per pair, and the k-th is the handler of `args[2k+1]` applied to `args[2k+2]` |
| `OptParse.ParseAbortsAtFirstUnknown` | src/optparse.rs:110-131 | when pair k holds the first unregistered flag, `parse` fails naming `args[2k+1]`; the calls of pairs 0..k-1 have happened in order and none for pair k or later |
| `OptParse.Parser.Parse` | src/optparse.rs:104-120 | the loop returns `ParseArgs(argmap, args, arglen)`; for an odd `arglen - 1` that is the invalid-length error carrying `arglen - 1`, with no call made |
| `OptParseTest.TestParsing` | src/optparse.rs:145-151 | after registering `-test`, parsing `["binary", "-test", "test"]` with count 3 succeeds with exactly one call, the `-test` handler on `"test"` |
| `OptParseTest.TestRejections` | src/optparse.rs:106-131 | count 2 gives the invalid-length error with count 1, also when `args` holds only the program name; an unregistered flag gives the unknown-flag error with no calls; `-Test` does not resolve to `-test` |
| `OptParseTest.TestReRegistration` | src/optparse.rs:90-119 | after re-registering `-x`, parsing calls only the second handler, and pairs run left to right; an unknown flag in the middle leaves only the calls before it |

## Left out

- The diagnostics (`eprintln!`) and `std::process::exit(0x0100)` on both error paths are process I/O and termination. They are modelled as error results. The exit status, and its truncation on 8-bit exit codes, is not modelled.
- The bodies of the user callbacks (`Box<dyn Fn(String)>` and the lifetime `'a`) are foreign closures with arbitrary effects. Each one is an opaque handler id, and its calls are recorded as a trace. A later callback seeing an earlier one's effects is captured only as the order of the trace. Every callback is assumed to return normally: a callback that panics or exits ends the run right after its own pair, which the trace cannot show, and the claim that every pair is dispatched (`ParseDispatchesEveryPair`) rests on this assumption.
- The `parse!` and `register!` macros are syntactic wrappers. Their only content is the `u8` type of `arglen` and the `.unwrap()`. The `u8` is the model's `u8` newtype. The unwrap is an `Ok` result.
- `OptParse.Parser.Parse`: `arglen == 0` is excluded by a precondition. In the source, `arglen - 1` underflows there: with overflow checks on (debug and test builds) that is a `u8` panic; in a release build it wraps to 255, and the source reports "Invalid argument length: 255" and exits.
- `OptParse.Parser.Parse`: an even `arglen - 1` with `arglen > |args|` is excluded by a precondition. In the source, it panics on an out-of-range index when the loop reaches the end of `args`, unless an earlier unknown flag has already exited, and except when `arglen == 1` and `args` is empty: the loop then reads nothing and the source returns `Ok(())`. That input is excluded too. An odd `arglen - 1` is admitted whatever `|args|` is, because the source reports it before reading any argument.
- The description strings are stored and replaced but never read, so nothing more is said about them.
