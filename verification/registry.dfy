/** The registry of option handlers and its parse pass over `argc`/`argv`. */
module Registry {
  import opened Handlers
  import opened HelpOutput

  /** How a parse pass ends: the help flag was given (the help text is
      shown and the process exits with status 0), a handler raised (the
      message is shown and the process exits with status 1), or normally. */
  datatype Outcome = Help(text: string) | Error(message: string) | Ok

  predicate IsHelpFlag(t: string)
  {
    t == "-h" || t == "--help" || t == "-help"
  }

  predicate HasHelpFlag(q: seq<string>)
  {
    exists j :: 0 <= j < |q| && IsHelpFlag(q[j])
  }

  class Arguments {
    /** The registered handlers, in registration order. */
    var handlers: seq<Handler>
    /** The program's file name, `argv[0]` of the last parse pass. */
    var fileName: string

    constructor ()
      ensures handlers == [] && fileName == ""
    {
      handlers := [];
      fileName := "";
    }

    /** Appends `h`; no deduplication of names takes place. */
    method RegisterHandler(h: Handler)
      modifies this
      ensures handlers == old(handlers) + [h]
      ensures fileName == old(fileName)
    {
      handlers := handlers + [h];
    }

    /** The help text, with the handlers listed in ascending name order
        from a sorted copy; the registered order is left alone. */
    method ShowHelp() returns (text: string)
      ensures text == HelpText(fileName, handlers)
    {
      var sorted := SortByName(handlers);
      var lines := "";
      for i := 0 to |sorted|
        invariant lines == Lines(sorted[..i])
      {
        LinesSnoc(sorted, i);
        lines := lines + HelpLine(sorted[i]);
      }
      assert sorted[..|sorted|] == sorted;
      text := Banner(fileName) + lines + Notes;
    }

    /** Offers the queue to the handlers in registration order and reports
        the first one that does not decline; later handlers are not asked. */
    method OfferFront(q: seq<string>) returns (offered: Offered)
      ensures offered == OfferFrom(handlers, q, 0)
    {
      var i := 0;
      while i < |handlers|
        invariant 0 <= i <= |handlers|
        invariant OfferFrom(handlers, q, 0) == OfferFrom(handlers, q, i)
        decreases |handlers| - i
      {
        match handlers[i].parse(handlers[i].value, q)
        case Declined =>
          i := i + 1;
        case Claimed(v, rest) =>
          return ClaimedBy(i, v, rest);
        case Raised(m) =>
          return FailedAt(i, m);
      }
      return Unclaimed;
    }

    /** The program's file name as captured by the last parse pass. */
    method Filename() returns (name: string)
      ensures name == fileName
    {
      name := fileName;
    }

    /** The tokens after the program name, in order. */
    static method TokenQueue(argc: int, argv: array<string>) returns (q: seq<string>)
      requires 1 <= argc <= argv.Length
      ensures q == argv[1..argc]
    {
      q := [];
      for i := 1 to argc
        invariant q == argv[1..i]
      {
        q := q + [argv[i]];
      }
    }

    /** Whether any token is one of the help flags. */
    static method FindHelpFlag(q: seq<string>) returns (found: bool)
      ensures found <==> HasHelpFlag(q)
    {
      for k := 0 to |q|
        invariant forall j :: 0 <= j < k ==> !IsHelpFlag(q[j])
      {
        if IsHelpFlag(q[k]) {
          return true;
        }
      }
      return false;
    }

    /** Parses `argv[1..argc)`: each front token is offered to the handlers
        in registration order, the first claim wins, and the front token is
        popped. With `removeArgs`, the tokens no handler claimed are written
        back to `argv[1..]` in their original order and the new `argc` is
        returned; otherwise `argc` and `argv` are left as they are. */
    method ParseArguments(argc: int, argv: array<string>, removeArgs: bool := true)
      returns (outcome: Outcome, argc': int)
      requires 1 <= argc <= argv.Length
      modifies this, argv
      ensures fileName == old(argv[0])
      ensures HasHelpFlag(old(argv[1..argc])) ==>
        outcome == Help(HelpText(old(argv[0]), old(handlers))) &&
        handlers == old(handlers) && argc' == argc && argv[..] == old(argv[..])
      ensures !HasHelpFlag(old(argv[1..argc])) ==>
        var run := Rounds(old(handlers), old(argv[1..argc]));
        handlers == run.handlers &&
        outcome == (if run.status.Failed? then Error(run.status.message) else Ok) &&
        (removeArgs ==>
          argc' <= argc &&
          argc' == 1 + |run.unclaimed| &&
          argv[0] == old(argv[0]) &&
          argv[1..argc'] == run.unclaimed &&
          argv[argc'..] == old(argv[argc'..])) &&
        (!removeArgs ==> argc' == argc && argv[..] == old(argv[..]))
    {
      fileName := argv[0];
      var q := TokenQueue(argc, argv);
      var help := FindHelpFlag(q);
      if help {
        var text := ShowHelp();
        outcome := Help(text);
        argc' := argc;
        return;
      }

      outcome, argc' := ConsumeTokens(q, argc, argv, removeArgs);
    }

    /** The parse loop of `ParseArguments` over the token queue `tokens` taken
        from `argv[1..argc)`. With `removeArgs`, `argc` restarts at 1 and
        each unclaimed front token is written back at `argv[argc++]`. */
    method ConsumeTokens(tokens: seq<string>, argc: int, argv: array<string>, removeArgs: bool)
      returns (outcome: Outcome, argc': int)
      requires 1 + |tokens| <= argc <= argv.Length
      modifies this, argv
      ensures fileName == old(fileName)
      ensures var run := Rounds(old(handlers), tokens);
        handlers == run.handlers &&
        outcome == (if run.status.Failed? then Error(run.status.message) else Ok) &&
        (removeArgs ==>
          argc' <= argc &&
          argc' == 1 + |run.unclaimed| &&
          argv[0] == old(argv[0]) &&
          argv[1..argc'] == run.unclaimed &&
          argv[argc'..] == old(argv[argc'..])) &&
        (!removeArgs ==> argc' == argc && argv[..] == old(argv[..]))
    {
      argc' := argc;
      if removeArgs {
        argc' := 1;
      }

      var q := tokens;
      ghost var q0 := q;
      ghost var hs0 := handlers;
      ghost var kept: seq<string> := [];
      while q != []
        invariant fileName == old(fileName)
        invariant Rounds(hs0, q0) == Prefixed(kept, Rounds(handlers, q))
        invariant |kept| + |q| <= |q0|
        invariant removeArgs ==>
          argc' == 1 + |kept| &&
          argv[0] == old(argv[0]) &&
          argv[1..argc'] == kept &&
          argv[argc'..] == old(argv[argc'..])
        invariant !removeArgs ==> argc' == argc && argv[..] == old(argv[..])
        decreases |q|
      {
        var offered := OfferFront(q);
        match offered
        case Unclaimed =>
          RoundsUnclaimed(handlers, q);
          PrefixedTwice(kept, [q[0]], Rounds(handlers, q[1..]));
          if removeArgs {
            argv[argc'] := q[0];
            argc' := argc' + 1;
          }
          kept := kept + [q[0]];
          q := q[1..];
        case ClaimedBy(k, v, rest) =>
          RoundsClaimed(handlers, q, k, v, rest);
          SubseqLength(rest[1..], q[1..]);
          handlers := handlers[k := handlers[k].(value := v)];
          q := rest[1..];
        case FailedAt(k, m) =>
          RoundsFailed(handlers, q, k, m);
          assert kept + [] == kept;
          outcome := Error(m);
          return;
      }
      outcome := Ok;
    }
  }
}
