/** A worked example of the parse pass with two illustrative handlers: an
    integer option `count` that claims a token `--count=VALUE`, and a
    boolean option `verbose` that claims the token `--verbose`. Their
    matching is deliberately simpler than the library's full token grammar;
    they only serve to exercise the registry's protocol. */
module Examples {
  import opened StringUtils
  import opened Handlers
  import opened HelpOutput
  import opened Registry

  /** Claims a front token `--name=VALUE`, taking VALUE as the new value. */
  function AssignForm(name: string): ParseFn
  {
    SubseqReflAll();
    (v: string, q: seq<string>) =>
      if q != [] && BeginsWith("--" + name + "=", q[0])
      then Claimed(q[0][|name| + 3..], q)
      else Declined
  }

  /** Claims a front token `--name`, setting the value to "true". */
  function FlagForm(name: string): ParseFn
  {
    SubseqReflAll();
    (v: string, q: seq<string>) =>
      if q != [] && q[0] == "--" + name then Claimed("true", q) else Declined
  }

  function Count(): Handler
  {
    Handler("count", "INT", "0", "how many", "0", AssignForm("count"))
  }

  function Verbose(): Handler
  {
    Handler("verbose", "BOOLEAN", "false", "talk more", "false", FlagForm("verbose"))
  }

  lemma CountTakesAssignment(v: string, q: seq<string>)
    requires q != [] && q[0] == "--count=5"
    ensures Count().parse(v, q) == Claimed("5", q)
  {
    assert q[0][..8] == "--count=";
    assert q[0][8..] == "5";
  }

  lemma CountIgnores(v: string, q: seq<string>)
    requires q != [] && (q[0] == "--verbose" || q[0] == "extra")
    ensures Count().parse(v, q) == Declined
  {
    assert q[0][0] == '-' ==> q[0][2] != "--count="[2];
  }

  lemma VerboseTakesFlag(v: string, q: seq<string>)
    requires q != [] && q[0] == "--verbose"
    ensures Verbose().parse(v, q) == Claimed("true", q)
  {
  }

  lemma VerboseIgnores(v: string, q: seq<string>)
    requires q != [] && q[0] == "extra"
    ensures Verbose().parse(v, q) == Declined
  {
    assert q[0][0] != "--verbose"[0];
  }

  /** Round one: `count` claims `--count=5`. */
  lemma FirstRound()
    ensures Rounds([Count(), Verbose()], ["--count=5", "--verbose", "extra"])
      == Rounds([Count().(value := "5"), Verbose()], ["--verbose", "extra"])
  {
    var hs := [Count(), Verbose()];
    var q := ["--count=5", "--verbose", "extra"];
    CountTakesAssignment(hs[0].value, q);
    assert OfferFrom(hs, q, 0) == ClaimedBy(0, "5", q);
    RoundsClaimed(hs, q, 0, "5", q);
    assert hs[0 := hs[0].(value := "5")] == [Count().(value := "5"), Verbose()];
    assert q[1..] == ["--verbose", "extra"];
  }

  /** Round two: `count` declines `--verbose`, and `verbose` claims it. */
  lemma SecondRound()
    ensures Rounds([Count().(value := "5"), Verbose()], ["--verbose", "extra"])
      == Rounds([Count().(value := "5"), Verbose().(value := "true")], ["extra"])
  {
    var hs := [Count().(value := "5"), Verbose()];
    var q := ["--verbose", "extra"];
    CountIgnores(hs[0].value, q);
    VerboseTakesFlag(hs[1].value, q);
    assert OfferFrom(hs, q, 0) == ClaimedBy(1, "true", q);
    RoundsClaimed(hs, q, 1, "true", q);
    assert hs[1 := hs[1].(value := "true")]
      == [Count().(value := "5"), Verbose().(value := "true")];
    assert q[1..] == ["extra"];
  }

  /** Round three: nobody claims `extra`, which is kept. */
  lemma ThirdRound()
    ensures Rounds([Count().(value := "5"), Verbose().(value := "true")], ["extra"])
      == Run([Count().(value := "5"), Verbose().(value := "true")], ["extra"], Completed)
  {
    var hs := [Count().(value := "5"), Verbose().(value := "true")];
    var q := ["extra"];
    CountIgnores(hs[0].value, q);
    VerboseIgnores(hs[1].value, q);
    assert OfferFrom(hs, q, 0) == Unclaimed;
    RoundsUnclaimed(hs, q);
    assert q[1..] == [];
  }

  /** `--count=5 --verbose extra`: both options are set and only `extra`
      is left over. */
  lemma CountVerboseExtra()
    ensures Rounds([Count(), Verbose()], ["--count=5", "--verbose", "extra"])
      == Run([Count().(value := "5"), Verbose().(value := "true")], ["extra"], Completed)
  {
    FirstRound();
    SecondRound();
    ThirdRound();
  }

  /** The help text lists `count` before `verbose` whatever the
      registration order. */
  lemma HelpListsCountFirst()
    ensures SortByName([Verbose(), Count()]) == [Count(), Verbose()]
  {
    assert Less("count", "verbose");
    var s1 := SortByName([Count()]);
    assert [Verbose(), Count()][1..] == [Count()];
    assert s1 == [Count()];
  }

  /** The same example through the registry object and an `argv` array. */
  method ParseCountVerboseExtra()
  {
    var args := new Arguments();
    args.RegisterHandler(Count());
    args.RegisterHandler(Verbose());
    var argv := new string[4]["prog", "--count=5", "--verbose", "extra"];
    assert args.handlers == [Count(), Verbose()];
    ghost var tokens := argv[1..4];
    assert tokens == ["--count=5", "--verbose", "extra"];
    assert !IsHelpFlag(tokens[0]) && !IsHelpFlag(tokens[1]) && !IsHelpFlag(tokens[2]);
    assert !HasHelpFlag(tokens);
    CountVerboseExtra();
    var outcome, argc := args.ParseArguments(4, argv);
    assert outcome == Ok && argc == 2;
    assert argv[1..2] == ["extra"];
    assert argv[0] == "prog";
    assert args.handlers[0].value == "5" && args.handlers[1].value == "true";
  }

  /** A help flag anywhere stops the pass before any handler is consulted. */
  method ParseWithHelpFlag()
  {
    var args := new Arguments();
    args.RegisterHandler(Verbose());
    args.RegisterHandler(Count());
    var argv := new string[3]["prog", "--count=5", "-help"];
    ghost var registered := args.handlers;
    assert IsHelpFlag(argv[1..3][1]);
    var outcome, argc := args.ParseArguments(3, argv);
    assert outcome.Help? && argc == 3;
    assert args.handlers == registered;
  }
}
