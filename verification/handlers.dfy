/** Option handlers and the token-consumption protocol of the parse loop.

    A handler is one registered option. Its matching and value conversion
    are abstract: `parse` receives the handler's current value and the whole
    token queue, and either declines the front token, claims it (giving the
    handler's new value and the queue it leaves behind), or raises a parse
    error. The type `ParseFn` enforces the protocol's frame: a claim keeps
    the front token in place (the registry pops it) and may only remove
    tokens after it, never add or reorder any. */
module Handlers {

  /** `s` is obtained from `t` by deleting some elements. */
  ghost predicate IsSubseq(s: seq<string>, t: seq<string>)
    decreases |t|
  {
    if s == [] then true
    else if t == [] then false
    else (s[0] == t[0] && IsSubseq(s[1..], t[1..])) || IsSubseq(s, t[1..])
  }

  lemma {:induction false} SubseqLength(s: seq<string>, t: seq<string>)
    requires IsSubseq(s, t)
    ensures |s| <= |t|
    decreases |t|
  {
    if s != [] {
      if s[0] == t[0] && IsSubseq(s[1..], t[1..]) {
        SubseqLength(s[1..], t[1..]);
      } else {
        SubseqLength(s, t[1..]);
      }
    }
  }

  lemma {:induction false} SubseqRefl(s: seq<string>)
    ensures IsSubseq(s, s)
    decreases |s|
  {
    if s != [] {
      SubseqRefl(s[1..]);
    }
  }

  lemma SubseqReflAll()
    ensures forall s: seq<string> :: IsSubseq(s, s)
  {
    forall s: seq<string> ensures IsSubseq(s, s) {
      SubseqRefl(s);
    }
  }

  lemma {:induction false} SubseqTrans(a: seq<string>, b: seq<string>, c: seq<string>)
    requires IsSubseq(a, b) && IsSubseq(b, c)
    ensures IsSubseq(a, c)
    decreases |c|
  {
    if a != [] {
      if IsSubseq(b, c[1..]) {
        SubseqTrans(a, b, c[1..]);
      } else {
        assert b[0] == c[0] && IsSubseq(b[1..], c[1..]);
        if a[0] == b[0] && IsSubseq(a[1..], b[1..]) {
          SubseqTrans(a[1..], b[1..], c[1..]);
        } else {
          SubseqTrans(a, b[1..], c[1..]);
        }
      }
    }
  }

  /** What a handler's `parse` does with the queue it is offered. */
  datatype Reply =
    | Declined
    | Claimed(value: string, queue: seq<string>)
    | Raised(message: string)

  /** The frame every handler keeps: on a non-empty queue, a claim leaves the
      front token first and keeps a subsequence of the tokens after it. */
  ghost predicate Respects(q: seq<string>, r: Reply)
  {
    q != [] && r.Claimed? ==>
      r.queue != [] && r.queue[0] == q[0] && IsSubseq(r.queue[1..], q[1..])
  }

  type ParseFn = f: (string, seq<string>) -> Reply
    | forall v, q :: Respects(q, f(v, q))
    witness (v: string, q: seq<string>) => Declined

  datatype Handler = Handler(
    name: string,
    typeName: string,
    defaultValue: string,
    description: string,
    value: string,
    parse: ParseFn)

  /** Offers queue `q` to handler `h` in its current state. */
  function Offer(h: Handler, q: seq<string>): Reply
  {
    h.parse(h.value, q)
  }

  /** `a` holds the same handlers as `b`, in the same order; only their
      current values may differ. */
  ghost predicate SameHandlers(a: seq<Handler>, b: seq<Handler>)
  {
    |a| == |b| && forall i :: 0 <= i < |a| ==> a[i].(value := b[i].value) == b[i]
  }

  /** Which handler, if any, takes the front token. */
  datatype Offered =
    | Unclaimed
    | ClaimedBy(index: nat, value: string, queue: seq<string>)
    | FailedAt(index: nat, message: string)

  /** Offers `q` to handlers `hs[i..]` in insertion order: the first one that
      does not decline decides, and none after it is consulted. */
  function OfferFrom(hs: seq<Handler>, q: seq<string>, i: nat): (r: Offered)
    requires i <= |hs|
    ensures r.Unclaimed? <==> forall j :: i <= j < |hs| ==> Offer(hs[j], q).Declined?
    ensures !r.Unclaimed? ==>
      i <= r.index < |hs| &&
      (forall j :: i <= j < r.index ==> Offer(hs[j], q).Declined?) &&
      (r.ClaimedBy? ==> Offer(hs[r.index], q) == Claimed(r.value, r.queue)) &&
      (r.FailedAt? ==> Offer(hs[r.index], q) == Raised(r.message))
    decreases |hs| - i
  {
    if i == |hs| then Unclaimed
    else match Offer(hs[i], q)
      case Declined => OfferFrom(hs, q, i + 1)
      case Claimed(v, rest) => ClaimedBy(i, v, rest)
      case Raised(m) => FailedAt(i, m)
  }

  /** The outcome of one round of the parse loop. */
  datatype Step =
    | Next(handlers: seq<Handler>, kept: seq<string>, rest: seq<string>)
    | Stop(handlers: seq<Handler>, message: string)

  /** One round: the front token is offered to every handler; a claiming
      handler takes its new value, an unclaimed front token is kept, and
      the front is popped. Each round shortens the queue. */
  function Round(hs: seq<Handler>, q: seq<string>): (r: Step)
    requires q != []
    ensures r.Next? ==> |r.rest| < |q|
  {
    match OfferFrom(hs, q, 0)
    case Unclaimed => Next(hs, [q[0]], q[1..])
    case ClaimedBy(k, v, rest) =>
      assert Respects(q, Offer(hs[k], q));
      SubseqLength(rest[1..], q[1..]);
      Next(hs[k := hs[k].(value := v)], [], rest[1..])
    case FailedAt(_, m) => Stop(hs, m)
  }

  /** A round keeps the handlers and their order, keeps the front token
      exactly when no handler claims it, and leaves a subsequence of the
      tokens after the front. */
  lemma RoundFrame(hs: seq<Handler>, q: seq<string>)
    requires q != []
    ensures var r := Round(hs, q);
      SameHandlers(r.handlers, hs) &&
      (r.Stop? <==> OfferFrom(hs, q, 0).FailedAt?) &&
      (r.Next? ==> IsSubseq(r.rest, q[1..])) &&
      (r.Next? ==> (r.kept == [q[0]] <==> OfferFrom(hs, q, 0).Unclaimed?)) &&
      (r.Next? ==> (r.kept == [] <==> OfferFrom(hs, q, 0).ClaimedBy?)) &&
      (OfferFrom(hs, q, 0).ClaimedBy? ==>
        var o := OfferFrom(hs, q, 0);
        r.handlers[o.index].value == o.value &&
        forall j :: 0 <= j < |hs| && j != o.index ==> r.handlers[j] == hs[j]) &&
      (!OfferFrom(hs, q, 0).ClaimedBy? ==> r.handlers == hs)
  {
    match OfferFrom(hs, q, 0)
    case Unclaimed => SubseqRefl(q[1..]);
    case ClaimedBy(k, v, rest) => assert Respects(q, Offer(hs[k], q));
    case FailedAt(_, _) =>
  }

  datatype Status = Completed | Failed(message: string)

  /** The result of the whole parse loop: the handlers' final state, the
      tokens no handler claimed (in order) and whether a handler raised. */
  datatype Run = Run(handlers: seq<Handler>, unclaimed: seq<string>, status: Status)

  function Prefixed(kept: seq<string>, r: Run): Run
  {
    r.(unclaimed := kept + r.unclaimed)
  }

  lemma PrefixedTwice(a: seq<string>, b: seq<string>, r: Run)
    ensures Prefixed(a, Prefixed(b, r)) == Prefixed(a + b, r)
  {
    assert a + (b + r.unclaimed) == (a + b) + r.unclaimed;
  }

  /** The parse loop: rounds until the queue is empty or a handler raises. */
  function Rounds(hs: seq<Handler>, q: seq<string>): Run
    decreases |q|
  {
    if q == [] then Run(hs, [], Completed)
    else match Round(hs, q)
      case Next(hs', kept, rest) => Prefixed(kept, Rounds(hs', rest))
      case Stop(hs', m) => Run(hs', [], Failed(m))
  }

  /** The tokens no handler claimed are a subsequence of the queue: they keep
      their original relative order, and there are at most as many. */
  lemma {:induction false} RoundsKeepOrder(hs: seq<Handler>, q: seq<string>)
    ensures IsSubseq(Rounds(hs, q).unclaimed, q)
    ensures |Rounds(hs, q).unclaimed| <= |q|
    decreases |q|
  {
    var r := Rounds(hs, q);
    if q != [] {
      RoundFrame(hs, q);
      match Round(hs, q)
      case Next(hs', kept, rest) =>
        var r' := Rounds(hs', rest);
        RoundsKeepOrder(hs', rest);
        SubseqTrans(r'.unclaimed, rest, q[1..]);
        if kept == [] {
          assert r.unclaimed == r'.unclaimed;
          assert IsSubseq(r.unclaimed, q[1..]);
        } else {
          assert r.unclaimed[1..] == r'.unclaimed;
        }
      case Stop(_, _) =>
    }
    SubseqLength(r.unclaimed, q);
  }

  /** When every handler declines every token, all tokens are kept, in
      order, and no handler changes. */
  lemma {:induction false} RoundsAllDeclined(hs: seq<Handler>, q: seq<string>)
    requires forall j, v, t :: 0 <= j < |hs| ==> hs[j].parse(v, t).Declined?
    ensures Rounds(hs, q) == Run(hs, q, Completed)
    decreases |q|
  {
    if q != [] {
      assert OfferFrom(hs, q, 0).Unclaimed?;
      RoundsAllDeclined(hs, q[1..]);
      assert [q[0]] + q[1..] == q;
    }
  }

  /** The parse loop keeps the registered handlers and their order; only
      their current values change. */
  lemma {:induction false} RoundsKeepHandlers(hs: seq<Handler>, q: seq<string>)
    ensures SameHandlers(Rounds(hs, q).handlers, hs)
    decreases |q|
  {
    if q != [] {
      RoundFrame(hs, q);
      match Round(hs, q)
      case Next(hs', _, rest) =>
        RoundsKeepHandlers(hs', rest);
      case Stop(_, _) =>
    }
  }

  /** Unfolding the parse loop by one round, for each way the round ends. */
  lemma RoundsUnclaimed(hs: seq<Handler>, q: seq<string>)
    requires q != [] && OfferFrom(hs, q, 0).Unclaimed?
    ensures Rounds(hs, q) == Prefixed([q[0]], Rounds(hs, q[1..]))
  {
  }

  lemma RoundsClaimed(hs: seq<Handler>, q: seq<string>, k: nat, v: string, rest: seq<string>)
    requires q != [] && OfferFrom(hs, q, 0) == ClaimedBy(k, v, rest)
    ensures k < |hs| && rest != []
    ensures Rounds(hs, q) == Rounds(hs[k := hs[k].(value := v)], rest[1..])
  {
    assert Respects(q, Offer(hs[k], q));
    var r := Rounds(hs[k := hs[k].(value := v)], rest[1..]);
    assert [] + r.unclaimed == r.unclaimed;
  }

  lemma RoundsFailed(hs: seq<Handler>, q: seq<string>, k: nat, m: string)
    requires q != [] && OfferFrom(hs, q, 0) == FailedAt(k, m)
    ensures Rounds(hs, q) == Run(hs, [], Failed(m))
  {
  }
}
