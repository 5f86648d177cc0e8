/**
  Properties of the worker loop of `ServerApplicationContext`, and of the
  whole program from arguments to notifications.
 */
module ServerProperties {
  import opened Wrappers
  import opened Alerts
  import opened ServerApplication

  /** An iteration that ends the loop: cancellation, or a receive error other than EAGAIN. */
  predicate Stops(x: Sample) {
    x.cancelPending || x.poll.ETerm? || x.poll.OtherError?
  }

  /** How the loop ends at a stopping iteration. */
  function Verdict(x: Sample): Outcome
    requires Stops(x)
  {
    if x.cancelPending then Cancelled
    else if x.poll.ETerm? then Interrupted
    else Faulted(ReceiveFailed(x.poll.code))
  }

  /** The requests received in the samples, in order. */
  function Received(xs: seq<Sample>): seq<string> {
    if xs == [] then []
    else (if !xs[0].cancelPending && xs[0].poll.Msg? then [xs[0].poll.payload] else []) + Received(xs[1..])
  }

  /**
    The loop, described without iterating: it runs up to the first stopping
    sample `k`; it reports and acknowledges every request received before
    `k`, in order; and it ends as that sample says, or is still running if no
    sample stops it.
   */
  lemma {:induction false} LoopMatchesReference(xs: seq<Sample>, k: nat)
    requires k <= |xs|
    requires forall j | 0 <= j < k :: !Stops(xs[j])
    requires k < |xs| ==> Stops(xs[k])
    ensures RunLoop(xs) == Trace(Exchanges(Received(xs[..k])), if k == |xs| then Running else Verdict(xs[k]))
    decreases k
  {
    if k == 0 {
      assert xs[..k] == [];
    } else {
      var x := xs[0];
      assert !Stops(x);
      assert forall j | 0 <= j < k - 1 :: xs[1..][j] == xs[j + 1];
      LoopMatchesReference(xs[1..], k - 1);
      assert xs[..k][0] == x && xs[..k][1..] == xs[1..][..k - 1];
      if x.poll.Msg? {
        assert Received(xs[..k]) == [x.poll.payload] + Received(xs[1..][..k - 1]);
        var ns := Received(xs[1..][..k - 1]);
        assert ([x.poll.payload] + ns)[0] == x.poll.payload && ([x.poll.payload] + ns)[1..] == ns;
      } else {
        assert Received(xs[..k]) == Received(xs[1..][..k - 1]);
      }
    }
  }

  /**
    One report and then one "ACK" per request: the log's even positions are the
    reported names in order, and each is followed by the acknowledgement.
   */
  lemma {:induction false} ExchangesAt(ns: seq<string>)
    ensures |Exchanges(ns)| == 2 * |ns|
    ensures forall j | 0 <= j < |ns| :: Exchanges(ns)[2 * j] == Report(ns[j]) && Exchanges(ns)[2 * j + 1] == Reply(Ack)
    decreases |ns|
  {
    if ns != [] {
      ExchangesAt(ns[1..]);
      var e := Exchanges(ns);
      var rest := Exchanges(ns[1..]);
      assert e == [Report(ns[0]), Reply(Ack)] + rest;
      forall j | 0 < j < |ns| ensures e[2 * j] == Report(ns[j]) && e[2 * j + 1] == Reply(Ack) {
        assert e[2 * j] == rest[2 * (j - 1)] && e[2 * j + 1] == rest[2 * (j - 1) + 1];
        assert ns[1..][j - 1] == ns[j];
      }
    }
  }

  /** Every request received by the worker is reported once and acknowledged
      once with "ACK", right after it is reported, in arrival order. */
  lemma EveryRequestAcknowledged(bound: bool, xs: seq<Sample>)
    ensures var t := ServerTrace(bound, xs); var d := Dispatched(t.effects);
      && |t.effects| == 2 * |d|
      && (forall j | 0 <= j < |d| :: t.effects[2 * j] == Report(d[j]) && t.effects[2 * j + 1] == Reply(Ack))
  {
    var t := ServerTrace(bound, xs);
    if bound {
      RunLoopExchanges(xs);
      ExchangesAt(Dispatched(t.effects));
    }
  }

  /**
    The loop is online: once the first samples have ended it, later ones do
    nothing; otherwise the rest of the run continues from where they left it.
   */
  lemma {:induction false} RunLoopAppend(xs: seq<Sample>, ys: seq<Sample>)
    ensures RunLoop(xs + ys) == if RunLoop(xs).outcome != Running then RunLoop(xs) else Then(RunLoop(xs).effects, RunLoop(ys))
    decreases |xs|
  {
    if xs == [] {
      assert xs + ys == ys;
    } else {
      assert (xs + ys)[0] == xs[0] && (xs + ys)[1..] == xs[1..] + ys;
      RunLoopAppend(xs[1..], ys);
    }
  }

  /**
    Cancellation is checked before the receive: once the loop, still running,
    sees the flag, it ends cancelled, the pending receive outcome `p` is never
    looked at, and nothing after it happens.
   */
  lemma CancelCheckedFirst(xs: seq<Sample>, p: Poll, ys: seq<Sample>)
    requires RunLoop(xs).outcome == Running
    ensures RunLoop(xs + [Sample(true, p)] + ys) == Trace(RunLoop(xs).effects, Cancelled)
  {
    RunLoopAppend(xs, [Sample(true, p)] + ys);
    assert xs + [Sample(true, p)] + ys == xs + ([Sample(true, p)] + ys);
    assert RunLoop([Sample(true, p)] + ys) == Trace([], Cancelled);
  }

  /** The samples without the iterations in which nothing was pending. */
  function DropIdle(xs: seq<Sample>): seq<Sample> {
    if xs == [] then []
    else (if !xs[0].cancelPending && xs[0].poll.EAgain? then [] else [xs[0]]) + DropIdle(xs[1..])
  }

  /** EAGAIN only continues the loop: removing those iterations changes nothing. */
  lemma {:induction false} IdleIterationsInvisible(xs: seq<Sample>)
    ensures RunLoop(DropIdle(xs)) == RunLoop(xs)
    decreases |xs|
  {
    if xs != [] {
      IdleIterationsInvisible(xs[1..]);
      var head := if !xs[0].cancelPending && xs[0].poll.EAgain? then [] else [xs[0]];
      RunLoopAppend(head, DropIdle(xs[1..]));
      if head == [] {
        assert DropIdle(xs) == DropIdle(xs[1..]);
      } else {
        assert [xs[0]][1..] == [];
        assert RunLoop([xs[0]]) == if Iterate(xs[0]).Stop? then Trace([], Iterate(xs[0]).outcome) else Trace(Iterate(xs[0]).effects, Running);
      }
    }
  }

  /**
    Stopping through ETERM does not set the cancel flag, while cancellation
    does; a receive error other than those two is a fault carrying its number.
   */
  lemma HowTheLoopEnds(xs: seq<Sample>, k: nat)
    requires k < |xs|
    requires forall j | 0 <= j < k :: !Stops(xs[j])
    requires Stops(xs[k])
    ensures RunLoop(xs).outcome == Cancelled <==> xs[k].cancelPending
    ensures RunLoop(xs).outcome == Interrupted <==> !xs[k].cancelPending && xs[k].poll == ETerm
    ensures RunLoop(xs).outcome.Faulted? <==> !xs[k].cancelPending && xs[k].poll.OtherError?
    ensures RunLoop(xs).outcome.Faulted? ==> RunLoop(xs).outcome.error == ReceiveFailed(xs[k].poll.code)
  {
    LoopMatchesReference(xs, k);
  }

  lemma DispatchedPair(name: string)
    ensures Dispatched([Report(name), Reply(Ack)]) == [name]
  {
    var pair := [Report(name), Reply(Ack)];
    assert pair[1..] == [Reply(Ack)];
    assert Dispatched([Reply(Ack)]) == [] by {
      assert [Reply(Ack)][1..] == [];
    }
    assert Dispatched(pair) == [name] + Dispatched(pair[1..]);
  }

  lemma NoticesAppend(alerts: map<string, Alert>, ns1: seq<string>, ns2: seq<string>)
    ensures Notices(alerts, ns1 + ns2) == Notices(alerts, ns1) + Notices(alerts, ns2)
  {
    var l, r := Notices(alerts, ns1 + ns2), Notices(alerts, ns1) + Notices(alerts, ns2);
    assert |l| == |r|;
    forall j | 0 <= j < |l| ensures l[j] == r[j] {
      if j < |ns1| {
        assert (ns1 + ns2)[j] == ns1[j];
      } else {
        assert (ns1 + ns2)[j] == ns2[j - |ns1|];
      }
    }
  }

  /** Reading the names back from their exchanges gives the names. */
  lemma {:induction false} DispatchedExchanges(ns: seq<string>)
    ensures Dispatched(Exchanges(ns)) == ns
    decreases |ns|
  {
    if ns != [] {
      DispatchedPair(ns[0]);
      DispatchedAppend([Report(ns[0]), Reply(Ack)], Exchanges(ns[1..]));
      DispatchedExchanges(ns[1..]);
      assert [ns[0]] + ns[1..] == ns;
    }
  }

  /**
    The notifications of a run: the UI thread gets one name per request the
    worker received before the loop stopped, in order, and shows the alert
    exactly for the registered ones; every other name gets only the warning.
   */
  lemma NoticesOfRun(alerts: map<string, Alert>, xs: seq<Sample>, k: nat)
    requires k <= |xs|
    requires forall j | 0 <= j < k :: !Stops(xs[j])
    requires k < |xs| ==> Stops(xs[k])
    ensures var names, ns := Received(xs[..k]), Notices(alerts, Dispatched(RunLoop(xs).effects));
      && |ns| == |names|
      && forall j | 0 <= j < |names| ::
        && (ns[j].Shown? <==> names[j] in alerts)
        && (ns[j].Shown? ==> ns[j].message == alerts[names[j]].message && ns[j].sound == alerts[names[j]].sound)
        && (ns[j].UnknownAlert? ==> ns[j].name == names[j])
  {
    LoopMatchesReference(xs, k);
    DispatchedExchanges(Received(xs[..k]));
  }

  /**
    The names the UI thread gets from a log with one more exchange in it:
    the earlier ones, that request's `ProgressChanged` notice, then the later ones.
   */
  lemma NoticesAround(alerts: map<string, Alert>, before: seq<Effect>, name: string, after: seq<Effect>)
    ensures Notices(alerts, Dispatched(before + [Report(name), Reply(Ack)] + after))
      == Notices(alerts, Dispatched(before)) + [ProgressChanged(alerts, name)] + Notices(alerts, Dispatched(after))
  {
    var pair := [Report(name), Reply(Ack)];
    assert Dispatched(before + pair + after) == Dispatched(before) + [name] + Dispatched(after) by {
      DispatchedPair(name);
      DispatchedAppend(before, pair);
      DispatchedAppend(before + pair, after);
    }
    assert Notices(alerts, [name]) == [ProgressChanged(alerts, name)];
    NoticesAppend(alerts, Dispatched(before), [name]);
    NoticesAppend(alerts, Dispatched(before) + [name], Dispatched(after));
  }

  /**
    A request received while the loop runs, after any samples that left it
    running: it is reported once and answered "ACK" right after what came
    before, the UI thread gets its name between the earlier and the later
    ones, and its notice is what `ProgressChanged` makes of the name,
    registered or not; the loop goes on with the samples after it.
   */
  lemma RequestNotified(alerts: map<string, Alert>, xs: seq<Sample>, name: string, ys: seq<Sample>)
    requires RunLoop(xs).outcome == Running
    ensures var before, after := RunLoop(xs).effects, RunLoop(ys);
      var t := RunLoop(xs + [Sample(false, Msg(name))] + ys);
      && t == Trace(before + [Report(name), Reply(Ack)] + after.effects, after.outcome)
      && Notices(alerts, Dispatched(t.effects))
         == Notices(alerts, Dispatched(before)) + [ProgressChanged(alerts, name)] + Notices(alerts, Dispatched(after.effects))
  {
    var before, after := RunLoop(xs).effects, RunLoop(ys);
    var pair := [Report(name), Reply(Ack)];
    var zs := [Sample(false, Msg(name))] + ys;
    assert RunLoop(xs + zs) == Trace(before + pair + after.effects, after.outcome) by {
      RunLoopAppend(xs, zs);
      assert RunLoop(zs) == Then(pair, after) by {
        assert zs[0] == Sample(false, Msg(name)) && zs[1..] == ys;
      }
      assert before + (pair + after.effects) == before + pair + after.effects;
    }
    assert xs + [Sample(false, Msg(name))] + ys == xs + zs;
    NoticesAround(alerts, before, name, after.effects);
  }
}
