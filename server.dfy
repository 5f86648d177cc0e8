/**
  `ServerApplicationContext`: the address the server binds, the receive and
  acknowledge loop of its background worker, and the handler that turns each
  reported alert name into a notification.

  The socket is abstracted into what each non-blocking receive returns, and the
  worker's cancellation flag into its value at the top of each iteration.
 */
module ServerApplication {
  import opened Wrappers
  import opened Alerts

  /** The address bound when none was given: port 5555 on every interface. */
  const DefaultAddress: string := "tcp://*:5555"

  /** The fixed reply to every request. */
  const Ack: string := "ACK"

  /** The address the constructor settles on. */
  function ServerAddress(configured: string): (r: string)
    ensures r != ""
    ensures configured != "" ==> r == configured
    ensures configured == "" ==> r == DefaultAddress
  {
    if |configured| == 0 then DefaultAddress else configured
  }

  /** What one non-blocking receive returns. */
  datatype Poll =
    | Msg(payload: string)   // a request; `payload` is its first frame as text
    | EAgain                 // nothing pending
    | ETerm                  // the context is shutting down
    | OtherError(code: int)  // any other error number

  /** One iteration's view of the world: the cancellation flag as the loop reads
      it, and what the receive returns if it is reached. */
  datatype Sample = Sample(cancelPending: bool, poll: Poll)

  /** The loop's externally visible actions, in the order they happen. */
  datatype Effect =
    | Report(name: string)    // ReportProgress with the request text
    | Reply(payload: string)  // a frame sent back on the socket

  datatype ServerError = BindFailed | ReceiveFailed(code: int)

  /**
    How the worker ends: `Cancelled` leaves with the cancel flag set,
    `Interrupted` returns without it, `Faulted` throws. `Running` means the
    samples ran out while the loop still runs.
   */
  datatype Outcome = Running | Cancelled | Interrupted | Faulted(error: ServerError)

  datatype Trace = Trace(effects: seq<Effect>, outcome: Outcome)

  /** What one iteration does: go on with some effects, or end the loop. */
  datatype Turn = Continue(effects: seq<Effect>) | Stop(outcome: Outcome)

  function Iterate(x: Sample): Turn {
    if x.cancelPending then Stop(Cancelled)
    else
      match x.poll
      case Msg(s) => Continue([Report(s), Reply(Ack)])
      case ETerm => Stop(Interrupted)
      case EAgain => Continue([])
      case OtherError(c) => Stop(Faulted(ReceiveFailed(c)))
  }

  /** An iteration that goes on reports each name it receives and answers it,
      and does nothing else. */
  lemma IterationExchanges(x: Sample)
    ensures Iterate(x).Continue? ==> Iterate(x).effects == Exchanges(Dispatched(Iterate(x).effects))
  {
    if !x.cancelPending && x.poll.Msg? {
      var s := x.poll.payload;
      var es := [Report(s), Reply(Ack)];
      assert Dispatched(es) == [s] by {
        assert es[1..] == [Reply(Ack)] && es[1..][1..] == [];
        assert Dispatched(es[1..]) == [];
      }
      assert Exchanges([s]) == es by {
        assert [s][1..] == [];
      }
    }
  }

  function Then(effects: seq<Effect>, t: Trace): Trace {
    Trace(effects + t.effects, t.outcome)
  }

  /** The names reported, in order. */
  function Dispatched(es: seq<Effect>): seq<string> {
    if es == [] then []
    else (if es[0].Report? then [es[0].name] else []) + Dispatched(es[1..])
  }

  /** The report-then-acknowledge pairs for the requests `names`, in order. */
  function Exchanges(names: seq<string>): seq<Effect> {
    if names == [] then [] else [Report(names[0]), Reply(Ack)] + Exchanges(names[1..])
  }

  lemma {:induction false} DispatchedAppend(es1: seq<Effect>, es2: seq<Effect>)
    ensures Dispatched(es1 + es2) == Dispatched(es1) + Dispatched(es2)
    decreases |es1|
  {
    if es1 == [] {
      assert es1 + es2 == es2;
    } else {
      assert (es1 + es2)[0] == es1[0] && (es1 + es2)[1..] == es1[1..] + es2;
      DispatchedAppend(es1[1..], es2);
    }
  }

  lemma {:induction false} ExchangesAppend(ns1: seq<string>, ns2: seq<string>)
    ensures Exchanges(ns1 + ns2) == Exchanges(ns1) + Exchanges(ns2)
    decreases |ns1|
  {
    if ns1 == [] {
      assert ns1 + ns2 == ns2;
    } else {
      assert (ns1 + ns2)[0] == ns1[0] && (ns1 + ns2)[1..] == ns1[1..] + ns2;
      ExchangesAppend(ns1[1..], ns2);
    }
  }

  /**
    The loop over the samples. Its log always consists of one report and then
    one "ACK" per request, in arrival order.
   */
  function RunLoop(xs: seq<Sample>): Trace
    decreases |xs|
  {
    if xs == [] then Trace([], Running)
    else
      match Iterate(xs[0])
      case Stop(o) => Trace([], o)
      case Continue(es) => Then(es, RunLoop(xs[1..]))
  }

  /** Whatever the samples, the loop's effects are one report followed by one
      "ACK" per received name, in order, and nothing else. */
  lemma {:induction false} RunLoopExchanges(xs: seq<Sample>)
    ensures RunLoop(xs).effects == Exchanges(Dispatched(RunLoop(xs).effects))
    decreases |xs|
  {
    if xs != [] {
      IterationExchanges(xs[0]);
      match Iterate(xs[0])
      case Stop(o) =>
      case Continue(es) =>
        var rest := RunLoop(xs[1..]);
        RunLoopExchanges(xs[1..]);
        DispatchedAppend(es, rest.effects);
        ExchangesAppend(Dispatched(es), Dispatched(rest.effects));
    }
  }

  /** The worker: bind, then loop. */
  function ServerTrace(bound: bool, xs: seq<Sample>): Trace {
    if bound then RunLoop(xs) else Trace([], Faulted(BindFailed))
  }

  /** The `Server` method of the worker, iteration by iteration. */
  method Server(bound: bool, xs: seq<Sample>) returns (effects: seq<Effect>, outcome: Outcome)
    ensures Trace(effects, outcome) == ServerTrace(bound, xs)
  {
    if !bound {
      return [], Faulted(BindFailed);
    }
    effects := [];
    var k := 0;
    while k < |xs|
      invariant k <= |xs|
      invariant ServerTrace(bound, xs) == Then(effects, RunLoop(xs[k..]))
    {
      var x := xs[k];
      assert RunLoop(xs[k..])
          == if Iterate(x).Stop? then Trace([], Iterate(x).outcome) else Then(Iterate(x).effects, RunLoop(xs[k + 1..])) by {
        assert xs[k..][0] == x && xs[k..][1..] == xs[k + 1..];
      }
      if x.cancelPending {
        return effects, Cancelled;
      }
      match x.poll {
        case Msg(s) =>
          assert Then(effects, Then([Report(s), Reply(Ack)], RunLoop(xs[k + 1..])))
              == Then(effects + [Report(s)] + [Reply(Ack)], RunLoop(xs[k + 1..])) by {
            assert effects + ([Report(s), Reply(Ack)] + RunLoop(xs[k + 1..]).effects)
                == effects + [Report(s)] + [Reply(Ack)] + RunLoop(xs[k + 1..]).effects;
          }
          effects := effects + [Report(s)];
          effects := effects + [Reply(Ack)];
        case EAgain =>
          assert [] + RunLoop(xs[k + 1..]).effects == RunLoop(xs[k + 1..]).effects;
        case ETerm =>
          return effects, Interrupted;
        case OtherError(c) =>
          return effects, Faulted(ReceiveFailed(c));
      }
      k := k + 1;
    }
    assert xs[k..] == [];
    return effects, Running;
  }

  /** What the notification handler does with one reported name. */
  datatype Notice =
    | Shown(message: string, sound: Option<string>)  // balloon shown, sound played if any
    | UnknownAlert(name: string)                     // a warning is traced, nothing shown

  /** `worker_ProgressChanged`: look the name up in the alerts defined at start. */
  function ProgressChanged(alerts: map<string, Alert>, name: string): (n: Notice)
    ensures n.Shown? <==> name in alerts
    ensures n.Shown? ==> n.message == alerts[name].message && n.sound == alerts[name].sound
    ensures n.UnknownAlert? ==> n.name == name
  {
    if name in alerts then Shown(alerts[name].message, alerts[name].sound) else UnknownAlert(name)
  }

  /** The notices for the reported names, one each, in order. */
  function Notices(alerts: map<string, Alert>, names: seq<string>): seq<Notice> {
    seq(|names|, k requires 0 <= k < |names| => ProgressChanged(alerts, names[k]))
  }
}
