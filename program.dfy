/**
  What `Program.Main` does once the arguments are read: start the server, or
  send one request as a client and turn its outcome into the exit status.
 */
module Program {
  import opened Wrappers
  import opened Alerts
  import opened CommandLine
  import CommandLineProperties

  datatype Refusal = NoAlertName | NoAddress

  datatype Mode =
    | Serve(address: string, alerts: map<string, Alert>)
    | Send(address: string, alert: string)
    | Refuse(reason: Refusal)

  /**
    The mode decision after the loop. Server mode takes the address as given,
    even empty. Client mode needs an alert name, checked first, and then an
    address.
   */
  function Decide(o: Options): (m: Mode)
    ensures m.Serve? <==> o.server
    ensures m.Serve? ==> m.address == o.address && m.alerts == o.alerts
    ensures m.Send? <==> !o.server && o.alert != "" && o.address != ""
    ensures m.Send? ==> m.address == o.address && m.alert == o.alert
    ensures m == Refuse(NoAlertName) <==> !o.server && o.alert == ""
    ensures m == Refuse(NoAddress) <==> !o.server && o.alert != "" && o.address == ""
  {
    if o.server then Serve(o.address, o.alerts)
    else if o.alert == "" then Refuse(NoAlertName)
    else if o.address == "" then Refuse(NoAddress)
    else Send(o.address, o.alert)
  }

  /**
    What the request socket of `Client` observed: a reply within the poll
    timeout, no reply (the poll timed out or failed), or an exception from
    connecting, sending or polling.
   */
  datatype Exchange = Replied(response: string) | NoReply | Threw(reason: string)

  /** The status `Client` returns, or `None` when an exception leaves it. */
  function Client(x: Exchange): (r: Option<int>)
    ensures r == Some(0) <==> x.Replied?
    ensures r == Some(1) <==> x.NoReply?
    ensures r == None <==> x.Threw?
  {
    match x
    case Replied(_) => Some(0)
    case NoReply => Some(1)
    case Threw(_) => None
  }

  /** The outcome of a run of the program. */
  datatype Exit =
    | Status(code: int)
    | Crashed(error: ParseError)
    | Serving(address: string, alerts: map<string, Alert>)

  /**
    `Main` from the arguments to the exit status: handled parse errors and
    refusals give 1, the two uncaught exceptions crash, server mode hands over
    to the server, and client mode returns the client's status, with 1 for an
    exception it catches.
   */
  function ProgramExit(args: seq<string>, load: string -> SoundLoad, x: Exchange): (r: Exit)
    ensures r.Crashed? <==> Parse(args, load).Err? && !Handled(Parse(args, load).error)
    ensures r.Crashed? ==> r.error == Parse(args, load).error
    ensures r.Serving? <==> Parse(args, load).Ok? && Parse(args, load).value.server
    ensures r.Serving? ==> r.address == Parse(args, load).value.address && r.alerts == Parse(args, load).value.alerts
    ensures r == Status(0) <==>
      && Parse(args, load).Ok?
      && !Parse(args, load).value.server
      && Parse(args, load).value.alert != ""
      && Parse(args, load).value.address != ""
      && x.Replied?
    ensures r.Status? ==> r.code == 0 || r.code == 1
  {
    match Parse(args, load)
    case Err(e) => if Handled(e) then Status(1) else Crashed(e)
    case Ok(o) =>
      match Decide(o)
      case Serve(address, alerts) => Serving(address, alerts)
      case Refuse(_) => Status(1)
      case Send(address, alert) =>
        match Client(x)
        case Some(code) => Status(code)
        case None => Status(1)
  }

  /**
    The request a client sends carries the last bare argument read, and goes to
    the operand of the last `--address` read (`Parse(args)` is this with
    `lx == Lex(args)`).
   */
  lemma RequestCarriesLastNames(lx: Lexed, load: string -> SoundLoad)
    requires Interpret(Defaults, lx, load).Ok? && Decide(Interpret(Defaults, lx, load).value).Send?
    ensures var ts, m := lx.tokens, Decide(Interpret(Defaults, lx, load).value);
      exists k | 0 <= k < |ts| :: ts[k] == SetAlert(m.alert) && forall j | k < j < |ts| :: !ts[j].SetAlert?
    ensures var ts, m := lx.tokens, Decide(Interpret(Defaults, lx, load).value);
      exists k | 0 <= k < |ts| :: ts[k] == SetAddress(m.address) && forall j | k < j < |ts| :: !ts[j].SetAddress?
  {
    var ts, r := lx.tokens, Interpret(Defaults, lx, load).value;
    var m := Decide(r);
    assert m.alert == r.alert != "" && m.address == r.address != "";
    var k := LastIndex(ts, (t: Token) => t.SetAlert?);
    assert ts[k] == SetAlert(r.alert) && forall j | k < j < |ts| :: !ts[j].SetAlert? by {
      CommandLineProperties.LastAlertNameWins(Defaults, lx, load);
    }
    var l := LastIndex(ts, (t: Token) => t.SetAddress?);
    assert ts[l] == SetAddress(r.address) && forall j | l < j < |ts| :: !ts[j].SetAddress? by {
      CommandLineProperties.LastAddressWins(Defaults, lx, load);
    }
  }

  /**
    The last index of a token satisfying `p`; there must be one when the
    option it sets differs from its default.
   */
  function LastIndex(ts: seq<Token>, p: Token -> bool): (k: int)
    ensures -1 <= k < |ts|
    ensures k >= 0 ==> p(ts[k])
    ensures forall j | k < j < |ts| :: !p(ts[j])
    decreases |ts|
  {
    if ts == [] then -1
    else if p(ts[|ts| - 1]) then |ts| - 1
    else LastIndex(ts[..|ts| - 1], p)
  }

  /**
    Defining an alert name a second time crashes the program (an exception
    `Main` does not catch) instead of ending with a warning and status 1,
    whatever arguments follow.
   */
  lemma RedefinitionCrashes(xs: seq<string>, name: string, message: string, sound: string, ys: seq<string>,
                            load: string -> SoundLoad, x: Exchange)
    requires Lex(xs).truncated == None && Parse(xs, load).Ok?
    requires name in CommandLineProperties.DefinedNames(Lex(xs).tokens)
    requires SoundAccepted(sound, load)
    ensures ProgramExit(xs + [AddOption, name, message, sound] + ys, load, x) == Crashed(DuplicateAlert(name))
  {
    CommandLineProperties.RedefinitionStops(xs, name, message, sound, ys, load);
  }

  /**
    An `--add` whose sound fails to load, after arguments read without error:
    a sound file that is not found ends the program with status 1, whatever
    follows; any other load failure crashes it.
   */
  lemma BadSoundExits(xs: seq<string>, name: string, message: string, sound: string, ys: seq<string>,
                      load: string -> SoundLoad, x: Exchange)
    requires Lex(xs).truncated == None && Parse(xs, load).Ok?
    requires !SoundAccepted(sound, load)
    ensures load(sound) == FileNotFound ==> ProgramExit(xs + [AddOption, name, message, sound] + ys, load, x) == Status(1)
    ensures load(sound) == LoadFailed ==> ProgramExit(xs + [AddOption, name, message, sound] + ys, load, x) == Crashed(SoundFault(name, sound))
  {
    CommandLineProperties.BadSoundStops(xs, name, message, sound, ys, load);
  }
}
