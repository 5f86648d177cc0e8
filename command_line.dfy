/**
  The argument loop of `Program.Main`. The loop walks the arguments with one
  index; each step interprets the argument under the index as a switch, an
  option with operands, or the alert name, and skips the operands it consumed.

  The loop is specified in two layers:
  - `Lex` splits the arguments into the tokens the loop consumes, one per step,
    plus the option that ran out of operands at the end, if any;
  - `Interpret` applies the tokens in order to the options being built and stops
    at the first error, exactly where the loop returns or throws.
  `ParseArguments` is the loop itself, proved equal to `Parse`.
 */
module CommandLine {
  import opened Wrappers
  import opened Alerts

  const ServerSwitch: string := "--server"
  const LogSwitch: string := "--log"
  const AddressOption: string := "--address"
  const AddOption: string := "--add"

  predicate IsKeyword(s: string) {
    s == ServerSwitch || s == LogSwitch || s == AddressOption || s == AddOption
  }

  /** What one step of the loop consumes. */
  datatype Token =
    | ToggleServer
    | ToggleLog
    | SetAddress(address: string)
    | Define(name: string, message: string, sound: string)
    | SetAlert(name: string)

  /** An option at the end of the arguments without all of its operands. */
  datatype Truncation = DanglingAddress | DanglingAdd(operands: seq<string>)

  datatype Lexed = Lexed(tokens: seq<Token>, truncated: Option<Truncation>)

  /** The arguments a token was read from. */
  function Words(t: Token): seq<string> {
    match t
    case ToggleServer => [ServerSwitch]
    case ToggleLog => [LogSwitch]
    case SetAddress(a) => [AddressOption, a]
    case Define(n, m, s) => [AddOption, n, m, s]
    case SetAlert(n) => [n]
  }

  function Spelling(ts: seq<Token>): seq<string> {
    if ts == [] then [] else Words(ts[0]) + Spelling(ts[1..])
  }

  function TruncationWords(c: Option<Truncation>): seq<string> {
    match c
    case None => []
    case Some(DanglingAddress) => [AddressOption]
    case Some(DanglingAdd(ops)) => [AddOption] + ops
  }

  /** The argument list a lexed value was read from. */
  function Spell(lx: Lexed): seq<string> {
    Spelling(lx.tokens) + TruncationWords(lx.truncated)
  }

  /** The shapes `Lex` can produce: an alert name is never a keyword, and a
      truncated `--add` has fewer than three operands. */
  predicate WellFormed(lx: Lexed) {
    && (forall t <- lx.tokens :: t.SetAlert? ==> !IsKeyword(t.name))
    && (lx.truncated.Some? && lx.truncated.value.DanglingAdd? ==> |lx.truncated.value.operands| < 3)
  }

  function Prepend(t: Token, lx: Lexed): Lexed {
    Lexed([t] + lx.tokens, lx.truncated)
  }

  lemma SpellPrepend(t: Token, lx: Lexed)
    ensures Spell(Prepend(t, lx)) == Words(t) + Spell(lx)
  {
    var ts := [t] + lx.tokens;
    assert ts[0] == t && ts[1..] == lx.tokens;
  }

  /** What one step of the loop reads at the front of the arguments: a token and
      the number of arguments it takes, or an option whose operands are missing. */
  datatype Step = Read(token: Token, width: nat) | Stuck(truncation: Truncation)

  /**
    One step of the loop. `--address` takes the next argument and `--add` the
    next three, whatever they are; an option without all of its operands stops
    the loop.
   */
  function Next(args: seq<string>): (s: Step)
    requires args != []
    ensures s.Read? ==> 1 <= s.width <= |args|
  {
    if args[0] == ServerSwitch then Read(ToggleServer, 1)
    else if args[0] == LogSwitch then Read(ToggleLog, 1)
    else if args[0] == AddressOption then
      if |args| == 1 then Stuck(DanglingAddress) else Read(SetAddress(args[1]), 2)
    else if args[0] == AddOption then
      if |args| <= 3 then Stuck(DanglingAdd(args[1..])) else Read(Define(args[1], args[2], args[3]), 4)
    else Read(SetAlert(args[0]), 1)
  }

  /** A token is spelled by exactly the arguments `Next` takes for it, a word
      that is not a keyword is read as an alert name, and a truncated option
      spells the whole remainder. */
  lemma NextSpells(args: seq<string>)
    requires args != []
    ensures Next(args).Read? ==> args[..Next(args).width] == Words(Next(args).token)
    ensures Next(args).Read? && Next(args).token.SetAlert? ==> !IsKeyword(Next(args).token.name)
    ensures Next(args).Stuck? ==> TruncationWords(Some(Next(args).truncation)) == args
    ensures Next(args).Stuck? && Next(args).truncation.DanglingAdd? ==> |Next(args).truncation.operands| < 3
  {
    assert args == [args[0]] + args[1..];
  }

  /** A token read by `Next` followed by a lexing of the remaining arguments
      spells out all of them. */
  lemma ReadThenRest(args: seq<string>, rest: Lexed)
    requires args != [] && Next(args).Read?
    requires Spell(rest) == args[Next(args).width..] && WellFormed(rest)
    ensures Spell(Prepend(Next(args).token, rest)) == args
    ensures WellFormed(Prepend(Next(args).token, rest))
  {
    var t := Next(args).token;
    NextSpells(args);
    SpellPrepend(t, rest);
    assert args == args[..Next(args).width] + args[Next(args).width..];
    assert forall u <- Prepend(t, rest).tokens :: u == t || u in rest.tokens;
  }

  /**
    The tokens the loop reads from `args`, front to back, and the option left
    without operands at the end, if any.
   */
  function Lex(args: seq<string>): Lexed
    decreases |args|
  {
    if args == [] then Lexed([], None)
    else
      match Next(args)
      case Stuck(c) => Lexed([], Some(c))
      case Read(t, w) => Prepend(t, Lex(args[w..]))
  }

  /** Every argument is accounted for: spelling the tokens out again gives back
      the arguments, and alert names are never keywords. */
  lemma {:induction false} LexSpellsArguments(args: seq<string>)
    ensures Spell(Lex(args)) == args
    ensures WellFormed(Lex(args))
    decreases |args|
  {
    if args != [] {
      NextSpells(args);
      match Next(args)
      case Stuck(c) =>
      case Read(t, w) =>
        LexSpellsArguments(args[w..]);
        ReadThenRest(args, Lex(args[w..]));
    }
  }

  /** The local variables of `Main` that the loop assigns. */
  datatype Options = Options(
    server: bool,
    log: bool,
    address: string,
    alert: string,
    alerts: map<string, Alert>)

  /** Their values before the loop. */
  const Defaults: Options := Options(false, false, "", "", map[])

  /**
    Why the loop stops early. The first three end `Main` with a warning and
    status 1; `SoundFault` and `DuplicateAlert` are exceptions `Main` does not
    catch (only a missing sound file is caught, and `Dictionary.Add` throws on
    a key it already holds).
   */
  datatype ParseError =
    | AddressMissing
    | AlertParamsMissing
    | InvalidSound(name: string, path: string)
    | SoundFault(name: string, path: string)
    | DuplicateAlert(name: string)

  predicate Handled(e: ParseError) {
    e.AddressMissing? || e.AlertParamsMissing? || e.InvalidSound?
  }

  /** One step of the loop: the alert is built before it is added to the map. */
  function Apply(o: Options, t: Token, load: string -> SoundLoad): Result<Options, ParseError> {
    match t
    case ToggleServer => Ok(o.(server := !o.server))
    case ToggleLog => Ok(o.(log := !o.log))
    case SetAddress(a) => Ok(o.(address := a))
    case SetAlert(n) => Ok(o.(alert := n))
    case Define(n, m, s) =>
      match NewAlert(m, s, load)
      case Err(MissingSoundFile(p)) => Err(InvalidSound(n, p))
      case Err(SoundLoadFault(p)) => Err(SoundFault(n, p))
      case Ok(a) =>
        if n in o.alerts then Err(DuplicateAlert(n))
        else Ok(o.(alerts := o.alerts[n := a]))
  }

  /** The steps of the loop from `o` on, then the truncated option if any. */
  function Interpret(o: Options, lx: Lexed, load: string -> SoundLoad): Result<Options, ParseError>
    decreases |lx.tokens|
  {
    if lx.tokens == [] then
      match lx.truncated
      case None => Ok(o)
      case Some(DanglingAddress) => Err(AddressMissing)
      case Some(DanglingAdd(_)) => Err(AlertParamsMissing)
    else
      match Apply(o, lx.tokens[0], load)
      case Err(e) => Err(e)
      case Ok(next) => Interpret(next, Lexed(lx.tokens[1..], lx.truncated), load)
  }

  /** What the whole loop of `Main` computes from the arguments. */
  function Parse(args: seq<string>, load: string -> SoundLoad): Result<Options, ParseError> {
    Interpret(Defaults, Lex(args), load)
  }

  lemma InterpretPrepend(o: Options, t: Token, lx: Lexed, load: string -> SoundLoad)
    ensures var step := Apply(o, t, load);
      Interpret(o, Prepend(t, lx), load) == if step.Err? then Err(step.error) else Interpret(step.value, lx, load)
  {
    var ts := [t] + lx.tokens;
    assert ts[0] == t && ts[1..] == lx.tokens;
  }

  /**
    The loop of `Main` from index `i` on, with the variables it assigns in `o`,
    one branch per branch of the source.
   */
  function ParseFrom(args: seq<string>, i: nat, o: Options, load: string -> SoundLoad): Result<Options, ParseError>
    requires i <= |args|
    decreases |args| - i
  {
    if i == |args| then Ok(o)
    else if args[i] == ServerSwitch then ParseFrom(args, i + 1, o.(server := !o.server), load)
    else if args[i] == LogSwitch then ParseFrom(args, i + 1, o.(log := !o.log), load)
    else if args[i] == AddressOption then
      if i == |args| - 1 then Err(AddressMissing)
      else ParseFrom(args, i + 2, o.(address := args[i + 1]), load)
    else if args[i] == AddOption then
      if i >= |args| - 3 then Err(AlertParamsMissing)
      else
        match Apply(o, Define(args[i + 1], args[i + 2], args[i + 3]), load)
        case Err(e) => Err(e)
        case Ok(next) => ParseFrom(args, i + 4, next, load)
    else ParseFrom(args, i + 1, o.(alert := args[i]), load)
  }

  /**
    One iteration of the loop from index `i` does what `Next` reads there: it
    fails on a truncated option, and otherwise applies the token read and goes
    on after the arguments the token takes.
   */
  lemma ParseFromStep(args: seq<string>, i: nat, o: Options, load: string -> SoundLoad)
    requires i < |args|
    ensures Next(args[i..]).Stuck? ==>
      ParseFrom(args, i, o, load) == Interpret(o, Lexed([], Some(Next(args[i..]).truncation)), load)
    ensures Next(args[i..]).Read? ==>
      var s := Next(args[i..]);
      var step := Apply(o, s.token, load);
      i + s.width <= |args| &&
      ParseFrom(args, i, o, load) == if step.Err? then Err(step.error) else ParseFrom(args, i + s.width, step.value, load)
  {
    var rest := args[i..];
    assert rest[0] == args[i];
    if i + 1 < |args| {
      assert rest[1] == args[i + 1];
    }
    if i + 3 < |args| {
      assert rest[2] == args[i + 2] && rest[3] == args[i + 3];
    }
  }

  /** The tokens read from index `i` on, interpreted: the first one is applied
      and the rest follow from where it ends. */
  lemma InterpretStep(args: seq<string>, i: nat, o: Options, load: string -> SoundLoad)
    requires i < |args|
    ensures Next(args[i..]).Stuck? ==>
      Interpret(o, Lex(args[i..]), load) == Interpret(o, Lexed([], Some(Next(args[i..]).truncation)), load)
    ensures Next(args[i..]).Read? ==>
      var s := Next(args[i..]);
      var step := Apply(o, s.token, load);
      i + s.width <= |args| &&
      Interpret(o, Lex(args[i..]), load) ==
        if step.Err? then Err(step.error) else Interpret(step.value, Lex(args[i + s.width..]), load)
  {
    var rest := args[i..];
    match Next(rest)
    case Stuck(c) =>
    case Read(t, w) =>
      var tail := args[i + w..];
      assert Lex(rest) == Prepend(t, Lex(tail)) by {
        assert rest[w..] == tail;
      }
      InterpretPrepend(o, t, Lex(tail), load);
  }

  /** The loop, read index by index, does what the tokens say, in order. */
  lemma {:induction false} ParseFromMatchesTokens(args: seq<string>, i: nat, o: Options, load: string -> SoundLoad)
    requires i <= |args|
    ensures ParseFrom(args, i, o, load) == Interpret(o, Lex(args[i..]), load)
    decreases |args| - i
  {
    if i == |args| {
      assert args[i..] == [];
    } else {
      ParseFromStep(args, i, o, load);
      InterpretStep(args, i, o, load);
      var s := Next(args[i..]);
      if s.Read? {
        var step := Apply(o, s.token, load);
        if step.Ok? {
          ParseFromMatchesTokens(args, i + s.width, step.value, load);
        }
      }
    }
  }

  /** The loop computes `Parse`: it does what the tokens it reads say. */
  lemma LoopComputesParse(args: seq<string>, load: string -> SoundLoad)
    ensures ParseFrom(args, 0, Defaults, load) == Parse(args, load)
  {
    ParseFromMatchesTokens(args, 0, Defaults, load);
    assert args[0..] == args;
  }

  /** The argument loop of `Main`, index by index. */
  method ParseArguments(args: seq<string>, load: string -> SoundLoad) returns (r: Result<Options, ParseError>)
    ensures r == ParseFrom(args, 0, Defaults, load)
  {
    var server, doLog := false, false;
    var address, alert := "", "";
    var alerts: map<string, Alert> := map[];
    var i := 0;
    while i < |args|
      invariant 0 <= i <= |args|
      invariant ParseFrom(args, 0, Defaults, load) == ParseFrom(args, i, Options(server, doLog, address, alert, alerts), load)
    {
      if args[i] == ServerSwitch {
        server := !server;
      } else if args[i] == LogSwitch {
        doLog := !doLog;
      } else if args[i] == AddressOption {
        if i == |args| - 1 {
          return Err(AddressMissing);
        }
        i := i + 1;
        address := args[i];
      } else if args[i] == AddOption {
        if i >= |args| - 3 {
          return Err(AlertParamsMissing);
        }
        var made := NewAlert(args[i + 2], args[i + 3], load);
        if made.Err? {
          if made.error.MissingSoundFile? {
            return Err(InvalidSound(args[i + 1], args[i + 3]));
          }
          return Err(SoundFault(args[i + 1], args[i + 3]));
        }
        if args[i + 1] in alerts {
          return Err(DuplicateAlert(args[i + 1]));
        }
        alerts := alerts[args[i + 1] := made.value];
        i := i + 3;
      } else {
        alert := args[i];
      }
      i := i + 1;
    }
    return Ok(Options(server, doLog, address, alert, alerts));
  }
}
