/**
  Properties of the argument loop of `Program.Main`, stated on its
  specification `Parse` = `Interpret(Defaults, Lex(args))`.
 */
module CommandLineProperties {
  import opened Wrappers
  import opened Alerts
  import opened CommandLine

  // ---------------------------------------------------------------------------
  // How the loop consumes arguments

  lemma SpellingAppend(ts1: seq<Token>, ts2: seq<Token>)
    ensures Spelling(ts1 + ts2) == Spelling(ts1) + Spelling(ts2)
    decreases |ts1|
  {
    if ts1 != [] {
      assert (ts1 + ts2)[0] == ts1[0];
      assert (ts1 + ts2)[1..] == ts1[1..] + ts2;
      SpellingAppend(ts1[1..], ts2);
      assert Spelling(ts1 + ts2) == Words(ts1[0]) + Spelling(ts1[1..] + ts2);
      assert Spelling(ts1) == Words(ts1[0]) + Spelling(ts1[1..]);
    } else {
      assert ts1 + ts2 == ts2;
    }
  }

  /** A token's own arguments, followed by anything, are read back as that token. */
  lemma LexWords(t: Token, rest: seq<string>)
    requires t.SetAlert? ==> !IsKeyword(t.name)
    ensures Lex(Words(t) + rest) == Prepend(t, Lex(rest))
  {
    var args := Words(t) + rest;
    match t
    case ToggleServer => assert args[1..] == rest;
    case ToggleLog => assert args[1..] == rest;
    case SetAddress(a) => assert args[1] == a && args[2..] == rest;
    case Define(n, m, s) => assert args[1] == n && args[2] == m && args[3] == s && args[4..] == rest;
    case SetAlert(n) => assert args[0] == n && args[1..] == rest;
  }

  /**
    The other half of the round trip in `LexSpellsArguments`: every well-formed
    lexed value is what `Lex` reads from its own spelling. Together they say
    that `Lex` is a bijection between argument lists and well-formed values,
    so no argument is ever read twice, skipped, or read in two roles.
   */
  lemma {:induction false} LexSpellsBack(lx: Lexed)
    requires WellFormed(lx)
    ensures Lex(Spell(lx)) == lx
    decreases |lx.tokens|
  {
    if lx.tokens == [] {
      match lx.truncated
      case None =>
      case Some(DanglingAddress) =>
      case Some(DanglingAdd(ops)) =>
        assert Spell(lx) == [AddOption] + ops;
        assert (Spell(lx))[1..] == ops;
    } else {
      var t := lx.tokens[0];
      var rest := Lexed(lx.tokens[1..], lx.truncated);
      assert lx == Prepend(t, rest);
      assert lx.tokens[0] in lx.tokens;
      assert WellFormed(rest) by {
        forall u <- rest.tokens ensures u.SetAlert? ==> !IsKeyword(u.name) {
          assert u in lx.tokens;
        }
      }
      LexSpellsBack(rest);
      SpellPrepend(t, rest);
      LexWords(t, Spell(rest));
    }
  }

  /**
    Once the arguments `xs` have been read completely, what follows them is read
    on its own: the loop carries no lexical state from one step to the next.
   */
  lemma LexAppend(xs: seq<string>, ys: seq<string>)
    requires Lex(xs).truncated == None
    ensures Lex(xs + ys) == Lexed(Lex(xs).tokens + Lex(ys).tokens, Lex(ys).truncated)
  {
    var lx1, lx2 := Lex(xs), Lex(ys);
    LexSpellsArguments(xs);
    LexSpellsArguments(ys);
    var joined := Lexed(lx1.tokens + lx2.tokens, lx2.truncated);
    assert Spell(joined) == xs + ys by {
      SpellingAppend(lx1.tokens, lx2.tokens);
      assert Spell(lx1) == Spelling(lx1.tokens);
    }
    assert WellFormed(joined) by {
      forall u <- joined.tokens ensures u.SetAlert? ==> !IsKeyword(u.name) {
        assert u in lx1.tokens || u in lx2.tokens;
      }
    }
    LexSpellsBack(joined);
  }

  /** A token's own arguments in the middle of a fully read list are read back
      as that token, and the rest on its own. */
  lemma LexAround(xs: seq<string>, t: Token, ys: seq<string>)
    requires Lex(xs).truncated == None
    requires t.SetAlert? ==> !IsKeyword(t.name)
    ensures Lex(xs + Words(t) + ys) == Lexed(Lex(xs).tokens + [t] + Lex(ys).tokens, Lex(ys).truncated)
  {
    var w := Words(t) + ys;
    assert xs + Words(t) + ys == xs + w;
    assert Lex(w) == Prepend(t, Lex(ys)) by {
      LexWords(t, ys);
    }
    assert Lex(xs + w) == Lexed(Lex(xs).tokens + Lex(w).tokens, Lex(w).truncated) by {
      LexAppend(xs, w);
    }
    assert Lex(xs).tokens + ([t] + Lex(ys).tokens) == Lex(xs).tokens + [t] + Lex(ys).tokens;
  }

  /** `--address` takes the next argument whatever it is, even a switch. */
  lemma AddressTakesNextArgument(xs: seq<string>, address: string, ys: seq<string>)
    requires Lex(xs).truncated == None
    ensures Lex(xs + [AddressOption, address] + ys)
         == Lexed(Lex(xs).tokens + [SetAddress(address)] + Lex(ys).tokens, Lex(ys).truncated)
  {
    LexAround(xs, SetAddress(address), ys);
  }

  /** `--add` takes exactly the next three arguments, whatever they are. */
  lemma AddTakesNextThree(xs: seq<string>, name: string, message: string, sound: string, ys: seq<string>)
    requires Lex(xs).truncated == None
    ensures Lex(xs + [AddOption, name, message, sound] + ys)
         == Lexed(Lex(xs).tokens + [Define(name, message, sound)] + Lex(ys).tokens, Lex(ys).truncated)
  {
    LexAround(xs, Define(name, message, sound), ys);
  }

  // ---------------------------------------------------------------------------
  // How the loop interprets what it consumed

  lemma {:induction false} InterpretAppend(o: Options, ts1: seq<Token>, ts2: seq<Token>, truncated: Option<Truncation>, load: string -> SoundLoad)
    ensures var first := Interpret(o, Lexed(ts1, None), load);
      Interpret(o, Lexed(ts1 + ts2, truncated), load)
      == if first.Err? then first else Interpret(first.value, Lexed(ts2, truncated), load)
    decreases |ts1|
  {
    if ts1 == [] {
      assert ts1 + ts2 == ts2;
    } else {
      assert (ts1 + ts2)[0] == ts1[0];
      assert (ts1 + ts2)[1..] == ts1[1..] + ts2;
      var step := Apply(o, ts1[0], load);
      if step.Ok? {
        InterpretAppend(step.value, ts1[1..], ts2, truncated, load);
      }
    }
  }

  /**
    `--address` as the last argument read as an option ends the parse with
    status 1, unless an earlier `--add` already failed.
   */
  lemma DanglingAddressFails(xs: seq<string>, load: string -> SoundLoad)
    requires Lex(xs).truncated == None
    ensures Parse(xs + [AddressOption], load)
         == if Parse(xs, load).Ok? then Err(AddressMissing) else Parse(xs, load)
  {
    LexAppend(xs, [AddressOption]);
    assert Lex(xs).tokens + [] == Lex(xs).tokens;
    InterpretAppend(Defaults, Lex(xs).tokens, [], Some(DanglingAddress), load);
    InterpretAppend(Defaults, Lex(xs).tokens, [], None, load);
  }

  /**
    `--add` followed by fewer than three arguments ends the parse with status 1,
    unless an earlier `--add` already failed.
   */
  lemma DanglingAddFails(xs: seq<string>, operands: seq<string>, load: string -> SoundLoad)
    requires Lex(xs).truncated == None
    requires |operands| < 3
    ensures Parse(xs + [AddOption] + operands, load)
         == if Parse(xs, load).Ok? then Err(AlertParamsMissing) else Parse(xs, load)
  {
    var tail := [AddOption] + operands;
    assert tail[0] == AddOption && tail[1..] == operands;
    assert Lex(tail) == Lexed([], Some(DanglingAdd(operands)));
    assert xs + [AddOption] + operands == xs + tail;
    LexAppend(xs, tail);
    assert Lex(xs).tokens + [] == Lex(xs).tokens;
    InterpretAppend(Defaults, Lex(xs).tokens, [], Some(DanglingAdd(operands)), load);
    InterpretAppend(Defaults, Lex(xs).tokens, [], None, load);
  }

  function Occurrences(ts: seq<Token>, t: Token): nat {
    if ts == [] then 0 else (if ts[0] == t then 1 else 0) + Occurrences(ts[1..], t)
  }

  predicate Odd(n: nat) {
    n % 2 == 1
  }

  /**
    `--server` and `--log` toggle: a flag ends up changed exactly when its
    switch was read an odd number of times. Operands of `--address` and `--add`
    are not switches (`AddressTakesNextArgument`, `AddTakesNextThree`).
   */
  lemma {:induction false} FlagsFollowParity(o: Options, lx: Lexed, load: string -> SoundLoad)
    requires Interpret(o, lx, load).Ok?
    ensures Interpret(o, lx, load).value.server == (o.server != Odd(Occurrences(lx.tokens, ToggleServer)))
    ensures Interpret(o, lx, load).value.log == (o.log != Odd(Occurrences(lx.tokens, ToggleLog)))
    decreases |lx.tokens|
  {
    var ts := lx.tokens;
    if ts != [] {
      var next := Apply(o, ts[0], load).value;
      var rest := Lexed(ts[1..], lx.truncated);
      assert Interpret(o, lx, load) == Interpret(next, rest, load);
      assert next.server == (o.server != (ts[0] == ToggleServer));
      assert next.log == (o.log != (ts[0] == ToggleLog));
      FlagsFollowParity(next, rest, load);
    }
  }

  /**
    `--address <a>` overwrites earlier ones: the result holds the operand of the
    last such token, or the starting value if there is none.
   */
  lemma {:induction false} LastAddressWins(o: Options, lx: Lexed, load: string -> SoundLoad)
    requires Interpret(o, lx, load).Ok?
    ensures var r, ts := Interpret(o, lx, load).value, lx.tokens;
      (forall k | 0 <= k < |ts| :: !ts[k].SetAddress?) ==> r.address == o.address
    ensures var r, ts := Interpret(o, lx, load).value, lx.tokens;
      forall k | 0 <= k < |ts| && ts[k].SetAddress? && (forall j | k < j < |ts| :: !ts[j].SetAddress?)
        :: r.address == ts[k].address
    decreases |lx.tokens|
  {
    var ts := lx.tokens;
    if ts != [] {
      var r := Interpret(o, lx, load).value;
      var next := Apply(o, ts[0], load).value;
      var rest := Lexed(ts[1..], lx.truncated);
      LastAddressWins(next, rest, load);
      assert forall k | 1 <= k < |ts| :: rest.tokens[k - 1] == ts[k];
    }
  }

  /**
    A bare alert name overwrites earlier ones: the result holds the last name
    read, or the starting value if there is none.
   */
  lemma {:induction false} LastAlertNameWins(o: Options, lx: Lexed, load: string -> SoundLoad)
    requires Interpret(o, lx, load).Ok?
    ensures var r, ts := Interpret(o, lx, load).value, lx.tokens;
      (forall k | 0 <= k < |ts| :: !ts[k].SetAlert?) ==> r.alert == o.alert
    ensures var r, ts := Interpret(o, lx, load).value, lx.tokens;
      forall k | 0 <= k < |ts| && ts[k].SetAlert? && (forall j | k < j < |ts| :: !ts[j].SetAlert?)
        :: r.alert == ts[k].name
    decreases |lx.tokens|
  {
    var ts := lx.tokens;
    if ts != [] {
      var r := Interpret(o, lx, load).value;
      var next := Apply(o, ts[0], load).value;
      var rest := Lexed(ts[1..], lx.truncated);
      LastAlertNameWins(next, rest, load);
      assert forall k | 1 <= k < |ts| :: rest.tokens[k - 1] == ts[k];
    }
  }

  function DefinedNames(ts: seq<Token>): set<string> {
    if ts == [] then {} else (if ts[0].Define? then {ts[0].name} else {}) + DefinedNames(ts[1..])
  }

  /**
    The map ends up holding the names it started with and the names of every
    `--add name message sound` read, and nothing else; entries already there
    do not change.
   */
  lemma {:induction false} DefinitionsRegistered(o: Options, lx: Lexed, load: string -> SoundLoad)
    requires Interpret(o, lx, load).Ok?
    ensures var r := Interpret(o, lx, load).value;
      r.alerts.Keys == o.alerts.Keys + DefinedNames(lx.tokens)
    ensures var r := Interpret(o, lx, load).value;
      forall n | n in o.alerts :: r.alerts[n] == o.alerts[n]
    decreases |lx.tokens|
  {
    var ts := lx.tokens;
    if ts != [] {
      var next := Apply(o, ts[0], load).value;
      DefinitionsRegistered(next, Lexed(ts[1..], lx.truncated), load);
    }
  }

  /**
    Every `--add name message sound` read used a name that was not taken
    before, and the map holds, under that name, the alert built from its
    message and sound.
   */
  lemma {:induction false} DefinitionsBuilt(o: Options, lx: Lexed, load: string -> SoundLoad)
    requires Interpret(o, lx, load).Ok?
    ensures var r, ts := Interpret(o, lx, load).value, lx.tokens;
      forall k | 0 <= k < |ts| && ts[k].Define? ::
        && ts[k].name !in o.alerts
        && ts[k].name in r.alerts
        && NewAlert(ts[k].message, ts[k].sound, load) == Ok(r.alerts[ts[k].name])
    decreases |lx.tokens|
  {
    var ts := lx.tokens;
    if ts != [] {
      var r := Interpret(o, lx, load).value;
      var next := Apply(o, ts[0], load).value;
      var rest := Lexed(ts[1..], lx.truncated);
      DefinitionsBuilt(next, rest, load);
      DefinitionsRegistered(next, rest, load);
      forall k | 0 <= k < |ts| && ts[k].Define?
        ensures ts[k].name !in o.alerts && ts[k].name in r.alerts
        ensures NewAlert(ts[k].message, ts[k].sound, load) == Ok(r.alerts[ts[k].name])
      {
        if k > 0 {
          assert rest.tokens[k - 1] == ts[k];
        }
      }
    }
  }

  /** Every sound specification of an `--add` read yields an alert. */
  predicate SoundsAccepted(ts: seq<Token>, load: string -> SoundLoad) {
    forall k | 0 <= k < |ts| && ts[k].Define? :: SoundAccepted(ts[k].sound, load)
  }

  /** The names of the `--add`s read are pairwise distinct and none is in `taken`. */
  predicate NamesFresh(ts: seq<Token>, taken: set<string>) {
    && (forall k | 0 <= k < |ts| && ts[k].Define? :: ts[k].name !in taken)
    && (forall j, k | 0 <= j < k < |ts| && ts[j].Define? && ts[k].Define? :: ts[j].name != ts[k].name)
  }

  lemma SoundsAcceptedCons(ts: seq<Token>, load: string -> SoundLoad)
    requires ts != []
    ensures SoundsAccepted(ts, load)
        <==> (ts[0].Define? ==> SoundAccepted(ts[0].sound, load)) && SoundsAccepted(ts[1..], load)
  {
    if (ts[0].Define? ==> SoundAccepted(ts[0].sound, load)) && SoundsAccepted(ts[1..], load) {
      forall k | 0 < k < |ts| && ts[k].Define? ensures SoundAccepted(ts[k].sound, load) {
        assert ts[1..][k - 1] == ts[k];
      }
    }
  }

  lemma NamesFreshCons(ts: seq<Token>, taken: set<string>)
    requires ts != []
    ensures NamesFresh(ts, taken)
        <==> (ts[0].Define? ==> ts[0].name !in taken)
             && NamesFresh(ts[1..], if ts[0].Define? then taken + {ts[0].name} else taken)
  {
    var rest := ts[1..];
    var taken' := if ts[0].Define? then taken + {ts[0].name} else taken;
    assert forall k | 1 <= k < |ts| :: rest[k - 1] == ts[k];
    if NamesFresh(ts, taken) {
      forall k | 0 <= k < |rest| && rest[k].Define? ensures rest[k].name !in taken' {
        assert rest[k] == ts[k + 1];
      }
      forall j, k | 0 <= j < k < |rest| && rest[j].Define? && rest[k].Define? ensures rest[j].name != rest[k].name {
        assert rest[j] == ts[j + 1] && rest[k] == ts[k + 1];
      }
    }
    if (ts[0].Define? ==> ts[0].name !in taken) && NamesFresh(rest, taken') {
      forall j, k | 0 <= j < k < |ts| && ts[j].Define? && ts[k].Define? ensures ts[j].name != ts[k].name {
        assert ts[k] == rest[k - 1];
        if j > 0 {
          assert ts[j] == rest[j - 1];
        }
      }
    }
  }

  /**
    The loop runs to its end exactly when no option is left without operands,
    every sound loads, and no alert name is defined twice (or was defined
    before). Every other run stops with an error.
   */
  lemma {:induction false} SucceedsExactly(o: Options, lx: Lexed, load: string -> SoundLoad)
    ensures Interpret(o, lx, load).Ok?
        <==> lx.truncated == None && SoundsAccepted(lx.tokens, load) && NamesFresh(lx.tokens, o.alerts.Keys)
    decreases |lx.tokens|
  {
    var ts := lx.tokens;
    if ts != [] {
      SoundsAcceptedCons(ts, load);
      NamesFreshCons(ts, o.alerts.Keys);
      var step := Apply(o, ts[0], load);
      if step.Ok? {
        SucceedsExactly(step.value, Lexed(ts[1..], lx.truncated), load);
        if ts[0].Define? {
          assert step.value.alerts.Keys == o.alerts.Keys + {ts[0].name};
        }
      }
    }
  }

  /**
    Defining an alert name twice is never an overwrite: when every sound
    loads and nothing dangles, the loop stops with `DuplicateAlert`, the
    exception `Main` does not catch.
   */
  lemma {:induction false} RedefinitionThrows(o: Options, lx: Lexed, load: string -> SoundLoad)
    requires lx.truncated == None && SoundsAccepted(lx.tokens, load)
    requires !NamesFresh(lx.tokens, o.alerts.Keys)
    ensures Interpret(o, lx, load).Err? && Interpret(o, lx, load).error.DuplicateAlert?
    decreases |lx.tokens|
  {
    var ts := lx.tokens;
    SoundsAcceptedCons(ts, load);
    NamesFreshCons(ts, o.alerts.Keys);
    var step := Apply(o, ts[0], load);
    if step.Ok? {
      if ts[0].Define? {
        assert step.value.alerts.Keys == o.alerts.Keys + {ts[0].name};
      }
      RedefinitionThrows(step.value, Lexed(ts[1..], lx.truncated), load);
    }
  }

  /**
    The loop stops at the first `--add` that reuses a name, whatever follows
    it: once the arguments `xs` have been read without error and have defined
    `name`, an `--add name message sound` whose sound loads (or is "none")
    throws `DuplicateAlert(name)`, and no later argument is looked at.
   */
  lemma RedefinitionStops(xs: seq<string>, name: string, message: string, sound: string, ys: seq<string>,
                          load: string -> SoundLoad)
    requires Lex(xs).truncated == None && Parse(xs, load).Ok?
    requires name in DefinedNames(Lex(xs).tokens)
    requires SoundAccepted(sound, load)
    ensures Parse(xs + [AddOption, name, message, sound] + ys, load) == Err(DuplicateAlert(name))
  {
    var t := Define(name, message, sound);
    var lx, rest := Lex(xs), Lex(ys);
    var o := Parse(xs, load).value;
    assert [AddOption, name, message, sound] == Words(t);
    LexAround(xs, t, ys);
    assert lx.tokens + [t] + rest.tokens == lx.tokens + ([t] + rest.tokens);
    assert lx == Lexed(lx.tokens, None);
    InterpretAppend(Defaults, lx.tokens, [t] + rest.tokens, rest.truncated, load);
    assert name in o.alerts by {
      DefinitionsRegistered(Defaults, lx, load);
    }
    InterpretPrepend(o, t, rest, load);
    assert Apply(o, t, load) == Err(DuplicateAlert(name));
  }

  /**
    The loop also stops at the first `--add` whose sound fails to load,
    whatever follows it and whether or not the name is new (the alert is built
    before it is added): after arguments `xs` read without error, a sound file
    that is not found gives `InvalidSound(name, sound)`, which `Main` reports
    with status 1, and any other load failure gives `SoundFault(name, sound)`.
   */
  lemma BadSoundStops(xs: seq<string>, name: string, message: string, sound: string, ys: seq<string>,
                      load: string -> SoundLoad)
    requires Lex(xs).truncated == None && Parse(xs, load).Ok?
    requires !SoundAccepted(sound, load)
    ensures load(sound) == FileNotFound ==> Parse(xs + [AddOption, name, message, sound] + ys, load) == Err(InvalidSound(name, sound))
    ensures load(sound) == LoadFailed ==> Parse(xs + [AddOption, name, message, sound] + ys, load) == Err(SoundFault(name, sound))
  {
    var t := Define(name, message, sound);
    var lx, rest := Lex(xs), Lex(ys);
    var o := Parse(xs, load).value;
    assert [AddOption, name, message, sound] == Words(t);
    LexAround(xs, t, ys);
    assert lx.tokens + [t] + rest.tokens == lx.tokens + ([t] + rest.tokens);
    assert lx == Lexed(lx.tokens, None);
    InterpretAppend(Defaults, lx.tokens, [t] + rest.tokens, rest.truncated, load);
    InterpretPrepend(o, t, rest, load);
  }
}
