/**
  The exchange between one client run and one server run of AppNotifier, from
  the command lines to the notification: one alert "build-failed" without sound.
 */
module EndToEnd {
  import opened Wrappers
  import opened Alerts
  import opened CommandLine
  import opened Program
  import opened ServerApplication

  const BuildFailed: Alert := Alert("Build failed", None)

  /** `--server --add build-failed "Build failed" none` starts the server with
      that one alert and no address, so the default address is bound. */
  lemma ServerCommandLine(load: string -> SoundLoad, x: Exchange)
    ensures ProgramExit([ServerSwitch, AddOption, "build-failed", "Build failed", NoSound], load, x)
         == Serving("", map["build-failed" := BuildFailed])
    ensures ServerAddress("") == DefaultAddress
  {
    var args := [ServerSwitch, AddOption, "build-failed", "Build failed", NoSound];
    var def := Define("build-failed", "Build failed", NoSound);
    assert Lex(args) == Lexed([ToggleServer, def], None) by {
      assert args[1..] == [AddOption, "build-failed", "Build failed", NoSound];
      assert args[1..][4..] == [];
      assert Lex(args[1..]) == Lexed([def], None);
    }
    var o := Defaults.(server := true);
    assert Parse(args, load) == Ok(o.(alerts := map["build-failed" := BuildFailed])) by {
      assert Apply(Defaults, ToggleServer, load) == Ok(o);
      assert Apply(o, def, load) == Ok(o.(alerts := map["build-failed" := BuildFailed]));
      assert [ToggleServer, def][1..] == [def] && [def][1..] == [];
      var o' := o.(alerts := map["build-failed" := BuildFailed]);
      assert Interpret(o, Lexed([def], None), load) == Interpret(o', Lexed([], None), load);
      assert Interpret(Defaults, Lexed([ToggleServer, def], None), load) == Interpret(o, Lexed([def], None), load);
    }
  }

  /** `--address tcp://localhost:5555 build-failed` sends that request and ends
      with status 0 once any reply arrives. */
  lemma ClientCommandLine(load: string -> SoundLoad, response: string)
    ensures ProgramExit([AddressOption, "tcp://localhost:5555", "build-failed"], load, Replied(response)) == Status(0)
  {
    var args := [AddressOption, "tcp://localhost:5555", "build-failed"];
    assert Lex(args) == Lexed([SetAddress("tcp://localhost:5555"), SetAlert("build-failed")], None) by {
      var tail := ["build-failed"];
      assert args[2..] == tail && tail[1..] == [];
      assert Next(tail) == Read(SetAlert("build-failed"), 1);
      assert Lex(tail) == Lexed([SetAlert("build-failed")], None);
      assert Next(args) == Read(SetAddress("tcp://localhost:5555"), 2);
    }
  }

  /** The server, given that request, reports the name once, answers "ACK" and
      shows the alert's message. */
  lemma ServerRun()
    ensures var t := ServerTrace(true, [Sample(false, Msg("build-failed"))]);
      && t == Trace([Report("build-failed"), Reply(Ack)], Running)
      && Notices(map["build-failed" := BuildFailed], Dispatched(t.effects)) == [Shown("Build failed", None)]
  {
    var xs := [Sample(false, Msg("build-failed"))];
    var t := ServerTrace(true, xs);
    assert xs[1..] == [];
    assert t == Then([Report("build-failed"), Reply(Ack)], RunLoop([]));
    assert t.effects == [Report("build-failed"), Reply(Ack)];
    assert Dispatched(t.effects) == ["build-failed"] by {
      assert t.effects[1..] == [Reply(Ack)];
      assert Dispatched([Reply(Ack)]) == [] by {
        assert [Reply(Ack)][1..] == [];
      }
    }
  }

  /** `--add x m none --add x m none --address` crashes on the second `--add`;
      the `--address` missing its operand is never reached. */
  lemma RedefinitionBeforeDanglingAddress(load: string -> SoundLoad, x: Exchange)
    ensures ProgramExit([AddOption, "x", "m", NoSound, AddOption, "x", "m", NoSound, AddressOption], load, x)
         == Crashed(DuplicateAlert("x"))
  {
    var xs := [AddOption, "x", "m", NoSound];
    var def := Define("x", "m", NoSound);
    assert Lex(xs) == Lexed([def], None) by {
      assert xs[4..] == [];
    }
    assert CommandLineProperties.DefinedNames([def]) == {"x"} by {
      assert [def][1..] == [];
    }
    assert Parse(xs, load).Ok? by {
      var o := Defaults.(alerts := map["x" := Alert("m", None)]);
      assert Apply(Defaults, def, load) == Ok(o);
      assert [def][1..] == [];
      assert Interpret(Defaults, Lexed([def], None), load) == Interpret(o, Lexed([], None), load);
    }
    RedefinitionCrashes(xs, "x", "m", NoSound, [AddressOption], load, x);
    assert xs + [AddOption, "x", "m", NoSound] + [AddressOption]
        == [AddOption, "x", "m", NoSound, AddOption, "x", "m", NoSound, AddressOption];
  }
}
