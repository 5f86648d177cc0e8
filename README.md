# AppNotifier in Dafny

AppNotifier is a small desktop program with two modes. It is started once as a
server. The server binds a ZeroMQ reply socket and answers every request with
"ACK". It hands each request's text, an alert name, to the UI thread, and the UI
thread shows that alert's message and plays its sound. It is started again as a
client for each alert to fire. The client sends one request and exits with
status 0 if a reply arrives within two seconds, and 1 otherwise. Alerts are
defined on the server's command line with
`--add <name> <message> <soundfile|none>`.

This project models the core of `AppNotifier/Program.cs` and proves properties
of that model:

- **`Alerts`**: the `Alert` constructor. "none" means no sound; any other sound
  file is loaded at once, and a load failure is raised.
- **`CommandLine`**: the argument loop of `Main`. It is modelled in three forms:
  - `ParseArguments`, an imperative method that follows the loop step by step,
    with the same local variables;
  - `ParseFrom`, the same loop read index by index, which is the method's
    specification;
  - `Parse` = `Interpret(Defaults, Lex(args))`. `Lex` splits the arguments into
    what each step takes (a token), plus an option at the end that is missing
    its operands. `Interpret` applies the tokens in order and stops at the
    first error.

  Lemmas connect the three forms.
- **`CommandLineProperties`**: what the loop guarantees:
  - how arguments are consumed;
  - flag parity;
  - the last `--address` and the last bare name win;
  - how alerts are registered;
  - exactly when the parse succeeds.
- **`Program`**: the mode decision after the loop, the client's exit status, and
  the whole run from arguments to exit status.
- **`ServerApplication`**:
  - the address the server binds, with "tcp://*:5555" as the default;
  - the worker's receive/acknowledge loop, as the method `Server` and as its
    specification `RunLoop`;
  - the `worker_ProgressChanged` lookup.
- **`ServerProperties`**: how the loop behaves over any sequence of receive
  outcomes. It checks cancellation first, sends one report and one "ACK" per
  request in order, continues on EAGAIN, returns on ETERM without cancelling,
  and raises on any other error.
- **`EndToEnd`**: sample runs. A server is started with an alert named
  "build-failed", a client sends that name, and the alert is shown; and an
  argument list that redefines a name crashes before a later error is reached.

The environment is modelled as inputs:

- **Sound loading** is a function `load: string -> SoundLoad`. It is `Loaded`,
  `FileNotFound` (the one exception `Main` catches), or `LoadFailed` (any other
  exception from `SoundPlayer.Load`).
- **The server socket** is a sequence of `Sample`s. A `Sample` holds the
  worker's cancellation flag at the top of an iteration, and what the
  non-blocking receive returns: a message, `EAGAIN`, `ETERM` or another error
  number. Binding is a boolean.
- **The client socket** is an `Exchange`. It is a reply, no reply (the poll
  timed out), or an exception.

Behaviour of the code worth knowing, which the model keeps:

- The worker reports a request to the UI thread *before* it sends "ACK"
  (`AppNotifier/Program.cs:285-288`). `Effect` traces list `Report(name)`
  before `Reply("ACK")`.
- A duplicate alert name makes `Dictionary.Add` throw, and nothing catches that
  exception (`AppNotifier/Program.cs:84`). The run does not end with a message
  and status 1; the model ends it as `Crashed(DuplicateAlert)`.
- Only a missing sound file is handled with a message and status 1
  (`AppNotifier/Program.cs:85-91`). Any other failure to load the sound also
  escapes `Main` (`Crashed(SoundFault)`).
- The client returns 0 on any reply, whatever its text, not only on "ACK"
  (`AppNotifier/Program.cs:163-177`).
- The sound is loaded before the name is added, so a bad sound under a
  duplicate name reports the sound error (`AppNotifier/Program.cs:83-84`).

## Model

| member | source | states |
|---|---|---|
| Alerts.NewAlert | AppNotifier/Program.cs:21-33 | The constructor succeeds exactly when the sound is "none" or loads. On success the message is kept and the sound is absent exactly for "none"; otherwise it is that file. A failure names the file and is `MissingSoundFile` exactly when the file is not found. |
| CommandLine.Apply | AppNotifier/Program.cs:53-98 | definition: one token applied to the loop's variables; `--add` builds the alert first, then inserts it, and fails on a bad sound or a name already present |
| CommandLine.ParseFrom | AppNotifier/Program.cs:51-98 | definition: the loop read index by index, one branch per branch of the source, with the same bounds checks and steps |
| CommandLine.NextSpells | AppNotifier/Program.cs:53-98 | One step of the loop takes exactly the arguments that spell its token: a switch takes 1, `--address` takes 2, `--add` takes 4, and a non-keyword takes 1 as the alert name. An option with too few operands spells the whole remainder, and a cut-off `--add` has fewer than three operands. |
| CommandLine.LexSpellsArguments | AppNotifier/Program.cs:51-99 | The loop accounts for every argument: spelling the tokens it read, and the truncated option, gives back the argument list. No alert name it reads is a keyword. |
| CommandLine.ParseFromStep | AppNotifier/Program.cs:51-98 | One iteration of the index-based loop either fails at an option missing its operands, or applies the token it reads and continues at `i` plus that token's width. |
| CommandLine.ParseFromMatchesTokens | AppNotifier/Program.cs:51-99 | Running the loop from index `i` with variables `o` gives the same result as interpreting, in order, the tokens `Lex` reads from `args[i..]`. |
| CommandLine.LoopComputesParse | AppNotifier/Program.cs:51-99 | The loop from index 0 with the initial variables computes `Parse(args)`. |
| CommandLine.ParseArguments | AppNotifier/Program.cs:44-99 | The imperative loop returns exactly the index-based loop's result: the final variables, or the first error met. |
| CommandLineProperties.LexSpellsBack | AppNotifier/Program.cs:51-99 | Every well-formed token list is what the loop reads from its own spelling. Together with `LexSpellsArguments`, this means no argument is read twice, skipped, or read in two roles. |
| CommandLineProperties.LexAppend | AppNotifier/Program.cs:51-99 | Once a prefix is fully read, what follows is read on its own: the loop carries no state between steps beyond the index. |
| CommandLineProperties.AddressTakesNextArgument | AppNotifier/Program.cs:61-70 | `--address` consumes exactly the next argument, whatever it is, even a switch. |
| CommandLineProperties.AddTakesNextThree | AppNotifier/Program.cs:71-93 | `--add` consumes exactly the next three arguments, whatever they are. |
| CommandLineProperties.InterpretAppend | AppNotifier/Program.cs:51-99 | Interpreting two token lists in a row stops at the first list's error if it has one, and otherwise continues from its result. |
| CommandLineProperties.DanglingAddressFails | AppNotifier/Program.cs:61-68 | After arguments read in full, a final `--address` read as an option (not as another option's operand) gives `AddressMissing` (status 1), unless an earlier `--add` already failed. |
| CommandLineProperties.DanglingAddFails | AppNotifier/Program.cs:71-78 | After arguments read in full, an `--add` read as an option (not as another option's operand) and followed by fewer than three arguments gives `AlertParamsMissing` (status 1), unless an earlier `--add` already failed. |
| CommandLineProperties.FlagsFollowParity | AppNotifier/Program.cs:53-60 | After a successful loop, `server` and `log` are flipped exactly when their switch was read an odd number of times. |
| CommandLineProperties.LastAddressWins | AppNotifier/Program.cs:61-70 | The address ends as the operand of the last `--address` read, or stays unchanged if there was none. |
| CommandLineProperties.LastAlertNameWins | AppNotifier/Program.cs:95-98 | The alert name ends as the last bare argument read, or stays unchanged if there was none. |
| CommandLineProperties.DefinitionsRegistered | AppNotifier/Program.cs:81-84 | The map's keys are the starting keys plus the names of all `--add`s read. Entries already present do not change. |
| CommandLineProperties.DefinitionsBuilt | AppNotifier/Program.cs:81-84 | Each `--add name message sound` read used a name not taken before. The map holds, under that name, the alert the constructor builds from its message and sound. |
| CommandLineProperties.SucceedsExactly | AppNotifier/Program.cs:51-99 | The loop succeeds if and only if no option is missing operands, every `--add` sound loads or is "none", and all `--add` names are distinct and new. |
| CommandLineProperties.RedefinitionThrows | AppNotifier/Program.cs:84 | When no option at the end is missing operands and every `--add` sound loads, a repeated `--add` name never overwrites: the loop ends with `DuplicateAlert`. |
| CommandLineProperties.RedefinitionStops | AppNotifier/Program.cs:81-84 | After arguments read without error that defined a name, an `--add` of that name whose sound loads (or is "none") ends the loop with `DuplicateAlert` for that name, whatever arguments follow. |
| CommandLineProperties.BadSoundStops | AppNotifier/Program.cs:81-91 | After arguments read without error, an `--add` whose sound is not "none" and does not load ends the loop, whatever arguments follow and whether or not the name is new: a missing file gives `InvalidSound` with that name and path, and any other load failure gives `SoundFault`. |
| Program.Decide | AppNotifier/Program.cs:111-129 | Server mode exactly when `--server` is set, with the address as given (even empty). Otherwise a missing alert name is refused first, then a missing address. A request is sent exactly when both are present. |
| Program.Client | AppNotifier/Program.cs:145-178 | The client returns 0 exactly when a reply arrives and 1 exactly when the poll yields none. An exception leaves `Client` without a status. |
| Program.ProgramExit | AppNotifier/Program.cs:111-142 | The run crashes exactly when the loop raises an exception `Main` does not catch, and then carries that error. It starts the server exactly when the loop succeeds with `--server`, and passes on the parsed address and alerts. It exits 0 exactly when a client run with a name and an address gets a reply. Every other run exits 1. |
| Program.RequestCarriesLastNames | AppNotifier/Program.cs:118-134 | A request that is sent carries the last bare argument read and goes to the operand of the last `--address` read. |
| Program.RedefinitionCrashes | AppNotifier/Program.cs:81-91 | Under the same conditions, defining a name a second time crashes the program, whatever follows, instead of ending with status 1. |
| Program.BadSoundExits | AppNotifier/Program.cs:85-91 | Under the same conditions, a missing sound file ends the program with status 1, whatever follows, and any other load failure crashes it with `SoundFault`. |
| ServerApplication.ServerAddress | AppNotifier/Program.cs:193-197 | The bound address is never empty: a given address is kept, and an empty one becomes "tcp://*:5555". |
| ServerApplication.Iterate | AppNotifier/Program.cs:276-300 | definition: one iteration; the cancel flag first, then the receive outcome |
| ServerApplication.RunLoop | AppNotifier/Program.cs:274-302 | definition: the iterations in order until one stops the loop |
| ServerApplication.ServerTrace | AppNotifier/Program.cs:265-302 | definition: a failed bind faults; otherwise the loop runs |
| ServerApplication.IterationExchanges | AppNotifier/Program.cs:276-300 | An iteration that does not end the loop has exactly one effect pair per received request, a report followed by "ACK", and no other effect. |
| ServerApplication.RunLoopExchanges | AppNotifier/Program.cs:274-302 | Over any receive outcomes, the loop's effects are exactly a report followed by an "ACK" for each request, in order. |
| ServerApplication.Server | AppNotifier/Program.cs:260-304 | The worker method's effects and outcome are those of `ServerTrace`: a failed bind faults, and otherwise the loop runs as `RunLoop` says. |
| ServerApplication.ProgressChanged | AppNotifier/Program.cs:234-258 | A reported name is shown, with its alert's message and sound, exactly when it is registered. An unknown name yields only the warning for that name. |
| ServerProperties.LoopMatchesReference | AppNotifier/Program.cs:274-302 | The loop, described without iterating: it reports and acknowledges every request before the first stopping sample, in order, and ends as that sample says. If no sample stops it, it is still running. |
| ServerProperties.EveryRequestAcknowledged | AppNotifier/Program.cs:281-289 | In every run of the worker, position 2j holds the j-th report and position 2j+1 holds its "ACK". |
| ServerProperties.ExchangesAt | AppNotifier/Program.cs:283-289 | The exchange log for n requests has length 2n, with each report immediately followed by "ACK". |
| ServerProperties.RunLoopAppend | AppNotifier/Program.cs:274-302 | Once the loop has stopped, later samples do nothing. While it runs, the rest continues from where it was. |
| ServerProperties.CancelCheckedFirst | AppNotifier/Program.cs:276-280 | A pending cancellation ends the loop as `Cancelled` before the receive: the receive outcome is never looked at, and nothing afterwards happens. |
| ServerProperties.IdleIterationsInvisible | AppNotifier/Program.cs:295-299 | EAGAIN only continues the loop: removing those iterations changes neither the effects nor the outcome. |
| ServerProperties.HowTheLoopEnds | AppNotifier/Program.cs:276-301 | At the first stopping sample, the loop ends `Cancelled` exactly on cancellation, and `Interrupted` (without setting cancel) exactly on ETERM. It faults with the error number exactly on any other receive error. |
| ServerProperties.NoticesAround | AppNotifier/Program.cs:237-257 | One more exchange in the log adds exactly that request's `ProgressChanged` notice between the earlier and the later ones. |
| ServerProperties.RequestNotified | AppNotifier/Program.cs:281-289 | After any samples that leave the loop running, a received request is reported once and answered "ACK" right after the earlier effects. Its name reaches the UI thread between the earlier and later names, and its notice is what `ProgressChanged` makes of it, registered or not. The loop then goes on with the later samples. |
| ServerProperties.NoticesOfRun | AppNotifier/Program.cs:234-289 | In any run, the UI thread gets one name per request received before the loop stopped, in order. The alert is shown, with its message and sound, exactly for registered names; every other name gets only its warning. |
| ServerProperties.DispatchedExchanges | AppNotifier/Program.cs:283-288 | The names reported in an exchange log are exactly the requests it answers, in order. |
| EndToEnd.ServerCommandLine | AppNotifier/Program.cs:111-113 | `--server --add build-failed "Build failed" none` starts the server with that one alert and an empty address, which becomes "tcp://*:5555". |
| EndToEnd.ClientCommandLine | AppNotifier/Program.cs:130-135 | `--address tcp://localhost:5555 build-failed` exits with status 0 once a reply arrives. |
| EndToEnd.ServerRun | AppNotifier/Program.cs:281-289 | For that request, the server reports "build-failed" once, answers "ACK", and shows "Build failed" without sound. |
| EndToEnd.RedefinitionBeforeDanglingAddress | AppNotifier/Program.cs:71-93 | `--add x m none --add x m none --address` crashes on the second `--add`; the `--address` missing its operand is never reached. |

## Left out

- ZeroMQ itself (contexts, sockets, frames, `LINGER`) is not modelled. A receive is reduced to its outcome, and a request to the text of its first frame (`PopString`).
- The server's `Send` of "ACK" is assumed to succeed. A failure there, which would throw out of the worker, is not modelled.
- Timing is not modelled: the client's two-second poll timeout and the server's 100 ms sleep on EAGAIN.
- Threads are not modelled. The worker runs on a `BackgroundWorker`, `ReportProgress` hands names to the UI thread, and `CancelAsync` is set from the tray menu. The model takes the cancellation flag as sampled at the top of each iteration, and the UI thread's handling as the notices for the reported names in order.
- Windows Forms is not modelled: message boxes, the tray icon, balloon tips, and `Application.Run`/`Application.Exit`. A refusal or handled error is reduced to status 1.
- Sound playback and its caught `InvalidOperationException` are not modelled. A shown notice carries the sound path, if any.
- The trace log set up by `--log` is not modelled, and neither is any tracing. The model only records the `--log` flag.
- `worker_RunWorkerCompleted` and `Environment.ExitCode` are not modelled. A server run ends as `Serving`, and its later exit status is left out.
- The loading of a sound file is an uninterpreted input, `load`. Whether a given file is found or fails to load is not modelled.
- Process arguments, and whatever `Main` receives before the loop, are taken as a sequence of strings.
