/** `main` of uservice.c: argument check, init-system resolution (override
    file, else detection), sanity check, and dispatch. The file system and the
    child process are inputs and outcomes: the override file is
    `Option<string>` (`None` when it cannot be opened), the detection probes a
    `Markers` record, and running a command is the `Ran` outcome. */
module Uservice {
  import opened Wrappers
  import opened InitSystems
  import opened Detection
  import opened Config
  import opened Commands

  /** How one invocation ends. */
  datatype Outcome =
    | UsageError          // argc != 3
    | NoInitSystem        // detection or the sanity check exited fatally
    | NoCommand           // unrecognised verb: nothing runs
    | Ran(command: Command) // the command ran; the parent then exits 0

  datatype ExitStatus = ExitSuccess | ExitFailure

  /** The process exit status: 0 after a child (whatever its own status) and
      after an unrecognised verb, failure otherwise. */
  function Status(o: Outcome): (st: ExitStatus)
    ensures st == ExitSuccess <==> !(o.UsageError? || o.NoInitSystem?)
  {
    match o
    case UsageError => ExitFailure
    case NoInitSystem => ExitFailure
    case NoCommand => ExitSuccess
    case Ran(_) => ExitSuccess
  }

  /** The init system `main` goes on with after the sanity check; `None` is a
      fatal exit. Detection runs only when the file cannot be opened. */
  function Resolve(config: Option<string>, markers: Markers): (r: Option<InitSystem>)
    ensures r.Some? ==> IsSupported(r.value)
  {
    match config
    case Some(content) => MatchConfig(content)
    case None => Detect(markers)
  }

  /** The outcome of `uservice argv[1] argv[2]`; `argv` includes the program
      name, so `argc` is `|argv|`. */
  function Invoke(argv: seq<string>, config: Option<string>, markers: Markers): (o: Outcome)
    ensures o == UsageError <==> |argv| != 3
    ensures |argv| == 3 ==> (o == NoInitSystem <==> Resolve(config, markers).None?)
    ensures o.Ran? ==> argv[1] in Verbs && argv[2] in o.command.args
  {
    if |argv| != 3 then UsageError
    else match Resolve(config, markers)
      case None => NoInitSystem
      case Some(sys) =>
        match Dispatch(argv[1], argv[2], sys)
        case None => NoCommand
        case Some(c) => Ran(c)
  }

  /** `main` as written, with the global `init_system` as a local variable. */
  method Run(argv: seq<string>, config: Option<string>, markers: Markers) returns (outcome: Outcome)
    ensures outcome == Invoke(argv, config, markers)
  {
    if |argv| != 3 {
      return UsageError;
    }
    var initSystem := UnsupportedInitSystem;
    if config.Some? {
      var fbuf := ReadLine(config.value, ReadBufferSize - 1);
      var i := 0;
      while i < SupportedCount
        invariant 0 <= i <= SupportedCount
        invariant initSystem == UnsupportedInitSystem
        invariant FirstMatch(fbuf, i).None?
      {
        if StrcmpEqual(fbuf, InitSystemNames[i]) {
          initSystem := FromOrdinal(i);
          break;
        }
        i := i + 1;
      }
      assert initSystem == if MatchConfig(config.value).Some? then MatchConfig(config.value).value
                           else UnsupportedInitSystem;
    } else {
      var detected := CheckInitSystem(markers);
      if detected.None? {
        return NoInitSystem;
      }
      initSystem := detected.value;
    }

    if initSystem == UnsupportedInitSystem {
      return NoInitSystem;
    }

    var command := Dispatch(argv[1], argv[2], initSystem);
    if command.Some? {
      outcome := Ran(command.value);
    } else {
      outcome := NoCommand;
    }
  }

  /** Any argument count other than two operands is a usage error, before
      anything is read or probed. */
  lemma UsageErrorIffWrongArity(argv: seq<string>, config: Option<string>, markers: Markers)
    ensures Invoke(argv, config, markers) == UsageError <==> |argv| != 3
  {
  }

  /** The exit status is 0 exactly when the arity is right and an init system
      was resolved, whatever the verb and whatever the child does. */
  lemma ExitSuccessIffResolved(argv: seq<string>, config: Option<string>, markers: Markers)
    ensures Status(Invoke(argv, config, markers)) == ExitSuccess <==>
      |argv| == 3 && Resolve(config, markers).Some?
  {
  }

  /** A command runs exactly when the arity is right, an init system was
      resolved and the verb is one of the six; it is then the table's command
      for that verb, service and system. */
  lemma RunsIffKnownVerb(argv: seq<string>, config: Option<string>, markers: Markers)
    ensures Invoke(argv, config, markers).Ran? <==>
      |argv| == 3 && Resolve(config, markers).Some? && argv[1] in Verbs
    ensures Invoke(argv, config, markers).Ran? ==>
      Some(Invoke(argv, config, markers).command) == Dispatch(argv[1], argv[2], Resolve(config, markers).value)
  {
  }

  /** With an override file present the markers are never consulted, and a
      file matching no name is fatal rather than a fallback to detection. */
  lemma OverrideSkipsDetection(argv: seq<string>, content: string, m1: Markers, m2: Markers)
    requires |argv| == 3
    ensures Invoke(argv, Some(content), m1) == Invoke(argv, Some(content), m2)
    ensures Invoke(argv, Some(content), m1) == NoInitSystem <==>
      ReadLine(content, ReadBufferSize - 1) != "systemd\n" &&
      ReadLine(content, ReadBufferSize - 1) != "openRC\n"
  {
    MatchConfigExact(content);
  }

  /** Sample invocation: `enable nginx` under a systemd override file. */
  lemma SampleEnableOnSystemd(m: Markers)
    ensures Invoke(["uservice", "enable", "nginx"], Some("systemd\n"), m)
      == Ran(Command("systemctl", ["enable", "nginx"]))
  {
    FirstLineSelects(Systemd, "");
    assert Name(Systemd) + "" == "systemd\n";
    assert Resolve(Some("systemd\n"), m) == Some(Systemd);
  }

  /** Sample invocation: `disable sshd` under an OpenRC override file. */
  lemma SampleDisableOnOpenRC(m: Markers)
    ensures Invoke(["uservice", "disable", "sshd"], Some("openRC\n"), m)
      == Ran(Command("rc-update", ["del", "sshd", "default"]))
  {
    FirstLineSelects(OpenRC, "");
    assert Name(OpenRC) + "" == "openRC\n";
    assert Resolve(Some("openRC\n"), m) == Some(OpenRC);
  }

  /** Sample invocation: the unknown verb `reload` runs nothing and exits 0. */
  lemma SampleUnknownVerb(m: Markers)
    ensures Invoke(["uservice", "reload", "nginx"], Some("systemd\n"), m) == NoCommand
    ensures Status(NoCommand) == ExitSuccess
  {
    FirstLineSelects(Systemd, "");
    assert Name(Systemd) + "" == "systemd\n";
    assert Resolve(Some("systemd\n"), m) == Some(Systemd);
    assert "reload" !in Verbs;
    assert Dispatch("reload", "nginx", Systemd) == None;
  }
}
