# uservice, modelled in Dafny

`uservice <verb> <service>` is a small C shim that turns one of six
init-system-agnostic verbs (`start`, `stop`, `restart`, `status`, `enable`,
`disable`) into the matching `systemctl`, `rc-service` or `rc-update` call.
It decides which init system is present either from the first line of
`/etc/uservice.conf` or, when that file cannot be opened, by scoring the
presence of five marker binaries. This project models those three decisions
and proves what they promise:

- `init_systems.dfy` (module `InitSystems`, from `uservice.h`): the
  `init_system` enumeration with its two sentinels and the
  `init_system_name` table.
- `detection.dfy` (module `Detection`, `check_init_system`): the five probes
  become a `Markers` record; `CheckInitSystem` updates a confidence array in
  place and scans it exactly as the C loop does, and is proved equal to the
  specification function `Detect`, whose meaning is proved in lemmas.
- `config.dfy` (module `Config`): `fgets(fbuf, 16, …)` as `ReadLine`,
  `strcmp` as comparison of `CString`s, and the name-matching loop as
  `FirstMatch` / `MatchConfig`.
- `commands.dfy` (module `Commands`): the verb-to-command table `Dispatch`.
- `uservice.dfy` (module `Uservice`): `main` as the imperative method `Run`,
  proved equal to the outcome function `Invoke`. The global `init_system`
  is a local variable of `Run`; `check_init_system` hands its result back as
  an `Option` whose `None` is the fatal exit.
- `wrappers.dfy`: the `Option` type.

Behaviour of the code worth stating:

- Detection needs a strictly positive winning score, because the running
  best starts at 0 and is replaced only on a strictly greater score. A
  system with a net-negative (or zero) score never wins, even when some
  marker was found (`DetectFailsIffNoPositiveScore`, `SampleDetections`).
- An override file whose first line matches no name does not fall back to
  detection: `init_system` stays `UNSUPPORTED_INIT_SYSTEM` and the sanity
  check exits fatally (`OverrideSkipsDetection`).
- systemd has three marker binaries.

## Model

| member | source | states |
|---|---|---|
| InitSystems.Ordinal | uservice.h:1-6 | each enumerator's C value is below 4, and it is below `NUMBER_OF_SUPPORTED_INIT_SYSTEMS` exactly for `SYSTEMD` and `OPENRC` |
| InitSystems.FromOrdinal | uservice.h:1-6 | the enumerator with a given value; `Ordinal` of it gives that value back |
| InitSystems.EnumLayout | uservice.h:1-6 | `SYSTEMD`=0, `OPENRC`=1, `NUMBER_OF_SUPPORTED_INIT_SYSTEMS`=2 (the supported count), `UNSUPPORTED_INIT_SYSTEM`=3; both sentinels lie outside the supported range |
| InitSystems.Name | uservice.h:12 | every name-table row fits its 16-byte buffer with room for the terminator, contains no NUL, and ends in exactly one newline |
| InitSystems.NamesOfSupportedSystems | uservice.h:12 | the supported rows are `"systemd\n"` and `"openRC\n"` (case as written), they are pairwise distinct, and the sentinel rows read `"INVALID\n"` |
| Detection.SystemdScore | uservice.c:41-58 | systemd's confidence lies in -2..3 and is positive only if `systemctl` or the systemd daemon is present |
| Detection.OpenRCScore | uservice.c:61-73 | OpenRC's confidence lies in -2..2 and is positive exactly when both `rc-service` and `rc-update` are present |
| Detection.AnyFound | uservice.c:38-73 | `any_init_system_found` is false exactly when both scores sit at their minimum of -2 |
| Detection.Levels | uservice.c:37-73 | `init_system_confidence_levels` holds one entry per supported system, indexed by enumerator: systemd's score at `SYSTEMD`, OpenRC's at `OPENRC` |
| Detection.Probe | uservice.c:37-73 | the five probes, applied in place to the zeroed array, leave each system's score in its entry and report whether any marker was found |
| Detection.BestOf | uservice.c:76-83 | the scan from score 0 with strict `<` picks the first index holding the maximum, only if that maximum is positive; it picks nothing exactly when every score is at most 0 |
| Detection.Detect | uservice.c:75-94 | a successful detection never yields a sentinel |
| Detection.CheckInitSystem | uservice.c:13-94 | the in-place scoring and index scan compute exactly `Detect` |
| Detection.DetectFailsIffNoPositiveScore | uservice.c:75-94 | detection is fatal exactly when neither system scores above 0, so the `any_init_system_found` guard never decides the outcome alone |
| Detection.NoMarkerFails | uservice.c:75-93 | with no marker present detection is fatal |
| Detection.WinnerIsBest | uservice.c:76-90 | the detected system scores above 0 and at least as high as every supported system |
| Detection.TieGoesToSystemd | uservice.c:78-82 | equal positive scores select systemd |
| Detection.OpenRCWinsIffStrictlyAhead | uservice.c:78-86 | OpenRC is selected exactly when its score is positive and strictly above systemd's |
| Detection.SampleDetections | uservice.c:41-94 | all systemd markers alone give systemd; both OpenRC binaries alone give OpenRC; the journal daemon alone, or `systemctl` alone, is fatal |
| Config.ReadLine | uservice.c:163-164 | `fgets` stores a prefix of the file of at most 15 characters with no newline before its last character, and stops short of 15 characters and of the file's end only just after a newline |
| Config.CString | uservice.c:167 | the string `strcmp` sees is the buffer's prefix before the first NUL |
| Config.StrcmpEqual | uservice.c:167 | `strcmp(a, b) == 0`: holds for equal buffers, and on NUL-free strings it holds exactly when they are equal |
| Config.FirstMatch | uservice.c:166-171 | the loop breaks at the first row that compares equal; it runs to completion exactly when no examined row does |
| Config.MatchConfig | uservice.c:161-172 | a matched override is always a supported system |
| Config.StrcmpLineIffEqual | uservice.c:163-167 | on a line read by `fgets`, `strcmp` against a name row succeeds exactly when the line is that row, embedded NULs notwithstanding |
| Config.ReadLineKeepsFirstLine | uservice.c:163-164 | a newline-terminated first line that fits the 15-character budget is read whole, whatever follows |
| Config.MatchConfigExact | uservice.c:161-181 | the override selects systemd exactly when the line read is `"systemd\n"`, OpenRC exactly when it is `"openRC\n"`, and nothing otherwise |
| Config.FirstLineSelects | uservice.c:161-172 | a file whose first line is a supported name selects that system |
| Config.InvalidRowNeverSelected | uservice.c:166 | the sentinel rows are never compared: a file reading `"INVALID\n"` selects nothing |
| Commands.Dispatch | uservice.c:183-231 | a command is produced exactly for a supported system and one of the six verbs; systemd gets `systemctl <verb> <service>`, OpenRC `rc-service <service> <verb>` for start/stop/restart/status and `rc-update add <service> default` or `rc-update del <service> default` for enable/disable |
| Commands.ServicePassedThrough | uservice.c:183-231 | the service name fills exactly one argument slot unchanged; executable and the other arguments do not depend on it |
| Uservice.Status | uservice.c:88-232 | the process exits 0 exactly for the outcomes that pass the arity and sanity checks (after a child, or when no verb matched and `main` returns at its end); usage errors and fatal detection exit with failure |
| Uservice.Invoke | uservice.c:145-232 | the outcome of `main`: a usage error exactly when `argc != 3`; with three arguments, fatal exactly when no init system is resolved; a run command always comes from a known verb and carries the service argument |
| Uservice.Resolve | uservice.c:158-181 | the init system `main` proceeds with is always a supported one |
| Uservice.Run | uservice.c:145-232 | `main` as written (arity check, override loop with `break`, detection, sanity check, dispatch) yields exactly `Invoke` |
| Uservice.UsageErrorIffWrongArity | uservice.c:153-156 | the outcome is a usage error exactly when `argc != 3` |
| Uservice.ExitSuccessIffResolved | uservice.c:118-121 | the exit status is 0 exactly when the arity is right and an init system was resolved, whatever the verb or the child's status |
| Uservice.RunsIffKnownVerb | uservice.c:183-231 | a command runs exactly when the arity is right, a system was resolved and the verb is one of the six, and it is that table entry |
| Uservice.OverrideSkipsDetection | uservice.c:158-181 | with an override file the markers are never consulted, and the run is fatal exactly when the line read is neither name |
| Uservice.SampleEnableOnSystemd | uservice.c:215-218 | `uservice enable nginx` under a systemd override runs `systemctl enable nginx` |
| Uservice.SampleDisableOnOpenRC | uservice.c:224-230 | `uservice disable sshd` under an OpenRC override runs `rc-update del sshd default` |
| Uservice.SampleUnknownVerb | uservice.c:183-232 | `uservice reload nginx` runs nothing and exits 0 |

## Left out

- `fork`, `execlp`, `waitpid` (uservice.c:105-143): process plumbing. `Ran(command)` means "exec of this argument vector attempted in a child"; the parent then waits and exits 0. An exec failure ends only the child (its `exit(-1)`), so the parent's status is still 0, which `Ran` already gives. A fork failure, a fatal exit of the parent, is not modelled.
- `access()` probes (uservice.c:41-68): file-system I/O, replaced by the `Markers` record.
- `fopen`/`fgets`/`fclose` (uservice.c:160-172): file I/O; the file is `Option<string>` (`None` when it cannot be opened) and only what `fgets` stores is modelled. Read errors are not modelled.
- `printf`/`perror` messages and the `DEBUG` blocks (uservice.c:96-102, 146-151; uservice.h:8-10): output only.
- Characters of the override file stand for its bytes: `ReadLine`'s 15-character budget counts characters where `fgets` counts bytes. A match depends only on an ASCII prefix (`MatchConfigExact`, `ReadLineKeepsFirstLine`), so the outcome is the same.
- The exit status is abstract (`ExitSuccess` / `ExitFailure`); the platform's truncation of `exit(-1)` to 255 is not modelled.
- Running a command on the `NUMBER_OF_SUPPORTED_INIT_SYSTEMS` value of `init_system` cannot happen (neither the override loop nor detection assigns it); `Dispatch` returns no command for it, as the C branches do.
