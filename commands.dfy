/** The verb-to-command table of `main` (uservice.c): which service-manager
    command each verb becomes on each init system. */
module Commands {
  import opened Wrappers
  import opened InitSystems

  /** An argument vector handed to the process runner: the executable,
      looked up on the search path, and its arguments in order. */
  datatype Command = Command(executable: string, args: seq<string>)

  /** The verbs `main` recognises (compared case-sensitively with `strcmp`). */
  const Verbs: seq<string> := ["start", "stop", "restart", "status", "enable", "disable"]

  /** The verbs `rc-service` takes directly. */
  const ServiceVerbs: seq<string> := ["start", "stop", "restart", "status"]

  /** The inner branch of one verb's block: the systemd command, else the
      OpenRC command, else nothing. */
  function ForInitSystem(sys: InitSystem, onSystemd: Command, onOpenRC: Command): Option<Command>
  {
    if sys == Systemd then Some(onSystemd)
    else if sys == OpenRC then Some(onOpenRC)
    else None
  }

  /** The command `main` hands to the process runner for `verb` and
      `service`. The verb blocks are tested one after another, but the verbs
      are distinct and a dispatched command ends the process, so at most one
      block fires; an unknown verb falls through all of them. */
  function Dispatch(verb: string, service: string, sys: InitSystem): (r: Option<Command>)
    ensures r.Some? <==> IsSupported(sys) && verb in Verbs
    ensures sys == Systemd && verb in Verbs ==> r == Some(Command("systemctl", [verb, service]))
    ensures sys == OpenRC && verb in ServiceVerbs ==> r == Some(Command("rc-service", [service, verb]))
    ensures sys == OpenRC && verb == "enable" ==> r == Some(Command("rc-update", ["add", service, "default"]))
    ensures sys == OpenRC && verb == "disable" ==> r == Some(Command("rc-update", ["del", service, "default"]))
  {
    if verb == "start" then
      ForInitSystem(sys, Command("systemctl", ["start", service]), Command("rc-service", [service, "start"]))
    else if verb == "stop" then
      ForInitSystem(sys, Command("systemctl", ["stop", service]), Command("rc-service", [service, "stop"]))
    else if verb == "restart" then
      ForInitSystem(sys, Command("systemctl", ["restart", service]), Command("rc-service", [service, "restart"]))
    else if verb == "status" then
      ForInitSystem(sys, Command("systemctl", ["status", service]), Command("rc-service", [service, "status"]))
    else if verb == "enable" then
      // OpenRC runlevel assumed to be "default"
      ForInitSystem(sys, Command("systemctl", ["enable", service]), Command("rc-update", ["add", service, "default"]))
    else if verb == "disable" then
      ForInitSystem(sys, Command("systemctl", ["disable", service]), Command("rc-update", ["del", service, "default"]))
    else
      None
  }

  /** The service name is passed through untouched: it fills exactly one
      argument slot, and the other slots and the executable do not depend on
      it. */
  lemma ServicePassedThrough(verb: string, sys: InitSystem, s1: string, s2: string)
    requires Dispatch(verb, s1, sys).Some?
    ensures Dispatch(verb, s2, sys).Some?
    ensures var c1, c2 := Dispatch(verb, s1, sys).value, Dispatch(verb, s2, sys).value;
      c1.executable == c2.executable && |c1.args| == |c2.args| &&
      exists k :: 0 <= k < |c1.args| && c1.args[k] == s1 && c2.args[k] == s2 &&
        forall j :: 0 <= j < |c1.args| && j != k ==> c1.args[j] == c2.args[j]
  {
    var c1, c2 := Dispatch(verb, s1, sys).value, Dispatch(verb, s2, sys).value;
    var k := if sys == Systemd || verb !in ServiceVerbs then 1 else 0;
    assert c1.args[k] == s1 && c2.args[k] == s2;
  }
}
