/** The service controller: `runSystemctlCommand` (updater.go:221-232) runs
    `systemctl` with the given arguments and turns its exit into success or a
    failure that ends the update attempt. Running the process and printing its
    output are outside this model; how it exited is an input. */
module Service {
  import opened Wrappers

  /** How one `systemctl` invocation ended. */
  datatype ExitStatus = Exited(code: int) | NotLaunched

  datatype ServiceError =
    | NonZeroExit(args: seq<string>, code: int) // "systemctl finished with non-zero"
    | Unavailable(args: seq<string>)            // "failed to run systemctl"

  /** The service manager as seen by the updater: the exit of each command. */
  type Systemctl = seq<string> -> ExitStatus

  /** The outcome classification of updater.go:224-230. */
  function Classify(args: seq<string>, status: ExitStatus): (r: Option<ServiceError>)
    ensures r.None? <==> status == Exited(0)
    ensures r.Some? ==> r.value.args == args
    ensures r.Some? && r.value.Unavailable? <==> status.NotLaunched?
    ensures r.Some? && r.value.NonZeroExit? ==> status == Exited(r.value.code) && r.value.code != 0
  {
    match status
    case NotLaunched => Some(Unavailable(args))
    case Exited(code) => if code == 0 then None else Some(NonZeroExit(args, code))
  }

  /** The commands run from a fixed list, and the failure that stopped it. */
  datatype CommandRun = CommandRun(issued: seq<seq<string>>, failure: Option<ServiceError>)

  /** Runs the commands in order and stops at the first that fails, as the
      consecutive `runSystemctlCommand` calls of updater.go:175-179 and
      updater.go:208-216 do. */
  function RunCommands(systemctl: Systemctl, cs: seq<seq<string>>): (r: CommandRun)
    ensures |r.issued| <= |cs| && r.issued == cs[..|r.issued|]
    ensures forall i :: 0 <= i < |r.issued| - 1 ==> Classify(cs[i], systemctl(cs[i])).None?
    ensures r.failure.None? ==> r.issued == cs
    ensures r.failure.None? ==> forall i :: 0 <= i < |cs| ==> Classify(cs[i], systemctl(cs[i])).None?
    ensures r.failure.Some? ==> |r.issued| >= 1
    ensures r.failure.Some? ==>
              r.failure == Classify(cs[|r.issued| - 1], systemctl(cs[|r.issued| - 1]))
  {
    if cs == [] then CommandRun([], None)
    else
      match Classify(cs[0], systemctl(cs[0]))
      case Some(f) => CommandRun([cs[0]], Some(f))
      case None =>
        var rest := RunCommands(systemctl, cs[1..]);
        CommandRun([cs[0]] + rest.issued, rest.failure)
  }

  /** The command that stops the service before the binary is replaced. */
  function StopCommands(name: string): seq<seq<string>> {
    [["stop", name]]
  }

  /** The start sequence after a successful replacement; the settle delay
      between `enable` and `status` is not modelled. */
  function StartCommands(name: string): seq<seq<string>> {
    [["daemon-reload"], ["start", name], ["enable", name], ["status", name]]
  }
}
