/** The commands of a backup job and the loop that runs them in a worker container
    (internal/daemon/daemon.go, runSpecJobsLocked; internal/docker/runtime.go, runWorker). */
module Worker {
  import opened Text
  import opened Sources

  datatype Command = BackupOf(source: Source) | ForgetOf(source: Source) | PruneAll

  /** A forget directly follows the backup of its source, and a prune is the last command. */
  ghost predicate WellOrdered(commands: seq<Command>) {
    && (forall i | 0 <= i < |commands| && commands[i].ForgetOf? ::
          i > 0 && commands[i - 1] == BackupOf(commands[i].source))
    && (forall i | 0 <= i < |commands| && commands[i].PruneAll? :: i == |commands| - 1)
  }

  /** The number of commands of a plan. */
  function PlanSize(sources: nat, retention: bool, prune: bool): nat {
    (if retention then 2 * sources else sources) + (if prune then 1 else 0)
  }

  /** The commands of a backup: every source is backed up, each followed by its forget if there is a retention, and
      a prune comes last if it was asked for. */
  ghost predicate IsPlan(commands: seq<Command>, sources: seq<Source>, retention: bool, prune: bool) {
    && |commands| == PlanSize(|sources|, retention, prune)
    && (forall k | 0 <= k < |sources| :: commands[if retention then 2 * k else k] == BackupOf(sources[k]))
    && (retention ==> forall k | 0 <= k < |sources| :: commands[2 * k + 1] == ForgetOf(sources[k]))
    && (prune ==> commands[|commands| - 1] == PruneAll)
  }

  /** The command-building loop of runSpecJobsLocked. */
  method BuildCommands(sources: seq<Source>, retention: bool, prune: bool) returns (commands: seq<Command>)
    ensures WellOrdered(commands) && IsPlan(commands, sources, retention, prune)
    ensures !prune ==> PruneAll !in commands
  {
    commands := [];
    for i := 0 to |sources|
      invariant WellOrdered(commands) && PruneAll !in commands
      invariant |commands| == if retention then 2 * i else i
      invariant forall k | 0 <= k < i :: commands[if retention then 2 * k else k] == BackupOf(sources[k])
      invariant retention ==> forall k | 0 <= k < i :: commands[2 * k + 1] == ForgetOf(sources[k])
    {
      commands := commands + [BackupOf(sources[i])];
      if retention {
        commands := commands + [ForgetOf(sources[i])];
      }
    }
    if prune {
      commands := commands + [PruneAll];
    }
  }

  /** runWorker: the commands in order, up to the first that fails. `started` tells whether the worker
      container could be created and started, exec(i) whether command i succeeded, with its output. */
  method RunWorker(commands: seq<Command>, started: bool, exec: nat -> Option<string>, capture: bool)
    returns (ran: nat, output: string, ok: bool)
    ensures ran <= |commands|
    ensures ok <==> commands == [] || (started && forall i | 0 <= i < |commands| :: exec(i).Some?)
    ensures ok ==> ran == |commands|
    ensures forall i: nat | i + 1 < ran :: exec(i).Some?
    ensures !ok ==> if started then ran > 0 && exec(ran - 1).None? else ran == 0
    ensures output == if ok && capture && commands != [] then exec(|commands| - 1).GetOr("") else ""
  {
    ran, output := 0, "";
    if commands == [] {
      return 0, "", true;
    }
    if !started {
      return 0, "", false;
    }
    for i := 0 to |commands|
      invariant ran == i
      invariant forall j: nat | j < i :: exec(j).Some?
      invariant output == if capture && i == |commands| then exec(|commands| - 1).GetOr("") else ""
    {
      var stdout := exec(i);
      ran := i + 1;
      if stdout.None? {
        return ran, "", false;
      }
      if capture && i == |commands| - 1 {
        output := stdout.value;
      }
    }
    ok := true;
  }

  /** Retention never precedes backup: whatever fails, a forget that runs comes right after a backup of the
      same source that succeeded in this run, and a prune that runs comes last, after everything succeeded. The
      plan succeeds exactly if the worker started and every command succeeded, and stops at the first that fails. */
  method RunBackupPlan(sources: seq<Source>, retention: bool, prune: bool, started: bool, exec: nat -> Option<string>)
    returns (commands: seq<Command>, ran: nat, ok: bool, count: nat)
    ensures IsPlan(commands, sources, retention, prune) && ran <= |commands|
    ensures forall i | 0 <= i < ran && commands[i].ForgetOf? ::
              i > 0 && commands[i - 1] == BackupOf(commands[i].source) && exec(i - 1).Some?
    ensures forall i | 0 <= i < ran && commands[i].PruneAll? ::
              i == |commands| - 1 && forall j: nat | j < i :: exec(j).Some?
    ensures ok <==> commands == [] || (started && forall i | 0 <= i < |commands| :: exec(i).Some?)
    ensures ok ==> ran == |commands|
    ensures !ok ==> if started then ran > 0 && exec(ran - 1).None? else ran == 0
    ensures forall i: nat | i + 1 < ran :: exec(i).Some?
    ensures count == if ok then |commands| else 0
  {
    commands := BuildCommands(sources, retention, prune);
    var output;
    ran, output, ok := RunWorker(commands, started, exec, false);
    count := if ok then |commands| else 0;
  }
}
