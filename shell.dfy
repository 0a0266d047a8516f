/** Process spawning. Every `subprocess.run` of the installers becomes one
    Command appended to the host's log; the exit status is never inspected
    except where the installers do, and there it is an input of the model. */
module Shell {
  import opened Wrappers

  /** An argument vector and the working directory (`cwd=`), if one is given. */
  datatype Command = Command(argv: seq<string>, cwd: Option<string>)

  /** What a piece of installer code does: the commands it spawns, in order,
      and whether it then raises an exception. */
  datatype Effect = Effect(cmds: seq<Command>, raised: bool) {

    /** Run this, then `next` unless this raised. */
    function Then(next: Effect): Effect {
      if raised then this else Effect(cmds + next.cmds, next.raised)
    }
  }

  /** Code that spawns nothing and returns. */
  const Nothing := Effect([], false)
  /** Code that raises before spawning anything. */
  const Raise := Effect([], true)

  /** Sequencing is a monoid with `Nothing` as its unit, and an exception
      is absorbing: whatever comes after code that raised never runs. */
  lemma ThenLaws(a: Effect, b: Effect, c: Effect)
    ensures Nothing.Then(a) == a
    ensures a.Then(Nothing) == a
    ensures a.raised ==> a.Then(b) == a
    ensures a.Then(b).raised <==> a.raised || b.raised
    ensures a.Then(b).Then(c) == a.Then(b.Then(c))
  {
    assert a.cmds + [] == a.cmds;
    assert [] + a.cmds == a.cmds;
    assert a.cmds + b.cmds + c.cmds == a.cmds + (b.cmds + c.cmds);
  }

  /** Regrouping a concatenation of command logs. */
  lemma AppendAssoc(a: seq<Command>, b: seq<Command>, c: seq<Command>)
    ensures a + b + c == a + (b + c)
  {
  }

  /** The log after `step.Then(next)`, split at the end of `step`: a log
      that has not raised, followed by `step` and then `next`, regrouped. */
  lemma LogThen(log: seq<Command>, step: Effect, next: Effect)
    ensures !step.raised ==> log + step.Then(next).cmds == (log + step.cmds) + next.cmds
    ensures step.raised ==> log + step.Then(next).cmds == log + step.cmds && step.Then(next).raised
  {
    ThenLaws(Effect(log, false), step, next);
  }

  /** Whether `subprocess.run(argv, cwd=cwd)` raises before its child
      starts. `chdir("")` fails with ENOENT on every system, and subprocess
      reports a failed `chdir` in the child as `FileNotFoundError`; whether
      any other directory exists is a fact about the file system, which the
      model does not hold. */
  predicate ChdirFails(cwd: Option<string>) {
    cwd == Some("")
  }

  /** How a run of an installer ends. */
  datatype Outcome =
    | Completed   // main returned normally
    | Aborted     // an exception reached the top-level `except Exception`
    | Exit1       // `exit(1)`

  datatype Run = Run(log: seq<Command>, outcome: Outcome)

  /** The machine the installer runs on, seen through the processes spawned on it. */
  class Host {
    var log: seq<Command>

    constructor ()
      ensures log == []
    {
      log := [];
    }

    /** `subprocess.run(argv, cwd=...)`. */
    method Spawn(c: Command)
      modifies this
      ensures log == old(log) + [c]
    {
      log := log + [c];
    }
  }
}
