/** The agent's executor: which jobs it is running, and how a finished process is labelled. */
module Executors {
  import opened Types

  /** How far `run` has got: before the command, command started, RUNNING reported, final state reported. */
  datatype Stage = Launching | Spawned | Live | Reported

  datatype Proc = Proc(stage: Stage, killed: bool, timedOut: bool)

  /** How waiting for the process ended; a process killed by a signal has exit code -1. */
  datatype Wait = Clean | ExitError(code: int) | OtherError(text: string)

  datatype Verdict = Verdict(state: JobState, code: int, reason: string)

  /** The terminal state by exit and cause of death: the user's cancel wins over the timer. */
  function Classify(w: Wait, killed: bool, timedOut: bool): (v: Verdict)
    ensures Terminal(v.state)
    ensures v.state.Cancelled? <==> killed && !w.OtherError?
    ensures v.state.TimedOut? <==> timedOut && !killed && !w.OtherError?
    ensures v.state.Completed? <==> w.Clean? && !killed && !timedOut
    ensures v.code == match w case Clean => 0 case ExitError(code) => code case OtherError(_) => -1
    ensures w.OtherError? ==> v.reason == w.text
    ensures v.state.Cancelled? ==> v.reason == "cancelled by user"
    ensures v.state.TimedOut? ==> v.reason == "walltime exceeded"
    ensures !w.OtherError? && (v.state.Completed? || v.state.Failed?) ==> v.reason == ""
  {
    if w.OtherError? then Verdict(Failed, -1, w.text)
    else
      var code := if w.Clean? then 0 else w.code;
      if killed then Verdict(Cancelled, code, "cancelled by user")
      else if timedOut then Verdict(TimedOut, code, "walltime exceeded")
      else if w.Clean? then Verdict(Completed, 0, "")
      else Verdict(Failed, code, "")
  }

  type Procs = map<string, Proc>

  /** A job already running is not started again. */
  function Started(ps: Procs, job: string): Procs {
    if job in ps then ps else ps[job := Proc(Launching, false, false)]
  }

  function Killed(ps: Procs, job: string): Procs {
    if job in ps then ps[job := ps[job].(killed := true)] else ps
  }

  function StartedAll(ps: Procs, jobs: seq<string>): Procs {
    if jobs == [] then ps else Started(StartedAll(ps, jobs[..|jobs| - 1]), jobs[|jobs| - 1])
  }

  function KilledAll(ps: Procs, jobs: seq<string>): Procs {
    if jobs == [] then ps else Killed(KilledAll(ps, jobs[..|jobs| - 1]), jobs[|jobs| - 1])
  }

  /** Every job of the answer runs; those that ran already go on as they were, the others are about to launch. */
  lemma {:induction false} StartedAllIs(ps: Procs, jobs: seq<string>)
    ensures forall k :: k in StartedAll(ps, jobs) <==> k in ps || k in jobs
    ensures forall k | k in ps :: StartedAll(ps, jobs)[k] == ps[k]
    ensures forall k | k in jobs && k !in ps :: StartedAll(ps, jobs)[k] == Proc(Launching, false, false)
  {
    if jobs != [] {
      StartedAllIs(ps, jobs[..|jobs| - 1]);
      assert jobs == jobs[..|jobs| - 1] + [jobs[|jobs| - 1]];
    }
  }

  /** Exactly the jobs named are marked, and nothing else about any run changes. */
  lemma {:induction false} KilledAllIs(ps: Procs, jobs: seq<string>)
    ensures KilledAll(ps, jobs).Keys == ps.Keys
    ensures forall k | k in ps ::
              KilledAll(ps, jobs)[k] == Proc(ps[k].stage, ps[k].killed || k in jobs, ps[k].timedOut)
  {
    if jobs != [] {
      KilledAllIs(ps, jobs[..|jobs| - 1]);
      assert jobs == jobs[..|jobs| - 1] + [jobs[|jobs| - 1]];
    }
  }

  class Executor {
    var running: Procs

    constructor ()
      ensures running == map[]
    {
      running := map[];
    }

    method Start(job: string) returns (launched: bool)
      modifies this
      ensures running == Started(old(running), job) && launched == (job !in old(running))
      ensures job in running && forall k | k in old(running) :: k in running && running[k] == old(running)[k]
      ensures running.Keys == old(running).Keys + {job} && (launched ==> running[job] == Proc(Launching, false, false))
    {
      if job in running {
        return false;
      }
      running := running[job := Proc(Launching, false, false)];
      return true;
    }

    method Cancel(job: string)
      modifies this
      ensures running == Killed(old(running), job) && running.Keys == old(running).Keys
      ensures forall k | k in running :: running[k] == old(running)[k].(killed := k == job || old(running)[k].killed)
    {
      if job !in running {
        return;
      }
      running := running[job := running[job].(killed := true)];
    }

    /** One turn of the poll loop with the server's answer: first every start, then every cancel. */
    method HandlePoll(run: seq<string>, cancels: seq<string>)
      modifies this
      ensures running == KilledAll(StartedAll(old(running), run), cancels)
      ensures forall k :: k in running <==> k in old(running) || k in run
      ensures forall k | k in old(running) ::
                var was := old(running)[k]; running[k] == Proc(was.stage, was.killed || k in cancels, was.timedOut)
      ensures forall k | k in run && k !in old(running) :: running[k] == Proc(Launching, k in cancels, false)
    {
      for i := 0 to |run|
        invariant running == StartedAll(old(running), run[..i])
      {
        assert run[..i + 1][..i] == run[..i];
        var launched := Start(run[i]);
      }
      assert run[..|run|] == run;
      for i := 0 to |cancels|
        invariant running == KilledAll(StartedAll(old(running), run), cancels[..i])
      {
        assert cancels[..i + 1][..i] == cancels[..i];
        Cancel(cancels[i]);
      }
      assert cancels[..|cancels|] == cancels;
      StartedAllIs(old(running), run);
      KilledAllIs(StartedAll(old(running), run), cancels);
    }
  }
}
