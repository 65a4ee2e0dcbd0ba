/**
 * Server and agents together: rows are assigned and cancelled, agents poll in separate reads and
 * handle the answer entry by entry, processes run and report. Every part interleaves freely.
 */
module Execution {
  import opened Types
  import opened Stores
  import opened Executors

  datatype Slot = Slot(node: string, job: string)

  /** A poll in progress: what is still to be started, and, once read, what is still to be cancelled. */
  datatype Poll = Poll(run: seq<string>, cancels: Option<seq<string>>)

  /** `launches`, `commands` and `verdicts` count, per slot, runs begun, commands started and final reports. */
  datatype Sys = Sys(
    jobs: JobTable, agents: map<string, Procs>, polls: map<string, Poll>,
    launches: multiset<Slot>, commands: multiset<Slot>, verdicts: multiset<Slot>)

  datatype Event =
    | Submit(j: Job)
    | CancelJob(id: string, t: Time)
    | Assign(id: string, nodeId: string, nodeName: string, devices: seq<AllocDevice>)
    | PollRun(node: string, ids: seq<string>)
    | PollCancels(node: string, ids: seq<string>)
    | Launch(node: string)
    | Kill(node: string)
    | PollDone(node: string)
    | Fail(slot: Slot, why: string, t: Time)
    | Spawn(slot: Slot)
    | ReportRunning(slot: Slot, t: Time)
    | Expire(slot: Slot)
    | Exit(slot: Slot, w: Wait, t: Time)
    | Remove(slot: Slot)

  function ProcsOf(s: Sys, node: string): Procs {
    if node in s.agents then s.agents[node] else map[]
  }

  predicate Runs(s: Sys, x: Slot) {
    x.job in ProcsOf(s, x.node)
  }

  function ProcAt(s: Sys, x: Slot): Proc
    requires Runs(s, x)
  {
    ProcsOf(s, x.node)[x.job]
  }

  predicate InStage(s: Sys, x: Slot, stage: Stage) {
    Runs(s, x) && ProcAt(s, x).stage == stage
  }

  function SetProc(s: Sys, x: Slot, p: Proc): Sys {
    s.(agents := s.agents[x.node := ProcsOf(s, x.node)[x.job := p]])
  }

  /** The rows of the node in this state, in some order. */
  ghost predicate ListsIds(ids: seq<string>, jobs: JobTable, node: string, state: JobState) {
    forall id :: id in ids <==> id in jobs && jobs[id].nodeId == node && jobs[id].state == state
  }

  ghost predicate Enabled(s: Sys, e: Event) {
    match e
    case Submit(j) => j.state.Pending? && j.nodeId == "" && j.id != ""
    case CancelJob(_, _) => true
    case Assign(_, nodeId, _, _) => nodeId != ""
    case PollRun(node, ids) => node != "" && node !in s.polls && ListsIds(ids, s.jobs, node, Assigned)
    case PollCancels(node, ids) =>
      node in s.polls && s.polls[node].cancels.None? && ListsIds(ids, s.jobs, node, Cancelling)
    case Launch(node) => node in s.polls && s.polls[node].cancels.Some? && s.polls[node].run != []
    case Kill(node) =>
      node in s.polls && s.polls[node].run == [] && s.polls[node].cancels.Some? && s.polls[node].cancels.value != []
    case PollDone(node) => node in s.polls && s.polls[node] == Poll([], Some([]))
    case Fail(x, _, _) => InStage(s, x, Launching)
    case Spawn(x) => InStage(s, x, Launching)
    case ReportRunning(x, _) => InStage(s, x, Spawned)
    case Expire(x) => InStage(s, x, Live) && x.job in s.jobs && s.jobs[x.job].walltime > 0
    case Exit(x, _, _) => InStage(s, x, Live)
    case Remove(x) => InStage(s, x, Reported)
  }

  function SetStage(s: Sys, x: Slot, stage: Stage): Sys
    requires Runs(s, x)
  {
    SetProc(s, x, ProcAt(s, x).(stage := stage))
  }

  /** A final report: the row takes the label, and the run only has its cleanup left. */
  function Finish(s: Sys, x: Slot, v: Verdict, t: Time): Sys
    requires Runs(s, x)
  {
    SetStage(s, x, Reported).(
      jobs := ReportRow(s.jobs, x.job, v.state, v.code, v.reason, t), verdicts := s.verdicts + multiset{x})
  }

  ghost function Apply(s: Sys, e: Event): Sys
    requires Enabled(s, e)
  {
    match e
    case Submit(j) => s.(jobs := CreateRow(s.jobs, j))
    case CancelJob(id, t) => s.(jobs := CancelRow(s.jobs, id, t))
    case Assign(id, nodeId, nodeName, devices) => s.(jobs := AssignRow(s.jobs, id, nodeId, nodeName, devices))
    case PollRun(node, ids) => s.(polls := s.polls[node := Poll(ids, None)])
    case PollCancels(node, ids) => s.(polls := s.polls[node := s.polls[node].(cancels := Some(ids))])
    case Launch(node) =>
      var x := Slot(node, s.polls[node].run[0]);
      s.(polls := s.polls[node := s.polls[node].(run := s.polls[node].run[1..])],
         agents := s.agents[node := Started(ProcsOf(s, node), x.job)],
         launches := if Runs(s, x) then s.launches else s.launches + multiset{x})
    case Kill(node) =>
      var ids := s.polls[node].cancels.value;
      s.(polls := s.polls[node := s.polls[node].(cancels := Some(ids[1..]))],
         agents := s.agents[node := Killed(ProcsOf(s, node), ids[0])])
    case PollDone(node) => s.(polls := s.polls - {node})
    case Fail(x, why, t) => Finish(s, x, Verdict(Failed, -1, why), t)
    case Spawn(x) => SetStage(s, x, Spawned).(commands := s.commands + multiset{x})
    case ReportRunning(x, t) => SetStage(s, x, Live).(jobs := ReportRow(s.jobs, x.job, JobState.Running, 0, "", t))
    case Expire(x) => SetProc(s, x, ProcAt(s, x).(timedOut := true))
    case Exit(x, w, t) => Finish(s, x, Classify(w, ProcAt(s, x).killed, ProcAt(s, x).timedOut), t)
    case Remove(x) => s.(agents := s.agents[x.node := ProcsOf(s, x.node) - {x.job}])
  }

  const INITIAL := Sys(map[], map[], map[], multiset{}, multiset{}, multiset{})

  /** States and the events between them. */
  ghost predicate Path(ss: seq<Sys>, es: seq<Event>) {
    && |ss| == |es| + 1
    && forall i | 0 <= i < |es| :: Enabled(ss[i], es[i]) && ss[i + 1] == Apply(ss[i], es[i])
  }

  /** A run from nothing. */
  ghost predicate Behavior(ss: seq<Sys>, es: seq<Event>) {
    Path(ss, es) && ss[0] == INITIAL
  }

  /** The run a start is about. */
  function StartOf(s: Sys, e: Event): Slot
    requires e.Launch? && e.node in s.polls && s.polls[e.node].run != []
  {
    Slot(e.node, s.polls[e.node].run[0])
  }

  /** The entry about to be started has already run to its end: its final report came after the poll read it. */
  ghost predicate Stale(s: Sys, e: Event) {
    && e.Launch? && Enabled(s, e)
    && var x := StartOf(s, e);
       !Runs(s, x) && x.job in s.jobs && Terminal(s.jobs[x.job].state)
  }

  // --- The invariant of runs without stale starts ---

  ghost predicate RowInv(s: Sys, id: string)
    requires id in s.jobs
  {
    var j := s.jobs[id];
    && j.id == id && id != ""
    && (j.state.Pending? ==> j.nodeId == "")
    && ((Terminal(j.state) || j.state.Running?) && j.nodeId != "" ==> s.launches[Slot(j.nodeId, id)] >= 1)
  }

  ghost predicate SlotInv(s: Sys, x: Slot) {
    && (s.launches[x] > 0 ==> x.job in s.jobs && s.jobs[x.job].nodeId == x.node && x.node != "")
    && s.commands[x] <= s.launches[x] <= 1
    && if Runs(s, x) then
         && s.launches[x] == 1
         && (ProcAt(s, x).stage.Launching? ==> s.commands[x] == 0)
         && (ProcAt(s, x).killed ==> s.jobs[x.job].state.Cancelling? || Terminal(s.jobs[x.job].state))
         && (ProcAt(s, x).timedOut ==> s.jobs[x.job].walltime > 0)
         && if ProcAt(s, x).stage.Reported? then s.verdicts[x] == 1 && Terminal(s.jobs[x.job].state)
            else s.verdicts[x] == 0 && !Terminal(s.jobs[x.job].state) && !s.jobs[x.job].state.Pending?
       else
         && s.verdicts[x] == s.launches[x]
         && (s.launches[x] == 1 ==> Terminal(s.jobs[x.job].state))
  }

  ghost predicate PollInv(s: Sys, node: string)
    requires node in s.polls
  {
    && node != ""
    && (forall id | id in s.polls[node].run :: id in s.jobs && s.jobs[id].nodeId == node)
    && (s.polls[node].cancels.Some? ==> forall id | id in s.polls[node].cancels.value ::
          id in s.jobs && s.jobs[id].nodeId == node && (s.jobs[id].state.Cancelling? || Terminal(s.jobs[id].state)))
  }

  ghost predicate Inv(s: Sys) {
    && (forall id | id in s.jobs :: RowInv(s, id))
    && (forall x :: SlotInv(s, x))
    && (forall node | node in s.polls :: PollInv(s, node))
  }

  /** A statement by the scheduler or a user. */
  predicate OnTable(e: Event) {
    e.Submit? || e.CancelJob? || e.Assign?
  }

  /** What such a statement may do to a row: nothing to one an agent has begun, except mark it for cancelling. */
  ghost predicate TableMove(a: Job, b: Job) {
    && b.walltime == a.walltime
    && (a.nodeId != "" ==> b.nodeId == a.nodeId)
    && (a.nodeId != "" && !a.state.Pending? ==>
          b.state == a.state || (b.state.Cancelling? && !Terminal(a.state)))
  }

  lemma TableEventRow(s: Sys, e: Event, id: string)
    requires Inv(s) && Enabled(s, e) && OnTable(e) && id in s.jobs
    ensures id in Apply(s, e).jobs && TableMove(s.jobs[id], Apply(s, e).jobs[id])
  {
    assert RowInv(s, id);
  }

  lemma TableEventRowInv(s: Sys, e: Event, id: string)
    requires Inv(s) && Enabled(s, e) && OnTable(e) && id in Apply(s, e).jobs
    ensures RowInv(Apply(s, e), id)
  {
    if id in s.jobs {
      assert RowInv(s, id);
    }
  }

  lemma TableEventPoll(s: Sys, s': Sys, node: string)
    requires Inv(s) && s'.polls == s.polls && node in s.polls
    requires forall id | id in s.jobs :: id in s'.jobs && TableMove(s.jobs[id], s'.jobs[id])
    ensures PollInv(s', node)
  {
    assert PollInv(s, node);
    forall id | id in s.jobs ensures RowInv(s, id) {}
  }

  lemma TableEventKeepsInv(s: Sys, e: Event)
    requires Inv(s) && Enabled(s, e) && OnTable(e)
    ensures Inv(Apply(s, e))
  {
    var s' := Apply(s, e);
    forall id | id in s.jobs ensures id in s'.jobs && TableMove(s.jobs[id], s'.jobs[id]) { TableEventRow(s, e, id); }
    forall id | id in s'.jobs ensures RowInv(s', id) { TableEventRowInv(s, e, id); }
    forall x ensures SlotInv(s', x) {
      assert SlotInv(s, x);
      if s.launches[x] > 0 {
        assert RowInv(s, x.job);
      }
    }
    forall node | node in s'.polls ensures PollInv(s', node) { TableEventPoll(s, s', node); }
  }

  lemma PollEventKeepsInv(s: Sys, e: Event)
    requires Inv(s) && Enabled(s, e) && (e.PollRun? || e.PollCancels? || e.PollDone?)
    ensures Inv(Apply(s, e))
  {
    var s' := Apply(s, e);
    assert s'.jobs == s.jobs && s'.agents == s.agents && s'.launches == s.launches;
    assert s'.commands == s.commands && s'.verdicts == s.verdicts;
    forall id | id in s'.jobs ensures RowInv(s', id) { assert RowInv(s, id); }
    forall x ensures SlotInv(s', x) { assert SlotInv(s, x); }
    forall node | node in s'.polls ensures PollInv(s', node) {
      if node in s.polls { assert PollInv(s, node); }
    }
  }

  /**
   * The heart of deduplication: among the entries of a poll, one that is not running has been
   * launched before exactly when its row is already terminal.
   */
  lemma RelaunchIffTerminal(s: Sys, node: string, id: string)
    requires Inv(s) && node in s.polls && id in s.polls[node].run && !Runs(s, Slot(node, id))
    ensures id in s.jobs
    ensures s.launches[Slot(node, id)] >= 1 <==> Terminal(s.jobs[id].state)
  {
    assert PollInv(s, node) && SlotInv(s, Slot(node, id)) && RowInv(s, id);
  }

  lemma LaunchKeepsInv(s: Sys, e: Event)
    requires Inv(s) && Enabled(s, e) && e.Launch? && !Stale(s, e)
    ensures Inv(Apply(s, e))
  {
    var s', node := Apply(s, e), e.node;
    var x := Slot(node, s.polls[node].run[0]);
    assert PollInv(s, node) && SlotInv(s, x) && RowInv(s, x.job);
    forall id | id in s'.jobs ensures RowInv(s', id) { assert RowInv(s, id); }
    forall y ensures SlotInv(s', y) {
      assert SlotInv(s, y);
      if y == x && !Runs(s, x) {
        RelaunchIffTerminal(s, node, x.job);
      }
    }
    forall n | n in s'.polls ensures PollInv(s', n) { assert PollInv(s, n); }
  }

  lemma KillKeepsInv(s: Sys, e: Event)
    requires Inv(s) && Enabled(s, e) && e.Kill?
    ensures Inv(Apply(s, e))
  {
    var s', node := Apply(s, e), e.node;
    assert PollInv(s, node);
    forall id | id in s'.jobs ensures RowInv(s', id) { assert RowInv(s, id); }
    forall y ensures SlotInv(s', y) { assert SlotInv(s, y); }
    forall n | n in s'.polls ensures PollInv(s', n) { assert PollInv(s, n); }
  }

  lemma SpawnKeepsInv(s: Sys, e: Event)
    requires Inv(s) && Enabled(s, e) && e.Spawn?
    ensures Inv(Apply(s, e))
  {
    var s', x := Apply(s, e), e.slot;
    assert SlotInv(s, x) && RowInv(s, x.job);
    forall id | id in s'.jobs ensures RowInv(s', id) { assert RowInv(s, id); }
    forall y ensures SlotInv(s', y) { assert SlotInv(s, y); }
    forall n | n in s'.polls ensures PollInv(s', n) { assert PollInv(s, n); }
  }

  lemma ReportedRow(s: Sys, x: Slot, t: Time, s': Sys)
    requires Inv(s) && InStage(s, x, Spawned)
    requires s' == SetStage(s, x, Live).(jobs := RunRow(s.jobs, x.job, t))
    ensures forall id | id in s'.jobs :: RowInv(s', id)
    ensures forall n | n in s'.polls :: PollInv(s', n)
  {
    assert SlotInv(s, x) && RowInv(s, x.job);
    forall id | id in s'.jobs ensures RowInv(s', id) { assert RowInv(s, id); }
    forall n | n in s'.polls ensures PollInv(s', n) { assert PollInv(s, n); }
  }

  lemma ReportedSlots(s: Sys, x: Slot, t: Time, s': Sys)
    requires Inv(s) && InStage(s, x, Spawned)
    requires s' == SetStage(s, x, Live).(jobs := RunRow(s.jobs, x.job, t))
    ensures forall y :: SlotInv(s', y)
  {
    assert SlotInv(s, x) && RowInv(s, x.job);
    forall y ensures SlotInv(s', y) { assert SlotInv(s, y); }
  }

  lemma ReportKeepsInv(s: Sys, e: Event)
    requires Inv(s) && Enabled(s, e) && e.ReportRunning?
    ensures Inv(Apply(s, e))
  {
    assert SlotInv(s, e.slot) && RowInv(s, e.slot.job);
    ReportedRow(s, e.slot, e.t, Apply(s, e));
    ReportedSlots(s, e.slot, e.t, Apply(s, e));
  }

  lemma ExpireKeepsInv(s: Sys, e: Event)
    requires Inv(s) && Enabled(s, e) && e.Expire?
    ensures Inv(Apply(s, e))
  {
    var s', x := Apply(s, e), e.slot;
    assert SlotInv(s, x) && RowInv(s, x.job);
    forall id | id in s'.jobs ensures RowInv(s', id) { assert RowInv(s, id); }
    forall y ensures SlotInv(s', y) { assert SlotInv(s, y); }
    forall n | n in s'.polls ensures PollInv(s', n) { assert PollInv(s, n); }
  }

  lemma RemoveKeepsInv(s: Sys, e: Event)
    requires Inv(s) && Enabled(s, e) && e.Remove?
    ensures Inv(Apply(s, e))
  {
    var s', x := Apply(s, e), e.slot;
    assert SlotInv(s, x) && RowInv(s, x.job);
    forall id | id in s'.jobs ensures RowInv(s', id) { assert RowInv(s, id); }
    forall y ensures SlotInv(s', y) { assert SlotInv(s, y); }
    forall n | n in s'.polls ensures PollInv(s', n) { assert PollInv(s, n); }
  }

  lemma FinishKeepsInv(s: Sys, x: Slot, v: Verdict, t: Time)
    requires Inv(s) && Runs(s, x) && !ProcAt(s, x).stage.Reported? && Terminal(v.state)
    ensures Inv(Finish(s, x, v, t))
  {
    var s' := Finish(s, x, v, t);
    assert SlotInv(s, x) && RowInv(s, x.job);
    forall id | id in s'.jobs ensures RowInv(s', id) { assert RowInv(s, id); }
    forall y ensures SlotInv(s', y) {
      assert SlotInv(s, y);
      if y.job == x.job && y != x {
        assert s.launches[y] == 0;
      }
    }
    forall n | n in s'.polls ensures PollInv(s', n) { assert PollInv(s, n); }
  }

  lemma InvNext(s: Sys, e: Event)
    requires Inv(s) && Enabled(s, e) && !Stale(s, e)
    ensures Inv(Apply(s, e))
  {
    match e
    case Launch(_) => LaunchKeepsInv(s, e);
    case Kill(_) => KillKeepsInv(s, e);
    case Fail(x, why, t) => FinishKeepsInv(s, x, Verdict(Failed, -1, why), t);
    case Exit(x, w, t) => FinishKeepsInv(s, x, Classify(w, ProcAt(s, x).killed, ProcAt(s, x).timedOut), t);
    case Spawn(_) => SpawnKeepsInv(s, e);
    case ReportRunning(_, _) => ReportKeepsInv(s, e);
    case Expire(_) => ExpireKeepsInv(s, e);
    case Remove(_) => RemoveKeepsInv(s, e);
    case _ => if OnTable(e) { TableEventKeepsInv(s, e); } else { PollEventKeepsInv(s, e); }
  }

  // --- Over whole runs ---

  ghost predicate Fresh(ss: seq<Sys>, es: seq<Event>, k: nat)
    requires |ss| == |es| + 1 && k <= |es|
  {
    forall i | 0 <= i < k :: !Stale(ss[i], es[i])
  }

  lemma {:induction false} FreshPathsKeepInv(ss: seq<Sys>, es: seq<Event>, k: nat)
    requires Path(ss, es) && Inv(ss[0]) && k <= |es| && Fresh(ss, es, k)
    ensures Inv(ss[k])
  {
    hide Inv, Stale, Enabled, Apply;
    if k > 0 {
      FreshPathsKeepInv(ss, es, k - 1);
      InvNext(ss[k - 1], es[k - 1]);
    }
  }

  lemma FreshRunsKeepInv(ss: seq<Sys>, es: seq<Event>, k: nat)
    requires Behavior(ss, es) && k <= |es| && Fresh(ss, es, k)
    ensures Inv(ss[k])
  {
    FreshPathsKeepInv(ss, es, k);
  }

  /**
   * At most once, only on the assigned node, and with one final report: what a run without stale
   * starts guarantees for every job in every state.
   */
  lemma AtMostOnce(ss: seq<Sys>, es: seq<Event>, k: nat, x: Slot)
    requires Behavior(ss, es) && k <= |es| && Fresh(ss, es, k)
    ensures ss[k].commands[x] <= ss[k].launches[x] <= 1 && ss[k].verdicts[x] <= ss[k].launches[x]
    ensures ss[k].launches[x] == 1 ==>
              && x.job in ss[k].jobs && ss[k].jobs[x.job].nodeId == x.node
              && (forall y | y != x && y.job == x.job :: ss[k].launches[y] == 0)
              && (!Runs(ss[k], x) ==> ss[k].verdicts[x] == 1 && Terminal(ss[k].jobs[x.job].state))
  {
    FreshRunsKeepInv(ss, es, k);
    assert SlotInv(ss[k], x);
    forall y | y != x && y.job == x.job && ss[k].launches[x] == 1 ensures ss[k].launches[y] == 0 {
      assert SlotInv(ss[k], y);
    }
  }

  lemma StaleStartRepeats(s: Sys, e: Event)
    requires Inv(s) && Stale(s, e)
    ensures Apply(s, e).launches[StartOf(s, e)] == 2
  {
    RelaunchIffTerminal(s, e.node, StartOf(s, e).job);
    assert SlotInv(s, StartOf(s, e));
  }

  /** Exactly when: a run launches every job at most once if and only if none of its starts is stale. */
  lemma {:induction false} OnceIffFresh(ss: seq<Sys>, es: seq<Event>, k: nat)
    requires Behavior(ss, es) && k <= |es|
    ensures Fresh(ss, es, k) <==> forall i, x | 0 <= i <= k :: ss[i].launches[x] <= 1
  {
    if Fresh(ss, es, k) {
      forall i, x | 0 <= i <= k ensures ss[i].launches[x] <= 1 {
        AtMostOnce(ss, es, i, x);
      }
    } else {
      OnceIffFresh(ss, es, k - 1);
      if Fresh(ss, es, k - 1) {
        FreshRunsKeepInv(ss, es, k - 1);
        StaleStartRepeats(ss[k - 1], es[k - 1]);
        assert ss[k].launches[StartOf(ss[k - 1], es[k - 1])] == 2;
      }
    }
  }

  lemma FinishSparesTerminal(s: Sys, x: Slot, v: Verdict, t: Time, id: string)
    requires Inv(s) && Runs(s, x) && !ProcAt(s, x).stage.Reported?
    requires id in s.jobs && Terminal(s.jobs[id].state)
    ensures id in Finish(s, x, v, t).jobs && Finish(s, x, v, t).jobs[id] == s.jobs[id]
  {
    assert SlotInv(s, x);
  }

  lemma TableSparesTerminal(s: Sys, e: Event, id: string)
    requires Enabled(s, e) && (OnTable(e) || e.ReportRunning?) && id in s.jobs && Terminal(s.jobs[id].state)
    ensures id in Apply(s, e).jobs && Apply(s, e).jobs[id].state == s.jobs[id].state
  {
  }

  /** Although the final report is unguarded, a terminal label never changes in a run without stale starts. */
  lemma TerminalStepIsFinal(s: Sys, e: Event, id: string)
    requires Inv(s) && Enabled(s, e) && id in s.jobs && Terminal(s.jobs[id].state)
    ensures id in Apply(s, e).jobs && Apply(s, e).jobs[id].state == s.jobs[id].state
  {
    if e.Fail? {
      FinishSparesTerminal(s, e.slot, Verdict(Failed, -1, e.why), e.t, id);
    } else if e.Exit? {
      var p := ProcAt(s, e.slot);
      FinishSparesTerminal(s, e.slot, Classify(e.w, p.killed, p.timedOut), e.t, id);
    } else if OnTable(e) || e.ReportRunning? {
      TableSparesTerminal(s, e, id);
    }
  }

  lemma {:induction false} TerminalIsFinal(ss: seq<Sys>, es: seq<Event>, i: nat, k: nat, id: string)
    requires Path(ss, es) && Inv(ss[0]) && i <= k <= |es| && Fresh(ss, es, k)
    requires id in ss[i].jobs && Terminal(ss[i].jobs[id].state)
    ensures id in ss[k].jobs && ss[k].jobs[id].state == ss[i].jobs[id].state
  {
    hide Inv, Stale, Enabled, Apply;
    if i < k {
      TerminalIsFinal(ss, es, i, k - 1, id);
      FreshPathsKeepInv(ss, es, k - 1);
      TerminalStepIsFinal(ss[k - 1], es[k - 1], id);
    }
  }

  // --- The label a run ends with ---

  /** A cancel of the job has been handled since its run in slot `x` began. */
  ghost predicate KilledSince(ss: seq<Sys>, es: seq<Event>, k: nat, x: Slot)
    requires Path(ss, es) && k <= |es|
  {
    && k > 0 && Runs(ss[k - 1], x)
    && (KilledSince(ss, es, k - 1, x)
        || (es[k - 1].Kill? && es[k - 1].node == x.node && ss[k - 1].polls[x.node].cancels.value[0] == x.job))
  }

  /** The walltime timer of the run in slot `x` has gone off since it began. */
  ghost predicate ExpiredSince(ss: seq<Sys>, es: seq<Event>, k: nat, x: Slot)
    requires Path(ss, es) && k <= |es|
  {
    && k > 0 && Runs(ss[k - 1], x)
    && (ExpiredSince(ss, es, k - 1, x) || es[k - 1] == Expire(x))
  }

  /** What one event does to the marks of a run that goes on. */
  ghost predicate MarksGoOn(s: Sys, e: Event, s': Sys, x: Slot)
    requires Enabled(s, e) && Runs(s, x) && Runs(s', x)
  {
    && (ProcAt(s', x).killed <==>
          ProcAt(s, x).killed || (e.Kill? && e.node == x.node && s.polls[x.node].cancels.value[0] == x.job))
    && (ProcAt(s', x).timedOut <==> ProcAt(s, x).timedOut || e == Expire(x))
  }

  lemma StageKeepsMarks(s: Sys, y: Slot, stage: Stage, x: Slot)
    requires Runs(s, y)
    ensures Runs(SetStage(s, y, stage), x) <==> Runs(s, x)
    ensures Runs(s, x) ==>
              var p, p' := ProcAt(s, x), ProcAt(SetStage(s, y, stage), x);
              p'.killed == p.killed && p'.timedOut == p.timedOut
  {
  }

  lemma RunGoesOn(s: Sys, e: Event, x: Slot)
    requires Enabled(s, e) && Runs(s, x) && Runs(Apply(s, e), x)
    ensures MarksGoOn(s, e, Apply(s, e), x)
  {
    hide ReportRow, CreateRow, CancelRow, AssignRow, Classify, SetStage, ListsIds;
    match e
    case Fail(y, _, _) => StageKeepsMarks(s, y, Reported, x);
    case Exit(y, _, _) => StageKeepsMarks(s, y, Reported, x);
    case Spawn(y) => StageKeepsMarks(s, y, Spawned, x);
    case ReportRunning(y, _) => StageKeepsMarks(s, y, Live, x);
    case _ =>
  }

  lemma RunBegins(s: Sys, e: Event, x: Slot)
    requires Enabled(s, e) && !Runs(s, x) && Runs(Apply(s, e), x)
    ensures !ProcAt(Apply(s, e), x).killed && !ProcAt(Apply(s, e), x).timedOut
  {
    hide ReportRow, CreateRow, CancelRow, AssignRow, Classify, SetStage, ListsIds;
    match e
    case Fail(y, _, _) => StageKeepsMarks(s, y, Reported, x);
    case Exit(y, _, _) => StageKeepsMarks(s, y, Reported, x);
    case Spawn(y) => StageKeepsMarks(s, y, Spawned, x);
    case ReportRunning(y, _) => StageKeepsMarks(s, y, Live, x);
    case _ =>
  }

  /** A run carries the two marks exactly if a cancel was handled, or the timer went off, while it ran. */
  lemma {:induction false} FlagsAreHistory(ss: seq<Sys>, es: seq<Event>, k: nat, x: Slot)
    requires Behavior(ss, es) && k <= |es| && Runs(ss[k], x)
    ensures ProcAt(ss[k], x).killed <==> KilledSince(ss, es, k, x)
    ensures ProcAt(ss[k], x).timedOut <==> ExpiredSince(ss, es, k, x)
  {
    hide Apply, Enabled;
    if k > 0 {
      if Runs(ss[k - 1], x) {
        RunGoesOn(ss[k - 1], es[k - 1], x);
        FlagsAreHistory(ss, es, k - 1, x);
      } else {
        RunBegins(ss[k - 1], es[k - 1], x);
      }
    }
  }

  /**
   * The label of a run that ends: CANCELLED exactly if a cancel of the job was handled while it ran, TIMEOUT
   * exactly if its timer went off and no cancel was handled, COMPLETED exactly if it exited cleanly with
   * neither, and FAILED otherwise; a failed wait is always FAILED.
   */
  lemma LabelIs(ss: seq<Sys>, es: seq<Event>, k: nat, x: Slot, w: Wait, t: Time)
    requires Behavior(ss, es) && k < |es| && es[k] == Exit(x, w, t) && x.job in ss[k].jobs && x.job != ""
    ensures x.job in ss[k + 1].jobs
    ensures var killed, expired := KilledSince(ss, es, k, x), ExpiredSince(ss, es, k, x);
            ss[k + 1].jobs[x.job].state ==
              if w.OtherError? then Failed
              else if killed then Cancelled
              else if expired then TimedOut
              else if w.Clean? then Completed
              else Failed
  {
    FlagsAreHistory(ss, es, k, x);
    assert ss[k + 1] == Apply(ss[k], es[k]);
  }

  /** What the reports write, column by column. */
  lemma ReportsAre(s: Sys, e: Event)
    requires (e.ReportRunning? || e.Fail? || e.Exit?) && Enabled(s, e) && e.slot.job in s.jobs && e.slot.job != ""
    ensures var was, id := s.jobs[e.slot.job], e.slot.job;
            && id in Apply(s, e).jobs
            && var row := Apply(s, e).jobs[id];
               match e
               case ReportRunning(_, t) =>
                 row == if was.state != Assigned then was
                        else was.(state := JobState.Running, startAt := Stored(Some(t)))
               case Fail(_, why, t) =>
                 row == was.(state := Failed, exitCode := -1, reason := why, endAt := Stored(Some(t)))
               case Exit(_, w, t) =>
                 && row == was.(state := row.state, exitCode := row.exitCode, reason := row.reason, endAt := row.endAt)
                 && row.exitCode == (match w case Clean => 0 case ExitError(code) => code case OtherError(_) => -1)
                 && (w.OtherError? ==> row.reason == w.text) && row.endAt == Stored(Some(t))
               case _ => true
  {
  }

  /** A run is labelled CANCELLED only after a cancel of its row, and TIMEOUT only if the job has a walltime. */
  lemma LabelsAreDeserved(s: Sys, x: Slot, w: Wait, t: Time)
    requires Inv(s) && Enabled(s, Exit(x, w, t))
    ensures x.job in s.jobs && x.job in Apply(s, Exit(x, w, t)).jobs
    ensures Apply(s, Exit(x, w, t)).jobs[x.job].state.Cancelled? ==> s.jobs[x.job].state.Cancelling?
    ensures Apply(s, Exit(x, w, t)).jobs[x.job].state.TimedOut? ==> s.jobs[x.job].walltime > 0
  {
    assert SlotInv(s, x) && RowInv(s, x.job);
  }
}
