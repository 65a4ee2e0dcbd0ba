/** Where runs go wrong, and exactly when: starts from polls read too early, and cancels that never complete. */
module ExecutionRuns {
  import opened Types
  import opened Stores
  import opened Executors
  import opened Execution

  // --- A poll's answer, entry by entry ---

  /** Only the agent of `node` moved: its runs are `ps` and its poll is `poll`. */
  ghost predicate Handled(s: Sys, s': Sys, node: string, ps: Procs, poll: Poll) {
    && s'.jobs == s.jobs && ProcsOf(s', node) == ps && s'.polls == s.polls[node := poll]
    && forall other | other != node :: ProcsOf(s', other) == ProcsOf(s, other)
  }

  lemma StartsHandled(s: Sys, node: string, todo: seq<string>, k: nat) returns (ss: seq<Sys>, es: seq<Event>)
    requires node in s.polls && s.polls[node].cancels.Some? && s.polls[node].run == todo && k <= |todo|
    ensures Path(ss, es) && |es| == k && ss[0] == s && forall e | e in es :: e == Launch(node)
    ensures Handled(s, ss[k], node, StartedAll(ProcsOf(s, node), todo[..k]), Poll(todo[k..], s.polls[node].cancels))
  {
    if k == 0 {
      ss, es := [s], [];
    } else {
      ss, es := StartsHandled(s, node, todo, k - 1);
      assert todo[..k][..k - 1] == todo[..k - 1] && todo[k - 1..][1..] == todo[k..];
      var mid := ss[k - 1];
      OneMore(ss, es, Launch(node));
      ss, es := ss + [Apply(mid, Launch(node))], es + [Launch(node)];
    }
  }

  lemma CancelsHandled(s: Sys, node: string, todo: seq<string>, k: nat) returns (ss: seq<Sys>, es: seq<Event>)
    requires node in s.polls && s.polls[node] == Poll([], Some(todo)) && k <= |todo|
    ensures Path(ss, es) && |es| == k && ss[0] == s && forall e | e in es :: e == Kill(node)
    ensures Handled(s, ss[k], node, KilledAll(ProcsOf(s, node), todo[..k]), Poll([], Some(todo[k..])))
  {
    if k == 0 {
      ss, es := [s], [];
    } else {
      ss, es := CancelsHandled(s, node, todo, k - 1);
      assert todo[..k][..k - 1] == todo[..k - 1] && todo[k - 1..][1..] == todo[k..];
      var mid := ss[k - 1];
      OneMore(ss, es, Kill(node));
      ss, es := ss + [Apply(mid, Kill(node))], es + [Kill(node)];
    }
  }

  /**
   * Handling an answer entry by entry, without interruption, leaves the agent as the poll loop's one turn
   * does: the starts and then the cancels take it to what the executor computes.
   */
  lemma EntriesMakeThePoll(s: Sys, node: string) returns (ss: seq<Sys>, es: seq<Event>)
    requires node in s.polls && s.polls[node].cancels.Some?
    ensures var run, cancels := s.polls[node].run, s.polls[node].cancels.value;
            && Path(ss, es) && |es| == |run| + |cancels| && ss[0] == s
            && (forall i | 0 <= i < |es| :: es[i] == if i < |run| then Launch(node) else Kill(node))
            && Handled(s, ss[|es|], node, KilledAll(StartedAll(ProcsOf(s, node), run), cancels), Poll([], Some([])))
            && Enabled(ss[|es|], PollDone(node))
  {
    var run, cancels := s.polls[node].run, s.polls[node].cancels.value;
    var ss1, es1 := StartsHandled(s, node, run, |run|);
    var mid := ss1[|run|];
    assert run[..|run|] == run && run[|run|..] == [];
    assert cancels[..|cancels|] == cancels && cancels[|cancels|..] == [];
    assert mid.polls[node] == Poll([], Some(cancels));
    var ss2, es2 := CancelsHandled(mid, node, cancels, |cancels|);
    OneAfterAnother(ss1, es1, ss2, es2);
    ss, es := ss1 + ss2[1..], es1 + es2;
    forall i | 0 <= i < |es| ensures es[i] == if i < |run| then Launch(node) else Kill(node) {
      assert if i < |run| then es[i] in es1 else es[i] in es2;
    }
    assert ss[|es|] == ss2[|cancels|] by { assert |cancels| == 0 ==> ss == ss1; }
  }

  lemma OneAfterAnother(ss: seq<Sys>, es: seq<Event>, ss': seq<Sys>, es': seq<Event>)
    requires Path(ss, es) && Path(ss', es') && ss[|es|] == ss'[0]
    ensures Path(ss + ss'[1..], es + es')
  {
    hide Enabled, Apply;
    var all, made := ss + ss'[1..], es + es';
    forall i | 0 <= i < |made| ensures Enabled(all[i], made[i]) && all[i + 1] == Apply(all[i], made[i]) {
      if i < |es| {
        assert all[i] == ss[i] && all[i + 1] == ss[i + 1] && made[i] == es[i];
      } else {
        assert all[i] == ss'[i - |es|] && all[i + 1] == ss'[i - |es| + 1] && made[i] == es'[i - |es|];
      }
    }
  }

  // --- When a start is stale ---

  ghost predicate FinalReport(e: Event, x: Slot) {
    (e.Fail? || e.Exit?) && e.slot == x
  }

  /** The run in slot `x` has made a final report since its node's assigned rows were last read. */
  ghost predicate ReportedSince(es: seq<Event>, k: nat, x: Slot)
    requires k <= |es|
  {
    && k > 0
    && !(es[k - 1].PollRun? && es[k - 1].node == x.node)
    && (FinalReport(es[k - 1], x) || ReportedSince(es, k - 1, x))
  }

  /** The job is an entry of a poll of the node, still to be started. */
  ghost predicate Listed(s: Sys, x: Slot) {
    x.node in s.polls && x.job in s.polls[x.node].run
  }

  ghost predicate Ended(s: Sys, id: string) {
    id in s.jobs && Terminal(s.jobs[id].state)
  }

  lemma OtherReport(s: Sys, x: Slot, y: Slot, v: Verdict, t: Time)
    requires Inv(s) && Listed(s, x) && y != x && Runs(s, y)
    ensures x.job in s.jobs && Finish(s, y, v, t).jobs[x.job] == s.jobs[x.job]
  {
    assert PollInv(s, x.node) && SlotInv(s, y);
  }

  lemma EarlierListed(s: Sys, e: Event, x: Slot)
    requires Enabled(s, e) && !(e.PollRun? && e.node == x.node) && Listed(Apply(s, e), x)
    ensures Listed(s, x)
  {
    hide ReportRow;
  }

  /** Only its own final report can end the row of a listed entry. */
  lemma ListedStep(s: Sys, e: Event, x: Slot)
    requires Inv(s) && Enabled(s, e) && !FinalReport(e, x) && Listed(s, x)
    ensures !Ended(s, x.job) ==> !Ended(Apply(s, e), x.job)
  {
    hide Finish, Inv, SlotInv, Listed;
    match e
    case Fail(y, why, t) => OtherReport(s, x, y, Verdict(Failed, -1, why), t);
    case Exit(y, w, t) => OtherReport(s, x, y, Classify(w, ProcAt(s, y).killed, ProcAt(s, y).timedOut), t);
    case _ => ListedIsAssigned(s, x);
  }

  lemma ListedIsAssigned(s: Sys, x: Slot)
    requires Inv(s) && Listed(s, x)
    ensures x.job in s.jobs && !s.jobs[x.job].state.Pending?
  {
    assert PollInv(s, x.node) && RowInv(s, x.job);
  }

  lemma {:induction false} UnreportedNotEnded(ss: seq<Sys>, es: seq<Event>, k: nat, x: Slot)
    requires Behavior(ss, es) && k <= |es| && Fresh(ss, es, k) && Listed(ss[k], x) && !ReportedSince(es, k, x)
    ensures !Ended(ss[k], x.job)
  {
    hide Inv, Stale, Ended;
    if es[k - 1].PollRun? && es[k - 1].node == x.node {
      JustRead(ss[k - 1], es[k - 1], x);
    } else {
      FreshRunsKeepInv(ss, es, k - 1);
      EarlierListed(ss[k - 1], es[k - 1], x);
      ListedStep(ss[k - 1], es[k - 1], x);
      UnreportedNotEnded(ss, es, k - 1, x);
    }
  }

  lemma JustRead(s: Sys, e: Event, x: Slot)
    requires Enabled(s, e) && e.PollRun? && e.node == x.node && Listed(Apply(s, e), x)
    ensures !Ended(Apply(s, e), x.job)
  {
  }

  lemma FinalReportEnds(s: Sys, e: Event, x: Slot)
    requires Inv(s) && Enabled(s, e) && FinalReport(e, x)
    ensures Ended(Apply(s, e), x.job)
  {
    assert SlotInv(s, x) && RowInv(s, x.job);
  }

  lemma {:induction false} ReportedIsEnded(ss: seq<Sys>, es: seq<Event>, k: nat, x: Slot)
    requires Behavior(ss, es) && k <= |es| && Fresh(ss, es, k) && ReportedSince(es, k, x)
    ensures Ended(ss[k], x.job)
  {
    hide Inv, Stale, Enabled, Apply, FinalReport;
    FreshRunsKeepInv(ss, es, k - 1);
    if FinalReport(es[k - 1], x) {
      FinalReportEnds(ss[k - 1], es[k - 1], x);
    } else {
      ReportedIsEnded(ss, es, k - 1, x);
      TerminalStepIsFinal(ss[k - 1], es[k - 1], x.job);
    }
  }

  /**
   * The first start of a run that can be stale is stale exactly when the job's run on that node has
   * reported its end since the poll read the assigned rows, and is no longer known as running.
   */
  lemma StaleIffReported(ss: seq<Sys>, es: seq<Event>, k: nat)
    requires Behavior(ss, es) && k < |es| && Fresh(ss, es, k) && es[k].Launch?
    ensures var x := StartOf(ss[k], es[k]);
            Stale(ss[k], es[k]) <==> !Runs(ss[k], x) && ReportedSince(es, k, x)
  {
    var x := StartOf(ss[k], es[k]);
    assert Listed(ss[k], x);
    if ReportedSince(es, k, x) {
      ReportedIsEnded(ss, es, k, x);
    } else {
      UnreportedNotEnded(ss, es, k, x);
    }
  }

  /** No job is started from a poll read before that job's final report. */
  ghost predicate TimelyPolls(ss: seq<Sys>, es: seq<Event>)
    requires Path(ss, es)
  {
    forall k | 0 <= k < |es| && es[k].Launch? :: !ReportedSince(es, k, StartOf(ss[k], es[k]))
  }

  /** That is enough, whatever else comes between a poll's read and its starts. */
  lemma {:induction false} TimelyPollsAreFresh(ss: seq<Sys>, es: seq<Event>, k: nat)
    requires Behavior(ss, es) && TimelyPolls(ss, es) && k <= |es|
    ensures Fresh(ss, es, k)
  {
    hide Stale, ReportedSince;
    if k > 0 {
      TimelyPollsAreFresh(ss, es, k - 1);
      if es[k - 1].Launch? {
        StaleIffReported(ss, es, k - 1);
      } else {
        OnlyStartsAreStale(ss[k - 1], es[k - 1]);
      }
    }
  }

  lemma OnlyStartsAreStale(s: Sys, e: Event)
    requires !e.Launch?
    ensures !Stale(s, e)
  {
  }

  // --- What a stale start can do ---

  /** Events of one run only. */
  ghost predicate RunOnly(es: seq<Event>, x: Slot) {
    forall e | e in es ::
      (e.Fail? || e.Spawn? || e.ReportRunning? || e.Expire? || e.Exit? || e.Remove?) && e.slot == x
  }

  /** From `s`, events of the run in slot `x` alone can lead to `to`. */
  ghost predicate CanReach(s: Sys, x: Slot, to: Sys) {
    exists ss, es :: Path(ss, es) && ss[0] == s && RunOnly(es, x) && ss[|es|] == to
  }

  lemma StaysPut(s: Sys, x: Slot)
    ensures CanReach(s, x, s)
  {
    var ss, es: seq<Event> := [s], [];
    assert Path(ss, es) && RunOnly(es, x) && ss[|es|] == s;
  }

  lemma OneMore(ss: seq<Sys>, es: seq<Event>, e: Event)
    requires Path(ss, es) && Enabled(ss[|es|], e)
    ensures Path(ss + [Apply(ss[|es|], e)], es + [e])
  {
    hide Enabled, Apply;
  }

  lemma ReachOneMore(s: Sys, x: Slot, mid: Sys, e: Event)
    requires CanReach(s, x, mid) && Enabled(mid, e) && RunOnly([e], x)
    ensures CanReach(s, x, Apply(mid, e))
  {
    hide Enabled, Apply;
    var ss, es :| Path(ss, es) && ss[0] == s && RunOnly(es, x) && ss[|es|] == mid;
    OneMore(ss, es, e);
    var ss', es' := ss + [Apply(mid, e)], es + [e];
    assert e in [e];
    assert Path(ss', es') && ss'[0] == s && RunOnly(es', x) && ss'[|es'|] == Apply(mid, e);
  }

  /** Running its course, the run can end the row either way. */
  lemma RunCanEnd(s: Sys, x: Slot) returns (failed: Sys, completed: Sys)
    requires InStage(s, x, Launching) && !ProcAt(s, x).killed && !ProcAt(s, x).timedOut
    requires Ended(s, x.job) && x.job != ""
    ensures CanReach(s, x, failed) && x.job in failed.jobs && failed.jobs[x.job].state.Failed?
    ensures CanReach(s, x, completed) && x.job in completed.jobs && completed.jobs[x.job].state.Completed?
  {
    hide CanReach;
    StaysPut(s, x);
    failed := Apply(s, Fail(x, "", 0));
    ReachOneMore(s, x, s, Fail(x, "", 0));
    completed := RunCanComplete(s, x);
  }

  lemma RunCanComplete(s: Sys, x: Slot) returns (completed: Sys)
    requires InStage(s, x, Launching) && !ProcAt(s, x).killed && !ProcAt(s, x).timedOut
    requires Ended(s, x.job) && x.job != ""
    ensures CanReach(s, x, completed) && x.job in completed.jobs && completed.jobs[x.job].state.Completed?
  {
    hide CanReach;
    StaysPut(s, x);
    var spawned := Apply(s, Spawn(x));
    ReachOneMore(s, x, s, Spawn(x));
    completed := SpawnedCanComplete(s, spawned, x);
  }

  lemma SpawnedCanComplete(start: Sys, s: Sys, x: Slot) returns (completed: Sys)
    requires CanReach(start, x, s) && Ended(s, x.job) && x.job != ""
    requires InStage(s, x, Spawned) && !ProcAt(s, x).killed && !ProcAt(s, x).timedOut
    ensures CanReach(start, x, completed) && x.job in completed.jobs && completed.jobs[x.job].state.Completed?
  {
    hide CanReach;
    var live := Apply(s, ReportRunning(x, 0));
    ReachOneMore(start, x, s, ReportRunning(x, 0));
    assert InStage(live, x, Live) && Ended(live, x.job);
    completed := Apply(live, Exit(x, Clean, 0));
    ReachOneMore(start, x, live, Exit(x, Clean, 0));
  }

  lemma RunOnlyIsFresh(ss: seq<Sys>, es: seq<Event>, x: Slot)
    requires Path(ss, es) && RunOnly(es, x)
    ensures Fresh(ss, es, |es|)
  {
    hide Stale, Enabled, Apply;
    forall i | 0 <= i < |es| ensures !Stale(ss[i], es[i]) {
      assert es[i] in es;
      OnlyStartsAreStale(ss[i], es[i]);
    }
  }

  lemma StartedAfresh(s: Sys, e: Event)
    requires Inv(s) && Stale(s, e)
    ensures var x, s' := StartOf(s, e), Apply(s, e);
            && InStage(s', x, Launching) && !ProcAt(s', x).killed && !ProcAt(s', x).timedOut
            && x.job != "" && s'.jobs == s.jobs && s'.commands == s.commands
  {
    assert RowInv(s, StartOf(s, e).job);
  }

  ghost predicate Relabelled(s: Sys, to: Sys, id: string)
    requires id in s.jobs
  {
    id in to.jobs ==> to.jobs[id].state != s.jobs[id].state
  }

  /** A start can lead to a terminal label being overwritten if and only if it is stale. */
  lemma LabelAtRiskIffStale(s: Sys, e: Event)
    requires Inv(s) && Enabled(s, e) && e.Launch?
    ensures var x := StartOf(s, e);
            Stale(s, e) <==> Ended(s, x.job) && exists to :: CanReach(Apply(s, e), x, to) && Relabelled(s, to, x.job)
  {
    hide Inv, Apply;
    var x := StartOf(s, e);
    if Stale(s, e) {
      StartedAfresh(s, e);
      var failed, completed := RunCanEnd(Apply(s, e), x);
      assert Relabelled(s, failed, x.job) || Relabelled(s, completed, x.job);
    } else {
      InvNext(s, e);
      StartKeepsRows(s, e);
      forall to | CanReach(Apply(s, e), x, to) && Ended(s, x.job)
        ensures !Relabelled(s, to, x.job)
      {
        var ss, es :| Path(ss, es) && ss[0] == Apply(s, e) && RunOnly(es, x) && ss[|es|] == to;
        RunOnlyIsFresh(ss, es, x);
        TerminalIsFinal(ss, es, 0, |es|, x.job);
      }
    }
  }

  lemma StartKeepsRows(s: Sys, e: Event)
    requires Enabled(s, e) && e.Launch?
    ensures Apply(s, e).jobs == s.jobs
  {
  }

  /** One run starts its command once. */
  ghost predicate SpawnsLeft(s: Sys, x: Slot) {
    s.commands[x] <= 1 && (InStage(s, x, Launching) ==> s.commands[x] == 0)
  }

  lemma {:induction false} OneRunOneCommand(ss: seq<Sys>, es: seq<Event>, x: Slot, k: nat)
    requires Path(ss, es) && RunOnly(es, x) && k <= |es| && SpawnsLeft(ss[0], x)
    ensures SpawnsLeft(ss[k], x)
  {
    hide Enabled, Apply, SpawnsLeft;
    if k > 0 {
      OneRunOneCommand(ss, es, x, k - 1);
      assert es[k - 1] in es;
      SpawnsLeftStep(ss[k - 1], es[k - 1], x);
    }
  }

  lemma SpawnsLeftStep(s: Sys, e: Event, x: Slot)
    requires Enabled(s, e) && RunOnly([e], x) && SpawnsLeft(s, x)
    ensures SpawnsLeft(Apply(s, e), x)
  {
    assert e in [e];
  }

  /** A start can lead to a second start of the job's command if and only if it is stale and the first happened. */
  lemma CommandRepeatsIffStale(s: Sys, e: Event)
    requires Inv(s) && Enabled(s, e) && e.Launch?
    ensures var x := StartOf(s, e);
            Stale(s, e) && s.commands[x] >= 1 <==>
              exists to :: CanReach(Apply(s, e), x, to) && to.commands[x] >= 2
  {
    var x, s' := StartOf(s, e), Apply(s, e);
    if Stale(s, e) && s.commands[x] >= 1 {
      StartedAfresh(s, e);
      StaysPut(s', x);
      ReachOneMore(s', x, s', Spawn(x));
      assert Apply(s', Spawn(x)).commands[x] >= 2;
    } else {
      assert SpawnsLeft(s', x) by {
        if Stale(s, e) {
          StartedAfresh(s, e);
        } else {
          InvNext(s, e);
          assert SlotInv(s', x);
        }
      }
      forall to | CanReach(s', x, to) ensures to.commands[x] <= 1 {
        var ss, es :| Path(ss, es) && ss[0] == s' && RunOnly(es, x) && ss[|es|] == to;
        OneRunOneCommand(ss, es, x, |es|);
      }
    }
  }

  // --- Cancels that never complete ---

  /** Cancelled after assignment but before any poll listed it: no run exists and none is about to start. */
  ghost predicate Stranded(s: Sys, id: string) {
    && id in s.jobs && s.jobs[id].state.Cancelling?
    && (forall x | Runs(s, x) :: x.job != id)
    && (forall node | node in s.polls :: id !in s.polls[node].run)
  }

  lemma StrandedRow(s: Sys, e: Event, id: string)
    requires Stranded(s, id) && Enabled(s, e)
    ensures id in Apply(s, e).jobs && Apply(s, e).jobs[id].state.Cancelling?
  {
  }

  lemma StrandedRuns(s: Sys, e: Event, id: string)
    requires Stranded(s, id) && Enabled(s, e)
    ensures forall x | Runs(Apply(s, e), x) :: x.job != id
  {
    forall x | Runs(Apply(s, e), x) ensures x.job != id {
      if !Runs(s, x) {
        assert e.Launch? && x.job in s.polls[e.node].run;
      }
    }
  }

  lemma StrandedPolls(s: Sys, e: Event, id: string)
    requires Stranded(s, id) && Enabled(s, e)
    ensures forall node | node in Apply(s, e).polls :: id !in Apply(s, e).polls[node].run
  {
    var s' := Apply(s, e);
    forall node | node in s'.polls ensures id !in s'.polls[node].run {
      if e.PollRun? && e.node == node {
        assert id !in e.ids;
      } else {
        assert forall i | i in s'.polls[node].run :: i in s.polls[node].run;
      }
    }
  }

  /** Such a row stays CANCELLING for ever, whatever else happens. */
  lemma {:induction false} StrandedForever(ss: seq<Sys>, es: seq<Event>, i: nat, k: nat, id: string)
    requires Path(ss, es) && i <= k <= |es| && Stranded(ss[i], id)
    ensures Stranded(ss[k], id)
  {
    hide Enabled, Apply;
    if i < k {
      StrandedForever(ss, es, i, k - 1, id);
      StrandedRow(ss[k - 1], es[k - 1], id);
      StrandedRuns(ss[k - 1], es[k - 1], id);
      StrandedPolls(ss[k - 1], es[k - 1], id);
    }
  }

  /** Some continuation ends the row. */
  ghost predicate CanEnd(s: Sys, id: string) {
    exists ss, es :: Path(ss, es) && ss[0] == s && Ended(ss[|es|], id)
  }

  lemma OneBefore(s: Sys, e: Event, ss: seq<Sys>, es: seq<Event>)
    requires Path(ss, es) && Enabled(s, e) && ss[0] == Apply(s, e)
    ensures Path([s] + ss, [e] + es)
  {
    hide Enabled, Apply;
    var ss', es' := [s] + ss, [e] + es;
    forall i | 0 <= i < |es'| ensures Enabled(ss'[i], es'[i]) && ss'[i + 1] == Apply(ss'[i], es'[i]) {
      if i > 0 {
        assert ss'[i] == ss[i - 1] && es'[i] == es[i - 1] && ss'[i + 1] == ss[i];
      }
    }
  }

  lemma CanEndEarlier(s: Sys, e: Event, id: string)
    requires Enabled(s, e) && CanEnd(Apply(s, e), id)
    ensures CanEnd(s, id)
  {
    hide Enabled, Apply, Ended;
    var ss, es :| Path(ss, es) && ss[0] == Apply(s, e) && Ended(ss[|es|], id);
    OneBefore(s, e, ss, es);
    CanEndBy([s] + ss, [e] + es, id);
  }

  lemma CanEndBy(ss: seq<Sys>, es: seq<Event>, id: string)
    requires Path(ss, es) && Ended(ss[|es|], id)
    ensures CanEnd(ss[0], id)
  {
    hide Enabled, Apply, Ended;
  }

  lemma EndedCanEnd(s: Sys, id: string)
    requires Ended(s, id)
    ensures CanEnd(s, id)
  {
    var ss, es: seq<Event> := [s], [];
    assert Path(ss, es) && ss[0] == s && Ended(ss[|es|], id);
  }

  /** The run in slot `x` can still end its row. */
  ghost predicate Endable(s: Sys, x: Slot) {
    Runs(s, x) && !ProcAt(s, x).stage.Reported? && x.job in s.jobs && x.job != ""
  }

  lemma RunCanEndRow(s: Sys, x: Slot)
    requires Endable(s, x)
    ensures CanEnd(s, x.job)
  {
    hide CanEnd;
    match ProcAt(s, x).stage
    case Launching =>
      EndedCanEnd(Apply(s, Fail(x, "", 0)), x.job);
      CanEndEarlier(s, Fail(x, "", 0), x.job);
    case Spawned =>
      ReportedCanEndRow(s, x);
      CanEndEarlier(s, ReportRunning(x, 0), x.job);
    case Live => LiveCanEndRow(s, x);
  }

  lemma LiveCanEndRow(s: Sys, x: Slot)
    requires Endable(s, x) && InStage(s, x, Live)
    ensures CanEnd(s, x.job)
  {
    hide CanEnd;
    EndedCanEnd(Apply(s, Exit(x, Clean, 0)), x.job);
    CanEndEarlier(s, Exit(x, Clean, 0), x.job);
  }

  lemma ReportedCanEndRow(s: Sys, x: Slot)
    requires Endable(s, x) && InStage(s, x, Spawned)
    ensures CanEnd(Apply(s, ReportRunning(x, 0)), x.job)
  {
    LiveCanEndRow(Apply(s, ReportRunning(x, 0)), x);
  }

  /** A listed entry whose poll is ready to start it: the starts before it, then its own, then its end. */
  lemma {:induction false} ListedCanEnd(s: Sys, x: Slot)
    requires Listed(s, x) && s.polls[x.node].cancels.Some? && x.job in s.jobs && x.job != ""
    requires Runs(s, x) ==> Endable(s, x)
    ensures CanEnd(s, x.job)
    decreases |s.polls[x.node].run|
  {
    hide CanEnd;
    var e := Launch(x.node);
    assert Enabled(s, e);
    if s.polls[x.node].run[0] == x.job {
      RunCanEndRow(Apply(s, e), x);
    } else {
      ListedCanEnd(Apply(s, e), x);
    }
    CanEndEarlier(s, e, x.job);
  }

  lemma {:induction false} RowsOfNode(keys: set<string>, jobs: JobTable, node: string, state: JobState)
    returns (ids: seq<string>)
    requires keys <= jobs.Keys
    ensures forall id :: id in ids <==> id in keys && jobs[id].nodeId == node && jobs[id].state == state
  {
    ids := [];
    if keys != {} {
      var id :| id in keys;
      ids := RowsOfNode(keys - {id}, jobs, node, state);
      if jobs[id].nodeId == node && jobs[id].state == state {
        ids := ids + [id];
      }
    }
  }

  lemma UnstrandedCanEnd(s: Sys, id: string)
    requires Inv(s) && id in s.jobs && s.jobs[id].state.Cancelling? && !Stranded(s, id)
    ensures CanEnd(s, id)
  {
    hide CanEnd;
    assert RowInv(s, id);
    forall x | Runs(s, x) && x.job == id ensures Endable(s, x) { assert SlotInv(s, x); }
    if x :| Runs(s, x) && x.job == id {
      RunCanEndRow(s, x);
    } else {
      var node :| node in s.polls && id in s.polls[node].run;
      if s.polls[node].cancels.None? {
        var ids := RowsOfNode(s.jobs.Keys, s.jobs, node, Cancelling);
        ListedCanEnd(Apply(s, PollCancels(node, ids)), Slot(node, id));
        CanEndEarlier(s, PollCancels(node, ids), id);
      } else {
        ListedCanEnd(s, Slot(node, id));
      }
    }
  }

  /**
   * Whether a cancel can complete: in a run without stale starts a CANCELLING row can still end if and
   * only if its job is running somewhere or is listed in a poll that is still to start it.
   */
  lemma CancelCompletesIffNotStranded(ss: seq<Sys>, es: seq<Event>, id: string)
    requires Behavior(ss, es) && Fresh(ss, es, |es|)
    requires id in ss[|es|].jobs && ss[|es|].jobs[id].state.Cancelling?
    ensures CanEnd(ss[|es|], id) <==> !Stranded(ss[|es|], id)
  {
    var s := ss[|es|];
    FreshRunsKeepInv(ss, es, |es|);
    if !Stranded(s, id) {
      UnstrandedCanEnd(s, id);
    } else if CanEnd(s, id) {
      var later, more :| Path(later, more) && later[0] == s && Ended(later[|more|], id);
      StrandedForever(later, more, 0, |more|, id);
    }
  }

  // --- Two runs, step by step ---

  const X := Slot("n", "j")
  const SUBMITTED := Job("j", "", "", Pending, 0, 0, 0, 0, Any, 0, "", "", [], 0, "", None, None, None)

  /** A job is cancelled between its assignment and the next poll. */
  lemma StrandedIsReachable() returns (ss: seq<Sys>, es: seq<Event>)
    ensures Behavior(ss, es) && Fresh(ss, es, |es|) && Stranded(ss[|es|], "j")
  {
    var s1 := Apply(INITIAL, Submit(SUBMITTED));
    var s2 := Apply(s1, Assign("j", "n", "n", []));
    var s3 := Apply(s2, CancelJob("j", 0));
    ss, es := [INITIAL, s1, s2, s3], [Submit(SUBMITTED), Assign("j", "n", "n", []), CancelJob("j", 0)];
  }

  /** The row of the only job, its run, the poll of its node, and the launches and commands so far. */
  datatype Shot = Shot(state: JobState, stage: Option<Stage>, poll: Option<Poll>, launches: nat, commands: nat)

  ghost predicate Shows(s: Sys, v: Shot) {
    && s.jobs.Keys == {"j"} && s.jobs["j"].state == v.state
    && s.jobs["j"].nodeId == (if v.state.Pending? then "" else "n")
    && (if v.stage.Some? then Runs(s, X) && ProcAt(s, X) == Proc(v.stage.value, false, false) else !Runs(s, X))
    && (if v.poll.Some? then "n" in s.polls && s.polls["n"] == v.poll.value else "n" !in s.polls)
    && s.launches[X] == v.launches && s.commands[X] == v.commands
  }

  /** The job runs to its end between a second poll's read of the assigned rows and its start of them. */
  ghost function Script(k: nat): Event {
    match k
    case 0 => Submit(SUBMITTED)
    case 1 => Assign("j", "n", "n", [])
    case 2 => PollRun("n", ["j"])
    case 3 => PollCancels("n", [])
    case 4 => Launch("n")
    case 5 => PollDone("n")
    case 6 => PollRun("n", ["j"])
    case 7 => Spawn(X)
    case 8 => ReportRunning(X, 0)
    case 9 => Exit(X, Clean, 0)
    case 10 => Remove(X)
    case 11 => PollCancels("n", [])
    case 12 => Launch("n")
    case 13 => Spawn(X)
    case 14 => ReportRunning(X, 0)
    case _ => Exit(X, ExitError(1), 0)
  }

  const READING := Some(Poll(["j"], None))
  const READY := Some(Poll(["j"], Some([])))
  const HANDLED := Some(Poll([], Some([])))

  /** What the system looks like after `k` steps, from the first on. */
  function Scene(k: nat): Shot {
    match k
    case 1 => Shot(Pending, None, None, 0, 0)
    case 2 => Shot(Assigned, None, None, 0, 0)
    case 3 => Shot(Assigned, None, READING, 0, 0)
    case 4 => Shot(Assigned, None, READY, 0, 0)
    case 5 => Shot(Assigned, Some(Launching), HANDLED, 1, 0)
    case 6 => Shot(Assigned, Some(Launching), None, 1, 0)
    case 7 => Shot(Assigned, Some(Launching), READING, 1, 0)
    case 8 => Shot(Assigned, Some(Spawned), READING, 1, 1)
    case 9 => Shot(JobState.Running, Some(Live), READING, 1, 1)
    case 10 => Shot(Completed, Some(Reported), READING, 1, 1)
    case 11 => Shot(Completed, None, READING, 1, 1)
    case 12 => Shot(Completed, None, READY, 1, 1)
    case 13 => Shot(Completed, Some(Launching), HANDLED, 2, 1)
    case 14 => Shot(Completed, Some(Spawned), HANDLED, 2, 2)
    case 15 => Shot(Completed, Some(Live), HANDLED, 2, 2)
    case _ => Shot(Failed, Some(Reported), HANDLED, 2, 2)
  }

  /** The next step can be taken and leads to the next scene. */
  ghost predicate Leads(s: Sys, k: nat) {
    Enabled(s, Script(k)) && Shows(Apply(s, Script(k)), Scene(k + 1))
  }

  lemma UpToFirstPoll(s: Sys, k: nat)
    requires k <= 3 && if k == 0 then s == INITIAL else Shows(s, Scene(k))
    ensures Leads(s, k)
  {
  }

  lemma FirstStart(s: Sys, k: nat)
    requires 4 <= k <= 5 && Shows(s, Scene(k))
    ensures Leads(s, k)
  {
  }

  lemma SecondRead(s: Sys, k: nat)
    requires 6 <= k <= 7 && Shows(s, Scene(k))
    ensures Leads(s, k)
  {
  }

  lemma FirstEnd(s: Sys, k: nat)
    requires 8 <= k <= 9 && Shows(s, Scene(k))
    ensures Leads(s, k)
  {
  }

  lemma Removed(s: Sys, k: nat)
    requires 10 <= k <= 11 && Shows(s, Scene(k))
    ensures Leads(s, k)
  {
  }

  lemma SecondStart(s: Sys, k: nat)
    requires 12 <= k <= 13 && Shows(s, Scene(k))
    ensures Leads(s, k)
  {
  }

  lemma SecondEnd(s: Sys, k: nat)
    requires 14 <= k <= 15 && Shows(s, Scene(k))
    ensures Leads(s, k)
  {
  }

  lemma {:induction false} PlayedUpTo(k: nat) returns (ss: seq<Sys>, es: seq<Event>)
    requires k <= 16
    ensures Behavior(ss, es) && |es| == k && (k > 0 ==> Shows(ss[k], Scene(k)))
    ensures forall i | 0 < i <= k :: Shows(ss[i], Scene(i))
  {
    hide Apply, Enabled, Shows, Script, Scene;
    if k == 0 {
      ss, es := [INITIAL], [];
    } else {
      ss, es := PlayedUpTo(k - 1);
      var s := ss[k - 1];
      if k <= 4 { UpToFirstPoll(s, k - 1); }
      else if k <= 6 { FirstStart(s, k - 1); }
      else if k <= 8 { SecondRead(s, k - 1); }
      else if k <= 10 { FirstEnd(s, k - 1); }
      else if k <= 12 { Removed(s, k - 1); }
      else if k <= 14 { SecondStart(s, k - 1); }
      else { SecondEnd(s, k - 1); }
      OneMore(ss, es, Script(k - 1));
      ss, es := ss + [Apply(s, Script(k - 1))], es + [Script(k - 1)];
    }
  }

  /** A poll answer handled after the job has completed starts its command again, and a failure replaces its label. */
  lemma StalePollStartsTwice() returns (ss: seq<Sys>, es: seq<Event>, i: nat)
    ensures Behavior(ss, es) && i <= |es| && "j" in ss[i].jobs && "j" in ss[|es|].jobs
    ensures ss[i].jobs["j"].state.Completed? && ss[|es|].jobs["j"].state.Failed?
    ensures ss[i].commands[X] == 1 && ss[|es|].commands[X] == 2
  {
    ss, es := PlayedUpTo(16);
    i := 10;
    assert Shows(ss[i], Scene(i));
  }
}
