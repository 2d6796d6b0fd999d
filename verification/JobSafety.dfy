/** What holds of a review row over every outcome a job may meet (src/reviewhive/jobs.py). */
module JobSafety {
  import opened Models
  import opened Lifecycle
  import opened Jobs
  import Pipeline
  import Pricing
  import CriticRun
  import Safety

  // ---------------------------------------------------------------- settling

  predicate Settling(e: Event) {
    e.Finished? || e.MarkedFailed?
  }

  predicate Quiet(e: Event) {
    e.Attempted? || e.RecordedPost?
  }

  /** At most the event at `t` settles the row; what follows does not touch its status. */
  ghost predicate SettlesAt(log: seq<Event>, t: nat) {
    && (forall i :: 0 <= i < t && i < |log| ==> !Settling(log[i]))
    && (forall i :: t < i < |log| ==> Quiet(log[i]))
  }

  lemma {:induction false} ReplayStep(s: RowState, log: seq<Event>, m: nat)
    requires m < |log|
    ensures Replay(s, log[..m + 1]) == After(Replay(s, log[..m]), log[m])
  {
    assert log[..m + 1][..m] == log[..m];
  }

  lemma {:induction false} OpenUntil(s: RowState, log: seq<Event>, t: nat, k: nat)
    requires !Terminal(s.status) && SettlesAt(log, t) && k <= t && k <= |log|
    ensures !Terminal(Replay(s, log[..k]).status)
  {
    if k > 0 {
      OpenUntil(s, log, t, k - 1);
      ReplayStep(s, log, k - 1);
    }
  }

  lemma {:induction false} SettledAfter(s: RowState, log: seq<Event>, t: nat, k: nat, m: nat)
    requires SettlesAt(log, t) && t < k <= m <= |log|
    ensures Replay(s, log[..m]).status == Replay(s, log[..k]).status
  {
    if k < m {
      SettledAfter(s, log, t, k, m - 1);
      ReplayStep(s, log, m - 1);
    }
  }

  lemma {:induction false} SettlingIsFinal(s: RowState, log: seq<Event>, t: nat)
    requires !Terminal(s.status) && SettlesAt(log, t)
    ensures NeverLeavesTerminal(s, log)
  {
    forall k, m | 0 <= k <= m <= |log| && Terminal(Replay(s, log[..k]).status)
      ensures Replay(s, log[..m]).status == Replay(s, log[..k]).status
    {
      if k <= t {
        OpenUntil(s, log, t, k);
      } else {
        SettledAfter(s, log, t, k, m);
      }
    }
  }

  // ---------------------------------------------------------------- the shape of a job's log

  /** What posting may log: attempts, then perhaps a record of the accepted one. */
  ghost predicate PostShape(payload: Safety.ReviewPayload, log: seq<Event>) {
    && 1 <= |log| <= 3
    && log[0].Attempted? && log[0].payload == payload
    && (log[0].unprocessable ==> !log[0].accepted)
    && (|log| >= 2 && log[1].Attempted? ==>
          log[0].unprocessable && payload.comments != [] && log[1].payload == Safety.ReviewPayload([], None))
    && (|log| >= 2 && !log[1].Attempted? ==>
          |log| == 2 && log[1].RecordedPost? && log[0].accepted && log[1].comments == |payload.comments|)
    && (|log| == 3 ==> log[1].Attempted? && log[1].accepted && log[2].RecordedPost? && log[2].comments == 0)
  }

  lemma PostTraceShape(payload: Safety.ReviewPayload, env: Env)
    ensures PostShape(payload, PostTrace(payload, env))
  {
  }

  /** The parts of a job that gets as far as posting: marked, perhaps saved, then posting. */
  ghost predicate PostingLog(log: seq<Event>, k: nat, payload: Safety.ReviewPayload) {
    && 1 <= k <= 2 && k <= |log|
    && log[0].MarkedRunning?
    && (k == 2 ==> log[1].Finished?)
    && PostShape(payload, log[k..])
  }

  /** A job that does not: the explanation or nothing, then perhaps the failure. */
  ghost predicate ShortLog(log: seq<Event>) {
    && |log| <= 2
    && (|log| >= 1 ==> log[0].Attempted? || log[0].MarkedRunning? || log[0].MarkedFailed?)
    && (|log| == 2 ==> !log[0].MarkedFailed? && log[1].MarkedFailed?)
  }

  lemma {:induction false} JobTraceShape(env: Env, head: string, extra: seq<AgentCall>, prior: Children)
    ensures var log := JobTrace(env, head, extra, prior);
            ShortLog(log) || exists k, payload :: PostingLog(log, k, payload)
  {
    var log := JobTrace(env, head, extra, prior);
    if env.fetch.Fetched? && !Raises(env.mark) && env.graph.Some? {
      var payload := Safety.BuildReview(env.graph.value.findings, Some(head));
      var result := WithCalls(extra, env.graph.value);
      var finished := WriteTrace(Finished(result), FinishOutcome(prior, result, env.finish));
      PostTraceShape(payload, env);
      assert log == [MarkedRunning] + (finished + PostTrace(payload, env));
      PostingLogShape(finished, PostTrace(payload, env), payload);
    }
  }

  lemma {:induction false} PostingLogShape(finished: seq<Event>, post: seq<Event>, payload: Safety.ReviewPayload)
    requires |finished| <= 1 && forall i :: 0 <= i < |finished| ==> finished[i].Finished?
    requires PostShape(payload, post)
    ensures PostingLog([MarkedRunning] + (finished + post), 1 + |finished|, payload)
  {
    assert ([MarkedRunning] + (finished + post))[1 + |finished|..] == post;
  }

  /** Everything the log of one job promises, whatever the outcomes. */
  ghost predicate JobIsSafe(log: seq<Event>) {
    && NeverLeavesTerminal(FRESH, log)
    && FinishedAtMostOnce(log)
    && PostedAtMostOnce(log)
    && RetriesOnlyToDegrade(log)
    && RecordsWhatWasPosted(log)
  }

  lemma {:induction false} ShortLogIsSafe(log: seq<Event>)
    requires ShortLog(log)
    ensures JobIsSafe(log)
  {
    SettlingIsFinal(FRESH, log, if |log| >= 1 && log[0].MarkedFailed? then 0 else 1);
  }

  lemma {:induction false} PostingLogIsSafe(log: seq<Event>, k: nat, payload: Safety.ReviewPayload)
    requires PostingLog(log, k, payload)
    ensures JobIsSafe(log)
  {
    var tail := log[k..];
    assert forall i :: k <= i < |log| ==> log[i] == tail[i - k];
    assert SettlesAt(log, 1);
    SettlingIsFinal(FRESH, log, 1);
  }

  /** For every outcome of the fetch, the graph, the store and GitHub, and at every point of the run: a row
      never leaves `succeeded` or `failed`; it is finished at most once; at most one review is accepted; a
      second attempt only follows a 422 on a review with comments, and carries none; and what is recorded
      is the attempt that was accepted, on a row that was marked running. */
  lemma {:induction false} EveryJobIsSafe(env: Env, head: string, extra: seq<AgentCall>)
    ensures JobIsSafe(JobTrace(env, head, extra, CHILDLESS))
  {
    var log := JobTrace(env, head, extra, CHILDLESS);
    JobTraceShape(env, head, extra, CHILDLESS);
    if ShortLog(log) {
      ShortLogIsSafe(log);
    } else {
      var k, payload :| PostingLog(log, k, payload);
      PostingLogIsSafe(log, k, payload);
    }
  }

  // ---------------------------------------------------------------- does it always end?

  /** The runs that end with the row settled. */
  predicate Settles(env: Env, extra: seq<AgentCall>) {
    match env.fetch
    case FetchCrashed => false
    case FetchRefused => TakesEffect(env.fail)
    case DiffTooLarge => !env.explain.Crashed? && TakesEffect(env.fail)
    case Fetched =>
      && env.mark == Committed
      && if env.graph.None? then TakesEffect(env.fail)
         else TakesEffect(env.finish) && Storable(CHILDLESS, WithCalls(extra, env.graph.value))
  }

  lemma {:induction false} ReplayStatus(s: RowState, log: seq<Event>)
    requires !Terminal(s.status)
    ensures Terminal(Replay(s, log).status) ==> exists i :: 0 <= i < |log| && Settling(log[i])
    ensures (exists i :: 0 <= i < |log| && Settling(log[i]) && forall j :: i < j < |log| ==> Quiet(log[j]))
            ==> Terminal(Replay(s, log).status)
  {
    if log != [] {
      var n := |log| - 1;
      ReplayStatus(s, log[..n]);
      if i :| 0 <= i < |log| && Settling(log[i]) && forall j :: i < j < |log| ==> Quiet(log[j]) {
        if i < n {
          assert Settling(log[..n][i]) && forall j :: i < j < n ==> Quiet(log[..n][j]);
        }
      }
      if Terminal(Replay(s, log[..n]).status) {
        var i :| 0 <= i < n && Settling(log[..n][i]);
        assert Settling(log[i]);
      }
    }
  }

  predicate GetsToPost(env: Env) {
    env.fetch.Fetched? && !Raises(env.mark) && env.graph.Some?
  }

  /** Saving: what is written once the graph has answered. */
  function SavingTrace(env: Env, extra: seq<AgentCall>): seq<Event>
    requires env.graph.Some?
  {
    var result := WithCalls(extra, env.graph.value);
    WriteTrace(Finished(result), FinishOutcome(CHILDLESS, result, env.finish))
  }

  lemma {:induction false} PostingTrace(env: Env, head: string, extra: seq<AgentCall>) returns (tail: seq<Event>)
    requires GetsToPost(env)
    ensures JobTrace(env, head, extra, CHILDLESS) == [MarkedRunning] + SavingTrace(env, extra) + tail
    ensures tail == PostTrace(Safety.BuildReview(env.graph.value.findings, Some(head)), env)
    ensures forall i :: 0 <= i < |tail| ==> Quiet(tail[i])
  {
    var payload := Safety.BuildReview(env.graph.value.findings, Some(head));
    tail := PostTrace(payload, env);
    assert RunningTrace(env, head, extra, CHILDLESS) == SavingTrace(env, extra) + tail;
    PostShapeQuiet(payload, env);
  }

  lemma {:induction false} PostShapeQuiet(payload: Safety.ReviewPayload, env: Env)
    ensures forall i :: 0 <= i < |PostTrace(payload, env)| ==> Quiet(PostTrace(payload, env)[i])
  {
    PostTraceShape(payload, env);
  }

  lemma {:induction false} PostingSettles(front: seq<Event>, finished: seq<Event>, tail: seq<Event>)
    requires front == [MarkedRunning] && |finished| <= 1
    requires |finished| == 1 ==> finished[0].Finished?
    requires forall i :: 0 <= i < |tail| ==> Quiet(tail[i])
    ensures Terminal(Replay(FRESH, front + finished + tail).status) <==> finished != []
  {
    var log := front + finished + tail;
    ReplayStatus(FRESH, log);
    assert forall j :: |front + finished| <= j < |log| ==> log[j] == tail[j - |front + finished|];
    if finished != [] {
      assert Settling(log[1]);
    }
  }

  /** "Every review reaches a terminal status" is false: this is exactly when one does.  A fetch that
      breaks at transport level, say, leaves the row pending for good. */
  lemma {:induction false} SettledExactly(env: Env, head: string, extra: seq<AgentCall>)
    ensures Terminal(Replay(FRESH, JobTrace(env, head, extra, CHILDLESS)).status) <==> Settles(env, extra)
  {
    if GetsToPost(env) {
      var tail := PostingTrace(env, head, extra);
      PostingSettles([MarkedRunning], SavingTrace(env, extra), tail);
    } else {
      var log := JobTrace(env, head, extra, CHILDLESS);
      ReplayStatus(FRESH, log);
      if Settles(env, extra) {
        assert Settling(log[|log| - 1]);
      }
    }
  }

  // ---------------------------------------------------------------- what is saved

  lemma {:induction false} OnlyFinishSaves(s: RowState, log: seq<Event>)
    requires forall i :: 0 <= i < |log| ==> !log[i].Finished?
    ensures Replay(s, log).children == s.children && Replay(s, log).summary == s.summary
  {
    if log != [] {
      OnlyFinishSaves(s, log[..|log| - 1]);
    }
  }

  /** The result a job saves: all of it, if the run gets to saving and the write goes through. */
  function SavedBy(env: Env, extra: seq<AgentCall>): Option<Pipeline.ReviewResult> {
    if GetsToPost(env) && Storable(CHILDLESS, WithCalls(extra, env.graph.value)) && TakesEffect(env.finish)
    then Some(WithCalls(extra, env.graph.value)) else None
  }

  lemma {:induction false} SavingIsWhole(front: seq<Event>, r: Pipeline.ReviewResult, saved: bool, tail: seq<Event>)
    requires front == [MarkedRunning]
    requires forall i :: 0 <= i < |tail| ==> Quiet(tail[i])
    ensures var s := Replay(FRESH, front + (if saved then [Finished(r)] else []) + tail);
            && s.children == (if saved then Children(r.calls, r.findings) else CHILDLESS)
            && s.summary == if saved then Some(SummaryOf(r)) else None
  {
    var finished := if saved then [Finished(r)] else [];
    ReplayConcat(FRESH, front + finished, tail);
    ReplayConcat(FRESH, front, finished);
    OnlyFinishSaves(FRESH, front);
    OnlyFinishSaves(Replay(FRESH, front + finished), tail);
    ReplayOne(Replay(FRESH, front), Finished(r));
    assert [] + r.calls == r.calls && [] + r.findings == r.findings;
  }

  /** A row holds all of the graph's result, with the calls made before in front, or nothing of it: never a
      summary without its calls and findings.  What it holds is what the first attempt posted. */
  lemma {:induction false} SavedWholeOrNotAtAll(env: Env, head: string, extra: seq<AgentCall>)
    ensures var s := Replay(FRESH, JobTrace(env, head, extra, CHILDLESS));
            && (SavedBy(env, extra).None? ==> s.children == CHILDLESS && s.summary == None)
            && (SavedBy(env, extra).Some? ==>
                  var r := env.graph.value;
                  && s.children == Children(extra + r.calls, r.findings)
                  && s.summary == Some(Summary(r.suppressed, r.retracted, r.skipped, r.truncated,
                                               Pricing.TotalCost(extra + r.calls), r.focus)))
    ensures var log := JobTrace(env, head, extra, CHILDLESS);
            SavedBy(env, extra).Some? ==>
              && |log| > 2 && log[2].Attempted?
              && log[2].payload == Safety.BuildReview(env.graph.value.findings, Some(head))
  {
    RowHoldsTheResult(env, head, extra);
    if SavedBy(env, extra).Some? {
      PostsTheResult(env, head, extra);
    }
  }

  lemma {:induction false} PostsTheResult(env: Env, head: string, extra: seq<AgentCall>)
    requires SavedBy(env, extra).Some?
    ensures var log, saved := JobTrace(env, head, extra, CHILDLESS), SavedBy(env, extra);
            && |log| > 2 && log[2].Attempted?
            && log[2].payload == Safety.BuildReview(saved.value.findings, Some(head))
  {
    PostTraceShape(Safety.BuildReview(env.graph.value.findings, Some(head)), env);
  }

  lemma {:induction false} RowHoldsTheResult(env: Env, head: string, extra: seq<AgentCall>)
    ensures var s, saved := Replay(FRESH, JobTrace(env, head, extra, CHILDLESS)), SavedBy(env, extra);
            && s.children == (if saved.Some? then Children(saved.value.calls, saved.value.findings) else CHILDLESS)
            && s.summary == if saved.Some? then Some(SummaryOf(saved.value)) else None
  {
    if GetsToPost(env) {
      var tail := PostingTrace(env, head, extra);
      SavingIsWhole([MarkedRunning], WithCalls(extra, env.graph.value), SavedBy(env, extra).Some?, tail);
    } else {
      OnlyFinishSaves(FRESH, JobTrace(env, head, extra, CHILDLESS));
    }
  }

  /** A fresh row takes any result whose calls are by different agents and whose cost fits the column, and no
      other; a row that has findings takes no more of them. */
  lemma {:induction false} RefusedExactly(prior: Children, r: Pipeline.ReviewResult, o: WriteOutcome)
    ensures prior == CHILDLESS ==>
              FinishOutcome(prior, r, o) ==
                if (forall i, j :: 0 <= i < j < |r.calls| ==> r.calls[i].agent != r.calls[j].agent)
                   && Pricing.TotalCost(r.calls) < 10000.0
                then o else RolledBack
    ensures prior.findings != [] && r.findings != [] ==> FinishOutcome(prior, r, o) == RolledBack
  {
    AddedToNothing(r.calls);
  }

  lemma AddedToNothing(calls: seq<AgentCall>)
    ensures DistinctAgents([] + calls)
        <==> forall i, j :: 0 <= i < j < |calls| ==> calls[i].agent != calls[j].agent
  {
    assert [] + calls == calls;
  }

  /** The calls on a row never repeat an agent, whatever the graph returned. */
  lemma {:induction false} RowCallsDistinct(env: Env, head: string, extra: seq<AgentCall>)
    ensures DistinctAgents(Replay(FRESH, JobTrace(env, head, extra, CHILDLESS)).children.calls)
  {
    RowHoldsTheResult(env, head, extra);
    if SavedBy(env, extra).Some? {
      var calls := WithCalls(extra, env.graph.value).calls;
      assert [] + calls == calls;
    }
  }

  /** The graph gives the constraint nothing to refuse: three reviewers, at most one critic and one merge
      call, and the mention's classifier in front, are all different agents. */
  lemma {:induction false} GraphCallsDistinct(run: Pipeline.Run, reviewerCalls: seq<AgentCall>, extra: seq<AgentCall>)
    requires DistinctAgents(reviewerCalls) && forall i :: 0 <= i < |reviewerCalls| ==> reviewerCalls[i].agent.Reviewer?
    requires |extra| <= 1 && forall i :: 0 <= i < |extra| ==> extra[i].agent.Intent?
    ensures DistinctAgents(extra + Pipeline.CallsOf(run, reviewerCalls))
  {
    var critic, merge := Pipeline.CriticCall(run), Pipeline.MergeStageCall(run);
    if critic.Some? {
      CriticRun.RecordedCallIs(run.settings.critic, Pipeline.Anchored(run), run.files, run.answers);
    }
    FourKindsDistinct(extra, reviewerCalls, critic, merge);
  }

  lemma FourKindsDistinct(extra: seq<AgentCall>, reviewers: seq<AgentCall>, critic: Option<AgentCall>,
                          merge: Option<AgentCall>)
    requires |extra| <= 1 && forall i :: 0 <= i < |extra| ==> extra[i].agent.Intent?
    requires DistinctAgents(reviewers) && forall i :: 0 <= i < |reviewers| ==> reviewers[i].agent.Reviewer?
    requires critic.Some? ==> critic.value.agent.CriticPass?
    requires merge.Some? ==> merge.value.agent.MergePass?
    ensures DistinctAgents(extra + (reviewers + Pipeline.Optional(critic) + Pipeline.Optional(merge)))
  {
  }
}
