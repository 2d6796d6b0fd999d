/** What holds of a mention's row over every outcome (src/reviewhive/mentions/dispatch.py). */
module MentionSafety {
  import opened Models
  import opened Lifecycle
  import opened Mentions
  import Jobs
  import JobSafety
  import Pipeline
  import Pricing

  function HandledAs(env: Env, m: Mention): Handling {
    if env.stored.None? then Broke else HandlingOf(env, env.stored.value, ThreadOf(m, env.stored.value))
  }

  /** The run answers in the thread, or tries to, and comes to finish its own row. */
  predicate ComesToFinish(env: Env, m: Mention) {
    HandledAs(env, m).Handled? && !ReplyBreaks(HandledAs(env, m).reply, env.postReply)
  }

  /** How the write that finishes the mention's own row comes out. */
  function FinishingOutcome(env: Env, m: Mention): WriteOutcome
    requires HandledAs(env, m).Handled?
  {
    FinishOutcome(CHILDLESS, OwnResult(HandledAs(env, m).calls), env.finish)
  }

  /** The calls a mention records itself are the classifier's and at most one more, by another agent: only
      their cost could be refused. */
  lemma {:induction false} OwnCallsDistinct(env: Env, m: Mention)
    requires HandledAs(env, m).Handled?
    ensures DistinctAgents(HandledAs(env, m).calls)
    ensures FinishingOutcome(env, m)
         == if Pricing.TotalCost(HandledAs(env, m).calls) < 10000.0 then env.finish else RolledBack
  {
    var calls := HandledAs(env, m).calls;
    assert [] + calls == calls;
  }

  function FinishingTrace(env: Env, m: Mention): seq<Event>
    requires HandledAs(env, m).Handled?
  {
    OwnTrace(env, HandledAs(env, m).calls, CHILDLESS)
  }

  lemma {:induction false} TraceCases(env: Env, m: Mention, head: string)
    ensures var h, log := HandledAs(env, m), MentionTrace(env, m, head, CHILDLESS);
            && (h.Dispatched? ==> log == Jobs.JobTrace(env.job, head, h.extra, CHILDLESS))
            && (ComesToFinish(env, m) ==> log == FinishingTrace(env, m))
            && (!h.Dispatched? && !ComesToFinish(env, m) ==> log == Jobs.WriteTrace(MarkedFailed, env.fail))
  {
  }

  /** A finished row is marked failed afterwards: the write took effect but was reported as an error. */
  predicate LosesASuccess(env: Env, m: Mention) {
    ComesToFinish(env, m) && FinishingOutcome(env, m).Unreported? && TakesEffect(env.fail)
  }

  lemma {:induction false} TwoEventLog(log: seq<Event>, result: Pipeline.ReviewResult)
    requires log == [Finished(result), MarkedFailed]
    ensures !NeverLeavesTerminal(FRESH, log)
  {
    assert log[..1] == [Finished(result)] && log[..2] == log;
    assert log[..1][..0] == [];
    assert Replay(FRESH, log[..1]).status == Succeeded;
    assert Replay(FRESH, log[..2]).status == Failed;
  }

  lemma {:induction false} ShortLogSettles(log: seq<Event>)
    requires |log| <= 1
    ensures NeverLeavesTerminal(FRESH, log)
  {
    JobSafety.SettlingIsFinal(FRESH, log, 0);
  }

  /** A mention's row never leaves `succeeded` or `failed`, exactly unless the one write that finishes it
      is reported as failed after taking effect: then the handler marks a succeeded row failed. */
  lemma {:induction false} NeverLeavesTerminalExactly(env: Env, m: Mention, head: string)
    ensures NeverLeavesTerminal(FRESH, MentionTrace(env, m, head, CHILDLESS)) <==> !LosesASuccess(env, m)
  {
    var log, h := MentionTrace(env, m, head, CHILDLESS), HandledAs(env, m);
    TraceCases(env, m, head);
    if h.Dispatched? {
      JobSafety.EveryJobIsSafe(env.job, head, h.extra);
    } else if LosesASuccess(env, m) {
      TwoEventLog(log, OwnResult(h.calls));
    } else {
      ShortLogSettles(log);
    }
  }

  /** A question the classifier could not read, on a pull request never reviewed, whose one write is reported
      as failed after taking effect. */
  function LostAnswer(job: Jobs.Env, fetch: Jobs.FetchOutcome, model: string): Env {
    Env(Some([]), Unreadable, job, fetch, NoReply, Jobs.Accepted(0), Unreported, Committed, model,
        Usage(0, 0, 0), Usage(0, 0, 0))
  }

  /** It happens: the answer was given and recorded, and the row ends failed. */
  lemma {:induction false} ASuccessCanBeLost(job: Jobs.Env, fetch: Jobs.FetchOutcome, model: string, m: Mention,
                                             head: string)
    ensures var env := LostAnswer(job, fetch, model);
            && LosesASuccess(env, m)
            && !NeverLeavesTerminal(FRESH, MentionTrace(env, m, head, CHILDLESS))
  {
    var env := LostAnswer(job, fetch, model);
    var calls := HandledAs(env, m).calls;
    assert calls == [CallBy(Intent, model, Usage(0, 0, 0))];
    assert calls[..0] == [] && Pricing.TotalCost(calls[..0]) == 0.0;
    OwnCallsDistinct(env, m);
    NeverLeavesTerminalExactly(env, m, head);
  }

  /** The rest holds over every outcome: finished at most once, at most one review accepted, retried only
      to degrade, and recorded as posted only what was. */
  lemma {:induction false} EveryMentionIsSafe(env: Env, m: Mention, head: string)
    ensures var log := MentionTrace(env, m, head, CHILDLESS);
            && FinishedAtMostOnce(log)
            && PostedAtMostOnce(log)
            && RetriesOnlyToDegrade(log)
            && RecordsWhatWasPosted(log)
            && DistinctAgents(Replay(FRESH, log).children.calls)
  {
    var log, h := MentionTrace(env, m, head, CHILDLESS), HandledAs(env, m);
    TraceCases(env, m, head);
    if h.Dispatched? {
      JobSafety.EveryJobIsSafe(env.job, head, h.extra);
      JobSafety.RowCallsDistinct(env.job, head, h.extra);
    } else {
      OwnLogCalls(env, m, log);
    }
  }

  lemma {:induction false} OwnLogCalls(env: Env, m: Mention, log: seq<Event>)
    requires !HandledAs(env, m).Dispatched?
    requires log == if ComesToFinish(env, m) then FinishingTrace(env, m) else Jobs.WriteTrace(MarkedFailed, env.fail)
    ensures DistinctAgents(Replay(FRESH, log).children.calls)
  {
    if ComesToFinish(env, m) {
      OwnCallsDistinct(env, m);
      var result := OwnResult(HandledAs(env, m).calls);
      FinishedOnceCalls(result, Jobs.WriteTrace(Finished(result), FinishingOutcome(env, m)),
                        if Raises(FinishingOutcome(env, m)) then Jobs.WriteTrace(MarkedFailed, env.fail) else []);
    } else {
      JobSafety.OnlyFinishSaves(FRESH, log);
    }
  }

  lemma {:induction false} FinishedOnceCalls(r: Pipeline.ReviewResult, finished: seq<Event>, after: seq<Event>)
    requires DistinctAgents(r.calls)
    requires finished == [] || finished == [Finished(r)]
    requires forall i :: 0 <= i < |after| ==> !after[i].Finished?
    ensures DistinctAgents(Replay(FRESH, finished + after).children.calls)
  {
    assert [] + r.calls == r.calls;
    ReplayConcat(FRESH, finished, after);
    Jobs.ReplayOne(FRESH, Finished(r));
    JobSafety.OnlyFinishSaves(Replay(FRESH, finished), after);
  }

  /** Exactly when a mention's row ends settled.  Unlike a review's, it has a last resort: only a failed
      write of the failure itself leaves it open. */
  lemma {:induction false} MentionSettledExactly(env: Env, m: Mention, head: string)
    ensures Terminal(Replay(FRESH, MentionTrace(env, m, head, CHILDLESS)).status)
        <==> var h := HandledAs(env, m);
             if h.Dispatched? then JobSafety.Settles(env.job, h.extra)
             else if ComesToFinish(env, m) then TakesEffect(FinishingOutcome(env, m)) || TakesEffect(env.fail)
             else TakesEffect(env.fail)
  {
    var log, h := MentionTrace(env, m, head, CHILDLESS), HandledAs(env, m);
    TraceCases(env, m, head);
    if h.Dispatched? {
      JobSafety.SettledExactly(env.job, head, h.extra);
    } else {
      JobSafety.ReplayStatus(FRESH, log);
      assert log != [] ==> JobSafety.Settling(log[|log| - 1]);
    }
  }
}
