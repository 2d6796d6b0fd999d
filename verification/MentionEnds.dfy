/** What a mention comes to, outcome by outcome (src/reviewhive/mentions/dispatch.py): how it is handled, what
    it costs, and how its row ends. */
module MentionEnds {
  import opened Models
  import opened Lifecycle
  import opened Mentions
  import opened MentionSafety
  import Jobs
  import JobEnds
  import JobSafety
  import Pricing

  // ---------------------------------------------------------------- how it is handled

  /** A bare mention, or one that asks for a review of everything or of one thing. */
  predicate AsksForReview(c: Classification) {
    c.Bare? || (c.Read? && (c.intent.action.FullReview? || c.intent.action.FocusedReview?))
  }

  /** Anything else that was understood, or could not be. */
  predicate AsksForAnswer(c: Classification) {
    c.Unreadable? || (c.Read? && (c.intent.action.AnswerQuestion? || c.intent.action.ReconsiderFinding?))
  }

  /** A finding is named, by the thread or else by the model, and it was stored. */
  ghost predicate NamesAFinding(c: Classification, thread: Option<int>, stored: seq<StoredFinding>) {
    && c.Read?
    && exists f :: f in stored && Some(f.ordinal) == if thread.Some? then thread else c.intent.targetOrdinal
  }

  /** The classifier's call, which a bare mention does without. */
  function IntentCall(env: Env): AgentCall {
    AgentCall(Intent, env.model, env.classifierUsage.inputTokens, env.classifierUsage.outputTokens,
              env.classifierUsage.cacheReadTokens)
  }

  /** A mention becomes a review exactly when it asks for one; then the job is handed the classifier's call. */
  lemma {:induction false} DispatchedExactly(env: Env, stored: seq<StoredFinding>, thread: Option<int>)
    ensures var h := HandlingOf(env, stored, thread);
            && (h.Dispatched? <==> AsksForReview(env.classification))
            && (h.Dispatched? ==> h.extra == if env.classification.Bare? then [] else [IntentCall(env)])
  {
  }

  /** Otherwise it is answered, unless something crashes on the way; on a pull request never reviewed the
      answer is a fixed one, and without a diff there is none. */
  lemma {:induction false} AnsweredExactly(env: Env, stored: seq<StoredFinding>, thread: Option<int>)
    ensures var h, c := HandlingOf(env, stored, thread), env.classification;
            && (h.Handled? <==> AsksForAnswer(c)
                                && (stored == [] || env.fetch.DiffTooLarge? || env.fetch.FetchRefused?
                                    || (env.fetch.Fetched? && !env.reply.ModelCrashed?)))
            && (h.Handled? && stored == [] ==> h == Handled([IntentCall(env)], Some(NotReviewedYet)))
            && (h.Handled? && stored != [] && !env.fetch.Fetched? ==> h == Handled([IntentCall(env)], None))
  {
  }

  /** A question about a reviewed pull request costs a second call: a reconsideration exactly when one was asked
      for of a finding that was stored, and an answer otherwise.  The reply is the model's. */
  lemma {:induction false} SecondCallExactly(env: Env, stored: seq<StoredFinding>, thread: Option<int>)
    requires HandlingOf(env, stored, thread).Handled? && stored != [] && env.fetch.Fetched?
    ensures var h, c := HandlingOf(env, stored, thread), env.classification;
            && |h.calls| == 2 && h.calls[0] == IntentCall(env)
            && h.calls[1] == AgentCall(
                 if c.Read? && c.intent.action.ReconsiderFinding? && NamesAFinding(c, thread, stored)
                 then Reconsider else Answer,
                 env.model, env.answerUsage.inputTokens, env.answerUsage.outputTokens, env.answerUsage.cacheReadTokens)
            && (h.reply.Some? <==> env.reply.Replied?)
            && (h.reply.Some? ==> h.reply.value == Said(env.reply.text))
  {
    var ordinal := IntentOf(env.classification, thread).targetOrdinal;
    TargetIs(ordinal, stored);
    if env.classification.Read? && Target(ordinal, stored).Some? {
      assert Target(ordinal, stored).value in stored;
    }
  }

  /** The thread's finding is the first one stored at the comment's file, and at its line if it has one; there
      is one only for a reply, and only if some finding is there. */
  lemma {:induction false} ThreadExactly(m: Mention, stored: seq<StoredFinding>)
    ensures ThreadOf(m, stored).Some?
        <==> m.inReplyTo.Some? && m.inReplyTo != Some(0) && m.path.Some? && m.path != Some("")
             && exists f :: f in stored && f.file == m.path.value && (m.line.None? || f.line == m.line)
    ensures ThreadOf(m, stored).Some? ==>
              exists i :: 0 <= i < |stored| && ThreadOf(m, stored) == Some(stored[i].ordinal)
                          && stored[i].file == m.path.value && (m.line.None? || stored[i].line == m.line)
                          && forall j :: 0 <= j < i ==>
                               stored[j].file != m.path.value || (m.line.Some? && stored[j].line != m.line)
  {
    ThreadTargetIs(stored, m.path, m.line);
    if ThreadOf(m, stored).Some? {
      var i :| 0 <= i < |stored| && AtAnchor(stored[i], m.path.value, m.line)
               && ThreadTarget(stored, m.path, m.line) == Some(stored[i].ordinal)
               && forall j :: 0 <= j < i ==> !AtAnchor(stored[j], m.path.value, m.line);
      assert stored[i] in stored;
      assert forall j :: 0 <= j < i ==> !AtAnchor(stored[j], m.path.value, m.line);
    }
  }

  // ---------------------------------------------------------------- how the row ends

  /** The mention comes to finish its own row exactly when it was handled and sending the reply, if there is one
      to send, did not crash; that GitHub refused it does not matter. */
  lemma {:induction false} ComesToFinishExactly(env: Env, m: Mention)
    ensures ComesToFinish(env, m)
        <==> HandledAs(env, m).Handled?
             && (HandledAs(env, m).reply.None? || HandledAs(env, m).reply == Some(Said("")) || !env.postReply.Crashed?)
  {
  }

  /** What the mention's own row ends as, when it does not become a review. */
  lemma {:induction false} OwnRowEnds(env: Env, m: Mention, head: string)
    requires !HandledAs(env, m).Dispatched?
    ensures var s := Replay(FRESH, MentionTrace(env, m, head, CHILDLESS));
            && s.status == (if ComesToFinish(env, m) && FinishingOutcome(env, m).Committed? then Succeeded
                            else if !env.fail.RolledBack? then Failed
                            else if ComesToFinish(env, m) && FinishingOutcome(env, m).Unreported? then Succeeded
                            else Pending)
            && s.children.findings == []
            && s.children.calls == (if ComesToFinish(env, m) && !FinishingOutcome(env, m).RolledBack?
                                    then HandledAs(env, m).calls else [])
            && s.summary == (if ComesToFinish(env, m) && !FinishingOutcome(env, m).RolledBack?
                             then Some(Summary(0, 0, [], [], Pricing.TotalCost(HandledAs(env, m).calls), None))
                             else None)
            && s.postedId == None && s.commentCount == None
  {
    var log := MentionTrace(env, m, head, CHILDLESS);
    TraceCases(env, m, head);
    if ComesToFinish(env, m) {
      var result := OwnResult(HandledAs(env, m).calls);
      var finished := Jobs.WriteTrace(Finished(result), FinishingOutcome(env, m));
      var failed := if Raises(FinishingOutcome(env, m)) then Jobs.WriteTrace(MarkedFailed, env.fail) else [];
      ReplayConcat(FRESH, finished, failed);
      Jobs.ReplayOne(FRESH, Finished(result));
      Jobs.ReplayOne(Replay(FRESH, finished), MarkedFailed);
      assert [] + result.calls == result.calls;
    } else {
      Jobs.ReplayOne(FRESH, MarkedFailed);
    }
  }

  /** A mention that becomes a review ends as that review does: its posting is on the mention's row. */
  lemma {:induction false} DispatchedIsRecorded(env: Env, m: Mention, head: string)
    requires HandledAs(env, m).Dispatched?
    ensures var s, job := Replay(FRESH, MentionTrace(env, m, head, CHILDLESS)), env.job;
            var anchored := if job.graph.Some? then |JobEnds.AnchoredAt(job.graph.value.findings)| else 0;
            var recorded := JobSafety.GetsToPost(job) && TakesEffect(job.record);
            && (recorded && job.first.Accepted? ==>
                  s.postedId == Some(job.first.id) && s.commentCount == Some(anchored))
            && (recorded && job.first.Unprocessable? && anchored > 0 && job.second.Accepted? ==>
                  s.postedId == Some(job.second.id) && s.commentCount == Some(0))
            && (!(recorded && (job.first.Accepted?
                               || (job.first.Unprocessable? && anchored > 0 && job.second.Accepted?))) ==>
                  s.postedId == None && s.commentCount == None)
  {
    TraceCases(env, m, head);
    JobEnds.AcceptedIsRecorded(env.job, head, HandledAs(env, m).extra);
  }
}
