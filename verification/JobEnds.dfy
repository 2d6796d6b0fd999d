/** What a review job leaves behind, outcome by outcome (src/reviewhive/jobs.py): the row's last status, what
    was sent to GitHub, and what was recorded of it. */
module JobEnds {
  import opened Models
  import opened Sequences
  import opened Lifecycle
  import opened Jobs
  import opened JobSafety
  import Safety

  // ---------------------------------------------------------------- what a review carries

  /** The findings with a line, by index. */
  function AnchoredAt(findings: seq<Finding>): seq<nat> {
    if findings == [] then []
    else
      var n := |findings| - 1;
      AnchoredAt(findings[..n]) + (if findings[n].line.Some? then [n] else [])
  }

  /** Exactly these. */
  lemma {:induction false} AnchoredAtHas(findings: seq<Finding>, i: nat)
    ensures i in AnchoredAt(findings) <==> i < |findings| && findings[i].line.Some?
  {
    if findings != [] {
      AnchoredAtHas(findings[..|findings| - 1], i);
    }
  }

  lemma {:induction false} AnchoredAtAscends(findings: seq<Finding>)
    ensures forall p :: 0 <= p < |AnchoredAt(findings)| ==> AnchoredAt(findings)[p] < |findings|
    ensures forall p, q :: 0 <= p < q < |AnchoredAt(findings)| ==> AnchoredAt(findings)[p] < AnchoredAt(findings)[q]
  {
    if findings != [] {
      AnchoredAtAscends(findings[..|findings| - 1]);
    }
  }

  /** A review carries one comment per finding with a line, in order, on that finding's file and line, for the
      commit asked for. */
  lemma {:induction false} CommentsAreTheAnchored(findings: seq<Finding>, commitId: Option<string>)
    ensures var review, at := Safety.BuildReview(findings, commitId), AnchoredAt(findings);
            && review.commitId == commitId
            && |review.comments| == |at|
            && (forall p, q :: 0 <= p < q < |at| ==> at[p] < at[q])
            && (forall p :: 0 <= p < |at| ==>
                  && at[p] < |findings|
                  && review.comments[p].path == findings[at[p]].file
                  && Some(review.comments[p].line) == findings[at[p]].line)
  {
    AnchoredAtAscends(findings);
    if findings != [] {
      CommentsAreTheAnchored(findings[..|findings| - 1], commitId);
      OneMoreComment(findings, commitId);
    }
  }

  lemma {:induction false} OneMoreComment(findings: seq<Finding>, commitId: Option<string>)
    requires findings != []
    ensures var n := |findings| - 1;
            Safety.BuildReview(findings, commitId).comments
            == Safety.BuildReview(findings[..n], commitId).comments + AsList(Safety.ToReviewComment(findings[n]))
  {
    var each: seq<Option<Safety.Comment>> := Safety.InlineComments(findings);
    assert each[..|findings| - 1] == Safety.InlineComments(findings[..|findings| - 1]);
  }

  // ---------------------------------------------------------------- what is recorded of it

  lemma {:induction false} OnlyRecordingPosts(s: RowState, log: seq<Event>)
    requires forall i :: 0 <= i < |log| ==> !log[i].RecordedPost?
    ensures Replay(s, log).postedId == s.postedId && Replay(s, log).commentCount == s.commentCount
  {
    if log != [] {
      OnlyRecordingPosts(s, log[..|log| - 1]);
    }
  }

  /** The posted id and the comment count a row ends with. */
  function PostedOn(s: RowState): (Option<nat>, Option<nat>) {
    (s.postedId, s.commentCount)
  }

  lemma {:induction false} PostingLeaves(s: RowState, payload: Safety.ReviewPayload, env: Env)
    ensures PostedOn(Replay(s, PostTrace(payload, env))) ==
              if !TakesEffect(env.record) then PostedOn(s)
              else if env.first.Accepted? then (Some(env.first.id), Some(|payload.comments|))
              else if env.first.Unprocessable? && payload.comments != [] && env.second.Accepted?
                then (Some(env.second.id), Some(0))
              else PostedOn(s)
  {
    var log := PostTrace(payload, env);
    if forall i :: 0 <= i < |log| ==> !log[i].RecordedPost? {
      OnlyRecordingPosts(s, log);
    } else {
      OnlyRecordingPosts(s, log[..|log| - 1]);
      assert log[|log| - 1].RecordedPost?;
    }
  }

  /** An accepted review is on the row, with its own id and the number of comments it carried, exactly when
      the job got to posting, GitHub accepted an attempt, and the record of it took effect; the degraded
      attempt counts no comments. */
  lemma {:induction false} AcceptedIsRecorded(env: Env, head: string, extra: seq<AgentCall>)
    ensures var s := Replay(FRESH, JobTrace(env, head, extra, CHILDLESS));
            var anchored := if env.graph.Some? then |AnchoredAt(env.graph.value.findings)| else 0;
            var recorded := GetsToPost(env) && TakesEffect(env.record);
            && (recorded && env.first.Accepted? ==>
                  s.postedId == Some(env.first.id) && s.commentCount == Some(anchored))
            && (recorded && env.first.Unprocessable? && anchored > 0 && env.second.Accepted? ==>
                  s.postedId == Some(env.second.id) && s.commentCount == Some(0))
            && (!(recorded && (env.first.Accepted?
                               || (env.first.Unprocessable? && anchored > 0 && env.second.Accepted?))) ==>
                  s.postedId == None && s.commentCount == None)
  {
    if GetsToPost(env) {
      var payload := Safety.BuildReview(env.graph.value.findings, Some(head));
      var front := [MarkedRunning] + SavingTrace(env, extra);
      var tail := PostingTrace(env, head, extra);
      CommentsAreTheAnchored(env.graph.value.findings, Some(head));
      ReplayConcat(FRESH, front, tail);
      OnlyRecordingPosts(FRESH, front);
      PostingLeaves(Replay(FRESH, front), payload, env);
    } else {
      OnlyRecordingPosts(FRESH, JobTrace(env, head, extra, CHILDLESS));
    }
  }

  // ---------------------------------------------------------------- what was sent

  /** What was sent to GitHub, in order. */
  function Sent(log: seq<Event>): seq<Safety.ReviewPayload> {
    if log == [] then []
    else
      var e := log[|log| - 1];
      Sent(log[..|log| - 1]) + (if e.Attempted? then [e.payload] else [])
  }

  lemma {:induction false} SentConcat(a: seq<Event>, b: seq<Event>)
    ensures Sent(a + b) == Sent(a) + Sent(b)
  {
    if b == [] {
      assert a + b == a;
    } else {
      assert (a + b)[..|a + b| - 1] == a + b[..|b| - 1];
      SentConcat(a, b[..|b| - 1]);
    }
  }

  lemma {:induction false} NothingSent(log: seq<Event>)
    requires forall i :: 0 <= i < |log| ==> !log[i].Attempted?
    ensures Sent(log) == []
  {
    if log != [] {
      NothingSent(log[..|log| - 1]);
    }
  }

  lemma {:induction false} OneSent(log: seq<Event>)
    requires log != [] && log[0].Attempted? && forall i :: 1 <= i < |log| ==> !log[i].Attempted?
    ensures Sent(log) == [log[0].payload]
  {
    SentConcat(log[..1], log[1..]);
    NothingSent(log[1..]);
    assert log == log[..1] + log[1..] && log[..1][..0] == [];
  }

  lemma {:induction false} PostingSends(payload: Safety.ReviewPayload, env: Env)
    ensures Sent(PostTrace(payload, env))
         == [payload] + if env.first.Unprocessable? && payload.comments != []
                        then [Safety.ReviewPayload([], None)] else []
  {
    var log := PostTrace(payload, env);
    if env.first.Unprocessable? && payload.comments != [] {
      assert log == log[..1] + log[1..];
      SentConcat(log[..1], log[1..]);
      OneSent(log[..1]);
      OneSent(log[1..]);
    } else {
      OneSent(log);
    }
  }

  /** What a job sends: for a diff too large, a note without comments or commit; for a run that gets to
      posting, the review of its findings pinned to the head, and after a 422 on a review with comments, once
      more without comments or commit; otherwise nothing. */
  lemma {:induction false} SentExactly(env: Env, head: string, extra: seq<AgentCall>)
    ensures Sent(JobTrace(env, head, extra, CHILDLESS)) ==
              if env.fetch.DiffTooLarge? then [Safety.ReviewPayload([], None)]
              else if env.fetch.Fetched? && !Raises(env.mark) && env.graph.Some?
                then [Safety.BuildReview(env.graph.value.findings, Some(head))]
                     + if env.first.Unprocessable? && AnchoredAt(env.graph.value.findings) != []
                       then [Safety.ReviewPayload([], None)] else []
              else []
  {
    var log := JobTrace(env, head, extra, CHILDLESS);
    if GetsToPost(env) {
      var front := [MarkedRunning] + SavingTrace(env, extra);
      var tail := PostingTrace(env, head, extra);
      CommentsAreTheAnchored(env.graph.value.findings, Some(head));
      SentConcat(front, tail);
      NothingSent(front);
      PostingSends(Safety.BuildReview(env.graph.value.findings, Some(head)), env);
    } else if env.fetch.DiffTooLarge? {
      OneSent(log);
    } else {
      NothingSent(log);
    }
  }

  // ---------------------------------------------------------------- how the row ends

  lemma {:induction false} QuietKeepsStatus(s: RowState, log: seq<Event>)
    requires forall i :: 0 <= i < |log| ==> Quiet(log[i])
    ensures Replay(s, log).status == s.status
  {
    if log != [] {
      QuietKeepsStatus(s, log[..|log| - 1]);
    }
  }

  lemma {:induction false} LastStatus(s: RowState, front: seq<Event>, e: Event, tail: seq<Event>)
    requires forall i :: 0 <= i < |tail| ==> Quiet(tail[i])
    ensures Replay(s, front + [e] + tail).status == After(Replay(s, front), e).status
  {
    ReplayConcat(s, front + [e], tail);
    QuietKeepsStatus(Replay(s, front + [e]), tail);
    assert (front + [e])[..|front|] == front;
  }

  /** The last status of a row whose job was handed a diff: still pending if it could not be marked running;
      running if the result could not be saved, or the failure could not; failed if the graph broke; and
      succeeded if the result was saved, however posting went. */
  lemma {:induction false} FetchedEnds(env: Env, head: string, extra: seq<AgentCall>)
    requires env.fetch.Fetched?
    ensures Replay(FRESH, JobTrace(env, head, extra, CHILDLESS)).status ==
              if env.mark.RolledBack? then Pending
              else if env.mark.Unreported? then Running
              else if env.graph.None? then (if env.fail.RolledBack? then Running else Failed)
              else if !env.finish.RolledBack? && Storable(CHILDLESS, WithCalls(extra, env.graph.value)) then Succeeded
              else Running
  {
    if GetsToPost(env) {
      var tail := PostingTrace(env, head, extra);
      SavedEnds(SavingTrace(env, extra), tail);
    } else {
      ShortEnds(JobTrace(env, head, extra, CHILDLESS));
    }
  }

  lemma {:induction false} SavedEnds(saved: seq<Event>, tail: seq<Event>)
    requires |saved| <= 1 && (saved != [] ==> saved[0].Finished?)
    requires forall i :: 0 <= i < |tail| ==> Quiet(tail[i])
    ensures Replay(FRESH, [MarkedRunning] + saved + tail).status == if saved == [] then Running else Succeeded
  {
    if saved == [] {
      assert [MarkedRunning] + saved + tail == [] + [MarkedRunning] + tail;
      LastStatus(FRESH, [], MarkedRunning, tail);
    } else {
      assert saved == [saved[0]];
      LastStatus(FRESH, [MarkedRunning], saved[0], tail);
    }
  }

  lemma {:induction false} ShortEnds(log: seq<Event>)
    requires |log| <= 2
    ensures Replay(FRESH, log).status == if log == [] then Pending else
              if log[|log| - 1].Attempted? || log[|log| - 1].RecordedPost? then Replay(FRESH, log[..|log| - 1]).status
              else After(FRESH, log[|log| - 1]).status
    ensures |log| == 1 ==> Replay(FRESH, log[..|log| - 1]).status == Pending
  {
  }

  /** A row whose job got no diff: failed if GitHub refused it or it is too large, unless saying so crashed or
      the failure could not be written; after a transport failure it is left as it was. */
  lemma {:induction false} UnfetchedEnds(env: Env, head: string, extra: seq<AgentCall>)
    requires !env.fetch.Fetched?
    ensures Replay(FRESH, JobTrace(env, head, extra, CHILDLESS)).status ==
              if env.fetch.FetchCrashed? || (env.fetch.DiffTooLarge? && env.explain.Crashed?) || env.fail.RolledBack?
              then Pending else Failed
  {
    ShortEnds(JobTrace(env, head, extra, CHILDLESS));
  }
}
