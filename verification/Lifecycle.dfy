/** A review row and what can happen to it: the store's writes (src/reviewhive/db/repository.py) and the
    reviews attempted on GitHub.  Every external call may fail; a write may also take effect and then be
    reported as failed, as a commit whose answer is lost does. */
module Lifecycle {
  import opened Models
  import Budget
  import Pipeline
  import Pricing
  import Safety

  datatype Status = Pending | Running | Succeeded | Failed

  predicate Terminal(s: Status) {
    s.Succeeded? || s.Failed?
  }

  /** The rows that hang off a review: its calls and its findings, in posted order. */
  datatype Children = Children(calls: seq<AgentCall>, findings: seq<Finding>)

  /** The columns `finish_review` fills in beside the status. */
  datatype Summary = Summary(
    suppressed: int,
    retracted: nat,
    skipped: seq<Budget.Skip>,
    truncated: seq<Budget.Omission>,
    totalCost: real,
    focus: Option<string>)

  datatype RowState = RowState(
    status: Status,
    children: Children,
    summary: Option<Summary>,
    postedId: Option<nat>,
    commentCount: Option<nat>)

  const CHILDLESS := Children([], [])
  const FRESH := RowState(Pending, CHILDLESS, None, None, None)

  function SummaryOf(r: Pipeline.ReviewResult): Summary {
    Summary(r.suppressed, r.retracted, r.skipped, r.truncated, Pricing.TotalCost(r.calls), r.focus)
  }

  /** A write that took effect, or a review attempted on the pull request. */
  datatype Event =
    | MarkedRunning
    | Finished(result: Pipeline.ReviewResult)
    | MarkedFailed
    | RecordedPost(id: nat, comments: nat)
    | Attempted(payload: Safety.ReviewPayload, accepted: bool, unprocessable: bool)

  /** What a write answers: done, undone with an error, or done with an error all the same. */
  datatype WriteOutcome = Committed | RolledBack | Unreported

  predicate TakesEffect(o: WriteOutcome) {
    !o.RolledBack?
  }

  predicate Raises(o: WriteOutcome) {
    !o.Committed?
  }

  /** `UNIQUE (review_id, agent)` */
  predicate DistinctAgents(calls: seq<AgentCall>) {
    forall i, j :: 0 <= i < j < |calls| ==> calls[i].agent != calls[j].agent
  }

  /** `UNIQUE (review_id, ordinal)`: findings are numbered from 0, so only one list of them fits; and the
      money columns hold less than ten thousand dollars (`Pricing.StoredTotalIsExact`). */
  predicate Storable(prior: Children, r: Pipeline.ReviewResult) {
    && DistinctAgents(prior.calls + r.calls)
    && (prior.findings == [] || r.findings == [])
    && Pricing.TotalCost(r.calls) < 10000.0
  }

  /** A `finish_review` the constraints refuse is refused whole. */
  function FinishOutcome(prior: Children, r: Pipeline.ReviewResult, o: WriteOutcome): WriteOutcome {
    if Storable(prior, r) then o else RolledBack
  }

  function WithResult(prior: Children, r: Pipeline.ReviewResult): Children {
    Children(prior.calls + r.calls, prior.findings + r.findings)
  }

  function After(s: RowState, e: Event): RowState {
    match e
    case MarkedRunning => s.(status := Running)
    case Finished(r) =>
      s.(status := Succeeded, children := WithResult(s.children, r), summary := Some(SummaryOf(r)))
    case MarkedFailed => s.(status := Failed)
    case RecordedPost(id, comments) => s.(postedId := Some(id), commentCount := Some(comments))
    case Attempted(_, _, _) => s
  }

  /** The row after a log of events. */
  function Replay(s: RowState, log: seq<Event>): RowState {
    if log == [] then s else After(Replay(s, log[..|log| - 1]), log[|log| - 1])
  }

  lemma {:induction false} ReplayConcat(s: RowState, a: seq<Event>, b: seq<Event>)
    ensures Replay(s, a + b) == Replay(Replay(s, a), b)
  {
    if b == [] {
      assert a + b == a;
    } else {
      assert (a + b)[..|a + b| - 1] == a + b[..|b| - 1];
      ReplayConcat(s, a, b[..|b| - 1]);
    }
  }

  // ---------------------------------------------------------------- the row

  class Row {
    var status: Status
    var calls: seq<AgentCall>
    var findings: seq<Finding>
    var summary: Option<Summary>
    var postedId: Option<nat>
    var commentCount: Option<nat>
    ghost var log: seq<Event>

    constructor ()
      ensures State() == FRESH && log == []
    {
      status, calls, findings, summary, postedId, commentCount := Pending, [], [], None, None, None;
      log := [];
    }

    function State(): RowState
      reads this
    {
      RowState(status, Children(calls, findings), summary, postedId, commentCount)
    }

    /** Everything that happened since `before`, and nothing else, explains the row. */
    twostate predicate Explained(events: seq<Event>)
      reads this
    {
      log == old(log) + events && State() == Replay(old(State()), events)
    }

    method MarkRunning(o: WriteOutcome) returns (raised: bool)
      modifies this
      ensures raised == Raises(o)
      ensures Explained(if TakesEffect(o) then [MarkedRunning] else [])
      ensures State() == if TakesEffect(o) then old(State()).(status := Running) else old(State())
    {
      if TakesEffect(o) {
        status := Running;
        Note(MarkedRunning);
      }
      raised := Raises(o);
    }

    /** Children and the parent update commit together. */
    method FinishReview(r: Pipeline.ReviewResult, o: WriteOutcome) returns (raised: bool)
      modifies this
      ensures raised == Raises(FinishOutcome(old(State().children), r, o))
      ensures Explained(if TakesEffect(FinishOutcome(old(State().children), r, o)) then [Finished(r)] else [])
      ensures TakesEffect(FinishOutcome(old(State().children), r, o)) ==>
                && calls == old(calls) + r.calls && findings == old(findings) + r.findings
                && postedId == old(postedId) && commentCount == old(commentCount)
    {
      var outcome := FinishOutcome(Children(calls, findings), r, o);
      if TakesEffect(outcome) {
        status, calls, findings, summary := Succeeded, calls + r.calls, findings + r.findings, Some(SummaryOf(r));
        Note(Finished(r));
      }
      raised := Raises(outcome);
    }

    method FailReview(o: WriteOutcome) returns (raised: bool)
      modifies this
      ensures raised == Raises(o)
      ensures Explained(if TakesEffect(o) then [MarkedFailed] else [])
      ensures State() == if TakesEffect(o) then old(State()).(status := Failed) else old(State())
    {
      if TakesEffect(o) {
        status := Failed;
        Note(MarkedFailed);
      }
      raised := Raises(o);
    }

    method RecordPostedReview(id: nat, comments: nat, o: WriteOutcome) returns (raised: bool)
      modifies this
      ensures raised == Raises(o)
      ensures Explained(if TakesEffect(o) then [RecordedPost(id, comments)] else [])
      ensures State() == if TakesEffect(o) then old(State()).(postedId := Some(id), commentCount := Some(comments))
                         else old(State())
    {
      if TakesEffect(o) {
        postedId, commentCount := Some(id), Some(comments);
        Note(RecordedPost(id, comments));
      }
      raised := Raises(o);
    }

    /** Bookkeeping for the proof: one more event happened. */
    ghost method Note(e: Event)
      modifies `log
      ensures log == old(log) + [e]
      ensures forall s :: Replay(s, [e]) == After(s, e)
    {
      log := log + [e];
      assert [e][..0] == [];
    }
  }

  // ---------------------------------------------------------------- properties of a log

  /** At every two points of the log, a row that has reached `succeeded` or `failed` stays there. */
  ghost predicate NeverLeavesTerminal(s: RowState, log: seq<Event>) {
    forall k, m :: 0 <= k <= m <= |log| && Terminal(Replay(s, log[..k]).status) ==>
      Replay(s, log[..m]).status == Replay(s, log[..k]).status
  }

  ghost predicate FinishedAtMostOnce(log: seq<Event>) {
    forall i, j :: 0 <= i < j < |log| ==> !(log[i].Finished? && log[j].Finished?)
  }

  /** At most one review is accepted on the pull request. */
  ghost predicate PostedAtMostOnce(log: seq<Event>) {
    forall i, j :: 0 <= i < j < |log| && log[i].Attempted? && log[j].Attempted? ==>
      !(log[i].accepted && log[j].accepted)
  }

  /** A later attempt follows only a 422 on a review with comments, and carries none and no commit. */
  ghost predicate RetriesOnlyToDegrade(log: seq<Event>) {
    forall i, j :: 0 <= i < j < |log| && log[i].Attempted? && log[j].Attempted? ==>
      && log[i].unprocessable && log[i].payload.comments != []
      && log[j].payload.comments == [] && log[j].payload.commitId == None
  }

  /** A recorded post was accepted just before, on a row marked running, and the recorded count is that
      of the attempt that was accepted. */
  ghost predicate RecordsWhatWasPosted(log: seq<Event>) {
    forall j :: 0 <= j < |log| && log[j].RecordedPost? ==>
      && 1 < j && log[j - 1].Attempted? && log[j - 1].accepted
      && log[j].comments == |log[j - 1].payload.comments|
      && exists i :: 0 <= i < j && log[i].MarkedRunning?
  }
}
