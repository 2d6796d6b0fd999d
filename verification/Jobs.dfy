/** Reviewing a pull request, end to end (src/reviewhive/jobs.py). */
module Jobs {
  import opened Models
  import opened Lifecycle
  import Pipeline
  import Safety

  // ---------------------------------------------------------------- what the outside may answer

  datatype FetchOutcome = Fetched | DiffTooLarge | FetchRefused | FetchCrashed

  /** A review request: accepted with an id, a 422, another GitHub error, or a transport failure.  The
      last two may hide a review that was created all the same. */
  datatype Delivery = Accepted(id: nat) | Unprocessable | Refused(created: bool) | Crashed(created: bool)

  predicate Created(d: Delivery) {
    d.Accepted? || (d.Refused? && d.created) || (d.Crashed? && d.created)
  }

  /** Every outcome one job may meet. */
  datatype Env = Env(
    fetch: FetchOutcome,
    explain: Delivery,
    mark: WriteOutcome,
    graph: Option<Pipeline.ReviewResult>,
    finish: WriteOutcome,
    fail: WriteOutcome,
    first: Delivery,
    second: Delivery,
    record: WriteOutcome)

  // ---------------------------------------------------------------- the trace, as a specification

  function AttemptOf(payload: Safety.ReviewPayload, d: Delivery): Event {
    Attempted(payload, Created(d), d.Unprocessable?)
  }

  function WriteTrace(e: Event, o: WriteOutcome): seq<Event> {
    if TakesEffect(o) then [e] else []
  }

  function PostTrace(payload: Safety.ReviewPayload, env: Env): seq<Event> {
    [AttemptOf(payload, env.first)]
    + match env.first
      case Accepted(id) => WriteTrace(RecordedPost(id, |payload.comments|), env.record)
      case Unprocessable =>
        if payload.comments == [] then []
        else
          [AttemptOf(Safety.Degrade(payload), env.second)]
          + (if env.second.Accepted? then WriteTrace(RecordedPost(env.second.id, 0), env.record) else [])
      case _ => []
  }

  /** The explanation of a diff too large is a review without comments. */
  const EXPLANATION := Safety.ReviewPayload([], None)

  /** The calls made before the graph ran are folded in, in front. */
  function WithCalls(extra: seq<AgentCall>, r: Pipeline.ReviewResult): Pipeline.ReviewResult {
    r.(calls := extra + r.calls)
  }

  /** What follows once the row is marked running. */
  function RunningTrace(env: Env, head: string, extra: seq<AgentCall>, prior: Children): seq<Event> {
    if env.graph.None? then WriteTrace(MarkedFailed, env.fail)
    else
      var result := WithCalls(extra, env.graph.value);
      WriteTrace(Finished(result), FinishOutcome(prior, result, env.finish))
      + PostTrace(Safety.BuildReview(env.graph.value.findings, Some(head)), env)
  }

  function JobTrace(env: Env, head: string, extra: seq<AgentCall>, prior: Children): seq<Event> {
    match env.fetch
    case DiffTooLarge =>
      [AttemptOf(EXPLANATION, env.explain)] + (if env.explain.Crashed? then [] else WriteTrace(MarkedFailed, env.fail))
    case FetchRefused => WriteTrace(MarkedFailed, env.fail)
    case FetchCrashed => []
    case Fetched =>
      WriteTrace(MarkedRunning, env.mark) + (if Raises(env.mark) then [] else RunningTrace(env, head, extra, prior))
  }

  // ---------------------------------------------------------------- the methods

  /** How a call ends: normally, or with an exception of one of the kinds the code tells apart. */
  datatype Ending = Returned | GitHubUnprocessable | GitHubError | OtherError

  function EndingOf(d: Delivery): Ending {
    match d
    case Accepted(_) => Returned
    case Unprocessable => GitHubUnprocessable
    case Refused(_) => GitHubError
    case Crashed(_) => OtherError
  }

  lemma {:induction false} ReplayOne(s: RowState, e: Event)
    ensures Replay(s, [e]) == After(s, e)
    ensures Replay(s, []) == s
  {
    assert [e][..0] == [];
  }

  method Send(row: Row, payload: Safety.ReviewPayload, d: Delivery) returns (id: nat, ending: Ending)
    modifies row
    ensures row.Explained([AttemptOf(payload, d)])
    ensures ending == EndingOf(d) && (d.Accepted? ==> id == d.id)
  {
    row.Note(AttemptOf(payload, d));
    id := if d.Accepted? then d.id else 0;
    ending := EndingOf(d);
  }

  /** `_say`: swallows a GitHub error and nothing else. */
  method Say(row: Row, d: Delivery) returns (raised: bool)
    modifies row
    ensures row.Explained([AttemptOf(EXPLANATION, d)])
    ensures raised == d.Crashed?
  {
    var _, ending := Send(row, EXPLANATION, d);
    raised := ending == OtherError;
  }

  /** `_create_review`: one retry, without comments, and only if there were some. */
  method CreateReview(row: Row, payload: Safety.ReviewPayload, first: Delivery, second: Delivery)
    returns (id: nat, count: nat, ending: Ending)
    modifies row
    ensures row.Explained(
      [AttemptOf(payload, first)]
      + if first.Unprocessable? && payload.comments != [] then [AttemptOf(Safety.Degrade(payload), second)] else [])
    ensures var retried := first.Unprocessable? && payload.comments != [];
            && ending == EndingOf(if retried then second else first)
            && (ending == Returned ==>
                  && id == (if retried then second.id else first.id)
                  && count == if retried then 0 else |payload.comments|)
  {
    ghost var before := row.State();
    id, ending := Send(row, payload, first);
    count := |payload.comments|;
    if ending == GitHubUnprocessable && payload.comments != [] {
      ReplayConcat(before, [AttemptOf(payload, first)], [AttemptOf(Safety.Degrade(payload), second)]);
      id, ending := Send(row, Safety.Degrade(payload), second);
      count := 0;
    }
  }

  /** `_post` */
  method Post(row: Row, payload: Safety.ReviewPayload, env: Env) returns (raised: bool)
    modifies row
    ensures row.Explained(PostTrace(payload, env))
  {
    ghost var before := row.State();
    var id, count, ending := CreateReview(row, payload, env.first, env.second);
    ghost var attempts := [AttemptOf(payload, env.first)]
      + if env.first.Unprocessable? && payload.comments != []
        then [AttemptOf(Safety.Degrade(payload), env.second)] else [];
    raised := ending == OtherError;
    if ending != Returned {
      assert PostTrace(payload, env) == attempts;
      return;
    }
    ReplayConcat(before, attempts, WriteTrace(RecordedPost(id, count), env.record));
    var _ := row.RecordPostedReview(id, count, env.record);
    assert PostTrace(payload, env) == attempts + WriteTrace(RecordedPost(id, count), env.record);
  }

  /** `_fetch`: whether there is a diff, or whether an exception escapes. */
  method Fetch(row: Row, env: Env) returns (fetched: bool, raised: bool)
    modifies row
    ensures fetched == env.fetch.Fetched? && (fetched ==> !raised)
    ensures row.Explained(if env.fetch.Fetched? then [] else JobTrace(env, "", [], CHILDLESS))
  {
    fetched, raised := false, false;
    ghost var before := row.State();
    match env.fetch {
      case Fetched =>
        fetched := true;
      case DiffTooLarge =>
        raised := Say(row, env.explain);
        if !raised {
          ReplayConcat(before, [AttemptOf(EXPLANATION, env.explain)], WriteTrace(MarkedFailed, env.fail));
          raised := row.FailReview(env.fail);
        }
      case FetchRefused =>
        raised := row.FailReview(env.fail);
      case FetchCrashed =>
        raised := true;
    }
  }

  /** Saving before posting: a failed save is logged, and the review is posted all the same. */
  method SaveAndPost(row: Row, env: Env, payload: Safety.ReviewPayload, result: Pipeline.ReviewResult)
    returns (raised: bool)
    modifies row
    ensures row.Explained(WriteTrace(Finished(result), FinishOutcome(old(row.State().children), result, env.finish))
                          + PostTrace(payload, env))
  {
    ghost var before := row.State();
    ghost var finished := WriteTrace(Finished(result), FinishOutcome(before.children, result, env.finish));
    ReplayConcat(before, finished, PostTrace(payload, env));
    var _ := row.FinishReview(result, env.finish);
    raised := Post(row, payload, env);
  }

  method RunAndPost(row: Row, env: Env, head: string, extra: seq<AgentCall>) returns (raised: bool)
    modifies row
    ensures row.Explained(RunningTrace(env, head, extra, old(row.State().children)))
  {
    if env.graph.None? {
      raised := row.FailReview(env.fail);
      return;
    }
    var result := WithCalls(extra, env.graph.value);
    raised := SaveAndPost(row, env, Safety.BuildReview(result.findings, Some(head)), result);
  }

  /** `review_pull_request`: nothing escapes, and the row is explained by the job's trace. */
  method ReviewPullRequest(row: Row, env: Env, head: string, extra: seq<AgentCall>)
    modifies row
    ensures row.Explained(JobTrace(env, head, extra, old(row.State().children)))
  {
    ghost var before := row.State();
    var fetched, raised := Fetch(row, env);
    if !fetched {
      assert JobTrace(env, head, extra, before.children) == JobTrace(env, "", [], CHILDLESS);
      return;
    }
    assert before == row.State();
    ghost var running := RunningTrace(env, head, extra, before.children);
    assert JobTrace(env, head, extra, before.children)
        == WriteTrace(MarkedRunning, env.mark) + (if Raises(env.mark) then [] else running);
    ReplayConcat(before, WriteTrace(MarkedRunning, env.mark), running);
    raised := row.MarkRunning(env.mark);
    if !raised {
      MarkingKeepsChildren(before);
      raised := RunAndPost(row, env, head, extra);
    }
  }

  lemma {:induction false} MarkingKeepsChildren(s: RowState)
    ensures Replay(s, [MarkedRunning]).children == s.children
  {
    ReplayOne(s, MarkedRunning);
  }
}
