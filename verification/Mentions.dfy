/** Turning a mention into an action (src/reviewhive/mentions/dispatch.py). */
module Mentions {
  import opened Models
  import opened Lifecycle
  import Jobs
  import Pipeline

  datatype StoredFinding = StoredFinding(ordinal: int, file: string, line: Option<int>, body: string)

  datatype Action = FullReview | FocusedReview | AnswerQuestion | ReconsiderFinding

  datatype IntentRead = IntentRead(action: Action, targetOrdinal: Option<int>)

  /** What `classify` makes of the comment: a bare mention costs no call; an unreadable answer is answered
      as asked; anything that is not an API error escapes. */
  datatype Classification = Bare | Unreadable | Read(intent: IntentRead) | ClassifierCrashed

  datatype ModelReply = Replied(text: string) | NoReply | ModelCrashed

  /** The tokens a call was charged. */
  datatype Usage = Usage(inputTokens: nat, outputTokens: nat, cacheReadTokens: nat)

  function CallBy(agent: CallAgent, model: string, u: Usage): AgentCall {
    AgentCall(agent, model, u.inputTokens, u.outputTokens, u.cacheReadTokens)
  }

  /** The mention, as the webhook hands it over. */
  datatype Mention = Mention(inReplyTo: Option<int>, path: Option<string>, line: Option<int>)

  /** Every outcome one mention may meet.  `stored` is None when the lookup raises. */
  datatype Env = Env(
    stored: Option<seq<StoredFinding>>,
    classification: Classification,
    job: Jobs.Env,
    fetch: Jobs.FetchOutcome,
    reply: ModelReply,
    postReply: Jobs.Delivery,
    finish: WriteOutcome,
    fail: WriteOutcome,
    model: string,
    classifierUsage: Usage,
    answerUsage: Usage)

  /** A reply: the fixed one for a pull request never reviewed, or the model's text. */
  datatype Reply = NotReviewedYet | Said(text: string)

  // ---------------------------------------------------------------- which finding it is about

  /** The finding an inline thread belongs to: the first one at the comment's own anchor. */
  function ThreadTarget(stored: seq<StoredFinding>, path: Option<string>, line: Option<int>): Option<int> {
    if path.None? || path.value == "" || stored == [] then None
    else if AtAnchor(stored[0], path.value, line) then Some(stored[0].ordinal)
    else ThreadTarget(stored[1..], path, line)
  }

  /** `_thread_target(...) if in_reply_to else None`; an id of 0 is falsy too. */
  function ThreadOf(m: Mention, stored: seq<StoredFinding>): Option<int> {
    if m.inReplyTo.Some? && m.inReplyTo.value != 0 then ThreadTarget(stored, m.path, m.line) else None
  }

  function Target(ordinal: Option<int>, findings: seq<StoredFinding>): Option<StoredFinding> {
    if ordinal.None? || findings == [] then None
    else if findings[0].ordinal == ordinal.value then Some(findings[0])
    else Target(ordinal, findings[1..])
  }

  /** The intent acted on: a thread's own finding overrides the model's guess. */
  function IntentOf(c: Classification, thread: Option<int>): IntentRead
    requires !c.ClassifierCrashed?
  {
    match c
    case Bare => IntentRead(FullReview, None)
    case Unreadable => IntentRead(AnswerQuestion, None)
    case Read(intent) => if thread.Some? then intent.(targetOrdinal := thread) else intent
  }

  function ClassifierCalls(c: Classification, model: string, u: Usage): seq<AgentCall> {
    if c.Bare? then [] else [CallBy(Intent, model, u)]
  }

  predicate AtAnchor(f: StoredFinding, path: string, line: Option<int>) {
    f.file == path && (line.None? || f.line == line)
  }

  /** The first stored finding at the comment's anchor, or none exactly when there is none (or no path). */
  lemma {:induction false} ThreadTargetIs(stored: seq<StoredFinding>, path: Option<string>, line: Option<int>)
    ensures ThreadTarget(stored, path, line).Some? ==>
              && path.Some?
              && exists i :: 0 <= i < |stored| && AtAnchor(stored[i], path.value, line)
                             && ThreadTarget(stored, path, line) == Some(stored[i].ordinal)
                             && forall j :: 0 <= j < i ==> !AtAnchor(stored[j], path.value, line)
    ensures ThreadTarget(stored, path, line).None?
        <==> path.None? || path.value == "" || forall f <- stored :: !AtAnchor(f, path.value, line)
  {
    if path.Some? && path.value != "" && stored != [] {
      ThreadTargetIs(stored[1..], path, line);
      assert stored == [stored[0]] + stored[1..];
      assert stored[0] in stored;
      if !AtAnchor(stored[0], path.value, line) && ThreadTarget(stored[1..], path, line).Some? {
        var i :| 0 <= i < |stored| - 1 && AtAnchor(stored[1..][i], path.value, line)
                 && ThreadTarget(stored[1..], path, line) == Some(stored[1..][i].ordinal)
                 && forall j :: 0 <= j < i ==> !AtAnchor(stored[1..][j], path.value, line);
        assert AtAnchor(stored[i + 1], path.value, line);
        forall j | 0 <= j < i + 1
          ensures !AtAnchor(stored[j], path.value, line)
        {
          assert j > 0 ==> stored[1..][j - 1] == stored[j];
        }
      }
    }
  }

  lemma {:induction false} TargetIs(ordinal: Option<int>, findings: seq<StoredFinding>)
    ensures Target(ordinal, findings).Some? ==>
              Target(ordinal, findings).value in findings && Some(Target(ordinal, findings).value.ordinal) == ordinal
    ensures Target(ordinal, findings).None? && ordinal.Some? ==> forall f <- findings :: f.ordinal != ordinal.value
  {
    if ordinal.Some? && findings != [] {
      TargetIs(ordinal, findings[1..]);
      assert findings == [findings[0]] + findings[1..];
    }
  }

  /** A reply inside a thread is about a finding at that thread's anchor, whatever the model said; and an
      ordinal the model made up is about nothing. */
  lemma {:induction false} ThreadWins(m: Mention, stored: seq<StoredFinding>, intent: IntentRead)
    ensures var thread := ThreadOf(m, stored);
            var target := Target(IntentOf(Read(intent), thread).targetOrdinal, stored);
            && (thread.Some? ==> target.Some? && Some(target.value.ordinal) == thread)
            && (thread.None? && target.Some? ==> Some(target.value.ordinal) == intent.targetOrdinal)
            && (target.Some? ==> target.value in stored)
  {
    ThreadTargetIs(stored, m.path, m.line);
    TargetIs(IntentOf(Read(intent), ThreadOf(m, stored)).targetOrdinal, stored);
  }

  // ---------------------------------------------------------------- the trace, as a specification

  /** How `handle_mention` comes out. */
  datatype Handling =
    | Broke
    | Dispatched(extra: seq<AgentCall>)
    | Handled(calls: seq<AgentCall>, reply: Option<Reply>)

  function ReplyOf(reply: ModelReply): Option<Reply> {
    if reply.Replied? then Some(Said(reply.text)) else None
  }

  function HandlingOf(env: Env, stored: seq<StoredFinding>, thread: Option<int>): Handling {
    if env.classification.ClassifierCrashed? then Broke
    else
      var intent := IntentOf(env.classification, thread);
      var calls := ClassifierCalls(env.classification, env.model, env.classifierUsage);
      if intent.action.FullReview? || intent.action.FocusedReview? then Dispatched(calls)
      else if stored == [] then Handled(calls, Some(NotReviewedYet))
      else
        match env.fetch
        case FetchCrashed => Broke
        case DiffTooLarge => Handled(calls, None)
        case FetchRefused => Handled(calls, None)
        case Fetched =>
          var target := Target(intent.targetOrdinal, stored);
          var agent := if intent.action.ReconsiderFinding? && target.Some? then Reconsider else Answer;
          if env.reply.ModelCrashed? then Broke
          else Handled(calls + [CallBy(agent, env.model, env.answerUsage)], ReplyOf(env.reply))
  }

  predicate ReplyBreaks(reply: Option<Reply>, d: Jobs.Delivery) {
    reply.Some? && reply.value != Said("") && d.Crashed?
  }

  /** `ReviewResult(findings=[], calls=outcome.calls)` */
  function OwnResult(calls: seq<AgentCall>): Pipeline.ReviewResult {
    Pipeline.ReviewResult([], 0, 0, [], [], calls, None)
  }

  /** What finishing the mention's own row leaves. */
  function OwnTrace(env: Env, calls: seq<AgentCall>, prior: Children): seq<Event> {
    var o := FinishOutcome(prior, OwnResult(calls), env.finish);
    Jobs.WriteTrace(Finished(OwnResult(calls)), o) + (if Raises(o) then Jobs.WriteTrace(MarkedFailed, env.fail) else [])
  }

  function MentionTrace(env: Env, m: Mention, head: string, prior: Children): seq<Event> {
    if env.stored.None? then Jobs.WriteTrace(MarkedFailed, env.fail)
    else
      match HandlingOf(env, env.stored.value, ThreadOf(m, env.stored.value))
      case Broke => Jobs.WriteTrace(MarkedFailed, env.fail)
      case Dispatched(extra) => Jobs.JobTrace(env.job, head, extra, prior)
      case Handled(calls, reply) =>
        if ReplyBreaks(reply, env.postReply) then Jobs.WriteTrace(MarkedFailed, env.fail)
        else
          OwnTrace(env, calls, prior)
  }

  // ---------------------------------------------------------------- the methods

  /** `MentionOutcome`: filled in as the mention is handled. */
  class MentionOutcome {
    var reply: Option<Reply>
    var calls: seq<AgentCall>
    var reviewDispatched: bool

    constructor ()
      ensures reply == None && calls == [] && !reviewDispatched
    {
      reply, calls, reviewDispatched := None, [], false;
    }

    ghost predicate Records(h: Handling)
      reads this
    {
      match h
      case Broke => true
      case Dispatched(extra) => reviewDispatched && calls == extra && reply == None
      case Handled(cs, r) => !reviewDispatched && calls == cs && reply == r
    }
  }

  method HandleMention(row: Row, env: Env, stored: seq<StoredFinding>, thread: Option<int>, head: string)
    returns (outcome: MentionOutcome, raised: bool)
    modifies row
    ensures fresh(outcome)
    ensures var h := HandlingOf(env, stored, thread);
            && raised == h.Broke?
            && outcome.Records(h)
            && row.Explained(if h.Dispatched?
                             then Jobs.JobTrace(env.job, head, h.extra, old(row.State().children)) else [])
  {
    outcome := new MentionOutcome();
    raised := false;
    if env.classification.ClassifierCrashed? {
      return outcome, true;
    }
    var intent := IntentOf(env.classification, thread);
    outcome.calls := outcome.calls + ClassifierCalls(env.classification, env.model, env.classifierUsage);
    if intent.action.FullReview? || intent.action.FocusedReview? {
      Jobs.ReviewPullRequest(row, env.job, head, outcome.calls);
      outcome.reviewDispatched := true;
      return;
    }
    if stored == [] {
      outcome.reply := Some(NotReviewedYet);
      return;
    }
    match env.fetch {
      case FetchCrashed =>
        raised := true;
      case DiffTooLarge =>
      case FetchRefused =>
      case Fetched =>
        var target := Target(intent.targetOrdinal, stored);
        if env.reply.ModelCrashed? {
          raised := true;
        } else if intent.action.ReconsiderFinding? && target.Some? {
          outcome.calls := outcome.calls + [CallBy(Reconsider, env.model, env.answerUsage)];
          outcome.reply := ReplyOf(env.reply);
        } else {
          outcome.calls := outcome.calls + [CallBy(Answer, env.model, env.answerUsage)];
          outcome.reply := ReplyOf(env.reply);
        }
    }
  }

  /** The mention finishes its own row, and marks it failed if that raises. */
  method FinishOwnRow(row: Row, env: Env, calls: seq<AgentCall>)
    modifies row
    ensures row.Explained(OwnTrace(env, calls, old(row.State().children)))
  {
    ghost var before := row.State();
    ghost var o := FinishOutcome(before.children, OwnResult(calls), env.finish);
    ReplayConcat(before, Jobs.WriteTrace(Finished(OwnResult(calls)), o), Jobs.WriteTrace(MarkedFailed, env.fail));
    var raised := row.FinishReview(OwnResult(calls), env.finish);
    if raised {
      var _ := row.FailReview(env.fail);
    }
  }

  /** `respond_to_mention`: nothing escapes; a row the review path owns is not finished again. */
  method RespondToMention(row: Row, env: Env, m: Mention, head: string)
    modifies row
    ensures row.Explained(MentionTrace(env, m, head, old(row.State().children)))
  {
    if env.stored.None? {
      var _ := row.FailReview(env.fail);
      return;
    }
    var stored := env.stored.value;
    var outcome, raised := HandleMention(row, env, stored, ThreadOf(m, stored), head);
    if raised || ReplyBreaks(outcome.reply, env.postReply) {
      var _ := row.FailReview(env.fail);
    } else if !outcome.reviewDispatched {
      FinishOwnRow(row, env, outcome.calls);
    }
  }
}
