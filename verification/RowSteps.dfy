/** The background jobs as steps of the table of rows: every status a job or a mention gives its row, in the
    order it gives them, is a step the interleaving allows (src/reviewhive/jobs.py,
    src/reviewhive/mentions/dispatch.py, src/reviewhive/db/repository.py). */
module RowSteps {
  import opened Models
  import opened Lifecycle
  import Jobs
  import JobSafety
  import Mentions
  import MentionSafety
  import Table = Webhook

  /** No event of the log takes a failed row anywhere else. */
  ghost predicate FailedIsFinal(s: RowState, log: seq<Event>) {
    forall k :: 0 <= k < |log| && Replay(s, log[..k]).status.Failed? ==> Replay(s, log[..k + 1]).status.Failed?
  }

  lemma {:induction false} JobFailedIsFinal(env: Jobs.Env, head: string, extra: seq<AgentCall>)
    ensures FailedIsFinal(FRESH, Jobs.JobTrace(env, head, extra, CHILDLESS))
  {
    JobSafety.EveryJobIsSafe(env, head, extra);
  }

  lemma {:induction false} FinishThenFail(log: seq<Event>)
    requires |log| <= 2 && (|log| == 2 ==> log[0].Finished?)
    ensures FailedIsFinal(FRESH, log)
  {
    assert log[..0] == [];
    if |log| == 2 {
      assert log[..1][..0] == [] && log[..1][0] == log[0];
      assert Replay(FRESH, log[..1]).status.Succeeded?;
    }
  }

  lemma {:induction false} MentionFailedIsFinal(env: Mentions.Env, m: Mentions.Mention, head: string)
    ensures FailedIsFinal(FRESH, Mentions.MentionTrace(env, m, head, CHILDLESS))
  {
    var h := MentionSafety.HandledAs(env, m);
    MentionSafety.TraceCases(env, m, head);
    if h.Dispatched? {
      JobFailedIsFinal(env.job, head, h.extra);
    } else {
      FinishThenFail(Mentions.MentionTrace(env, m, head, CHILDLESS));
    }
  }

  /** The table after more steps. */
  function RunFrom(t: Table.State, steps: seq<Table.Step>): Table.State {
    if steps == [] then t else Table.Next(RunFrom(t, steps[..|steps| - 1]), steps[|steps| - 1])
  }

  lemma {:induction false} RunsConcat(steps: seq<Table.Step>, more: seq<Table.Step>)
    ensures Table.After(steps + more) == RunFrom(Table.After(steps), more)
  {
    if more == [] {
      assert steps + more == steps;
    } else {
      var front, last := more[..|more| - 1], more[|more| - 1];
      assert steps + more == (steps + front) + [last];
      RunsConcat(steps, front);
      Table.PrefixesOfOneMore(steps + front, last);
    }
  }

  /** One step for each event: the row moves to the status the event gives it. */
  function StepsOf(row: nat, s: RowState, log: seq<Event>): (steps: seq<Table.Step>)
    ensures |steps| == |log|
  {
    seq(|log|, k requires 0 <= k < |log| => Table.Progress(row, Replay(s, log[..k + 1]).status))
  }

  function WithStatus(t: Table.State, row: nat, status: Status): Table.State
    requires row < |t.rows|
  {
    t.(rows := t.rows[row := t.rows[row].(status := status)])
  }

  lemma {:induction false} StepsReplay(t: Table.State, row: nat, s: RowState, log: seq<Event>)
    requires row < |t.rows| && t.rows[row].status == s.status
    requires FailedIsFinal(s, log)
    ensures RunFrom(t, StepsOf(row, s, log)) == WithStatus(t, row, Replay(s, log).status)
  {
    if log == [] {
      assert t.rows[row := t.rows[row]] == t.rows;
    } else {
      var n := |log| - 1;
      PrefixFinal(s, log, n);
      StepsReplay(t, row, s, log[..n]);
      StepsOfPrefix(row, s, log, n);
      var before := WithStatus(t, row, Replay(s, log[..n]).status);
      assert StepsOf(row, s, log)[n] == Table.Progress(row, Replay(s, log).status) by {
        assert log[..n + 1] == log;
      }
      assert Replay(s, log[..n]).status.Failed? ==> Replay(s, log).status.Failed? by {
        assert log[..n + 1] == log;
      }
      assert Table.Next(before, Table.Progress(row, Replay(s, log).status))
          == WithStatus(t, row, Replay(s, log).status);
    }
  }

  lemma {:induction false} PrefixFinal(s: RowState, log: seq<Event>, n: nat)
    requires n <= |log| && FailedIsFinal(s, log)
    ensures FailedIsFinal(s, log[..n])
  {
    forall k | 0 <= k < n && Replay(s, log[..n][..k]).status.Failed?
      ensures Replay(s, log[..n][..k + 1]).status.Failed?
    {
      assert log[..n][..k] == log[..k] && log[..n][..k + 1] == log[..k + 1];
    }
  }

  lemma {:induction false} StepsOfPrefix(row: nat, s: RowState, log: seq<Event>, n: nat)
    requires n <= |log|
    ensures StepsOf(row, s, log)[..n] == StepsOf(row, s, log[..n])
  {
    forall k | 0 <= k < n
      ensures StepsOf(row, s, log)[k] == StepsOf(row, s, log[..n])[k]
    {
      assert log[..n][..k + 1] == log[..k + 1];
    }
  }

  /** The steps that move this row. */
  function OwnSteps(more: seq<Table.Step>, row: nat): seq<Table.Step> {
    if more == [] then []
    else
      var last := more[|more| - 1];
      OwnSteps(more[..|more| - 1], row) + (if last.Progress? && last.row == row then [last] else [])
  }

  lemma {:induction false} OthersLeaveRow(t: Table.State, step: Table.Step, row: nat)
    requires row < |t.rows| && !(step.Progress? && step.row == row)
    ensures row < |Table.Next(t, step).rows| && Table.Next(t, step).rows[row] == t.rows[row]
  {
  }

  lemma {:induction false} OwnMovesRow(t: Table.State, row: nat, status: Status)
    requires row < |t.rows| && (t.rows[row].status.Failed? ==> status.Failed?)
    ensures Table.Next(t, Table.Progress(row, status)) == WithStatus(t, row, status)
  {
    assert t.rows[row := t.rows[row]] == t.rows;
  }

  lemma {:induction false} LastStep(row: nat, s: RowState, log: seq<Event>)
    requires log != []
    ensures StepsOf(row, s, log)
         == StepsOf(row, s, log[..|log| - 1]) + [Table.Progress(row, Replay(s, log).status)]
  {
    StepsOfPrefix(row, s, log, |log| - 1);
    assert log[..|log| - 1 + 1] == log;
  }

  lemma {:induction false} LastIsPermitted(s: RowState, log: seq<Event>)
    requires log != [] && FailedIsFinal(s, log)
    ensures Replay(s, log[..|log| - 1]).status.Failed? ==> Replay(s, log).status.Failed?
  {
    assert log[..|log| - 1 + 1] == log;
  }

  /** However the row's steps are interleaved with steps that move other rows, handlers or jobs, the row
      takes each of its statuses in turn. */
  lemma {:induction false} RowFollows(t: Table.State, more: seq<Table.Step>, row: nat, s: RowState, log: seq<Event>)
    requires row < |t.rows| && t.rows[row].status == s.status
    requires FailedIsFinal(s, log) && OwnSteps(more, row) == StepsOf(row, s, log)
    ensures row < |RunFrom(t, more).rows|
    ensures RunFrom(t, more).rows[row] == t.rows[row].(status := Replay(s, log).status)
  {
    if more != [] {
      var front, last := more[..|more| - 1], more[|more| - 1];
      if last.Progress? && last.row == row {
        assert log != [];
        LastStep(row, s, log);
        assert StepsOf(row, s, log)[|log| - 1] == last;
        assert OwnSteps(front, row) == OwnSteps(more, row)[..|log| - 1];
        PrefixFinal(s, log, |log| - 1);
        RowFollows(t, front, row, s, log[..|log| - 1]);
        LastIsPermitted(s, log);
        OwnMovesRow(RunFrom(t, front), row, Replay(s, log).status);
      } else {
        RowFollows(t, front, row, s, log);
        OthersLeaveRow(RunFrom(t, front), last, row);
      }
    }
  }

  /** At every point of a job, whatever its outcomes and whatever other parties did in between, the table
      holds the status the job has given its row: each change was a permitted step.  With nothing in
      between, nothing else in the table has moved. */
  lemma {:induction false} JobsArePermitted(steps: seq<Table.Step>, more: seq<Table.Step>, row: nat, env: Jobs.Env,
                                            head: string, extra: seq<AgentCall>, n: nat)
    requires row < |Table.After(steps).rows| && Table.After(steps).rows[row].status.Pending?
    requires n <= |Jobs.JobTrace(env, head, extra, CHILDLESS)|
    requires OwnSteps(more, row) == StepsOf(row, FRESH, Jobs.JobTrace(env, head, extra, CHILDLESS)[..n])
    ensures FollowsUpTo(steps, more, row, Jobs.JobTrace(env, head, extra, CHILDLESS)[..n])
  {
    JobFailedIsFinal(env, head, extra);
    PermittedUpTo(steps, more, row, Jobs.JobTrace(env, head, extra, CHILDLESS), n);
  }

  /** The same for a mention. */
  lemma {:induction false} MentionsArePermitted(steps: seq<Table.Step>, more: seq<Table.Step>, row: nat,
                                                env: Mentions.Env, m: Mentions.Mention, head: string, n: nat)
    requires row < |Table.After(steps).rows| && Table.After(steps).rows[row].status.Pending?
    requires n <= |Mentions.MentionTrace(env, m, head, CHILDLESS)|
    requires OwnSteps(more, row) == StepsOf(row, FRESH, Mentions.MentionTrace(env, m, head, CHILDLESS)[..n])
    ensures FollowsUpTo(steps, more, row, Mentions.MentionTrace(env, m, head, CHILDLESS)[..n])
  {
    MentionFailedIsFinal(env, m, head);
    PermittedUpTo(steps, more, row, Mentions.MentionTrace(env, m, head, CHILDLESS), n);
  }

  /** After `more`, the row is as it was but for the status, which is the log's; and if nothing came between
      the row's own steps, the rest of the table is as it was. */
  ghost predicate FollowsUpTo(steps: seq<Table.Step>, more: seq<Table.Step>, row: nat, log: seq<Event>)
    requires row < |Table.After(steps).rows|
  {
    var t, status := Table.After(steps + more), Replay(FRESH, log).status;
    && row < |t.rows|
    && t.rows[row] == Table.After(steps).rows[row].(status := status)
    && (more == StepsOf(row, FRESH, log) ==> t == WithStatus(Table.After(steps), row, status))
  }

  lemma {:induction false} PermittedUpTo(steps: seq<Table.Step>, more: seq<Table.Step>, row: nat, log: seq<Event>,
                                         n: nat)
    requires row < |Table.After(steps).rows| && Table.After(steps).rows[row].status.Pending?
    requires n <= |log| && FailedIsFinal(FRESH, log)
    requires OwnSteps(more, row) == StepsOf(row, FRESH, log[..n])
    ensures FollowsUpTo(steps, more, row, log[..n])
  {
    PrefixFinal(FRESH, log, n);
    RunsConcat(steps, more);
    RowFollows(Table.After(steps), more, row, FRESH, log[..n]);
    StepsReplay(Table.After(steps), row, FRESH, log[..n]);
  }
}
