/** Deliveries, redeliveries and the rows they make (src/reviewhive/api/webhook.py), as interleaved steps
    over one table with a UNIQUE delivery id (src/reviewhive/db/models.py). */
module Webhook {
  import opened Models
  import opened Lifecycle

  datatype Source = FromPullRequest | FromComment | FromCli

  /** The commit a row is about. */
  datatype Head = Head(repo: string, pr: int, sha: string)

  /** A row of the reviews table; rows are kept in the order they were created. */
  datatype ReviewRow = ReviewRow(delivery: Option<string>, source: Source, head: Option<Head>, status: Status)

  /** How far a request handler has come. */
  datatype Phase = CheckingDelivery | CheckingHead | Inserting | Dispatching(row: nat) | Done

  datatype Handler = Handler(source: Source, delivery: string, head: Head, phase: Phase)

  datatype State = State(rows: seq<ReviewRow>, handlers: map<nat, Handler>, jobs: seq<nat>)

  /** One atomic step of one party.  A step that is not enabled changes nothing. */
  datatype Step =
    | Arrive(pid: nat, source: Source, delivery: string, head: Head)
    | CheckDelivery(pid: nat)
    | CheckHead(pid: nat)
    | Insert(pid: nat, outcome: WriteOutcome)
    | Dispatch(pid: nat)
    | Ignore(pid: nat)
    | AddCliRow
    | Progress(row: nat, status: Status)

  const EMPTY := State([], map[], [])

  // ---------------------------------------------------------------- the store's questions

  predicate Recorded(rows: seq<ReviewRow>, delivery: string) {
    exists r <- rows :: r.delivery == Some(delivery)
  }

  /** `find_latest_review_for_head`: the newest row of this commit, whatever made it. */
  function LatestFor(rows: seq<ReviewRow>, head: Head): Option<ReviewRow> {
    if rows == [] then None
    else if rows[|rows| - 1].head == Some(head) then Some(rows[|rows| - 1])
    else LatestFor(rows[..|rows| - 1], head)
  }

  // ---------------------------------------------------------------- steps

  function AfterDeliveryCheck(rows: seq<ReviewRow>, h: Handler): Phase {
    if h.delivery != "" && Recorded(rows, h.delivery) then Done else CheckingHead
  }

  function AfterHeadCheck(rows: seq<ReviewRow>, h: Handler): Phase {
    var already := LatestFor(rows, h.head);
    if already.Some? && already.value.status != Failed then Done else Inserting
  }

  function RowOf(h: Handler): ReviewRow {
    ReviewRow(Some(h.delivery), h.source, Some(h.head), Pending)
  }

  /** `start_review` under the unique constraint: a duplicate is refused whatever else happens. */
  function InsertOutcome(rows: seq<ReviewRow>, h: Handler, o: WriteOutcome): WriteOutcome {
    if Recorded(rows, h.delivery) then RolledBack else o
  }

  function AfterInsert(s: State, h: Handler, o: WriteOutcome): (seq<ReviewRow>, Phase) {
    var outcome := InsertOutcome(s.rows, h, o);
    (if TakesEffect(outcome) then s.rows + [RowOf(h)] else s.rows,
     if Raises(outcome) then Done else Dispatching(|s.rows|))
  }

  function InitialPhase(source: Source): Phase {
    if source.FromPullRequest? then CheckingDelivery else Inserting
  }

  function Moved(s: State, pid: nat, phase: Phase): State
    requires pid in s.handlers
  {
    s.(handlers := s.handlers[pid := s.handlers[pid].(phase := phase)])
  }

  function Next(s: State, step: Step): State {
    match step
    case Arrive(pid, source, delivery, head) =>
      if pid in s.handlers || source.FromCli? then s
      else s.(handlers := s.handlers[pid := Handler(source, delivery, head, InitialPhase(source))])
    case CheckDelivery(pid) =>
      if pid !in s.handlers || !s.handlers[pid].phase.CheckingDelivery? then s
      else Moved(s, pid, AfterDeliveryCheck(s.rows, s.handlers[pid]))
    case CheckHead(pid) =>
      if pid !in s.handlers || !s.handlers[pid].phase.CheckingHead? then s
      else Moved(s, pid, AfterHeadCheck(s.rows, s.handlers[pid]))
    case Insert(pid, outcome) =>
      if pid !in s.handlers || !s.handlers[pid].phase.Inserting? then s
      else
        var (rows, phase) := AfterInsert(s, s.handlers[pid], outcome);
        Moved(s, pid, phase).(rows := rows)
    case Dispatch(pid) =>
      if pid !in s.handlers || !s.handlers[pid].phase.Dispatching? then s
      else Moved(s, pid, Done).(jobs := s.jobs + [s.handlers[pid].phase.row])
    case Ignore(pid) =>
      // a comment handler turned away by any of its guards, before it writes
      if pid !in s.handlers || !s.handlers[pid].source.FromComment? || !s.handlers[pid].phase.Inserting? then s
      else Moved(s, pid, Done)
    case AddCliRow => s.(rows := s.rows + [ReviewRow(None, FromCli, None, Pending)])
    case Progress(row, status) =>
      // the row's own job moves it on; no job leaves `failed`
      if row >= |s.rows| || s.rows[row].status.Failed? then s
      else s.(rows := s.rows[row := s.rows[row].(status := status)])
  }

  function After(steps: seq<Step>): State {
    if steps == [] then EMPTY else Next(After(steps[..|steps| - 1]), steps[|steps| - 1])
  }

  // ---------------------------------------------------------------- one job a delivery

  ghost predicate DeliveriesDistinct(rows: seq<ReviewRow>) {
    forall i, j :: 0 <= i < j < |rows| && rows[i].delivery.Some? ==> rows[i].delivery != rows[j].delivery
  }

  ghost predicate JobsDistinct(s: State) {
    && (forall i :: 0 <= i < |s.jobs| ==> s.jobs[i] < |s.rows| && s.rows[s.jobs[i]].delivery.Some?)
    && (forall i, j :: 0 <= i < j < |s.jobs| ==> s.jobs[i] != s.jobs[j])
  }

  /** A handler about to dispatch holds a row nobody else has or had. */
  ghost predicate TicketsOwned(s: State) {
    forall pid <- s.handlers :: s.handlers[pid].phase.Dispatching? ==>
      var row := s.handlers[pid].phase.row;
      && row < |s.rows| && s.rows[row].delivery == Some(s.handlers[pid].delivery)
      && row !in s.jobs
      && forall other <- s.handlers :: other != pid ==> s.handlers[other].phase != Dispatching(row)
  }

  ghost predicate Sound(s: State) {
    DeliveriesDistinct(s.rows) && JobsDistinct(s) && TicketsOwned(s)
  }

  lemma {:induction false} InsertKeepsSound(s: State, pid: nat, outcome: WriteOutcome)
    requires Sound(s)
    ensures Sound(Next(s, Insert(pid, outcome)))
  {
    if pid in s.handlers && s.handlers[pid].phase.Inserting? {
      var h := s.handlers[pid];
      var t := Next(s, Insert(pid, outcome));
      if TakesEffect(InsertOutcome(s.rows, h, outcome)) {
        assert t.rows == s.rows + [RowOf(h)];
        forall i | 0 <= i < |s.rows|
          ensures s.rows[i].delivery != Some(h.delivery)
        {
          assert s.rows[i] in s.rows;
        }
        assert |s.rows| !in s.jobs;
      }
    }
  }

  lemma DispatchKeepsSound(s: State, pid: nat)
    requires Sound(s)
    ensures Sound(Next(s, Dispatch(pid)))
  {
  }

  lemma {:induction false} StepKeepsSound(s: State, step: Step)
    requires Sound(s)
    ensures Sound(Next(s, step))
  {
    match step {
      case Insert(pid, outcome) => InsertKeepsSound(s, pid, outcome);
      case Dispatch(pid) => DispatchKeepsSound(s, pid);
      case Arrive(_, _, _, _) =>
      case CheckDelivery(_) =>
      case CheckHead(_) =>
      case Ignore(_) =>
      case AddCliRow =>
      case Progress(_, _) =>
    }
  }

  /** In every interleaving of any number of deliveries, redeliveries, comments and jobs: no two rows have
      the same delivery id, and no delivery id has more than one job. */
  lemma {:induction false} OneJobPerDelivery(steps: seq<Step>)
    ensures Sound(After(steps))
    ensures var s := After(steps);
            forall i, j :: 0 <= i < j < |s.jobs| ==>
              s.jobs[i] < |s.rows| && s.jobs[j] < |s.rows| && s.rows[s.jobs[i]].delivery != s.rows[s.jobs[j]].delivery
  {
    if steps != [] {
      OneJobPerDelivery(steps[..|steps| - 1]);
      StepKeepsSound(After(steps[..|steps| - 1]), steps[|steps| - 1]);
    }
    JobsHaveTheirOwnDelivery(After(steps));
  }

  lemma {:induction false} JobsHaveTheirOwnDelivery(s: State)
    requires Sound(s)
    ensures forall i, j :: 0 <= i < j < |s.jobs| ==> s.rows[s.jobs[i]].delivery != s.rows[s.jobs[j]].delivery
  {
    forall i, j | 0 <= i < j < |s.jobs|
      ensures s.rows[s.jobs[i]].delivery != s.rows[s.jobs[j]].delivery
    {
      var a, b := s.jobs[i], s.jobs[j];
      if a < b {
        assert s.rows[a].delivery != s.rows[b].delivery;
      } else {
        assert s.rows[b].delivery != s.rows[a].delivery;
      }
    }
  }

  // ---------------------------------------------------------------- one live review a head

  /** Of the rows of this commit, all but the newest are failed. */
  ghost predicate OnlyNewestLives(rows: seq<ReviewRow>, head: Head) {
    forall i, j :: 0 <= i < j < |rows| && rows[i].head == Some(head) && rows[j].head == Some(head) ==>
      rows[i].status.Failed?
  }

  ghost predicate HeadClear(rows: seq<ReviewRow>, head: Head) {
    forall i :: 0 <= i < |rows| && rows[i].head == Some(head) ==> rows[i].status.Failed?
  }

  /** The step creates a row of this commit. */
  predicate Creates(s: State, step: Step, head: Head) {
    && step.Insert? && step.pid in s.handlers && s.handlers[step.pid].phase.Inserting?
    && s.handlers[step.pid].head == head
    && TakesEffect(InsertOutcome(s.rows, s.handlers[step.pid], step.outcome))
  }

  /** The head check still holds when the row is created. */
  ghost predicate CreatesOnAClearHead(s: State, step: Step, head: Head) {
    Creates(s, step, head) ==> HeadClear(s.rows, head)
  }

  /** A step adds at most one row, and changes no row's commit; a failed row stays failed. */
  ghost predicate RowsGrow(before: seq<ReviewRow>, after: seq<ReviewRow>) {
    && |before| <= |after| <= |before| + 1
    && forall i :: 0 <= i < |before| ==>
         after[i].head == before[i].head && (before[i].status.Failed? ==> after[i].status.Failed?)
  }

  lemma StepGrowsRows(s: State, step: Step, head: Head)
    ensures RowsGrow(s.rows, Next(s, step).rows)
    ensures !Creates(s, step, head) ==>
              |Next(s, step).rows| == |s.rows| || Next(s, step).rows[|s.rows|].head != Some(head)
    ensures Creates(s, step, head) ==> Next(s, step).rows == s.rows + [RowOf(s.handlers[step.pid])]
  {
  }

  lemma {:induction false} StepKeepsNewest(s: State, step: Step, head: Head)
    requires OnlyNewestLives(s.rows, head)
    ensures OnlyNewestLives(Next(s, step).rows, head) <==> CreatesOnAClearHead(s, step, head)
  {
    var t := Next(s, step);
    StepGrowsRows(s, step, head);
    if Creates(s, step, head) && OnlyNewestLives(t.rows, head) {
      forall i | 0 <= i < |s.rows| && s.rows[i].head == Some(head)
        ensures s.rows[i].status.Failed?
      {
        assert t.rows[i] == s.rows[i] && t.rows[|s.rows|].head == Some(head);
      }
    }
  }

  /** At every point of the run. */
  ghost predicate AlwaysOnlyNewest(steps: seq<Step>, head: Head) {
    forall k :: 0 <= k <= |steps| ==> OnlyNewestLives(After(steps[..k]).rows, head)
  }

  ghost predicate AlwaysCreatesClear(steps: seq<Step>, head: Head) {
    forall k :: 0 <= k < |steps| ==> CreatesOnAClearHead(After(steps[..k]), steps[k], head)
  }

  lemma PrefixesOfOneMore(front: seq<Step>, last: Step)
    ensures forall k :: 0 <= k <= |front| ==> (front + [last])[..k] == front[..k]
    ensures (front + [last])[..|front|] == front
    ensures After(front + [last]) == Next(After(front), last)
  {
  }

  lemma {:induction false} AlwaysOneMore(front: seq<Step>, last: Step, head: Head)
    ensures AlwaysOnlyNewest(front + [last], head)
        <==> AlwaysOnlyNewest(front, head) && OnlyNewestLives(Next(After(front), last).rows, head)
  {
    var steps, n := front + [last], |front|;
    PrefixesOfOneMore(front, last);
    assert steps[..n + 1] == steps;
    if AlwaysOnlyNewest(steps, head) {
      assert OnlyNewestLives(After(steps[..n + 1]).rows, head);
      forall k | 0 <= k <= n
        ensures OnlyNewestLives(After(front[..k]).rows, head)
      {
        assert OnlyNewestLives(After(steps[..k]).rows, head);
      }
    }
    if AlwaysOnlyNewest(front, head) && OnlyNewestLives(Next(After(front), last).rows, head) {
      forall k | 0 <= k <= n + 1
        ensures OnlyNewestLives(After(steps[..k]).rows, head)
      {
        if k <= n {
          assert OnlyNewestLives(After(front[..k]).rows, head);
        }
      }
    }
  }

  lemma {:induction false} ClearOneMore(front: seq<Step>, last: Step, head: Head)
    ensures AlwaysCreatesClear(front + [last], head)
        <==> AlwaysCreatesClear(front, head) && CreatesOnAClearHead(After(front), last, head)
  {
    var steps, n := front + [last], |front|;
    PrefixesOfOneMore(front, last);
    assert steps[n] == last;
    if AlwaysCreatesClear(steps, head) {
      assert CreatesOnAClearHead(After(steps[..n]), steps[n], head);
      forall k | 0 <= k < n
        ensures CreatesOnAClearHead(After(front[..k]), front[k], head)
      {
        assert CreatesOnAClearHead(After(steps[..k]), steps[k], head);
      }
    }
    if AlwaysCreatesClear(front, head) && CreatesOnAClearHead(After(front), last, head) {
      forall k | 0 <= k < n + 1
        ensures CreatesOnAClearHead(After(steps[..k]), steps[k], head)
      {
        if k < n {
          assert CreatesOnAClearHead(After(front[..k]), front[k], head);
        }
      }
    }
  }

  lemma {:induction false} AlwaysNowToo(steps: seq<Step>, head: Head)
    requires AlwaysOnlyNewest(steps, head)
    ensures OnlyNewestLives(After(steps).rows, head)
  {
    assert steps[..|steps|] == steps;
  }

  /** Nothing in the table forbids two live reviews of one commit: it stays at one, at every point of a
      run, exactly when each of its rows is created while the head is still clear.  The handler checks
      that some steps earlier. */
  lemma {:induction false} OneLiveReviewExactly(steps: seq<Step>, head: Head)
    ensures AlwaysOnlyNewest(steps, head) <==> AlwaysCreatesClear(steps, head)
  {
    if steps != [] {
      var front, last := steps[..|steps| - 1], steps[|steps| - 1];
      assert steps == front + [last];
      OneLiveReviewExactly(front, head);
      AlwaysOneMore(front, last, head);
      ClearOneMore(front, last, head);
      if AlwaysOnlyNewest(front, head) {
        AlwaysNowToo(front, head);
        StepKeepsNewest(After(front), last, head);
      }
    } else {
      assert steps[..0] == steps;
    }
  }

  // ---------------------------------------------------------------- one at a time is enough

  ghost predicate NobodyAt(s: State, head: Head) {
    forall pid <- s.handlers :: s.handlers[pid].head == head ==> s.handlers[pid].phase.Done?
  }

  /** Deliveries about the commit are pull-request ones, and each arrives when the one before is done. */
  ghost predicate TurnsTaken(steps: seq<Step>, head: Head) {
    forall k :: 0 <= k < |steps| && steps[k].Arrive? && steps[k].head == head ==>
      steps[k].source.FromPullRequest? && NobodyAt(After(steps[..k]), head)
  }

  /** At most one handler is at the commit, it came from a pull request, and if it is about to insert the
      head is clear. */
  ghost predicate OneAtATime(s: State, head: Head) {
    && OnlyNewestLives(s.rows, head)
    && (forall pid <- s.handlers :: s.handlers[pid].head == head && s.handlers[pid].phase.Inserting? ==>
          HeadClear(s.rows, head))
    && (forall pid <- s.handlers, other <- s.handlers ::
          pid != other && s.handlers[pid].head == head && s.handlers[other].head == head ==>
            s.handlers[pid].phase.Done? || s.handlers[other].phase.Done?)
  }

  lemma {:induction false} LatestForIs(rows: seq<ReviewRow>, head: Head)
    requires OnlyNewestLives(rows, head)
    ensures LatestFor(rows, head).None? ==> HeadClear(rows, head)
    ensures LatestFor(rows, head).Some? && LatestFor(rows, head).value.status.Failed? ==> HeadClear(rows, head)
  {
    if rows != [] && rows[|rows| - 1].head != Some(head) {
      LatestForIs(rows[..|rows| - 1], head);
    } else if rows != [] {
      assert forall i :: 0 <= i < |rows| - 1 && rows[i].head == Some(head) ==> rows[i].status.Failed?;
    }
  }

  lemma {:induction false} StepKeepsOneAtATime(s: State, step: Step, head: Head)
    requires OneAtATime(s, head)
    requires step.Arrive? && step.head == head ==> step.source.FromPullRequest? && NobodyAt(s, head)
    ensures OneAtATime(Next(s, step), head)
    ensures CreatesOnAClearHead(s, step, head)
  {
    StepKeepsNewest(s, step, head);
    StepGrowsRows(s, step, head);
    var t := Next(s, step);
    if step.CheckHead? && step.pid in s.handlers && s.handlers[step.pid].head == head {
      LatestForIs(s.rows, head);
    }
    if Creates(s, step, head) {
      assert t.handlers[step.pid].phase.Done? || t.handlers[step.pid].phase.Dispatching?;
    } else {
      assert HeadClear(s.rows, head) ==> HeadClear(t.rows, head);
    }
  }

  lemma {:induction false} TurnsKeepOneAtATime(steps: seq<Step>, head: Head)
    requires TurnsTaken(steps, head)
    ensures OneAtATime(After(steps), head) && AlwaysCreatesClear(steps, head)
  {
    if steps != [] {
      var front, last := steps[..|steps| - 1], steps[|steps| - 1];
      assert steps == front + [last];
      assert TurnsTaken(front, head) by {
        forall k | 0 <= k < |front| && front[k].Arrive? && front[k].head == head
          ensures front[k].source.FromPullRequest? && NobodyAt(After(front[..k]), head)
        {
          assert steps[..k] == front[..k] && steps[k] == front[k];
        }
      }
      TurnsKeepOneAtATime(front, head);
      StepKeepsOneAtATime(After(front), last, head);
      ClearOneMore(front, last, head);
    }
  }

  /** With the pull-request deliveries of a commit handled one at a time, and no mention filed under it,
      all but its newest row are failed, at every point of the run. */
  lemma {:induction false} TakingTurnsIsEnough(steps: seq<Step>, head: Head)
    requires TurnsTaken(steps, head)
    ensures AlwaysOnlyNewest(steps, head)
  {
    TurnsKeepOneAtATime(steps, head);
    OneLiveReviewExactly(steps, head);
  }

  /** Two deliveries about one new commit, both past the check before either inserts. */
  function TheRace(head: Head, d0: string, d1: string): seq<Step> {
    [Arrive(0, FromPullRequest, d0, head), Arrive(1, FromPullRequest, d1, head),
     CheckDelivery(0), CheckDelivery(1), CheckHead(0), CheckHead(1),
     Insert(0, Committed), Insert(1, Committed), Dispatch(0), Dispatch(1)]
  }

  function TwoAt(head: Head, d0: string, d1: string, p0: Phase, p1: Phase): map<nat, Handler> {
    map[0 := Handler(FromPullRequest, d0, head, p0), 1 := Handler(FromPullRequest, d1, head, p1)]
  }

  lemma {:induction false} OneStep(steps: seq<Step>, k: nat)
    requires k < |steps|
    ensures After(steps[..k + 1]) == Next(After(steps[..k]), steps[k])
  {
    assert steps[..k + 1][..k] == steps[..k];
  }

  /** Both deliveries get past both checks. */
  lemma {:induction false} BothPassTheChecks(head: Head, d0: string, d1: string)
    ensures After(TheRace(head, d0, d1)[..6]) == State([], TwoAt(head, d0, d1, Inserting, Inserting), [])
  {
    var steps := TheRace(head, d0, d1);
    assert After(steps[..0]) == EMPTY;
    OneStep(steps, 0);
    OneStep(steps, 1);
    assert After(steps[..2]) == State([], TwoAt(head, d0, d1, CheckingDelivery, CheckingDelivery), []);
    PassTheChecks(head, d0, d1, steps);
  }

  /** With no rows, every check passes. */
  lemma {:induction false} DeliveryChecksPass(head: Head, d0: string, d1: string, p: Phase)
    ensures Next(State([], TwoAt(head, d0, d1, CheckingDelivery, p), []), CheckDelivery(0))
         == State([], TwoAt(head, d0, d1, CheckingHead, p), [])
    ensures Next(State([], TwoAt(head, d0, d1, p, CheckingDelivery), []), CheckDelivery(1))
         == State([], TwoAt(head, d0, d1, p, CheckingHead), [])
  {
  }

  lemma {:induction false} HeadChecksPass(head: Head, d0: string, d1: string, p: Phase)
    ensures Next(State([], TwoAt(head, d0, d1, CheckingHead, p), []), CheckHead(0))
         == State([], TwoAt(head, d0, d1, Inserting, p), [])
    ensures Next(State([], TwoAt(head, d0, d1, p, CheckingHead), []), CheckHead(1))
         == State([], TwoAt(head, d0, d1, p, Inserting), [])
  {
  }

  lemma {:induction false} PassTheChecks(head: Head, d0: string, d1: string, steps: seq<Step>)
    requires |steps| >= 6 && After(steps[..2]) == State([], TwoAt(head, d0, d1, CheckingDelivery, CheckingDelivery), [])
    requires steps[2] == CheckDelivery(0) && steps[3] == CheckDelivery(1)
    requires steps[4] == CheckHead(0) && steps[5] == CheckHead(1)
    ensures After(steps[..6]) == State([], TwoAt(head, d0, d1, Inserting, Inserting), [])
  {
    OneStep(steps, 2);
    DeliveryChecksPass(head, d0, d1, CheckingDelivery);
    OneStep(steps, 3);
    DeliveryChecksPass(head, d0, d1, CheckingHead);
    HeadChecksPass(head, d0, d1, CheckingHead);
    OneStep(steps, 4);
    OneStep(steps, 5);
    HeadChecksPass(head, d0, d1, Inserting);
  }

  function RowsOf(head: Head, d0: string, d1: string): seq<ReviewRow> {
    [ReviewRow(Some(d0), FromPullRequest, Some(head), Pending),
     ReviewRow(Some(d1), FromPullRequest, Some(head), Pending)]
  }

  lemma {:induction false} FirstInserts(head: Head, d0: string, d1: string)
    ensures Next(State([], TwoAt(head, d0, d1, Inserting, Inserting), []), Insert(0, Committed))
         == State(RowsOf(head, d0, d1)[..1], TwoAt(head, d0, d1, Dispatching(0), Inserting), [])
  {
  }

  lemma {:induction false} SecondInserts(head: Head, d0: string, d1: string)
    requires d0 != d1
    ensures Next(State(RowsOf(head, d0, d1)[..1], TwoAt(head, d0, d1, Dispatching(0), Inserting), []),
                 Insert(1, Committed))
         == State(RowsOf(head, d0, d1), TwoAt(head, d0, d1, Dispatching(0), Dispatching(1)), [])
  {
    assert RowsOf(head, d0, d1)[..1] == [RowsOf(head, d0, d1)[0]];
    assert !Recorded(RowsOf(head, d0, d1)[..1], d1);
  }

  lemma {:induction false} BothInsert(head: Head, d0: string, d1: string, s: State)
    requires d0 != d1 && s == State([], TwoAt(head, d0, d1, Inserting, Inserting), [])
    ensures var t := Next(Next(Next(Next(s, Insert(0, Committed)), Insert(1, Committed)), Dispatch(0)), Dispatch(1));
            t.rows == RowsOf(head, d0, d1) && t.jobs == [0, 1]
  {
    FirstInserts(head, d0, d1);
    SecondInserts(head, d0, d1);
  }

  /** The last four steps, from where both are about to insert. */
  lemma {:induction false} FinishTheRace(head: Head, d0: string, d1: string, steps: seq<Step>)
    requires d0 != d1 && |steps| == 10
    requires After(steps[..6]) == State([], TwoAt(head, d0, d1, Inserting, Inserting), [])
    requires steps[6] == Insert(0, Committed) && steps[7] == Insert(1, Committed)
    requires steps[8] == Dispatch(0) && steps[9] == Dispatch(1)
    ensures After(steps).jobs == [0, 1] && !OnlyNewestLives(After(steps).rows, head)
  {
    OneStep(steps, 6);
    OneStep(steps, 7);
    OneStep(steps, 8);
    OneStep(steps, 9);
    assert steps[..10] == steps;
    BothInsert(head, d0, d1, After(steps[..6]));
    var rows := After(steps).rows;
    assert rows[0].head == rows[1].head == Some(head);
  }

  /** So one commit can be reviewed twice: both rows are live and both are dispatched. */
  lemma {:induction false} TheRaceReviewsTwice(head: Head, d0: string, d1: string)
    requires d0 != d1
    ensures After(TheRace(head, d0, d1)).jobs == [0, 1]
    ensures !OnlyNewestLives(After(TheRace(head, d0, d1)).rows, head)
  {
    BothPassTheChecks(head, d0, d1);
    FinishTheRace(head, d0, d1, TheRace(head, d0, d1));
  }

  // ---------------------------------------------------------------- a row nobody reviews

  /** The row has no job and nobody holds it. */
  ghost predicate Stranded(s: State, row: nat) {
    && row < |s.rows| && row !in s.jobs
    && forall pid <- s.handlers :: s.handlers[pid].phase != Dispatching(row)
  }

  lemma StepKeepsStranded(s: State, step: Step, row: nat)
    requires Stranded(s, row)
    ensures Stranded(Next(s, step), row) && Next(s, step).rows[row].delivery == s.rows[row].delivery
  {
  }

  ghost predicate StrandedFor(s: State, row: nat, delivery: string) {
    Stranded(s, row) && s.rows[row].delivery == Some(delivery)
  }

  lemma {:induction false} UnreportedStrands(s: State, pid: nat)
    requires Sound(s)
    requires pid in s.handlers && s.handlers[pid].phase.Inserting? && !Recorded(s.rows, s.handlers[pid].delivery)
    ensures StrandedFor(Next(s, Insert(pid, Unreported)), |s.rows|, s.handlers[pid].delivery)
  {
    var t := Next(s, Insert(pid, Unreported));
    assert t.rows == s.rows + [RowOf(s.handlers[pid])] && t.handlers[pid].phase == Done;
  }

  lemma {:induction false} StrandedForever(steps: seq<Step>, more: seq<Step>, row: nat, delivery: string)
    requires StrandedFor(After(steps), row, delivery)
    ensures StrandedFor(After(steps + more), row, delivery)
  {
    if more == [] {
      assert steps + more == steps;
    } else {
      var front, last := more[..|more| - 1], more[|more| - 1];
      assert steps + more == (steps + front) + [last];
      StrandedForever(steps, front, row, delivery);
      PrefixesOfOneMore(steps + front, last);
      StepKeepsStranded(After(steps + front), last, row);
    }
  }

  /** Persisting before dispatching has a price: a row that was written although its insert was reported
      as failed is never reviewed, whatever arrives later, and its delivery id stays taken. */
  lemma {:induction false} UnreportedIsNeverReviewed(steps: seq<Step>, pid: nat, more: seq<Step>)
    requires var s := After(steps);
             pid in s.handlers && s.handlers[pid].phase.Inserting? && !Recorded(s.rows, s.handlers[pid].delivery)
    ensures var later, delivery := After(steps + [Insert(pid, Unreported)] + more), After(steps).handlers[pid].delivery;
            StrandedFor(later, |After(steps).rows|, delivery) && Recorded(later.rows, delivery)
  {
    var s := After(steps);
    OneJobPerDelivery(steps);
    UnreportedStrands(s, pid);
    PrefixesOfOneMore(steps, Insert(pid, Unreported));
    StrandedForever(steps + [Insert(pid, Unreported)], more, |s.rows|, s.handlers[pid].delivery);
    var later := After(steps + [Insert(pid, Unreported)] + more);
    assert later.rows[|s.rows|] in later.rows;
  }

  /** At step `k` of the run this row was written by an insert reported as failed. */
  ghost predicate WrittenUnreported(steps: seq<Step>, k: nat, row: nat) {
    && k < |steps| && steps[k].Insert? && steps[k].outcome.Unreported?
    && var s := After(steps[..k]);
       && steps[k].pid in s.handlers && s.handlers[steps[k].pid].phase.Inserting?
       && !Recorded(s.rows, s.handlers[steps[k].pid].delivery)
       && row == |s.rows|
  }

  ghost predicate EverWrittenUnreported(steps: seq<Step>, row: nat) {
    exists k :: WrittenUnreported(steps, k, row)
  }

  lemma {:induction false} RowsOnlyGrow(steps: seq<Step>, k: nat)
    requires k <= |steps|
    ensures |After(steps[..k]).rows| <= |After(steps).rows|
  {
    if k < |steps| {
      var front, last := steps[..|steps| - 1], steps[|steps| - 1];
      RowsOnlyGrow(front, k);
      assert front[..k] == steps[..k];
      StepGrowsRows(After(front), last, Head("", 0, ""));
    } else {
      assert steps[..k] == steps;
    }
  }

  /** The row was there by the end of the run it was written in. */
  lemma {:induction false} WrittenIsThere(steps: seq<Step>, k: nat, row: nat)
    requires WrittenUnreported(steps, k, row)
    ensures row < |After(steps).rows|
  {
    OneStep(steps, k);
    RowsOnlyGrow(steps, k + 1);
  }

  lemma {:induction false} WrittenOneMore(front: seq<Step>, last: Step, row: nat)
    ensures EverWrittenUnreported(front + [last], row)
        <==> EverWrittenUnreported(front, row) || WrittenUnreported(front + [last], |front|, row)
  {
    PrefixesOfOneMore(front, last);
    if k: nat :| WrittenUnreported(front, k, row) {
      assert WrittenUnreported(front + [last], k, row);
    }
    if k: nat :| WrittenUnreported(front + [last], k, row) {
      assert k < |front| ==> WrittenUnreported(front, k, row);
    }
  }

  /** A step strands no row that was there, and frees none. */
  lemma {:induction false} StepKeepsHeld(s: State, step: Step, row: nat)
    requires row < |s.rows| && !Stranded(s, row)
    ensures !Stranded(Next(s, step), row)
  {
    if row !in s.jobs {
      var pid :| pid in s.handlers && s.handlers[pid].phase == Dispatching(row);
      var t := Next(s, step);
      if step == Dispatch(pid) {
        assert t.jobs[|s.jobs|] == row;
      } else {
        assert pid in t.handlers && t.handlers[pid].phase == Dispatching(row);
      }
    } else {
      var i :| 0 <= i < |s.jobs| && s.jobs[i] == row;
      assert Next(s, step).jobs[i] == row;
    }
  }

  /** The step that makes a row for a delivery leaves it stranded exactly when it is unreported. */
  lemma {:induction false} NewRowStranded(s: State, step: Step)
    requires Sound(s) && |Next(s, step).rows| > |s.rows| && Next(s, step).rows[|s.rows|].delivery.Some?
    ensures step.Insert? && step.pid in s.handlers && s.handlers[step.pid].phase.Inserting?
    ensures !Recorded(s.rows, s.handlers[step.pid].delivery)
    ensures Stranded(Next(s, step), |s.rows|) <==> step.outcome.Unreported?
  {
    var t := Next(s, step);
    if step.outcome.Unreported? {
      UnreportedStrands(s, step.pid);
    } else {
      assert t.handlers[step.pid].phase == Dispatching(|s.rows|);
    }
  }

  /** Which rows of deliveries nobody reviews, over every run: exactly those written by an insert that was
      reported as failed.  Every other such row is held by a handler about to dispatch it, or has its job. */
  lemma {:induction false} StrandedExactly(steps: seq<Step>, row: nat)
    requires row < |After(steps).rows| && After(steps).rows[row].delivery.Some?
    ensures Stranded(After(steps), row) <==> EverWrittenUnreported(steps, row)
  {
    if steps != [] {
      var front, last := steps[..|steps| - 1], steps[|steps| - 1];
      assert steps == front + [last];
      PrefixesOfOneMore(front, last);
      WrittenOneMore(front, last, row);
      var s := After(front);
      if row < |s.rows| {
        StepKeepsDelivery(s, last, row);
        StrandedExactly(front, row);
        if Stranded(s, row) {
          StepKeepsStranded(s, last, row);
        } else {
          StepKeepsHeld(s, last, row);
        }
      } else {
        StepGrowsRows(s, last, Head("", 0, ""));
        OneJobPerDelivery(front);
        NewRowStranded(s, last);
        if k: nat :| WrittenUnreported(front, k, row) {
          WrittenIsThere(front, k, row);
        }
      }
    }
  }

  lemma {:induction false} StepKeepsDelivery(s: State, step: Step, row: nat)
    requires row < |s.rows|
    ensures row < |Next(s, step).rows| && Next(s, step).rows[row].delivery == s.rows[row].delivery
  {
  }

  // ---------------------------------------------------------------- the handlers

  datatype Response = Accepted(row: nat) | Ignored | ServerError

  /** A request handled with nothing in between: its steps one after another. */
  function Alone(rows: seq<ReviewRow>, jobs: seq<nat>, source: Source, delivery: string, head: Head,
                 outcome: WriteOutcome)
    : State
  {
    var arrived := Next(State(rows, map[], jobs), Arrive(0, source, delivery, head));
    var checked := Next(Next(arrived, CheckDelivery(0)), CheckHead(0));
    Next(Next(checked, Insert(0, outcome)), Dispatch(0))
  }

  /** The requests' shared state: the reviews table and the jobs handed to the background. */
  class Service {
    var rows: seq<ReviewRow>
    var jobs: seq<nat>

    /** `start_review`: the unique constraint refuses a delivery that is already recorded. */
    method StartReview(source: Source, delivery: string, head: Head, outcome: WriteOutcome)
      returns (row: nat, duplicate: bool, raised: bool)
      modifies this`rows
      ensures duplicate == Recorded(old(rows), delivery)
      ensures raised == (duplicate || Raises(outcome)) && row == |old(rows)|
      ensures rows == if !duplicate && TakesEffect(outcome)
                      then old(rows) + [ReviewRow(Some(delivery), source, Some(head), Pending)] else old(rows)
    {
      row := |rows|;
      duplicate := Recorded(rows, delivery);
      raised := duplicate || Raises(outcome);
      if !duplicate && TakesEffect(outcome) {
        rows := rows + [ReviewRow(Some(delivery), source, Some(head), Pending)];
      }
    }

    /** Row first, then job, in that order. */
    method Accept(source: Source, delivery: string, head: Head, outcome: WriteOutcome) returns (response: Response)
      modifies this
      ensures var h := Handler(source, delivery, head, Inserting);
              && rows == AfterInsert(State(old(rows), map[], []), h, outcome).0
              && jobs == if AfterInsert(State(old(rows), map[], []), h, outcome).1.Dispatching?
                         then old(jobs) + [|old(rows)|] else old(jobs)
      ensures response.Accepted? <==> jobs != old(jobs)
      ensures response.Accepted? ==> response.row == |old(rows)|
    {
      var row, duplicate, raised := StartReview(source, delivery, head, outcome);
      if raised {
        return if duplicate then Ignored else ServerError;
      }
      jobs := jobs + [row];
      response := Accepted(row);
    }

    /** `github_webhook`, from the idempotency checks on. */
    method HandlePullRequest(delivery: string, head: Head, outcome: WriteOutcome) returns (response: Response)
      modifies this
      ensures var alone := Alone(old(rows), old(jobs), FromPullRequest, delivery, head, outcome);
              rows == alone.rows && jobs == alone.jobs
      ensures response.Accepted? <==> jobs != old(jobs)
    {
      if delivery != "" && Recorded(rows, delivery) {
        return Ignored;
      }
      var already := LatestFor(rows, head);
      if already.Some? && already.value.status != Failed {
        return Ignored;
      }
      response := Accept(FromPullRequest, delivery, head, outcome);
    }

    /** `_handle_comment`, from the guards on: no head check, and only the constraint against duplicates. */
    method HandleComment(delivery: string, head: Head, turnedAway: bool,
                         outcome: WriteOutcome) returns (response: Response)
      modifies this
      ensures turnedAway ==> rows == old(rows) && jobs == old(jobs)
      ensures !turnedAway ==> var alone := Alone(old(rows), old(jobs), FromComment, delivery, head, outcome);
                              rows == alone.rows && jobs == alone.jobs
      ensures response.Accepted? <==> jobs != old(jobs)
    {
      if turnedAway {
        return Ignored;
      }
      response := Accept(FromComment, delivery, head, outcome);
    }
  }
}
