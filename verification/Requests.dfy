/** What one webhook request does to the table, on the rows themselves (src/reviewhive/api/webhook.py). */
module Requests {
  import opened Models
  import opened Lifecycle
  import opened Webhook

  /** No row has this delivery id. */
  ghost predicate NotSeen(rows: seq<ReviewRow>, delivery: string) {
    forall i :: 0 <= i < |rows| ==> rows[i].delivery != Some(delivery)
  }

  /** Row `i` is about this commit and no later one is. */
  ghost predicate Newest(rows: seq<ReviewRow>, head: Head, i: int) {
    && 0 <= i < |rows| && rows[i].head == Some(head)
    && forall j :: i < j < |rows| ==> rows[j].head != Some(head)
  }

  /** The newest row of this commit, if there is one, is a failed one. */
  ghost predicate WorthReviewing(rows: seq<ReviewRow>, head: Head) {
    forall i :: Newest(rows, head, i) ==> rows[i].status == Failed
  }

  lemma {:induction false} RecordedIs(rows: seq<ReviewRow>, delivery: string)
    ensures Recorded(rows, delivery) <==> !NotSeen(rows, delivery)
  {
    if Recorded(rows, delivery) {
      var r :| r in rows && r.delivery == Some(delivery);
      var i :| 0 <= i < |rows| && rows[i] == r;
    }
  }

  lemma {:induction false} LatestIsNewest(rows: seq<ReviewRow>, head: Head) returns (i: int)
    ensures LatestFor(rows, head).None? ==> forall k :: 0 <= k < |rows| ==> rows[k].head != Some(head)
    ensures LatestFor(rows, head).Some? ==> Newest(rows, head, i) && rows[i] == LatestFor(rows, head).value
  {
    i := |rows| - 1;
    if rows != [] && rows[i].head != Some(head) {
      i := LatestIsNewest(rows[..|rows| - 1], head);
    }
  }

  lemma {:induction false} WorthReviewingIs(rows: seq<ReviewRow>, head: Head)
    ensures WorthReviewing(rows, head) <==> LatestFor(rows, head).None? || LatestFor(rows, head).value.status == Failed
  {
    var i := LatestIsNewest(rows, head);
    if LatestFor(rows, head).Some? {
      forall k | Newest(rows, head, k)
        ensures k == i
      {
      }
    }
  }

  /** A pull-request delivery handled alone is dispatched exactly when its id is new, the newest row of its
      commit is missing or failed, and its row is written and reported so; then it is the row's one job.  The
      row itself is there unless the write was undone. */
  lemma {:induction false} PullRequestExactly(rows: seq<ReviewRow>, jobs: seq<nat>, delivery: string, head: Head,
                                              outcome: WriteOutcome)
    ensures var t := Alone(rows, jobs, FromPullRequest, delivery, head, outcome);
            var wanted := NotSeen(rows, delivery) && WorthReviewing(rows, head);
            && t.jobs == (if wanted && outcome.Committed? then jobs + [|rows|] else jobs)
            && t.rows == if wanted && !outcome.RolledBack?
                         then rows + [ReviewRow(Some(delivery), FromPullRequest, Some(head), Pending)] else rows
  {
    RecordedIs(rows, delivery);
    WorthReviewingIs(rows, head);
  }

  /** A comment's delivery is held up by nothing but its id. */
  lemma {:induction false} CommentExactly(rows: seq<ReviewRow>, jobs: seq<nat>, delivery: string, head: Head,
                                          outcome: WriteOutcome)
    ensures var t := Alone(rows, jobs, FromComment, delivery, head, outcome);
            && t.jobs == (if NotSeen(rows, delivery) && outcome.Committed? then jobs + [|rows|] else jobs)
            && t.rows == if NotSeen(rows, delivery) && !outcome.RolledBack?
                         then rows + [ReviewRow(Some(delivery), FromComment, Some(head), Pending)] else rows
  {
    RecordedIs(rows, delivery);
  }
}
