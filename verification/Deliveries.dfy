/** From a delivery to the pull request: the table of rows and the jobs over it together
    (src/reviewhive/api/webhook.py, src/reviewhive/jobs.py, src/reviewhive/mentions/dispatch.py). */
module Deliveries {
  import opened Models
  import opened Lifecycle
  import Jobs
  import JobSafety
  import Mentions
  import MentionSafety
  import Table = Webhook

  /** What a dispatched job goes through. */
  datatype Work =
    | Review(env: Jobs.Env, head: string, extra: seq<AgentCall>)
    | Mention(menv: Mentions.Env, mention: Mentions.Mention, head: string)

  function LogOf(w: Work): seq<Event> {
    match w
    case Review(env, head, extra) => Jobs.JobTrace(env, head, extra, CHILDLESS)
    case Mention(env, m, head) => Mentions.MentionTrace(env, m, head, CHILDLESS)
  }

  /** Job `j` has got this far, and its event `p` is a review GitHub accepted. */
  predicate AcceptedAt(works: seq<Work>, done: seq<nat>, j: nat, p: nat)
    requires |works| == |done|
  {
    && j < |works| && p < done[j] && done[j] <= |LogOf(works[j])|
    && LogOf(works[j])[p].Attempted? && LogOf(works[j])[p].accepted
  }

  lemma {:induction false} WorkPostsOnce(w: Work)
    ensures PostedAtMostOnce(LogOf(w))
  {
    match w {
      case Review(env, head, extra) => JobSafety.EveryJobIsSafe(env, head, extra);
      case Mention(env, m, head) => MentionSafety.EveryMentionIsSafe(env, m, head);
    }
  }

  /** Over any interleaving of any number of deliveries, redeliveries and jobs, whatever each job meets and
      however far it has got: each delivery id has at most one review accepted on GitHub. */
  lemma {:induction false} OneReviewPerDelivery(steps: seq<Table.Step>, works: seq<Work>, done: seq<nat>,
                                                j: nat, p: nat, k: nat, q: nat)
    requires |works| == |done| == |Table.After(steps).jobs|
    requires AcceptedAt(works, done, j, p) && AcceptedAt(works, done, k, q)
    ensures Table.After(steps).jobs[j] < |Table.After(steps).rows|
    ensures Table.After(steps).jobs[k] < |Table.After(steps).rows|
    ensures var s := Table.After(steps);
            s.rows[s.jobs[j]].delivery == s.rows[s.jobs[k]].delivery ==> j == k && p == q
  {
    Table.OneJobPerDelivery(steps);
    WorkPostsOnce(works[j]);
  }
}
