/** The domain types every stage shares (src/reviewhive/models.py). */
module Models {
  datatype Option<+T> = None | Some(value: T)

  function Or<T>(value: Option<T>, default: T): T {
    if value.Some? then value.value else default
  }

  datatype Severity = High | Medium | Low

  function Rank(severity: Severity): int {
    match severity
    case High => 3
    case Medium => 2
    case Low => 1
  }

  /** The reviewers that may be credited as the source of a finding. */
  datatype Agent = Security | Style | Architecture

  /** A `MergedFinding`.  Confidence is an exact real: it is compared and copied, never computed. */
  datatype Finding = Finding(
    file: string,
    line: Option<int>,
    severity: Severity,
    category: string,
    title: string,
    body: string,
    confidence: real,
    sources: seq<Agent>,
    amended: bool)

  /** Everything that can spend tokens: wider than the reviewers, so not a finding's source. */
  datatype CallAgent = Reviewer(agent: Agent) | Intent | Answer | Reconsider | MergePass | CriticPass

  datatype AgentCall = AgentCall(
    agent: CallAgent,
    model: string,
    inputTokens: nat,
    outputTokens: nat,
    cacheReadTokens: nat)

  /** What an agent hands to the pipeline: one reviewer's name, a clamped confidence, and no
      non-positive line (`_clamp_confidence`, `_reject_nonpositive_line`, `from_finding`). */
  predicate ReportedByAgent(f: Finding) {
    && |f.sources| == 1
    && !f.amended
    && 0.0 <= f.confidence <= 1.0
    && (f.line.Some? ==> f.line.value > 0)
  }
}
