/** Proposals and the reviewer's verdicts on them. */
module Models {
  import opened Option

  datatype RiskLevel = Low | Medium | High

  datatype ProposalSource = Deterministic | Microarch | Llm | User | Choice | Toggle | Tunable

  datatype Proposal = Proposal(
    config: string,
    currentValue: string,
    proposedValue: string,
    reason: string,
    risk: RiskLevel,
    confidence: real,
    source: ProposalSource)

  datatype Decision = Accept | Reject | Defer

  datatype Reviewer = ByUser | ByClaude | ByPolicy

  datatype Reviewed = Reviewed(proposal: Proposal, decision: Decision, reviewer: Reviewer, rule: Option<string>)

  datatype ReviewSet = ReviewSet(accepted: seq<Reviewed>, rejected: seq<Reviewed>, deferred: seq<Reviewed>)
}
