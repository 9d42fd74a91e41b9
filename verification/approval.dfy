/** A human approval gate's record: which step it guards, what the approver was
    shown, and the tri-state decision. */
module Approvals {
  import opened Wrappers
  import opened Types

  /** `approved` is the tri-state decision: None while undecided, Some(true) once
      approved, Some(false) once rejected. */
  datatype Approval = Approval(
    stepName: string,
    summary: string,
    approved: Option<bool>,
    approvedBy: Option<string>,
    approvedAt: Option<Timestamp>)

  predicate Pending(a: Approval)
  {
    a.approved.None?
  }

  /** A fresh approval for `stepName`, showing `summary`, not yet decided. */
  function NewApproval(stepName: string, summary: string): (a: Approval)
    ensures Pending(a) && a.approvedBy.None? && a.approvedAt.None?
    ensures a.stepName == stepName && a.summary == summary
  {
    Approval(stepName, summary, None, None, None)
  }

  /** Records an approval by `who` at `now`. There is no guard: an already decided
      approval is simply overwritten. */
  function Approve(a: Approval, who: string, now: Timestamp): (r: Approval)
    ensures r.approved == Some(true) && r.approvedBy == Some(who) && r.approvedAt == Some(now)
    ensures r.stepName == a.stepName && r.summary == a.summary
  {
    a.(approved := Some(true), approvedBy := Some(who), approvedAt := Some(now))
  }

  /** Records a rejection by `who` at `now`, with no guard against re-deciding. */
  function Reject(a: Approval, who: string, now: Timestamp): (r: Approval)
    ensures r.approved == Some(false) && r.approvedBy == Some(who) && r.approvedAt == Some(now)
    ensures r.stepName == a.stepName && r.summary == a.summary
  {
    a.(approved := Some(false), approvedBy := Some(who), approvedAt := Some(now))
  }

  /** Applies `Approve` when `approve` holds and `Reject` otherwise. */
  function Decide(a: Approval, approve: bool, who: string, now: Timestamp): (r: Approval)
    ensures r.approved == Some(approve) && r.approvedBy == Some(who) && r.approvedAt == Some(now)
    ensures r.stepName == a.stepName && r.summary == a.summary
  {
    if approve then Approve(a, who, now) else Reject(a, who, now)
  }

  /** The last decision wins: whatever was decided before, a new decision fully
      replaces it and only the step name and summary survive from the original. */
  lemma LastDecisionWins(a: Approval, first: bool, who1: string, t1: Timestamp,
                         second: bool, who2: string, t2: Timestamp)
    ensures Decide(Decide(a, first, who1, t1), second, who2, t2) == Decide(a, second, who2, t2)
    ensures Decide(a, second, who2, t2) == Decide(NewApproval(a.stepName, a.summary), second, who2, t2)
  {
  }
}
