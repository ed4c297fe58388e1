/** The `approvals` table and the operator's decisions on it
    (`ops/approval.py`, `approval_policy.py`).

    Rows are kept in insertion (rowid) order and a row's id is its position, so
    `SELECT ... WHERE step_id = ?` followed by `fetchone` is "the first match". */
module ApprovalTable {
  import opened Base

  datatype Status = Pending | Approved | Rejected | Expired
  datatype Risk = R0 | R1 | R2 | R3

  function RiskName(r: Risk): string {
    match r
    case R0 => "R0"
    case R1 => "R1"
    case R2 => "R2"
    case R3 => "R3"
  }

  datatype Approval<S, P> = Approval(step: S, digest: Digest<P>, status: Status, risk: Option<Risk>)

  function FindByStep<S(==), P>(rows: seq<Approval<S, P>>, step: S): (found: Option<nat>)
    ensures found.Some? ==> found.value < |rows| && rows[found.value].step == step
    ensures found.Some? ==> forall i | 0 <= i < found.value :: rows[i].step != step
    ensures found.None? ==> forall i | 0 <= i < |rows| :: rows[i].step != step
  {
    if rows == [] then None
    else if rows[0].step == step then Some(0)
    else match FindByStep(rows[1..], step)
      case None =>
        assert forall i | 1 <= i < |rows| :: rows[i] == rows[1..][i - 1];
        None
      case Some(i) =>
        assert forall k | 1 <= k <= i :: rows[k] == rows[1..][k - 1];
        Some(i + 1)
  }

  datatype Reply = NoSuchApproval | NotPending(was: Status) | RiskMismatch | NeedsScreen | Decided(status: Status)

  // ---------------------------------------------------------------- decisions

  /** `_decide_approval`. */
  function Decide<S, P>(rows: seq<Approval<S, P>>, id: nat, status: Status): (seq<Approval<S, P>>, Reply) {
    if id >= |rows| then (rows, NoSuchApproval)
    else if rows[id].status != Pending then (rows, NotPending(rows[id].status))
    else (rows[id := rows[id].(status := status)], Decided(status))
  }

  const HIGH_RISK_CLASSES := ["R2", "R3"]

  /** `decide_voice_acknowledgement`: whether voice alone may decide. */
  predicate VoiceMayDecide(riskClass: string, voiceConfirmed: bool) {
    riskClass !in HIGH_RISK_CLASSES && voiceConfirmed
  }

  /** The class the voice rule looks at: the caller's claim if it is given and
      non-empty, else the stored class, else "R2". */
  function EffectiveRisk(claimed: Option<string>, stored: Option<Risk>): string {
    if claimed.Some? && claimed.value != "" then claimed.value
    else if stored.Some? then RiskName(stored.value)
    else "R2"
  }

  /** `op_approval_approve`. */
  function Approve<S, P>(rows: seq<Approval<S, P>>, id: nat, channel: string, claimed: Option<string>)
    : (seq<Approval<S, P>>, Reply)
  {
    if channel != "voice" then Decide(rows, id, Approved)
    else if id >= |rows| then (rows, NoSuchApproval)
    else if claimed.Some? && rows[id].risk.Some? && claimed.value != RiskName(rows[id].risk.value) then
      (rows, RiskMismatch)
    else if !VoiceMayDecide(EffectiveRisk(claimed, rows[id].risk), true) then (rows, NeedsScreen)
    else Decide(rows, id, Approved)
  }

  /** `op_approval_reject`. */
  function Reject<S, P>(rows: seq<Approval<S, P>>, id: nat): (seq<Approval<S, P>>, Reply) {
    Decide(rows, id, Rejected)
  }

  /** The table is as it was. */
  ghost predicate Same<S, P>(rows: seq<Approval<S, P>>, rows': seq<Approval<S, P>>) {
    rows' == rows
  }

  /** The one row is now decided this way, and no other changed. */
  ghost predicate OneDecided<S, P>(
    rows: seq<Approval<S, P>>, rows': seq<Approval<S, P>>, id: nat, status: Status)
  {
    && id < |rows| == |rows'| && rows'[id] == rows[id].(status := status)
    && forall i | 0 <= i < |rows| && i != id :: rows'[i] == rows[i]
  }

  /** A decision is taken exactly on a row that is there and pending; then that one
      row changes, and otherwise the table stays as it is. */
  lemma DecidesExactly<S, P>(rows: seq<Approval<S, P>>, id: nat, status: Status)
    ensures Decide(rows, id, status).1 == Decided(status) <==> id < |rows| && rows[id].status == Pending
    ensures if Decide(rows, id, status).1 == Decided(status)
            then OneDecided(rows, Decide(rows, id, status).0, id, status)
            else Same(rows, Decide(rows, id, status).0)
  {
  }

  /** Whether the voice rule lets a row be approved: a stored class decides by itself;
      for a row stored without a class the caller's claim is believed, whatever it
      says. */
  predicate VoiceMay(stored: Option<Risk>, claimed: Option<string>) {
    match stored
    case Some(r) => (r == R0 || r == R1) && (claimed.Some? ==> claimed.value == RiskName(r))
    case None => claimed.Some? && claimed.value !in {"", "R2", "R3"}
  }

  /** Exactly when voice alone turns a row from pending to approved, and that nothing
      changes when it does not; when it is the screen that is asked for instead, and
      when the claim is refused as contradicting the stored class. */
  lemma VoiceApprovesExactly<S, P>(rows: seq<Approval<S, P>>, id: nat, claimed: Option<string>)
    ensures Approve(rows, id, "voice", claimed).1 == Decided(Approved)
            <==> id < |rows| && rows[id].status == Pending && VoiceMay(rows[id].risk, claimed)
    ensures if Approve(rows, id, "voice", claimed).1 == Decided(Approved)
            then OneDecided(rows, Approve(rows, id, "voice", claimed).0, id, Approved)
            else Same(rows, Approve(rows, id, "voice", claimed).0)
    ensures Approve(rows, id, "voice", claimed).1 == RiskMismatch
            <==> && id < |rows| && rows[id].risk.Some? && claimed.Some?
                 && claimed.value != RiskName(rows[id].risk.value)
    ensures Approve(rows, id, "voice", claimed).1 == NeedsScreen
            <==> && id < |rows| && !VoiceMay(rows[id].risk, claimed)
                 && Approve(rows, id, "voice", claimed).1 != RiskMismatch
  {
  }

  // ---------------------------------------------------------------- evolution

  /** What any later state of the table may look like: rows are only added at
      the end, a row keeps its step, digest and risk class for ever, and its
      status moves at most once, from pending to approved or rejected. */
  ghost predicate Evolves<S(!new), P(!new)>(before: seq<Approval<S, P>>, after: seq<Approval<S, P>>) {
    && |before| <= |after|
    && forall i | 0 <= i < |before| :: RowEvolves(before[i], after[i])
  }

  ghost predicate RowEvolves<S, P>(r: Approval<S, P>, r': Approval<S, P>) {
    && r'.step == r.step && r'.digest == r.digest && r'.risk == r.risk
    && (r'.status == r.status || (r.status == Pending && (r'.status == Approved || r'.status == Rejected)))
  }

  /** At most one row per step, and no row is ever expired. */
  ghost predicate OneDecisionPerStep<S, P>(rows: seq<Approval<S, P>>) {
    && (forall i, j | 0 <= i < j < |rows| :: rows[i].step != rows[j].step)
    && (forall i | 0 <= i < |rows| :: rows[i].status != Expired)
  }

  ghost predicate HasDecision<S, P>(rows: seq<Approval<S, P>>, step: S, digest: Digest<P>, status: Status) {
    exists i | 0 <= i < |rows| :: rows[i].step == step && rows[i].digest == digest && rows[i].status == status
  }

  lemma EvolvesTransitive<S(!new), P(!new)>(a: seq<Approval<S, P>>, b: seq<Approval<S, P>>, c: seq<Approval<S, P>>)
    requires Evolves(a, b) && Evolves(b, c)
    ensures Evolves(a, c)
  {
  }

  /** With one row per step, the row `fetchone` returns is the only one. */
  lemma FindIsUnique<S, P>(rows: seq<Approval<S, P>>, step: S, i: nat)
    requires OneDecisionPerStep(rows) && i < |rows| && rows[i].step == step
    ensures FindByStep(rows, step) == Some(i)
  {
  }
}
