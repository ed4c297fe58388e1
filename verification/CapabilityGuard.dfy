/** The Capability Guard's decision function (`guard/capability_guard.py`). */
module CapabilityGuard {
  import opened Base
  import opened ApprovalTable

  /** The fields of a Capability Record that authorization depends on. */
  datatype Capability = Capability(ref: string, operation: string, risk: Risk, approval: string)

  datatype Decision = Allow | Deny | ApprovalRequired
  datatype Verdict = Decision(decision: Decision) | UnknownRole

  const ROLES := ["builder", "verifier", "adversary"]
  const WRITE_OPERATIONS := ["create", "update", "delete"]

  function Evaluate(cap: Capability, allowlist: seq<string>, role: Option<string>): Verdict {
    if cap.ref !in allowlist then Decision(Deny)
    else if role.Some? && role.value !in ROLES then UnknownRole
    else
      var isWrite := cap.operation in WRITE_OPERATIONS;
      if role == Some("verifier") && isWrite && cap.risk != R0 then Decision(Deny)
      else if role == Some("adversary") && isWrite then Decision(Deny)
      else if cap.risk == R3 then Decision(Deny)
      else if cap.risk == R0 then Decision(Allow)
      else if cap.approval == "never" then Decision(Allow)
      else Decision(ApprovalRequired)
  }

  // ------------------------------------------------------------ what it promises

  predicate KnownRole(role: Option<string>) {
    role in {None, Some("builder"), Some("verifier"), Some("adversary")}
  }

  /** An adversary changes nothing, and a verifier nothing above R0. */
  predicate RoleMay(role: Option<string>, operation: string, risk: Risk) {
    operation in {"create", "update", "delete"} ==>
      role != Some("adversary") && (role == Some("verifier") ==> risk == R0)
  }

  /** Harmless, or free to use and not prohibited. */
  predicate NeedsNobody(cap: Capability) {
    cap.risk == R0 || (cap.risk != R3 && cap.approval == "never")
  }

  /** The guard clears a call by itself exactly if its capability is listed, its role
      is known and may do this, and the capability needs nobody; it asks an operator
      exactly if the last is all that is missing and the class is not prohibited. */
  lemma GuardExactly(cap: Capability, allowlist: seq<string>, role: Option<string>)
    ensures
      var may := cap.ref in allowlist && KnownRole(role) && RoleMay(role, cap.operation, cap.risk);
      var verdict := Evaluate(cap, allowlist, role);
      && (verdict == Decision(Allow) <==> may && NeedsNobody(cap))
      && (verdict == Decision(ApprovalRequired) <==> may && !NeedsNobody(cap) && cap.risk != R3)
      && (verdict == UnknownRole <==> cap.ref in allowlist && !KnownRole(role))
  {
  }
}
