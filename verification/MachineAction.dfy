/** Normalized action payloads and the digests approvals are bound to
    (`machine/action.py`, `workflow/approval.py:37-42`). */
module MachineAction {
  import opened Base
  import opened ApprovalTable
  import opened CapabilityGuard

  datatype Json = Null | Str(s: string) | Arr(elems: seq<Json>) | Obj(fields: map<string, Json>)

  datatype Action = Action(
    kind: string, run: string, step: string, node: string, operation: string,
    capabilityRef: string, risk: Risk, approval: string, target: map<string, Json>,
    bodyDigest: Option<string>)

  /** One `"key": value` member of a serialized object. */
  datatype Member = Member(key: string, value: Json)

  /** The eleven keys of `to_dict` in the order `sort_keys` puts them. */
  function Members(a: Action): seq<Member> {
    [Member("approval", Str(a.approval)),
     Member("body_digest", if a.bodyDigest.Some? then Str(a.bodyDigest.value) else Null),
     Member("capability_ref", Str(a.capabilityRef)),
     Member("kind", Str(a.kind)),
     Member("metadata", Obj(map[])),
     Member("node_id", Str(a.node)),
     Member("operation", Str(a.operation)),
     Member("risk_class", Str(RiskName(a.risk))),
     Member("run_id", Str(a.run)),
     Member("step_id", Str(a.step)),
     Member("target", Obj(a.target))]
  }

  /** `to_dict` keeps only the members whose value is not null. */
  function DropNulls(members: seq<Member>): seq<Member> {
    if members == [] then []
    else if members[0].value == Null then DropNulls(members[1..])
    else [members[0]] + DropNulls(members[1..])
  }

  /** What an approval row's digest is computed over: a machine or agent
      action, or an approval node's own declaration. */
  datatype Preimage = OfAction(members: seq<Member>) | OfGate(run: string, node: string, action: string)

  /** `MachineAction.digest`. */
  function DigestOf(a: Action): Digest<Preimage> {
    Sha256(OfAction(DropNulls(Members(a))))
  }

  /** `_action_digest` of an approval node. */
  function GateDigest(run: string, node: string, action: string): Digest<Preimage> {
    Sha256(OfGate(run, node, action))
  }

  lemma MembersNeverNull(a: Action)
    ensures |Members(a)| == 11
    ensures forall i | 0 <= i < 11 :: Members(a)[i].value == Null <==> i == 1 && a.bodyDigest.None?
  {
  }

  lemma DropFirst(members: seq<Member>)
    requires members != []
    ensures DropNulls(members)
            == (if members[0].value == Null then [] else [members[0]]) + DropNulls(members[1..])
  {
  }

  /** All members but the body digest are never null. */
  lemma Serialized(a: Action)
    ensures DropNulls(Members(a)) ==
            Members(a)[..1] + (if a.bodyDigest.Some? then [Members(a)[1]] else []) + Members(a)[2..]
  {
    var m := Members(a);
    MembersNeverNull(a);
    hide Members, DropNulls;
    NothingDropped(m[2..]);
    DropFirst(m);
    DropFirst(m[1..]);
    assert m[1..][1..] == m[2..] && m[1..][0] == m[1] && m[..1] == [m[0]];
  }

  lemma NothingDropped(members: seq<Member>)
    requires forall i | 0 <= i < |members| :: members[i].value != Null
    ensures DropNulls(members) == members
  {
  }

  /** A digest identifies the whole action: dropping nulls loses nothing, so an
      approval can stand for one action only. */
  lemma DigestIdentifiesAction(a: Action, b: Action)
    ensures DigestOf(a) == DigestOf(b) <==> a == b
  {
    Serialized(a);
    Serialized(b);
    var p, q := DropNulls(Members(a)), DropNulls(Members(b));
    if p == q {
      assert |p| == (if a.bodyDigest.Some? then 11 else 10) && |q| == (if b.bodyDigest.Some? then 11 else 10);
      forall i | 0 <= i < 9 ensures Members(a)[2..][i] == Members(b)[2..][i] {
        assert p[|p| - 9..][i] == Members(a)[2..][i] && q[|q| - 9..][i] == Members(b)[2..][i];
      }
      assert p[0] == Members(a)[0] && q[0] == Members(b)[0];
      if a.bodyDigest.Some? { assert p[1] == Members(a)[1] && q[1] == Members(b)[1]; }
      MembersInjective(a, b);
    }
  }

  lemma MembersInjective(a: Action, b: Action)
    requires Members(a)[0] == Members(b)[0] && Members(a)[2..] == Members(b)[2..]
    requires a.bodyDigest.Some? == b.bodyDigest.Some?
    requires a.bodyDigest.Some? ==> Members(a)[1] == Members(b)[1]
    ensures a == b
  {
  }

  /** The action a machine node builds from its capability. */
  function BuildAction(
    kind: string, run: string, step: string, node: string, cap: Capability,
    target: map<string, Json>, bodyDigest: Option<string>): Action
  {
    Action(kind, run, step, node, cap.operation, cap.ref, cap.risk, cap.approval, target, bodyDigest)
  }

  const AGENT_NODE := "agent_node"

  function RoleMember(role: Option<string>): Json {
    if role.Some? then Str(role.value) else Null
  }

  /** `_build_agent_action`. */
  function BuildAgentAction(
    run: string, step: string, actor: string, role: Option<string>, cap: Capability, objectiveDigest: string): Action
  {
    Action(AGENT_NODE, run, step, step, cap.operation, cap.ref, cap.risk, cap.approval,
           map["adapter" := Str(actor), "objective_digest" := Str(objectiveDigest), "role" := RoleMember(role)], None)
  }
}
