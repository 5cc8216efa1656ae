/** The profile of tools/secure_zenoh.py and the access-control rules `router_config` renders from it. */
module Acl {
  import opened KeyExpr

  // ----- Routes -----

  datatype RouteId =
    | AdmissionRecord | AdmissionRevocation | ApplicationEvidence | ControllerAIntent | ControllerBIntent
    | DecisionEvidence | FinalCommand | GateChallenge | GateStatus | MissionLease | MissionRevocation
    | RpcCloseSession | RpcOpenSession | RpcRunRequest | RpcStepRequest | SessionStatus | StatePose

  function RouteSegments(realm: string, sid: string, r: RouteId): seq<string> {
    var base := [realm, "session", sid];
    match r
    case AdmissionRecord => base + ["haldir", "authority", "admission", "record"]
    case AdmissionRevocation => base + ["haldir", "authority", "admission", "revocation"]
    case ApplicationEvidence => base + ["haldir", "application"]
    case ControllerAIntent => base + ["haldir", "intent", "controller-a"]
    case ControllerBIntent => base + ["haldir", "intent", "controller-b"]
    case DecisionEvidence => base + ["haldir", "decision"]
    case FinalCommand => base + ["command"]
    case GateChallenge => base + ["haldir", "challenge"]
    case GateStatus => base + ["haldir", "status"]
    case MissionLease => base + ["haldir", "authority", "mission", "lease"]
    case MissionRevocation => base + ["haldir", "authority", "mission", "revocation"]
    case RpcCloseSession => [realm, "rpc", "close_session"]
    case RpcOpenSession => [realm, "rpc", "open_session"]
    case RpcRunRequest => [realm, "rpc", "run_request"]
    case RpcStepRequest => [realm, "rpc", "step_request"]
    case SessionStatus => base + ["haldir", "lifecycle", "status"]
    case StatePose => base + ["sensor", "pose"]
  }

  /** `expected_routes(realm, session_id)[route]`. */
  function Route(realm: string, sid: string, r: RouteId): string {
    Join(RouteSegments(realm, sid, r))
  }

  predicate IsRpc(r: RouteId) {
    r.RpcCloseSession? || r.RpcOpenSession? || r.RpcRunRequest? || r.RpcStepRequest?
  }

  function RpcQueryable(realm: string): string {
    realm + "/rpc/*"
  }

  // ----- Profile -----

  datatype Op = Publish | Subscribe | Query | Serve
  datatype Flow = Ingress | Egress

  datatype Permissions = Permissions(
    publish: seq<RouteId>, subscribe: seq<RouteId>, query: seq<RouteId>, serve: seq<RouteId>)

  datatype Principal = Principal(id: string, cn: string, permissions: Permissions)

  /** The principals come in the order `sorted` gives them; the order is immaterial to what follows. */
  datatype Profile = Profile(realm: string, sessionId: string, principals: seq<Principal>)

  predicate ValidProfile(p: Profile) {
    && SafeSegment(p.realm) && |p.realm| <= 64 && SafeSegment(p.sessionId)
    && (forall i, j :: 0 <= i < j < |p.principals| ==> p.principals[i].id != p.principals[j].id)
    && (forall i, j :: 0 <= i < j < |p.principals| ==> p.principals[i].cn != p.principals[j].cn)
  }

  function Granted(p: Permissions, op: Op): seq<RouteId> {
    match op
    case Publish => p.publish
    case Subscribe => p.subscribe
    case Query => p.query
    case Serve => p.serve
  }

  /** `OP_RULES[op][flow]`. */
  function OpMessages(op: Op, flow: Flow): seq<string> {
    match (op, flow)
    case (Publish, Ingress) => ["put"]
    case (Publish, Egress) => ["declare_subscriber"]
    case (Subscribe, Ingress) => ["declare_subscriber"]
    case (Subscribe, Egress) => ["put"]
    case (Query, Ingress) => ["query"]
    case (Query, Egress) => ["reply"]
    case (Serve, Ingress) => ["reply"]
    case (Serve, Egress) => ["query"]
  }

  function OpName(op: Op): string {
    match op
    case Publish => "publish"
    case Subscribe => "subscribe"
    case Query => "query"
    case Serve => "serve"
  }

  function FlowName(flow: Flow): string {
    match flow
    case Ingress => "ingress"
    case Egress => "egress"
  }

  // ----- Rendered configuration -----

  datatype Rule = Rule(id: string, allow: bool, flows: seq<string>, keys: seq<string>, messages: seq<string>)
  datatype Policy = Policy(id: string, rules: seq<string>, subjects: seq<string>)
  datatype Subject = Subject(id: string, commonNames: seq<string>)
  datatype Config = Config(rules: seq<Rule>, policies: seq<Policy>, subjects: seq<Subject>)

  /** The rules one principal can get: one per operation and flow, and the queryable declarations. */
  datatype Kind = Std(op: Op, flow: Flow) | Decl(op: Op)

  predicate KindOk(k: Kind) {
    k.Decl? ==> k.op.Query? || k.op.Serve?
  }

  function DeclFlow(op: Op): Flow {
    if op.Query? then Egress else Ingress
  }

  function Suffix(k: Kind): string {
    match k
    case Std(op, flow) => "-" + OpName(op) + "-" + FlowName(flow)
    case Decl(op) => "-" + OpName(op) + "-queryable-" + FlowName(DeclFlow(op))
  }

  function RuleId(principal: string, k: Kind): string {
    "allow-" + principal + Suffix(k)
  }

  function RouteKeys(p: Profile, rs: seq<RouteId>): seq<string> {
    seq(|rs|, i requires 0 <= i < |rs| => Route(p.realm, p.sessionId, rs[i]))
  }

  function RuleOf(p: Profile, who: Principal, k: Kind): Rule {
    match k
    case Std(op, flow) =>
      Rule(RuleId(who.id, k), true, [FlowName(flow)], RouteKeys(p, Granted(who.permissions, op)), OpMessages(op, flow))
    case Decl(op) =>
      Rule(RuleId(who.id, k), true, [FlowName(DeclFlow(op))], [RpcQueryable(p.realm)], ["declare_queryable"])
  }

  function OpKinds(perms: Permissions, op: Op): seq<Kind> {
    if Granted(perms, op) == [] then []
    else [Std(op, Ingress), Std(op, Egress)] + if op.Query? || op.Serve? then [Decl(op)] else []
  }

  const OPS := [Publish, Subscribe, Query, Serve]

  function Kinds(perms: Permissions, n: nat): seq<Kind>
    requires n <= 4
  {
    if n == 0 then [] else Kinds(perms, n - 1) + OpKinds(perms, OPS[n - 1])
  }

  function RuleIds(who: Principal, ks: seq<Kind>): seq<string> {
    seq(|ks|, i requires 0 <= i < |ks| => RuleId(who.id, ks[i]))
  }

  function Rules(p: Profile, who: Principal, ks: seq<Kind>): seq<Rule> {
    seq(|ks|, i requires 0 <= i < |ks| => RuleOf(p, who, ks[i]))
  }

  function AllRules(p: Profile, ps: seq<Principal>): seq<Rule> {
    if ps == [] then []
    else AllRules(p, ps[..|ps| - 1]) + Rules(p, ps[|ps| - 1], Kinds(ps[|ps| - 1].permissions, 4))
  }

  function PolicyOf(who: Principal): Policy {
    Policy("policy-" + who.id, RuleIds(who, Kinds(who.permissions, 4)), [who.id])
  }

  function SubjectOf(who: Principal): Subject {
    Subject(who.id, [who.cn])
  }

  function Render(p: Profile): Config {
    Config(AllRules(p, p.principals),
           seq(|p.principals|, i requires 0 <= i < |p.principals| => PolicyOf(p.principals[i])),
           seq(|p.principals|, i requires 0 <= i < |p.principals| => SubjectOf(p.principals[i])))
  }

  /** The access-control part of `router_config`: rules, policies and subjects appended principal by principal. */
  method RouterConfig(p: Profile) returns (config: Config)
    ensures config == Render(p)
  {
    hide Rules, RuleIds, Kinds;
    var rules: seq<Rule>, policies: seq<Policy>, subjects: seq<Subject> := [], [], [];
    for i := 0 to |p.principals|
      invariant rules == AllRules(p, p.principals[..i])
      invariant |policies| == i && forall k :: 0 <= k < i ==> policies[k] == PolicyOf(p.principals[k])
      invariant |subjects| == i && forall k :: 0 <= k < i ==> subjects[k] == SubjectOf(p.principals[k])
    {
      var who := p.principals[i];
      subjects := subjects + [Subject(who.id, [who.cn])];
      var mine, ruleIds := PrincipalRules(p, who);
      assert p.principals[..i + 1][..i] == p.principals[..i];
      rules := rules + mine;
      policies := policies + [Policy("policy-" + who.id, ruleIds, [who.id])];
    }
    assert p.principals[..|p.principals|] == p.principals;
    config := Config(rules, policies, subjects);
  }

  lemma RulesAppend(p: Profile, who: Principal, a: seq<Kind>, b: seq<Kind>)
    ensures Rules(p, who, a + b) == Rules(p, who, a) + Rules(p, who, b)
    ensures RuleIds(who, a + b) == RuleIds(who, a) + RuleIds(who, b)
  {
    hide RuleOf, RuleId;
  }

  lemma RulesOne(p: Profile, who: Principal, k: Kind)
    ensures Rules(p, who, [k]) == [RuleOf(p, who, k)] && RuleIds(who, [k]) == [RuleId(who.id, k)]
  {
    hide RuleOf, RuleId;
  }

  /** The loop of `router_config` over the operations of one principal. */
  method PrincipalRules(p: Profile, who: Principal) returns (rules: seq<Rule>, ruleIds: seq<string>)
    ensures rules == Rules(p, who, Kinds(who.permissions, 4))
    ensures ruleIds == RuleIds(who, Kinds(who.permissions, 4))
  {
    hide RuleOf, RuleId, Rules, RuleIds, OpKinds;
    rules, ruleIds := [], [];
    NoRules(p, who);
    for n := 0 to 4
      invariant rules == Rules(p, who, Kinds(who.permissions, n))
      invariant ruleIds == RuleIds(who, Kinds(who.permissions, n))
    {
      var opRules, opIds := OperationRules(p, who, OPS[n]);
      RulesAppend(p, who, Kinds(who.permissions, n), OpKinds(who.permissions, OPS[n]));
      rules, ruleIds := rules + opRules, ruleIds + opIds;
    }
  }

  lemma NoRules(p: Profile, who: Principal)
    ensures Rules(p, who, []) == [] && RuleIds(who, []) == []
  {}

  /** One operation: a rule per flow, then the queryable declaration for query and serve. */
  method OperationRules(p: Profile, who: Principal, op: Op) returns (rules: seq<Rule>, ruleIds: seq<string>)
    ensures rules == Rules(p, who, OpKinds(who.permissions, op))
    ensures ruleIds == RuleIds(who, OpKinds(who.permissions, op))
  {
    hide Rules, RuleIds, RouteKeys, OpMessages, Granted, Route, OpName, FlowName;
    rules, ruleIds := [], [];
    NoRules(p, who);
    var routeIds := Granted(who.permissions, op);
    if routeIds == [] {
      return;
    }
    var flows := [Ingress, Egress];
    ghost var std := [Std(op, Ingress), Std(op, Egress)];
    for f := 0 to 2
      invariant rules == Rules(p, who, std[..f]) && ruleIds == RuleIds(who, std[..f])
    {
      var ruleId := "allow-" + who.id + ("-" + OpName(op) + "-" + FlowName(flows[f]));
      var rule := Rule(ruleId, true, [FlowName(flows[f])], RouteKeys(p, routeIds), OpMessages(op, flows[f]));
      assert ruleId == RuleId(who.id, std[f]) && rule == RuleOf(p, who, std[f]);
      AppendOne(p, who, std[..f], std[f]);
      assert std[..f + 1] == std[..f] + [std[f]];
      rules, ruleIds := rules + [rule], ruleIds + [ruleId];
    }
    assert std[..2] == std;
    if op.Query? || op.Serve? {
      var flow := if op.Query? then Egress else Ingress;
      var ruleId := "allow-" + who.id + ("-" + OpName(op) + "-queryable-" + FlowName(flow));
      var rule := Rule(ruleId, true, [FlowName(flow)], [RpcQueryable(p.realm)], ["declare_queryable"]);
      assert ruleId == RuleId(who.id, Decl(op)) && rule == RuleOf(p, who, Decl(op));
      AppendOne(p, who, std, Decl(op));
      rules, ruleIds := rules + [rule], ruleIds + [ruleId];
    } else {
      assert std + [] == std;
    }
  }

  lemma AppendOne(p: Profile, who: Principal, ks: seq<Kind>, k: Kind)
    ensures Rules(p, who, ks + [k]) == Rules(p, who, ks) + [RuleOf(p, who, k)]
    ensures RuleIds(who, ks + [k]) == RuleIds(who, ks) + [RuleId(who.id, k)]
  {
    RulesAppend(p, who, ks, [k]);
    RulesOne(p, who, k);
  }
}
