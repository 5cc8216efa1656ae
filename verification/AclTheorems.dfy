/** What `router_config` and `verify_router` guarantee together (tools/secure_zenoh.py). */
module AclTheorems {
  import opened KeyExpr
  import opened Acl
  import opened AclVerifier

  // ----- Rule ids -----

  /** Three characters near the end of a rule id, which tell its kind whatever precedes them. */
  datatype Mark = Mark(c7: char, c9: char, c10: char)

  function MarkOf(k: Kind): Mark {
    match k
    case Std(Publish, Ingress) => Mark('i', 'h', 's')
    case Std(Subscribe, Ingress) => Mark('i', 'e', 'b')
    case Std(Query, Ingress) => Mark('i', 'y', 'r')
    case Std(Serve, Ingress) => Mark('i', 'e', 'v')
    case Std(Publish, Egress) => Mark('-', 's', 'i')
    case Std(Subscribe, Egress) => Mark('-', 'b', 'i')
    case Std(Query, Egress) => Mark('-', 'r', 'e')
    case Std(Serve, Egress) => Mark('-', 'v', 'r')
    case Decl(op) => if op.Query? then Mark('-', 'l', 'b') else Mark('i', 'e', 'l')
  }

  function MarkIn(s: string): Mark
    requires |s| >= 10
  {
    Mark(s[|s| - 7], s[|s| - 9], s[|s| - 10])
  }

  lemma SuffixMark(k: Kind)
    requires KindOk(k)
    ensures |Suffix(k)| >= 10 && MarkIn(Suffix(k)) == MarkOf(k)
  {
    match k
    case Std(op, flow) =>
      match op {
        case Publish => assert |"-publish-"| == 9;
        case Subscribe => assert |"-subscribe-"| == 11;
        case Query => assert |"-query-"| == 7;
        case Serve => assert |"-serve-"| == 7;
      }
    case Decl(op) =>
  }

  /** Rule ids never collide, whatever dashes the principal ids contain. */
  lemma RuleIdInjective(p1: string, k1: Kind, p2: string, k2: Kind)
    requires KindOk(k1) && KindOk(k2) && RuleId(p1, k1) == RuleId(p2, k2)
    ensures p1 == p2 && k1 == k2
  {
    hide Suffix;
    SuffixMark(k1);
    SuffixMark(k2);
    var s, t := RuleId(p1, k1), RuleId(p2, k2);
    TailMark("allow-" + p1, Suffix(k1));
    TailMark("allow-" + p2, Suffix(k2));
    assert MarkOf(k1) == MarkOf(k2);
    assert k1 == k2;
    assert p1 == s[6..|s| - |Suffix(k1)|] && p2 == t[6..|t| - |Suffix(k2)|];
  }

  lemma TailMark(a: string, b: string)
    requires |b| >= 10
    ensures MarkIn(a + b) == MarkIn(b)
  {}

  // ----- The rules of a rendered configuration -----

  lemma OpKindsProps(perms: Permissions, op: Op)
    ensures forall i, j :: 0 <= i < j < |OpKinds(perms, op)| ==> OpKinds(perms, op)[i] != OpKinds(perms, op)[j]
    ensures forall k :: k in OpKinds(perms, op) <==> KindOk(k) && k.op == op && Granted(perms, op) != []
  {
    var ks := OpKinds(perms, op);
    if Granted(perms, op) != [] {
      assert ks[0] == Std(op, Ingress) && ks[1] == Std(op, Egress);
      if op.Query? || op.Serve? {
        assert ks[2] == Decl(op);
      }
      forall k | KindOk(k) && k.op == op ensures k in ks {
        match k {
          case Std(_, Ingress) => assert k == ks[0];
          case Std(_, Egress) => assert k == ks[1];
          case Decl(_) => assert k == ks[2];
        }
      }
    }
  }

  lemma {:induction false} KindsProps(perms: Permissions, n: nat)
    requires n <= 4
    ensures forall i, j :: 0 <= i < j < |Kinds(perms, n)| ==> Kinds(perms, n)[i] != Kinds(perms, n)[j]
    ensures forall k :: k in Kinds(perms, n) <==> KindOk(k) && k.op in OPS[..n] && Granted(perms, k.op) != []
  {
    hide OpKinds, Granted;
    if n > 0 {
      KindsProps(perms, n - 1);
      OpKindsProps(perms, OPS[n - 1]);
      assert OPS[..n] == OPS[..n - 1] + [OPS[n - 1]];
      assert OPS[n - 1] !in OPS[..n - 1];
    }
  }

  lemma AllOps(op: Op)
    ensures op in OPS[..4]
  {
    assert OPS[..4] == OPS;
    match op case Publish => assert OPS[0] == op; case Subscribe => assert OPS[1] == op;
             case Query => assert OPS[2] == op; case Serve => assert OPS[3] == op;
  }

  /** A principal has a rule of a kind exactly when it has grants for that operation. */
  lemma KindsIff(perms: Permissions, k: Kind)
    ensures k in Kinds(perms, 4) <==> KindOk(k) && Granted(perms, k.op) != []
  {
    KindsProps(perms, 4);
    AllOps(k.op);
  }

  /** Every rendered rule belongs to one of the principals. */
  lemma {:induction false} RuleOrigin(p: Profile, ps: seq<Principal>, j: nat) returns (who: Principal, k: Kind)
    requires j < |AllRules(p, ps)|
    ensures who in ps && k in Kinds(who.permissions, 4) && AllRules(p, ps)[j] == RuleOf(p, who, k)
  {
    var n := |ps| - 1;
    var before := AllRules(p, ps[..n]);
    if j < |before| {
      who, k := RuleOrigin(p, ps[..n], j);
    } else {
      who := ps[n];
      k := Kinds(who.permissions, 4)[j - |before|];
    }
  }

  lemma {:induction false} RulePresent(p: Profile, ps: seq<Principal>, who: Principal, k: Kind)
    requires who in ps && k in Kinds(who.permissions, 4)
    ensures RuleOf(p, who, k) in AllRules(p, ps)
  {
    hide Kinds, RuleOf;
    var n := |ps| - 1;
    var last := Rules(p, ps[n], Kinds(ps[n].permissions, 4));
    if who == ps[n] {
      var m :| 0 <= m < |Kinds(who.permissions, 4)| && Kinds(who.permissions, 4)[m] == k;
      assert last[m] == RuleOf(p, who, k);
    } else {
      assert ps == ps[..n] + [ps[n]];
      RulePresent(p, ps[..n], who, k);
    }
  }

  predicate DistinctPrincipals(ps: seq<Principal>) {
    forall i, j :: 0 <= i < j < |ps| ==> ps[i].id != ps[j].id
  }

  predicate DistinctRuleIds(rs: seq<Rule>) {
    forall i, j :: 0 <= i < j < |rs| ==> rs[i].id != rs[j].id
  }

  lemma {:induction false} RenderedIdsDistinct(p: Profile, ps: seq<Principal>)
    requires DistinctPrincipals(ps)
    ensures DistinctRuleIds(AllRules(p, ps))
  {
    hide Kinds, RuleId;
    if ps != [] {
      var n := |ps| - 1;
      var before, ks := AllRules(p, ps[..n]), Kinds(ps[n].permissions, 4);
      RenderedIdsDistinct(p, ps[..n]);
      KindsProps(ps[n].permissions, 4);
      var mine := Rules(p, ps[n], ks);
      forall i, j | 0 <= i < j < |mine| ensures mine[i].id != mine[j].id {
        if mine[i].id == mine[j].id {
          RuleIdInjective(ps[n].id, ks[i], ps[n].id, ks[j]);
        }
      }
      forall i, j | 0 <= i < |before| && 0 <= j < |mine| ensures before[i].id != mine[j].id {
        var who, k := RuleOrigin(p, ps[..n], i);
        KindsIff(who.permissions, k);
        if before[i].id == mine[j].id {
          RuleIdInjective(who.id, k, ps[n].id, ks[j]);
        }
      }
    }
  }

  // ----- Exact keys -----

  lemma Words1()
    ensures Segment("session") && Segment("haldir") && Segment("authority") && Segment("admission") && Segment("mission")
  {}

  lemma Words2()
    ensures Segment("record") && Segment("revocation") && Segment("lease") && Segment("application") && Segment("decision")
  {}

  lemma Words3()
    ensures Segment("intent") && Segment("controller-a") && Segment("controller-b") && Segment("command") && Segment("challenge")
  {}

  lemma Words4()
    ensures Segment("status") && Segment("lifecycle") && Segment("sensor") && Segment("pose") && Segment("rpc")
  {}

  lemma Words5()
    ensures Segment("close_session") && Segment("open_session") && Segment("run_request") && Segment("step_request")
  {}

  lemma RouteSegmentsOk(realm: string, sid: string, r: RouteId)
    requires SafeSegment(realm) && SafeSegment(sid)
    ensures Segments(RouteSegments(realm, sid, r))
  {
    SafeIsSegment(realm);
    SafeIsSegment(sid);
    Words1();
    Words2();
    Words3();
    Words4();
    Words5();
    hide Segment;
  }

  lemma RouteExact(realm: string, sid: string, r: RouteId)
    requires SafeSegment(realm) && SafeSegment(sid)
    ensures ExactKey(Route(realm, sid, r))
  {
    RouteSegmentsOk(realm, sid, r);
    JoinExact(RouteSegments(realm, sid, r));
  }

  /** Length of the route, of its last two segments, and the last segment's ends: enough to tell all routes apart. */
  datatype Shape = Shape(n: nat, last: nat, first: char, end: char, prev: nat)

  function ShapeOf(r: RouteId): Shape {
    match r
    case AdmissionRecord => Shape(7, 6, 'r', 'd', 9)
    case AdmissionRevocation => Shape(7, 10, 'r', 'n', 9)
    case ApplicationEvidence => Shape(5, 11, 'a', 'n', 6)
    case ControllerAIntent => Shape(6, 12, 'c', 'a', 6)
    case ControllerBIntent => Shape(6, 12, 'c', 'b', 6)
    case DecisionEvidence => Shape(5, 8, 'd', 'n', 6)
    case FinalCommand => Shape(4, 7, 'c', 'd', 0)
    case GateChallenge => Shape(5, 9, 'c', 'e', 6)
    case GateStatus => Shape(5, 6, 's', 's', 6)
    case MissionLease => Shape(7, 5, 'l', 'e', 7)
    case MissionRevocation => Shape(7, 10, 'r', 'n', 7)
    case RpcCloseSession => Shape(3, 13, 'c', 'n', 3)
    case RpcOpenSession => Shape(3, 12, 'o', 'n', 3)
    case RpcRunRequest => Shape(3, 11, 'r', 't', 3)
    case RpcStepRequest => Shape(3, 12, 's', 't', 3)
    case SessionStatus => Shape(6, 6, 's', 's', 9)
    case StatePose => Shape(5, 4, 'p', 'e', 6)
  }

  lemma ShapeRight(realm: string, sid: string, r: RouteId)
    ensures var ss := RouteSegments(realm, sid, r); var shape := ShapeOf(r);
            |ss| == shape.n && |ss[|ss| - 1]| == shape.last > 0
            && ss[|ss| - 1][0] == shape.first && ss[|ss| - 1][shape.last - 1] == shape.end
            && (!r.FinalCommand? ==> |ss[|ss| - 2]| == shape.prev)
  {}

  /** All derived routes are distinct keys. */
  lemma RoutesDistinct(realm: string, sid: string, r1: RouteId, r2: RouteId)
    requires SafeSegment(realm) && SafeSegment(sid) && Route(realm, sid, r1) == Route(realm, sid, r2)
    ensures r1 == r2
  {
    hide RouteSegments;
    RouteSegmentsOk(realm, sid, r1);
    RouteSegmentsOk(realm, sid, r2);
    SegmentsArePlain(RouteSegments(realm, sid, r1));
    SegmentsArePlain(RouteSegments(realm, sid, r2));
    JoinInjective(RouteSegments(realm, sid, r1), RouteSegments(realm, sid, r2));
    ShapeRight(realm, sid, r1);
    ShapeRight(realm, sid, r2);
    assert ShapeOf(r1).n == ShapeOf(r2).n;
  }

  // ----- Meaning is preserved -----

  lemma RendersKeys(p: Profile, rs: seq<RouteId>, key: string)
    ensures key in RouteKeys(p, rs) <==> exists r :: r in rs && key == Route(p.realm, p.sessionId, r)
  {
    hide Route;
    if key in RouteKeys(p, rs) {
      var i :| 0 <= i < |rs| && RouteKeys(p, rs)[i] == key;
      assert rs[i] in rs;
    }
    if r :| r in rs && key == Route(p.realm, p.sessionId, r) {
      var i :| 0 <= i < |rs| && rs[i] == r;
      assert RouteKeys(p, rs)[i] == key;
    }
  }

  /** What one rendered rule grants is a grant of its operation. */
  lemma RuleMeans(p: Profile, who: Principal, k: Kind, g: Grant)
    requires KindOk(k) && Granted(who.permissions, k.op) != [] && g.principal == who.id
    requires RuleGrants(RuleOf(p, who, k), g)
    ensures g in OpGrants(p, who, k.op)
  {
    hide Route, RouteKeys, RuleId, Granted;
    if k.Std? {
      RendersKeys(p, Granted(who.permissions, k.op), g.key);
      var r :| r in Granted(who.permissions, k.op) && g.key == Route(p.realm, p.sessionId, r);
      assert g == Grant(who.id, g.message, FlowName(k.flow), Route(p.realm, p.sessionId, r));
    } else {
      assert g.message == "declare_queryable" && g.key == RpcQueryable(p.realm);
    }
  }

  /** And every grant of an operation is given by one of its rules. */
  lemma GrantHasRule(p: Profile, who: Principal, op: Op, g: Grant) returns (k: Kind)
    requires g in OpGrants(p, who, op)
    ensures KindOk(k) && k.op == op && Granted(who.permissions, op) != []
    ensures g.principal == who.id && RuleGrants(RuleOf(p, who, k), g)
  {
    hide Route, RouteKeys, RuleId;
    if flow: Flow, m: string, r: RouteId :|
      && flow in {Ingress, Egress} && m in OpMessages(op, flow) && r in Granted(who.permissions, op)
      && g == Grant(who.id, m, FlowName(flow), Route(p.realm, p.sessionId, r))
    {
      k := Std(op, flow);
      RendersKeys(p, Granted(who.permissions, op), g.key);
    } else {
      k := Decl(op);
      assert g.message in ["declare_queryable"] && g.key in [RpcQueryable(p.realm)];
    }
  }

  lemma OneOpSuffices(p: Profile, who: Principal, g: Grant)
    ensures g in PrincipalGrants(p, who) <==> exists op :: g in OpGrants(p, who, op)
  {
    hide OpGrants;
    if op :| g in OpGrants(p, who, op) {
      match op case Publish => case Subscribe => case Query => case Serve =>
    }
  }

  /**
   * The grants read back from the rendered rules and policies are exactly the matrix's, plus the
   * reviewed queryable declarations: for every matrix, all principal ids and every safe realm and session.
   */
  lemma CompilationPreservesGrants(p: Profile, g: Grant)
    requires ValidProfile(p)
    ensures GrantedBy(Render(p), g) <==> g in MatrixGrants(p)
  {
    hide PrincipalGrants, ValidProfile, RuleGrants, RuleOf, AllRules, Kinds;
    if GrantedBy(Render(p), g) {
      GrantedIsInMatrix(p, g);
    }
    if g in MatrixGrants(p) {
      MatrixIsGranted(p, g);
    }
  }

  lemma GrantedIsInMatrix(p: Profile, g: Grant)
    requires ValidProfile(p) && GrantedBy(Render(p), g)
    ensures g in MatrixGrants(p)
  {
    hide PrincipalGrants, RuleGrants, RuleOf, AllRules, Kinds, RuleId, RuleIds;
    var config := Render(p);
    var i :| 0 <= i < |config.policies| && PolicyGrants(config.policies[i], config.rules, g);
    var who := p.principals[i];
    var j :| 0 <= j < |config.rules| && config.rules[j].id in config.policies[i].rules && RuleGrants(config.rules[j], g);
    var owner, k := RuleOrigin(p, p.principals, j);
    var mine := RuleIdOf(who, config.rules[j].id);
    KindsIff(owner.permissions, k);
    KindsIff(who.permissions, mine);
    RuleOfId(p, owner, k);
    RuleIdInjective(owner.id, k, who.id, mine);
    SamePrincipal(p, owner, who);
    RuleMeans(p, who, k, g);
    OneOpSuffices(p, who, g);
  }

  lemma RuleOfId(p: Profile, who: Principal, k: Kind)
    ensures RuleOf(p, who, k).id == RuleId(who.id, k)
  {}

  lemma RuleIdOf(who: Principal, id: string) returns (k: Kind)
    requires id in RuleIds(who, Kinds(who.permissions, 4))
    ensures k in Kinds(who.permissions, 4) && RuleId(who.id, k) == id
  {
    hide Kinds, RuleId;
    var m :| 0 <= m < |Kinds(who.permissions, 4)| && RuleIds(who, Kinds(who.permissions, 4))[m] == id;
    k := Kinds(who.permissions, 4)[m];
  }

  lemma SamePrincipal(p: Profile, a: Principal, b: Principal)
    requires ValidProfile(p) && a in p.principals && b in p.principals && a.id == b.id
    ensures a == b
  {
    var i :| 0 <= i < |p.principals| && p.principals[i] == a;
    var j :| 0 <= j < |p.principals| && p.principals[j] == b;
    assert i == j;
  }

  lemma MatrixIsGranted(p: Profile, g: Grant)
    requires g in MatrixGrants(p)
    ensures GrantedBy(Render(p), g)
  {
    hide PrincipalGrants, OpGrants, RuleGrants, RuleOf, AllRules, Kinds, RuleId, RuleIds;
    var config := Render(p);
    var i :| 0 <= i < |p.principals| && g in PrincipalGrants(p, p.principals[i]);
    var who := p.principals[i];
    OneOpSuffices(p, who, g);
    var op :| g in OpGrants(p, who, op);
    var k := GrantHasRule(p, who, op, g);
    KindsIff(who.permissions, k);
    RulePresent(p, p.principals, who, k);
    var j :| 0 <= j < |config.rules| && config.rules[j] == RuleOf(p, who, k);
    RuleOfId(p, who, k);
    IdListed(who, k);
    assert g.principal in config.policies[i].subjects;
    assert PolicyGrants(config.policies[i], config.rules, g);
  }

  lemma IdListed(who: Principal, k: Kind)
    requires k in Kinds(who.permissions, 4)
    ensures RuleId(who.id, k) in RuleIds(who, Kinds(who.permissions, 4))
  {
    hide Kinds, RuleId;
    var m :| 0 <= m < |Kinds(who.permissions, 4)| && Kinds(who.permissions, 4)[m] == k;
    assert RuleIds(who, Kinds(who.permissions, 4))[m] == RuleId(who.id, k);
  }

  // ----- The verifier and the renderer -----

  lemma RenderedSubjectsOk(p: Profile)
    requires ValidProfile(p)
    ensures SubjectsOk(p, Render(p).subjects)
  {
    hide AllRules, PolicyOf;
    var ss := Render(p).subjects;
    forall i | 0 <= i < |ss| ensures Bound(p, ss[i]) && Present(ss, p.principals[i]) {
      assert SubjectOf(p.principals[i]) == ss[i];
    }
  }

  lemma RenderedRulesOk(p: Profile)
    requires ValidProfile(p)
    ensures RulesOk(p.realm, Render(p).rules)
  {
    hide AllRules, Kinds, RuleId;
    var rs := Render(p).rules;
    RenderedIdsDistinct(p, p.principals);
    forall j | 0 <= j < |rs| ensures RuleOk(p.realm, rs[j]) {
      var who, k := RuleOrigin(p, p.principals, j);
      KindsIff(who.permissions, k);
      RenderedRuleOk(p, who, k);
    }
  }

  lemma RenderedRuleOk(p: Profile, who: Principal, k: Kind)
    requires ValidProfile(p) && KindOk(k) && Granted(who.permissions, k.op) != []
    ensures RuleOk(p.realm, RuleOf(p, who, k))
  {
    hide Route, ExactKey, RuleId, Granted;
    if k.Std? {
      var rs := Granted(who.permissions, k.op);
      forall i | 0 <= i < |rs| ensures ExactKey(RouteKeys(p, rs)[i]) {
        RouteExact(p.realm, p.sessionId, rs[i]);
      }
    }
  }

  lemma RenderedPoliciesOk(p: Profile)
    requires ValidProfile(p)
    ensures PoliciesOk(Render(p).policies, SubjectIds(Render(p).subjects), RuleIdSet(Render(p).rules))
  {
    hide AllRules, Kinds, RuleId, RuleIds, RuleOf;
    var config := Render(p);
    forall i | 0 <= i < |config.policies|
      ensures PolicyOk(config.policies[i], SubjectIds(config.subjects), RuleIdSet(config.rules))
    {
      var who := p.principals[i];
      assert config.subjects[i].id == who.id;
      forall id | id in config.policies[i].rules ensures id in RuleIdSet(config.rules) {
        var k := RuleIdOf(who, id);
        RulePresent(p, p.principals, who, k);
        RuleOfId(p, who, k);
        var j :| 0 <= j < |config.rules| && config.rules[j] == RuleOf(p, who, k);
        assert config.rules[j].id == id;
      }
    }
    forall i, j | 0 <= i < j < |config.policies| ensures config.policies[i].id != config.policies[j].id {
      assert config.policies[i].id[7..] == p.principals[i].id;
      assert config.policies[j].id[7..] == p.principals[j].id;
    }
  }

  /** Of a rendered configuration, `verify_router` can only object to who may use the command route. */
  lemma RenderedAcceptedIff(p: Profile)
    requires ValidProfile(p)
    ensures Acceptable(p, Render(p)) <==> CommandGrantsOk(p, MatrixGrants(p))
  {
    hide ValidProfile, CommandGrantsOk, SubjectsOk, RulesOk, PoliciesOk, Render, MatrixGrants, GrantedBy;
    RenderedSubjectsOk(p);
    RenderedRulesOk(p);
    RenderedPoliciesOk(p);
    forall g ensures GrantedBy(Render(p), g) <==> g in MatrixGrants(p) {
      CompilationPreservesGrants(p, g);
    }
  }
}
