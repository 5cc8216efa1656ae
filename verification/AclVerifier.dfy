/** `verify_router`: it reads the grants back out of a configuration and judges them (tools/secure_zenoh.py). */
module AclVerifier {
  import opened Bytes
  import opened KeyExpr
  import opened Acl

  datatype Grant = Grant(principal: string, message: string, flow: string, key: string)

  // ----- What the verifier demands -----

  predicate RuleGrants(r: Rule, g: Grant) {
    |r.flows| == 1 && g.flow == r.flows[0] && g.message in r.messages && g.key in r.keys
  }

  predicate PolicyGrants(pol: Policy, rules: seq<Rule>, g: Grant) {
    g.principal in pol.subjects
    && exists j :: 0 <= j < |rules| && rules[j].id in pol.rules && RuleGrants(rules[j], g)
  }

  /** The configuration lets the principal with this subject id pass this message. */
  predicate GrantedBy(config: Config, g: Grant) {
    exists i :: 0 <= i < |config.policies| && PolicyGrants(config.policies[i], config.rules, g)
  }

  /** What the matrix grants one principal for one operation, with its queryable declaration. */
  function OpGrants(p: Profile, who: Principal, op: Op): set<Grant> {
    (set flow: Flow, m: string, r: RouteId
       | flow in {Ingress, Egress} && m in OpMessages(op, flow) && r in Granted(who.permissions, op)
       :: Grant(who.id, m, FlowName(flow), Route(p.realm, p.sessionId, r)))
    + if (op.Query? || op.Serve?) && Granted(who.permissions, op) != []
      then {Grant(who.id, "declare_queryable", FlowName(DeclFlow(op)), RpcQueryable(p.realm))}
      else {}
  }

  function PrincipalGrants(p: Profile, who: Principal): set<Grant> {
    OpGrants(p, who, Publish) + OpGrants(p, who, Subscribe) + OpGrants(p, who, Query) + OpGrants(p, who, Serve)
  }

  /** The audited matrix as a set of grants. */
  function MatrixGrants(p: Profile): set<Grant> {
    set i, g | 0 <= i < |p.principals| && g in PrincipalGrants(p, p.principals[i]) :: g
  }

  predicate SubjectsOk(p: Profile, ss: seq<Subject>) {
    && SubjectsDistinct(ss)
    && (forall i :: 0 <= i < |ss| ==> Bound(p, ss[i]))
    && (forall k :: 0 <= k < |p.principals| ==> Present(ss, p.principals[k]))
  }

  predicate Bound(p: Profile, s: Subject) {
    exists k :: 0 <= k < |p.principals| && SubjectOf(p.principals[k]) == s
  }

  predicate Present(ss: seq<Subject>, who: Principal) {
    exists i :: 0 <= i < |ss| && ss[i] == SubjectOf(who)
  }

  predicate SubjectsDistinct(ss: seq<Subject>) {
    && (forall i :: 0 <= i < |ss| ==> |ss[i].commonNames| == 1)
    && (forall i, j :: 0 <= i < j < |ss| ==> ss[i].id != ss[j].id)
    && (forall i, j :: 0 <= i < j < |ss| ==> ss[i].commonNames[0] != ss[j].commonNames[0])
  }

  predicate RuleOk(realm: string, r: Rule) {
    && r.allow && |r.flows| == 1 && (r.flows[0] == "ingress" || r.flows[0] == "egress")
    && r.keys != [] && r.messages != []
    && ((r.keys == [RpcQueryable(realm)] && r.messages == ["declare_queryable"])
        || forall i :: 0 <= i < |r.keys| ==> ExactKey(r.keys[i]))
  }

  predicate RulesOk(realm: string, rs: seq<Rule>) {
    && (forall i :: 0 <= i < |rs| ==> RuleOk(realm, rs[i]))
    && (forall i, j :: 0 <= i < j < |rs| ==> rs[i].id != rs[j].id)
  }

  /** Rule references are only followed for a policy that has subjects. */
  predicate PolicyOk(pol: Policy, subjectIds: set<string>, ruleIds: set<string>) {
    && (forall s :: s in pol.subjects ==> s in subjectIds)
    && (pol.subjects != [] ==> forall r :: r in pol.rules ==> r in ruleIds)
  }

  predicate PoliciesOk(ps: seq<Policy>, subjectIds: set<string>, ruleIds: set<string>) {
    && (forall i :: 0 <= i < |ps| ==> PolicyOk(ps[i], subjectIds, ruleIds))
    && (forall i, j :: 0 <= i < j < |ps| ==> ps[i].id != ps[j].id)
  }

  function SubjectIds(ss: seq<Subject>): set<string> {
    set i | 0 <= i < |ss| :: ss[i].id
  }

  function RuleIdSet(rs: seq<Rule>): set<string> {
    set i | 0 <= i < |rs| :: rs[i].id
  }

  const COMMAND_RECEIVERS: set<string> := {"observer", "robot-crebain"}

  predicate CommandGrantsOk(p: Profile, grants: set<Grant>) {
    var command := Route(p.realm, p.sessionId, FinalCommand);
    && (set g | g in grants && g.key == command && g.message == "put" && g.flow == "ingress" :: g.principal) == {"gate"}
    && (set g | g in grants && g.key == command && g.message == "put" && g.flow == "egress" :: g.principal) == COMMAND_RECEIVERS
    && (forall g :: g in grants && Contains(g.key, SLASH_COMMAND) ==> g.key == command)
  }

  /** Everything but the last three checks of `verify_router`. */
  ghost predicate WellFormedFor(p: Profile, config: Config) {
    && ValidProfile(p)
    && SubjectsOk(p, config.subjects)
    && RulesOk(p.realm, config.rules)
    && PoliciesOk(config.policies, SubjectIds(config.subjects), RuleIdSet(config.rules))
  }

  ghost predicate Acceptable(p: Profile, config: Config) {
    && WellFormedFor(p, config)
    && (forall g :: GrantedBy(config, g) <==> g in MatrixGrants(p))
    && CommandGrantsOk(p, MatrixGrants(p))
  }

  // ----- The verifier as code -----

  /** Subject ids bound to one certificate name each; None on a malformed or repeated subject. */
  method ReadSubjects(ss: seq<Subject>) returns (r: Option<map<string, string>>)
    ensures r.Some? <==> SubjectsDistinct(ss)
    ensures r.Some? ==> r.value.Keys == SubjectIds(ss)
    ensures r.Some? ==> BoundIn(r.value, ss)
  {
    hide SubjectsDistinct;
    var cns: map<string, string> := map[];
    NoSubjects();
    for i := 0 to |ss|
      invariant SubjectsDistinct(ss[..i])
      invariant cns.Keys == SubjectIds(ss[..i]) && cns.Values == CommonNames(ss[..i])
      invariant BoundIn(cns, ss[..i])
    {
      var s := ss[i];
      DistinctExtend(ss, i);
      if |s.commonNames| != 1 || s.id in cns || s.commonNames[0] in cns.Values {
        return None;
      }
      ValuesAdd(cns, s.id, s.commonNames[0]);
      BoundExtend(cns, ss, i);
      cns := cns[s.id := s.commonNames[0]];
    }
    assert ss[..|ss|] == ss;
    return Some(cns);
  }

  function CommonNames(ss: seq<Subject>): set<string> {
    set i | 0 <= i < |ss| && |ss[i].commonNames| == 1 :: ss[i].commonNames[0]
  }

  predicate BoundIn(cns: map<string, string>, ss: seq<Subject>) {
    forall i :: 0 <= i < |ss| ==> |ss[i].commonNames| == 1 && ss[i].id in cns && cns[ss[i].id] == ss[i].commonNames[0]
  }

  lemma NoSubjects()
    ensures SubjectsDistinct([])
  {}

  lemma BoundExtend(cns: map<string, string>, ss: seq<Subject>, i: nat)
    requires i < |ss| && BoundIn(cns, ss[..i]) && |ss[i].commonNames| == 1 && ss[i].id !in cns
    ensures BoundIn(cns[ss[i].id := ss[i].commonNames[0]], ss[..i + 1])
  {
    assert ss[..i + 1] == ss[..i] + [ss[i]];
  }

  lemma DistinctExtend(ss: seq<Subject>, i: nat)
    requires i < |ss| && SubjectsDistinct(ss[..i])
    ensures SubjectsDistinct(ss[..i + 1]) <==>
            && |ss[i].commonNames| == 1
            && ss[i].id !in SubjectIds(ss[..i])
            && ss[i].commonNames[0] !in CommonNames(ss[..i])
    ensures SubjectsDistinct(ss) ==> SubjectsDistinct(ss[..i + 1])
    ensures SubjectIds(ss[..i + 1]) == SubjectIds(ss[..i]) + {ss[i].id}
    ensures |ss[i].commonNames| == 1 ==> CommonNames(ss[..i + 1]) == CommonNames(ss[..i]) + {ss[i].commonNames[0]}
  {
    var before, after := ss[..i], ss[..i + 1];
    assert after == before + [ss[i]];
    forall x | x in SubjectIds(before) ensures x in SubjectIds(after) {
      var k :| 0 <= k < |before| && before[k].id == x;
      assert after[k].id == x;
    }
    assert after[i].id in SubjectIds(after);
    forall x | x in CommonNames(before) ensures x in CommonNames(after) {
      var k :| 0 <= k < |before| && |before[k].commonNames| == 1 && before[k].commonNames[0] == x;
      assert after[k].commonNames[0] == x;
    }
    if |ss[i].commonNames| == 1 {
      assert after[i].commonNames[0] in CommonNames(after);
    }
    if SubjectsDistinct(after) {
      assert forall k :: 0 <= k < i ==> after[k].id != after[i].id && after[k].commonNames[0] != after[i].commonNames[0];
    }
  }

  lemma ValuesAdd(m: map<string, string>, k: string, v: string)
    requires k !in m
    ensures m[k := v].Values == m.Values + {v}
  {
    var n := m[k := v];
    assert n[k] == v;
    forall x | x in m.Values ensures x in n.Values {
      var j :| j in m && m[j] == x;
      assert n[j] == x;
    }
  }

  /** The bindings read back are the profile's. */
  method SameBindings(p: Profile, ss: seq<Subject>, cns: map<string, string>) returns (same: bool)
    requires ValidProfile(p) && SubjectsDistinct(ss)
    requires cns.Keys == SubjectIds(ss) && BoundIn(cns, ss)
    ensures same <==> SubjectsOk(p, ss)
  {
    var expected: map<string, string> := map[];
    for k := 0 to |p.principals|
      invariant forall x :: x in expected <==> exists j :: 0 <= j < k && p.principals[j].id == x
      invariant forall j :: 0 <= j < k ==> expected[p.principals[j].id] == p.principals[j].cn
    {
      expected := expected[p.principals[k].id := p.principals[k].cn];
    }
    same := cns == expected;
    if same {
      forall i | 0 <= i < |ss| ensures Bound(p, ss[i]) {
        assert ss[i].id in expected;
        var k :| 0 <= k < |p.principals| && p.principals[k].id == ss[i].id;
        assert ss[i].commonNames == [p.principals[k].cn];
        assert SubjectOf(p.principals[k]) == ss[i];
      }
      forall k | 0 <= k < |p.principals| ensures Present(ss, p.principals[k]) {
        assert p.principals[k].id in cns;
        var i :| 0 <= i < |ss| && ss[i].id == p.principals[k].id;
        assert ss[i].commonNames == [p.principals[k].cn];
        assert ss[i] == SubjectOf(p.principals[k]);
      }
    }
    if SubjectsOk(p, ss) {
      SameMaps(p, ss, cns, expected);
    }
  }

  lemma SameMaps(p: Profile, ss: seq<Subject>, cns: map<string, string>, expected: map<string, string>)
    requires forall i :: 0 <= i < |ss| ==> |ss[i].commonNames| == 1 && Bound(p, ss[i])
    requires forall k :: 0 <= k < |p.principals| ==> Present(ss, p.principals[k])
    requires cns.Keys == SubjectIds(ss) && BoundIn(cns, ss)
    requires forall x :: x in expected <==> exists j :: 0 <= j < |p.principals| && p.principals[j].id == x
    requires forall j :: 0 <= j < |p.principals| ==> expected[p.principals[j].id] == p.principals[j].cn
    ensures cns == expected
  {
    hide Bound, Present;
    forall x | x in cns ensures x in expected && cns[x] == expected[x] {
      var i :| 0 <= i < |ss| && ss[i].id == x;
      var k := BoundWitness(p, ss[i]);
      assert p.principals[k].id == x;
    }
    forall x | x in expected ensures x in cns {
      var j :| 0 <= j < |p.principals| && p.principals[j].id == x;
      var i := PresentWitness(ss, p.principals[j]);
      assert ss[i].id == x;
    }
  }

  lemma BoundWitness(p: Profile, s: Subject) returns (k: nat)
    requires Bound(p, s)
    ensures k < |p.principals| && p.principals[k].id == s.id && [p.principals[k].cn] == s.commonNames
  {
    k :| 0 <= k < |p.principals| && SubjectOf(p.principals[k]) == s;
  }

  lemma PresentWitness(ss: seq<Subject>, who: Principal) returns (i: nat)
    requires Present(ss, who)
    ensures i < |ss| && ss[i].id == who.id
  {
    i :| 0 <= i < |ss| && ss[i] == SubjectOf(who);
  }

  method ReadRules(realm: string, rs: seq<Rule>) returns (r: Option<map<string, Rule>>)
    ensures r.Some? <==> RulesOk(realm, rs)
    ensures r.Some? ==> r.value.Keys == RuleIdSet(rs)
    ensures r.Some? ==> forall i :: 0 <= i < |rs| ==> r.value[rs[i].id] == rs[i]
  {
    hide ExactKey;
    var ruleMap: map<string, Rule> := map[];
    for i := 0 to |rs|
      invariant RulesOk(realm, rs[..i])
      invariant forall x :: x in ruleMap <==> exists k :: 0 <= k < i && rs[k].id == x
      invariant forall k :: 0 <= k < i ==> ruleMap[rs[k].id] == rs[k]
    {
      if rs[i].id in ruleMap || !RuleOk(realm, rs[i]) {
        return None;
      }
      ruleMap := ruleMap[rs[i].id := rs[i]];
    }
    assert rs[..|rs|] == rs;
    return Some(ruleMap);
  }

  /** The grants of one rule id for one subject: the two innermost loops. */
  method AddRule(actual: set<Grant>, who: string, rule: Rule) returns (grants: set<Grant>)
    requires |rule.flows| == 1
    ensures forall g :: g in grants <==> g in actual || (g.principal == who && RuleGrants(rule, g))
  {
    grants := actual;
    for m := 0 to |rule.messages|
      invariant forall g :: g in grants <==> (g in actual
        || (g.principal == who && g.flow == rule.flows[0] && g.message in rule.messages[..m] && g.key in rule.keys))
    {
      ghost var before := grants;
      for k := 0 to |rule.keys|
        invariant forall g :: g in grants <==> (g in before
          || (g.principal == who && g.flow == rule.flows[0] && g.message == rule.messages[m] && g.key in rule.keys[..k]))
      {
        grants := grants + {Grant(who, rule.messages[m], rule.flows[0], rule.keys[k])};
        assert rule.keys[..k + 1] == rule.keys[..k] + [rule.keys[k]];
      }
      assert rule.keys[..|rule.keys|] == rule.keys;
      assert rule.messages[..m + 1] == rule.messages[..m] + [rule.messages[m]];
    }
    assert rule.messages[..|rule.messages|] == rule.messages;
  }

  /** All rules of one policy for one subject. */
  method AddRules(actual: set<Grant>, who: string, ids: seq<string>, ruleMap: map<string, Rule>)
    returns (r: Option<set<Grant>>)
    requires forall x :: x in ruleMap ==> |ruleMap[x].flows| == 1
    ensures r.Some? <==> forall x :: x in ids ==> x in ruleMap
    ensures r.Some? ==> forall g :: g in r.value <==>
              g in actual || (g.principal == who && exists i :: 0 <= i < |ids| && RuleGrants(ruleMap[ids[i]], g))
  {
    hide RuleGrants;
    var grants := actual;
    for i := 0 to |ids|
      invariant forall k :: 0 <= k < i ==> ids[k] in ruleMap
      invariant forall g :: g in grants <==>
        g in actual || (g.principal == who && exists k :: 0 <= k < i && RuleGrants(ruleMap[ids[k]], g))
    {
      if ids[i] !in ruleMap {
        return None;
      }
      grants := AddRule(grants, who, ruleMap[ids[i]]);
    }
    return Some(grants);
  }

  /** All subjects of one policy. */
  method AddPolicy(actual: set<Grant>, pol: Policy, subjectIds: set<string>, ruleMap: map<string, Rule>)
    returns (r: Option<set<Grant>>)
    requires forall x :: x in ruleMap ==> |ruleMap[x].flows| == 1
    ensures r.Some? <==> PolicyOk(pol, subjectIds, ruleMap.Keys)
    ensures r.Some? ==> forall g :: g in r.value <==>
              g in actual || (g.principal in pol.subjects && IdsGrant(pol.rules, ruleMap, g))
  {
    hide RuleGrants;
    var grants := actual;
    for i := 0 to |pol.subjects|
      invariant forall k :: 0 <= k < i ==> pol.subjects[k] in subjectIds
      invariant i > 0 ==> forall x :: x in pol.rules ==> x in ruleMap
      invariant forall g :: g in grants <==>
        g in actual || (g.principal in pol.subjects[..i] && IdsGrant(pol.rules, ruleMap, g))
    {
      if pol.subjects[i] !in subjectIds {
        return None;
      }
      var next := AddRules(grants, pol.subjects[i], pol.rules, ruleMap);
      if next.None? {
        return None;
      }
      assert pol.subjects[..i + 1] == pol.subjects[..i] + [pol.subjects[i]];
      grants := next.value;
    }
    assert pol.subjects[..|pol.subjects|] == pol.subjects;
    return Some(grants);
  }

  predicate IdsGrant(ids: seq<string>, ruleMap: map<string, Rule>, g: Grant) {
    exists i :: 0 <= i < |ids| && ids[i] in ruleMap && RuleGrants(ruleMap[ids[i]], g)
  }

  method ReadGrants(ps: seq<Policy>, subjectIds: set<string>, ruleMap: map<string, Rule>)
    returns (r: Option<set<Grant>>)
    requires forall x :: x in ruleMap ==> |ruleMap[x].flows| == 1
    ensures r.Some? <==> PoliciesOk(ps, subjectIds, ruleMap.Keys)
    ensures r.Some? ==> forall g :: g in r.value <==>
              exists i :: 0 <= i < |ps| && g.principal in ps[i].subjects && IdsGrant(ps[i].rules, ruleMap, g)
  {
    hide IdsGrant, PolicyOk;
    var grants: set<Grant>, policyIds: set<string> := {}, {};
    for i := 0 to |ps|
      invariant PoliciesOk(ps[..i], subjectIds, ruleMap.Keys)
      invariant policyIds == set k | 0 <= k < i :: ps[k].id
      invariant forall g :: g in grants <==>
        exists k :: 0 <= k < i && g.principal in ps[k].subjects && IdsGrant(ps[k].rules, ruleMap, g)
    {
      if ps[i].id in policyIds {
        return None;
      }
      policyIds := policyIds + {ps[i].id};
      var next := AddPolicy(grants, ps[i], subjectIds, ruleMap);
      if next.None? {
        return None;
      }
      grants := next.value;
    }
    assert ps[..|ps|] == ps;
    return Some(grants);
  }

  /** The audited matrix, principal by principal. */
  method ExpectedGrants(p: Profile) returns (grants: set<Grant>)
    ensures grants == MatrixGrants(p)
  {
    hide OpGrants, PrincipalGrants;
    grants := {};
    for i := 0 to |p.principals|
      invariant forall g :: g in grants <==> exists k :: 0 <= k < i && g in PrincipalGrants(p, p.principals[k])
    {
      grants := grants + PrincipalGrants(p, p.principals[i]);
    }
  }

  /** `verify_router`, on the access-control part of a configuration. */
  method VerifyRouter(p: Profile, config: Config) returns (ok: bool)
    ensures ok <==> Acceptable(p, config)
  {
    hide RulesOk, SubjectsOk, SubjectsDistinct, PoliciesOk, MatrixGrants, CommandGrantsOk, IdsGrant, RuleGrants;
    if !ValidProfile(p) {
      return false;
    }
    var cns := ReadSubjects(config.subjects);
    if cns.None? {
      SubjectsMustBeDistinct(p, config.subjects);
      return false;
    }
    var same := SameBindings(p, config.subjects, cns.value);
    if !same {
      return false;
    }
    var ruleMap := ReadRules(p.realm, config.rules);
    if ruleMap.None? {
      return false;
    }
    OneFlowEach(p.realm, config.rules, ruleMap.value);
    var actual := ReadGrants(config.policies, cns.value.Keys, ruleMap.value);
    if actual.None? {
      return false;
    }
    MapGrants(config, ruleMap.value);
    assert forall g :: g in actual.value <==> GrantedBy(config, g);
    var expected := ExpectedGrants(p);
    if actual.value != expected {
      SetsDiffer(p, config, actual.value);
      return false;
    }
    ok := CommandGrantsOk(p, actual.value);
  }

  lemma SetsDiffer(p: Profile, config: Config, actual: set<Grant>)
    requires forall g :: g in actual <==> GrantedBy(config, g)
    requires actual != MatrixGrants(p)
    ensures exists g :: GrantedBy(config, g) != (g in MatrixGrants(p))
  {
    var g :| (g in actual) != (g in MatrixGrants(p));
    assert GrantedBy(config, g) != (g in MatrixGrants(p));
  }

  lemma SubjectsMustBeDistinct(p: Profile, ss: seq<Subject>)
    ensures SubjectsOk(p, ss) ==> SubjectsDistinct(ss)
  {}

  lemma OneFlowEach(realm: string, rs: seq<Rule>, ruleMap: map<string, Rule>)
    requires RulesOk(realm, rs) && ruleMap.Keys == RuleIdSet(rs)
    requires forall i :: 0 <= i < |rs| ==> ruleMap[rs[i].id] == rs[i]
    ensures forall x :: x in ruleMap ==> |ruleMap[x].flows| == 1
  {
    forall x | x in ruleMap ensures |ruleMap[x].flows| == 1 {
      var i :| 0 <= i < |rs| && rs[i].id == x;
      assert RuleOk(realm, rs[i]);
    }
  }

  lemma MapGrants(config: Config, ruleMap: map<string, Rule>)
    requires ruleMap.Keys == RuleIdSet(config.rules)
    requires forall i :: 0 <= i < |config.rules| ==> ruleMap[config.rules[i].id] == config.rules[i]
    ensures forall g :: GrantedBy(config, g) <==>
              exists i :: 0 <= i < |config.policies| && g.principal in config.policies[i].subjects
                          && IdsGrant(config.policies[i].rules, ruleMap, g)
  {
    hide RuleGrants;
    var rules := config.rules;
    forall g, pol: Policy ensures PolicyGrants(pol, rules, g) <==> g.principal in pol.subjects && IdsGrant(pol.rules, ruleMap, g) {
      if PolicyGrants(pol, rules, g) {
        var j :| 0 <= j < |rules| && rules[j].id in pol.rules && RuleGrants(rules[j], g);
        var i :| 0 <= i < |pol.rules| && pol.rules[i] == rules[j].id;
        assert RuleGrants(ruleMap[pol.rules[i]], g);
      }
      if g.principal in pol.subjects && IdsGrant(pol.rules, ruleMap, g) {
        var i :| 0 <= i < |pol.rules| && pol.rules[i] in ruleMap && RuleGrants(ruleMap[pol.rules[i]], g);
        var j :| 0 <= j < |rules| && rules[j].id == pol.rules[i];
        assert RuleGrants(rules[j], g);
      }
    }
  }
}
