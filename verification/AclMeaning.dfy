/** The rendered access control in plain words: who may pass which message where (tools/secure_zenoh.py). */
module AclMeaning {
  import opened KeyExpr
  import opened Acl
  import opened AclVerifier
  import opened AclTheorems

  // ----- Route texts -----

  lemma SessionRoute(realm: string, sid: string, rest: seq<string>)
    requires rest != []
    ensures Join([realm, "session", sid] + rest) == realm + "/session/" + sid + "/" + Join(rest)
  {
    var all := [realm, "session", sid] + rest;
    assert all[1..] == ["session", sid] + rest;
    assert all[1..][1..] == [sid] + rest;
    assert all[1..][1..][1..] == rest;
    assert Join(all[1..][1..]) == sid + "/" + Join(rest);
    assert Join(all[1..]) == "session" + "/" + Join(all[1..][1..]);
    assert Join(all) == realm + "/" + Join(all[1..]);
    SessionText(realm, sid, Join(rest));
  }

  lemma SessionText(realm: string, sid: string, rest: string)
    ensures realm + "/" + ("session" + "/" + (sid + "/" + rest)) == realm + "/session/" + sid + "/" + rest
  {
    assert "/" + "session" + "/" == "/session/";
    assert realm + "/" + ("session" + "/" + (sid + "/" + rest)) == realm + ("/" + "session" + "/") + sid + "/" + rest;
  }

  lemma JoinOne(a: string)
    ensures Join([a]) == a
  {
  }

  lemma JoinTwo(a: string, b: string)
    ensures Join([a, b]) == a + "/" + b
  {
    assert [a, b][1..] == [b];
  }

  lemma JoinThree(a: string, b: string, c: string)
    ensures Join([a, b, c]) == a + "/" + b + "/" + c
  {
    JoinTwo(b, c);
    assert [a, b, c][1..] == [b, c];
  }

  lemma JoinFour(a: string, b: string, c: string, d: string)
    ensures Join([a, b, c, d]) == a + "/" + b + "/" + c + "/" + d
  {
    JoinThree(b, c, d);
    assert [a, b, c, d][1..] == [b, c, d];
  }

  /** Each route as text. */
  lemma RouteTexts(realm: string, sid: string)
    ensures Route(realm, sid, AdmissionRecord) == realm + "/session/" + sid + "/" + "haldir/authority/admission/record"
    ensures Route(realm, sid, AdmissionRevocation) == realm + "/session/" + sid + "/" + "haldir/authority/admission/revocation"
    ensures Route(realm, sid, ApplicationEvidence) == realm + "/session/" + sid + "/" + "haldir/application"
    ensures Route(realm, sid, ControllerAIntent) == realm + "/session/" + sid + "/" + "haldir/intent/controller-a"
    ensures Route(realm, sid, ControllerBIntent) == realm + "/session/" + sid + "/" + "haldir/intent/controller-b"
    ensures Route(realm, sid, DecisionEvidence) == realm + "/session/" + sid + "/" + "haldir/decision"
    ensures Route(realm, sid, FinalCommand) == realm + "/session/" + sid + "/" + "command"
    ensures Route(realm, sid, GateChallenge) == realm + "/session/" + sid + "/" + "haldir/challenge"
    ensures Route(realm, sid, GateStatus) == realm + "/session/" + sid + "/" + "haldir/status"
    ensures Route(realm, sid, MissionLease) == realm + "/session/" + sid + "/" + "haldir/authority/mission/lease"
    ensures Route(realm, sid, MissionRevocation) == realm + "/session/" + sid + "/" + "haldir/authority/mission/revocation"
    ensures Route(realm, sid, RpcCloseSession) == realm + "/" + "rpc/close_session"
    ensures Route(realm, sid, RpcOpenSession) == realm + "/" + "rpc/open_session"
    ensures Route(realm, sid, RpcRunRequest) == realm + "/" + "rpc/run_request"
    ensures Route(realm, sid, RpcStepRequest) == realm + "/" + "rpc/step_request"
    ensures Route(realm, sid, SessionStatus) == realm + "/session/" + sid + "/" + "haldir/lifecycle/status"
    ensures Route(realm, sid, StatePose) == realm + "/session/" + sid + "/" + "sensor/pose"
  {
    hide Join;
    AuthorityTexts();
    HaldirTexts();
    SessionRoute(realm, sid, ["haldir", "authority", "admission", "record"]);
    SessionRoute(realm, sid, ["haldir", "authority", "admission", "revocation"]);
    SessionRoute(realm, sid, ["haldir", "authority", "mission", "lease"]);
    SessionRoute(realm, sid, ["haldir", "authority", "mission", "revocation"]);
    SessionRoute(realm, sid, ["haldir", "application"]);
    SessionRoute(realm, sid, ["haldir", "decision"]);
    SessionRoute(realm, sid, ["haldir", "challenge"]);
    SessionRoute(realm, sid, ["haldir", "status"]);
    SessionRoute(realm, sid, ["haldir", "intent", "controller-a"]);
    SessionRoute(realm, sid, ["haldir", "intent", "controller-b"]);
    SessionRoute(realm, sid, ["haldir", "lifecycle", "status"]);
    SessionRoute(realm, sid, ["command"]);
    SessionRoute(realm, sid, ["sensor", "pose"]);
    RpcTexts(realm);
  }

  lemma RpcTexts(realm: string)
    ensures Join([realm, "rpc", "close_session"]) == realm + "/" + "rpc/close_session"
    ensures Join([realm, "rpc", "open_session"]) == realm + "/" + "rpc/open_session"
    ensures Join([realm, "rpc", "run_request"]) == realm + "/" + "rpc/run_request"
    ensures Join([realm, "rpc", "step_request"]) == realm + "/" + "rpc/step_request"
  {
    hide Join;
    RpcText(realm, "close_session");
    RpcText(realm, "open_session");
    RpcText(realm, "run_request");
    RpcText(realm, "step_request");
    assert "rpc/" + "close_session" == "rpc/close_session" && "rpc/" + "open_session" == "rpc/open_session";
    assert "rpc/" + "run_request" == "rpc/run_request" && "rpc/" + "step_request" == "rpc/step_request";
  }

  lemma RpcText(realm: string, verb: string)
    ensures Join([realm, "rpc", verb]) == realm + "/" + ("rpc/" + verb)
  {
    JoinThree(realm, "rpc", verb);
    assert "rpc" + "/" == "rpc/";
  }

  lemma AuthorityTexts()
    ensures Join(["haldir", "authority", "admission", "record"]) == "haldir/authority/admission/record"
    ensures Join(["haldir", "authority", "admission", "revocation"]) == "haldir/authority/admission/revocation"
    ensures Join(["haldir", "authority", "mission", "lease"]) == "haldir/authority/mission/lease"
    ensures Join(["haldir", "authority", "mission", "revocation"]) == "haldir/authority/mission/revocation"
  {
    hide Join;
    AdmissionSpelled();
    MissionSpelled();
    AuthorityText("admission/record", "admission", "record");
    AuthorityText("admission/revocation", "admission", "revocation");
    AuthorityText("mission/lease", "mission", "lease");
    AuthorityText("mission/revocation", "mission", "revocation");
  }

  lemma AdmissionSpelled()
    ensures "admission" + "/" + "record" == "admission/record"
    ensures "admission" + "/" + "revocation" == "admission/revocation"
    ensures "haldir/authority/" + "admission/record" == "haldir/authority/admission/record"
    ensures "haldir/authority/" + "admission/revocation" == "haldir/authority/admission/revocation"
  {
  }

  lemma MissionSpelled()
    ensures "mission" + "/" + "lease" == "mission/lease" && "mission" + "/" + "revocation" == "mission/revocation"
    ensures "haldir/authority/" + "mission/lease" == "haldir/authority/mission/lease"
    ensures "haldir/authority/" + "mission/revocation" == "haldir/authority/mission/revocation"
  {
  }

  lemma AuthorityText(text: string, c: string, d: string)
    requires text == c + "/" + d
    ensures Join(["haldir", "authority", c, d]) == "haldir/authority/" + text
  {
    hide Join;
    JoinFour("haldir", "authority", c, d);
    assert "haldir" + "/" + "authority" + "/" == "haldir/authority/";
    assert "haldir" + "/" + "authority" + "/" + c + "/" + d == "haldir/authority/" + (c + "/" + d);
  }

  lemma HaldirTexts()
    ensures Join(["haldir", "application"]) == "haldir/application" && Join(["haldir", "decision"]) == "haldir/decision"
    ensures Join(["haldir", "challenge"]) == "haldir/challenge" && Join(["haldir", "status"]) == "haldir/status"
    ensures Join(["haldir", "intent", "controller-a"]) == "haldir/intent/controller-a"
    ensures Join(["haldir", "intent", "controller-b"]) == "haldir/intent/controller-b"
    ensures Join(["haldir", "lifecycle", "status"]) == "haldir/lifecycle/status"
    ensures Join(["command"]) == "command" && Join(["sensor", "pose"]) == "sensor/pose"
  {
    hide Join;
    ShortTexts();
    JoinThree("haldir", "intent", "controller-a");
    JoinThree("haldir", "intent", "controller-b");
    JoinThree("haldir", "lifecycle", "status");
    JoinOne("command");
    JoinTwo("sensor", "pose");
  }

  lemma ShortTexts()
    ensures Join(["haldir", "application"]) == "haldir/application" && Join(["haldir", "decision"]) == "haldir/decision"
    ensures Join(["haldir", "challenge"]) == "haldir/challenge" && Join(["haldir", "status"]) == "haldir/status"
  {
    hide Join;
    JoinTwo("haldir", "application");
    JoinTwo("haldir", "decision");
    JoinTwo("haldir", "challenge");
    JoinTwo("haldir", "status");
  }

  // ----- Grants -----

  lemma OnlyItsOwn(p: Profile, w: Principal, g: Grant)
    requires ValidProfile(p) && w in p.principals && g.principal == w.id
    ensures g in MatrixGrants(p) <==>
            || g in OpGrants(p, w, Publish) || g in OpGrants(p, w, Subscribe)
            || g in OpGrants(p, w, Query) || g in OpGrants(p, w, Serve)
  {
    hide OpGrants, ValidProfile;
    if g in MatrixGrants(p) {
      var i :| 0 <= i < |p.principals| && g in PrincipalGrants(p, p.principals[i]);
      var who := p.principals[i];
      OneOpSuffices(p, who, g);
      var op :| g in OpGrants(p, who, op);
      GrantIsFor(p, who, op, g);
      SamePrincipal(p, who, w);
    }
    var i :| 0 <= i < |p.principals| && p.principals[i] == w;
    assert g in PrincipalGrants(p, w) ==> g in MatrixGrants(p);
  }

  lemma GrantIsFor(p: Profile, who: Principal, op: Op, g: Grant)
    requires g in OpGrants(p, who, op)
    ensures g.principal == who.id
  {
  }

  lemma OpOnRoute(p: Profile, w: Principal, op: Op, m: string, f: string, r: RouteId)
    requires ValidProfile(p)
    ensures Grant(w.id, m, f, Route(p.realm, p.sessionId, r)) in OpGrants(p, w, op) <==>
            r in Granted(w.permissions, op)
            && ((f == FlowName(Ingress) && m in OpMessages(op, Ingress)) || (f == FlowName(Egress) && m in OpMessages(op, Egress)))
  {
    hide Route, RpcQueryable, OpMessages, FlowName, Granted, ValidProfile;
    var key := Route(p.realm, p.sessionId, r);
    var g := Grant(w.id, m, f, key);
    QueryableIsNoRoute(p, r);
    forall q: RouteId | key == Route(p.realm, p.sessionId, q) ensures q == r {
      SameRoute(p, q, r);
    }
    if r in Granted(w.permissions, op) {
      if f == FlowName(Ingress) && m in OpMessages(op, Ingress) {
        assert g == Grant(w.id, m, FlowName(Ingress), Route(p.realm, p.sessionId, r));
      }
      if f == FlowName(Egress) && m in OpMessages(op, Egress) {
        assert g == Grant(w.id, m, FlowName(Egress), Route(p.realm, p.sessionId, r));
      }
    }
  }

  lemma SameRoute(p: Profile, q: RouteId, r: RouteId)
    requires ValidProfile(p) && Route(p.realm, p.sessionId, q) == Route(p.realm, p.sessionId, r)
    ensures q == r
  {
    RoutesDistinct(p.realm, p.sessionId, q, r);
  }

  lemma QueryableIsNoRoute(p: Profile, r: RouteId)
    requires ValidProfile(p)
    ensures Route(p.realm, p.sessionId, r) != RpcQueryable(p.realm)
  {
    hide Route;
    RouteExact(p.realm, p.sessionId, r);
    var q := RpcQueryable(p.realm);
    assert q[|q| - 1] == '*';
  }

  /**
   * Who may pass what on a route of the profile, for every valid profile: publishers put towards the
   * router and receive subscriber declarations, subscribers the other way round; queriers send queries
   * and receive replies, servers receive queries and send replies. Nothing else passes.
   */
  lemma RouteGrantedIff(p: Profile, w: Principal, m: string, f: string, r: RouteId)
    requires ValidProfile(p) && w in p.principals
    ensures GrantedBy(Render(p), Grant(w.id, m, f, Route(p.realm, p.sessionId, r))) <==>
            || (r in w.permissions.publish && ((f == "ingress" && m == "put") || (f == "egress" && m == "declare_subscriber")))
            || (r in w.permissions.subscribe && ((f == "ingress" && m == "declare_subscriber") || (f == "egress" && m == "put")))
            || (r in w.permissions.query && ((f == "ingress" && m == "query") || (f == "egress" && m == "reply")))
            || (r in w.permissions.serve && ((f == "ingress" && m == "reply") || (f == "egress" && m == "query")))
  {
    hide Route, ValidProfile, GrantedBy, OpGrants, MatrixGrants;
    var g := Grant(w.id, m, f, Route(p.realm, p.sessionId, r));
    CompilationPreservesGrants(p, g);
    OnlyItsOwn(p, w, g);
    OpOnRoute(p, w, Publish, m, f, r);
    OpOnRoute(p, w, Subscribe, m, f, r);
    OpOnRoute(p, w, Query, m, f, r);
    OpOnRoute(p, w, Serve, m, f, r);
  }

  lemma OpOnQueryable(p: Profile, w: Principal, op: Op, m: string, f: string)
    requires ValidProfile(p)
    ensures Grant(w.id, m, f, RpcQueryable(p.realm)) in OpGrants(p, w, op) <==>
            && (op.Query? || op.Serve?) && Granted(w.permissions, op) != []
            && m == "declare_queryable" && f == if op.Query? then "egress" else "ingress"
  {
    hide Route, RpcQueryable, OpMessages, ValidProfile;
    var g := Grant(w.id, m, f, RpcQueryable(p.realm));
    forall r ensures RpcQueryable(p.realm) != Route(p.realm, p.sessionId, r) {
      QueryableIsNoRoute(p, r);
    }
  }

  /** On the wildcard key only queryable declarations pass: out to those that query, in from those that serve. */
  lemma QueryableGrantedIff(p: Profile, w: Principal, m: string, f: string)
    requires ValidProfile(p) && w in p.principals
    ensures GrantedBy(Render(p), Grant(w.id, m, f, p.realm + "/rpc/*")) <==>
            && m == "declare_queryable"
            && ((f == "egress" && w.permissions.query != []) || (f == "ingress" && w.permissions.serve != []))
  {
    hide ValidProfile, GrantedBy, OpGrants, MatrixGrants;
    var g := Grant(w.id, m, f, RpcQueryable(p.realm));
    assert RpcQueryable(p.realm) == p.realm + "/rpc/*";
    CompilationPreservesGrants(p, g);
    OnlyItsOwn(p, w, g);
    OpOnQueryable(p, w, Publish, m, f);
    OpOnQueryable(p, w, Subscribe, m, f);
    OpOnQueryable(p, w, Query, m, f);
    OpOnQueryable(p, w, Serve, m, f);
  }

  /** No other name and no other key occurs in a grant at all. */
  lemma NothingElseGranted(p: Profile, g: Grant)
    requires ValidProfile(p) && GrantedBy(Render(p), g)
    ensures exists w :: w in p.principals && w.id == g.principal
    ensures g.key == p.realm + "/rpc/*" || exists r :: g.key == Route(p.realm, p.sessionId, r)
  {
    hide Route, ValidProfile, GrantedBy, PrincipalGrants;
    CompilationPreservesGrants(p, g);
    var i :| 0 <= i < |p.principals| && g in PrincipalGrants(p, p.principals[i]);
    var w := p.principals[i];
    OneOpSuffices(p, w, g);
    var op :| g in OpGrants(p, w, op);
    assert w in p.principals && w.id == g.principal;
  }

  // ----- Names -----

  /** The rules of one principal, by name: two for each operation it has routes for, one more to query or serve. */
  lemma RuleNames(who: Principal, id: string)
    ensures id in RuleIds(who, Kinds(who.permissions, 4)) <==>
            || (who.permissions.publish != [] &&
                (id == "allow-" + who.id + "-publish-ingress" || id == "allow-" + who.id + "-publish-egress"))
            || (who.permissions.subscribe != [] &&
                (id == "allow-" + who.id + "-subscribe-ingress" || id == "allow-" + who.id + "-subscribe-egress"))
            || (who.permissions.query != [] &&
                (id == "allow-" + who.id + "-query-ingress" || id == "allow-" + who.id + "-query-egress"
                 || id == "allow-" + who.id + "-query-queryable-egress"))
            || (who.permissions.serve != [] &&
                (id == "allow-" + who.id + "-serve-ingress" || id == "allow-" + who.id + "-serve-egress"
                 || id == "allow-" + who.id + "-serve-queryable-ingress"))
  {
    hide Kinds, RuleIds, Suffix;
    SuffixTexts();
    RuleNamed(who, Std(Publish, Ingress));
    RuleNamed(who, Std(Publish, Egress));
    RuleNamed(who, Std(Subscribe, Ingress));
    RuleNamed(who, Std(Subscribe, Egress));
    RuleNamed(who, Std(Query, Ingress));
    RuleNamed(who, Std(Query, Egress));
    RuleNamed(who, Decl(Query));
    RuleNamed(who, Std(Serve, Ingress));
    RuleNamed(who, Std(Serve, Egress));
    RuleNamed(who, Decl(Serve));
    if id in RuleIds(who, Kinds(who.permissions, 4)) {
      var k := RuleIdOf(who, id);
      KindsIff(who.permissions, k);
      KindCases(k);
    }
  }

  lemma RuleNamed(who: Principal, k: Kind)
    requires KindOk(k)
    ensures Granted(who.permissions, k.op) != [] ==> RuleId(who.id, k) in RuleIds(who, Kinds(who.permissions, 4))
  {
    hide Kinds, RuleIds, RuleId, Granted;
    KindsIff(who.permissions, k);
    if k in Kinds(who.permissions, 4) {
      IdListed(who, k);
    }
  }

  lemma KindCases(k: Kind)
    requires KindOk(k)
    ensures k in {Std(Publish, Ingress), Std(Publish, Egress), Std(Subscribe, Ingress), Std(Subscribe, Egress),
                  Std(Query, Ingress), Std(Query, Egress), Decl(Query), Std(Serve, Ingress), Std(Serve, Egress), Decl(Serve)}
  {
    match k
    case Std(op, f) =>
      assert f == Ingress || f == Egress;
      match op { case Publish => case Subscribe => case Query => case Serve => }
    case Decl(op) =>
  }

  lemma SuffixTexts()
    ensures Suffix(Std(Publish, Ingress)) == "-publish-ingress" && Suffix(Std(Publish, Egress)) == "-publish-egress"
    ensures Suffix(Std(Subscribe, Ingress)) == "-subscribe-ingress" && Suffix(Std(Subscribe, Egress)) == "-subscribe-egress"
    ensures Suffix(Std(Query, Ingress)) == "-query-ingress" && Suffix(Std(Query, Egress)) == "-query-egress"
    ensures Suffix(Std(Serve, Ingress)) == "-serve-ingress" && Suffix(Std(Serve, Egress)) == "-serve-egress"
    ensures Suffix(Decl(Query)) == "-query-queryable-egress" && Suffix(Decl(Serve)) == "-serve-queryable-ingress"
  {
    assert Suffix(Std(Publish, Ingress)) == "-publish-ingress" && Suffix(Std(Publish, Egress)) == "-publish-egress" by {
      assert "-" + "publish" + "-" == "-publish-";
    }
    assert Suffix(Std(Subscribe, Ingress)) == "-subscribe-ingress" && Suffix(Std(Subscribe, Egress)) == "-subscribe-egress" by {
      assert "-" + "subscribe" + "-" == "-subscribe-";
    }
    QueryTexts();
    ServeTexts();
  }

  lemma QueryTexts()
    ensures Suffix(Std(Query, Ingress)) == "-query-ingress" && Suffix(Std(Query, Egress)) == "-query-egress"
    ensures Suffix(Decl(Query)) == "-query-queryable-egress"
  {
    assert "-" + "query" + "-queryable-" == "-query-queryable-";
  }

  lemma ServeTexts()
    ensures Suffix(Std(Serve, Ingress)) == "-serve-ingress" && Suffix(Std(Serve, Egress)) == "-serve-egress"
    ensures Suffix(Decl(Serve)) == "-serve-queryable-ingress"
  {
    assert "-" + "serve" + "-queryable-" == "-serve-queryable-";
  }

  // ----- Characters and keys -----

  /** What the source writes: visible ASCII without the four reserved marks. */
  lemma KeyCharIff(c: char)
    ensures KeyChar(c) <==> 33 <= c as int <= 126 && c !in "$*#?"
  {
    assert c in "$*#?" <==> c == '$' || c == '*' || c == '#' || c == '?';
  }

  lemma SafeCharIff(c: char)
    ensures SafeChar(c) <==>
            c in "abcdefghijklmnopqrstuvwxyz" || c in "ABCDEFGHIJKLMNOPQRSTUVWXYZ" || c in "0123456789" || c in "._-:"
  {
    LowerCase(c);
    UpperCase(c);
    assert c in "0123456789" <==> '0' <= c <= '9';
  }

  lemma LowerCase(c: char)
    ensures c in "abcdefghijklmnopqrstuvwxyz" <==> 'a' <= c <= 'z'
  {
    var s := "abcdefghijklmnopqrstuvwxyz";
    if 'a' <= c <= 'z' { assert s[c as int - 97] == c; }
  }

  lemma UpperCase(c: char)
    ensures c in "ABCDEFGHIJKLMNOPQRSTUVWXYZ" <==> 'A' <= c <= 'Z'
  {
    var s := "ABCDEFGHIJKLMNOPQRSTUVWXYZ";
    if 'A' <= c <= 'Z' { assert s[c as int - 65] == c; }
  }

  /** A key is exact precisely when it joins non-empty segments by single slashes. */
  lemma ExactIffJoined(s: string)
    ensures ExactKey(s) <==> exists ss :: Segments(ss) && Join(ss) == s
  {
    hide Join, Segment, ExactKey;
    if ExactKey(s) {
      var ss := SplitExact(s);
    }
    if ss :| Segments(ss) && Join(ss) == s {
      JoinExact(ss);
    }
  }

  lemma {:induction false} SplitExact(s: string) returns (ss: seq<string>)
    requires ExactKey(s)
    ensures Segments(ss) && Join(ss) == s
  {
    hide KeyChar;
    if i :| 0 <= i < |s| && s[i] == '/' && forall k :: 0 <= k < i ==> s[k] != '/' {
      var tail := s[i + 1..];
      assert forall k :: 0 <= k < |tail| ==> tail[k] == s[i + 1 + k];
      TailExact(s, i);
      var rest := SplitExact(tail);
      ss := [s[..i]] + rest;
      assert ss[1..] == rest;
      assert s == s[..i] + "/" + s[i + 1..];
      JoinCons(s[..i], rest);
    } else {
      NoSlash(s, |s|);
      ss := [s];
    }
  }

  lemma TailExact(s: string, i: nat)
    requires ExactKey(s) && i < |s| && s[i] == '/'
    ensures 0 < i < |s| - 1 && ExactKey(s[i + 1..])
  {
    hide KeyChar;
    var tail := s[i + 1..];
    assert i < |s| - 1 && s[i + 1] != '/';
    assert tail[0] == s[i + 1] && tail[|tail| - 1] == s[|s| - 1];
    forall k | 0 <= k < |tail| - 1 ensures !(tail[k] == '/' && tail[k + 1] == '/') {
      assert !(s[i + 1 + k] == '/' && s[i + 1 + k + 1] == '/');
    }
  }

  lemma JoinCons(head: string, rest: seq<string>)
    requires Segment(head) && Segments(rest)
    ensures Segments([head] + rest) && Join([head] + rest) == head + "/" + Join(rest)
  {
    hide Segment;
    var ss := [head] + rest;
    assert ss[1..] == rest;
  }

  lemma {:induction false} NoSlash(s: string, n: nat)
    requires n <= |s|
    requires !exists i :: 0 <= i < |s| && s[i] == '/' && forall k :: 0 <= k < i ==> s[k] != '/'
    ensures forall k :: 0 <= k < n ==> s[k] != '/'
  {
    if n > 0 {
      NoSlash(s, n - 1);
    }
  }

  // ----- What the verifier demands -----

  function IdList(ps: seq<Principal>): seq<string> {
    seq(|ps|, i requires 0 <= i < |ps| => ps[i].id)
  }

  function NameList(ps: seq<Principal>): seq<string> {
    seq(|ps|, i requires 0 <= i < |ps| => ps[i].cn)
  }

  function Elements(s: seq<string>): set<string> {
    set x | x in s
  }

  /** A profile is valid when realm and session id are one safe segment each and no id or certificate name repeats. */
  lemma ValidProfileIff(p: Profile)
    ensures ValidProfile(p) <==>
            && 1 <= |p.realm| <= 64 && (forall c <- p.realm :: SafeChar(c))
            && 1 <= |p.sessionId| <= 128 && (forall c <- p.sessionId :: SafeChar(c))
            && |Elements(IdList(p.principals))| == |p.principals| && |Elements(NameList(p.principals))| == |p.principals|
  {
    hide SafeChar;
    var ids, names := IdList(p.principals), NameList(p.principals);
    NoneTwice(ids);
    NoneTwice(names);
    assert forall i :: 0 <= i < |p.principals| ==> ids[i] == p.principals[i].id && names[i] == p.principals[i].cn;
  }

  lemma {:induction false} NoneTwice(s: seq<string>)
    ensures |Elements(s)| <= |s|
    ensures |Elements(s)| == |s| <==> forall i, j :: 0 <= i < j < |s| ==> s[i] != s[j]
  {
    if s != [] {
      var n := |s| - 1;
      NoneTwice(s[..n]);
      assert s == s[..n] + [s[n]];
      assert Elements(s) == Elements(s[..n]) + {s[n]};
      assert s[n] in Elements(s[..n]) <==> exists i :: 0 <= i < n && s[i] == s[n];
    }
  }

  /**
   * A rule is well formed when it allows, has one direction, and is either the reviewed declaration on the
   * wildcard key or names at least one message and only keys made of segments.
   */
  lemma RuleOkIff(realm: string, r: Rule)
    ensures RuleOk(realm, r) <==>
            && r.allow && (r.flows == ["ingress"] || r.flows == ["egress"])
            && (|| (r.keys == [realm + "/rpc/*"] && r.messages == ["declare_queryable"])
                || (r.keys != [] && r.messages != []
                    && forall k <- r.keys :: exists ss :: Segments(ss) && Join(ss) == k))
  {
    hide ExactKey, Join, Segment;
    forall k ensures ExactKey(k) <==> exists ss :: Segments(ss) && Join(ss) == k {
      ExactIffJoined(k);
    }
    assert (forall i :: 0 <= i < |r.keys| ==> ExactKey(r.keys[i])) <==> forall k <- r.keys :: ExactKey(k);
    if |r.flows| == 1 {
      assert r.flows == [r.flows[0]];
    }
    assert RpcQueryable(realm) == realm + "/rpc/*";
  }

  /**
   * Who may put the command route in what the verifier accepts: Gate alone towards the router, the observer and
   * the robot alone away from it; and no other key mentions a command.
   */
  lemma AcceptedCommands(p: Profile, config: Config, principal: string)
    requires Acceptable(p, config)
    ensures var command := p.realm + "/session/" + p.sessionId + "/" + "command";
      && (GrantedBy(config, Grant(principal, "put", "ingress", command)) <==> principal == "gate")
      && (GrantedBy(config, Grant(principal, "put", "egress", command)) <==>
            principal == "observer" || principal == "robot-crebain")
      && forall g :: GrantedBy(config, g) && Contains(g.key, "/command") ==> g.key == command
  {
    hide MatrixGrants, GrantedBy, WellFormedFor, Contains, Route;
    RouteTexts(p.realm, p.sessionId);
    var command := Route(p.realm, p.sessionId, FinalCommand);
    var grants := MatrixGrants(p);
    OkMeans(p, grants, principal);
    var putIn, putOut := Grant(principal, "put", "ingress", command), Grant(principal, "put", "egress", command);
    assert GrantedBy(config, putIn) <==> putIn in grants;
    assert GrantedBy(config, putOut) <==> putOut in grants;
  }

  lemma OkMeans(p: Profile, grants: set<Grant>, principal: string)
    requires CommandGrantsOk(p, grants)
    ensures var command := Route(p.realm, p.sessionId, FinalCommand);
      && (Grant(principal, "put", "ingress", command) in grants <==> principal == "gate")
      && (Grant(principal, "put", "egress", command) in grants <==> principal == "observer" || principal == "robot-crebain")
  {
    hide Route;
    var command := Route(p.realm, p.sessionId, FinalCommand);
    PutsIn(grants, command, principal);
    PutsOut(grants, command, principal);
    var senders := set g | g in grants && g.key == command && g.message == "put" && g.flow == "ingress" :: g.principal;
    var receivers := set g | g in grants && g.key == command && g.message == "put" && g.flow == "egress" :: g.principal;
    assert senders == {"gate"} && receivers == COMMAND_RECEIVERS;
    assert principal in senders <==> principal == "gate";
    assert principal in receivers <==> principal in COMMAND_RECEIVERS;
  }

  lemma PutsIn(grants: set<Grant>, command: string, principal: string)
    ensures principal in (set g | g in grants && g.key == command && g.message == "put" && g.flow == "ingress" :: g.principal)
            <==> Grant(principal, "put", "ingress", command) in grants
  {
    var h := Grant(principal, "put", "ingress", command);
    assert h.principal == principal;
  }

  lemma PutsOut(grants: set<Grant>, command: string, principal: string)
    ensures principal in (set g | g in grants && g.key == command && g.message == "put" && g.flow == "egress" :: g.principal)
            <==> Grant(principal, "put", "egress", command) in grants
  {
    var h := Grant(principal, "put", "egress", command);
    assert h.principal == principal;
  }
}
