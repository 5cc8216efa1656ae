/** The audited matrix of tools/secure_zenoh.py, and exactly when the verifier accepts what the renderer writes. */
module HaldirAcl {
  import opened KeyExpr
  import opened Acl
  import opened AclVerifier
  import opened AclTheorems
  import AclMeaning

  // ----- The command route, for any matrix -----

  lemma NotCommand(w: string)
    requires |w| < 7 || w[0] != 'c' || w[1] != 'o' || w[2] != 'm'
    ensures !StartsWith(w, COMMAND)
  {
    assert |w| >= 7 ==> w[0] == w[..7][0] && w[1] == w[..7][1] && w[2] == w[..7][2];
  }

  /** Which segments of a route start with `command`. */
  lemma CommandSegments(realm: string, sid: string, r: RouteId, i: nat)
    ensures CommandSegment(RouteSegments(realm, sid, r), i) <==>
            (i == 2 && !IsRpc(r) && StartsWith(sid, COMMAND)) || (i == 3 && r.FinalCommand?)
  {
    var ss := RouteSegments(realm, sid, r);
    if 0 < i < |ss| && !(i == 2 && !IsRpc(r)) && !(i == 3 && r.FinalCommand?) {
      NotCommand(ss[i]);
    }
  }

  /** A route mentions `/command` exactly when it is the command route or its session id starts so. */
  lemma RouteMentionsCommand(realm: string, sid: string, r: RouteId)
    requires SafeSegment(realm) && SafeSegment(sid)
    ensures Contains(Route(realm, sid, r), SLASH_COMMAND) <==>
            r.FinalCommand? || (!IsRpc(r) && StartsWith(sid, COMMAND))
  {
    hide RouteSegments, CommandSegment, StartsWith, Contains;
    var ss := RouteSegments(realm, sid, r);
    RouteSegmentsOk(realm, sid, r);
    SegmentsArePlain(ss);
    CommandInKey(ss);
    forall i: nat ensures CommandSegment(ss, i) <==>
      (i == 2 && !IsRpc(r) && StartsWith(sid, COMMAND)) || (i == 3 && r.FinalCommand?)
    {
      CommandSegments(realm, sid, r, i);
    }
    CommandSegments(realm, sid, r, 2);
    CommandSegments(realm, sid, r, 3);
  }

  lemma QueryableMentionsNoCommand(realm: string)
    requires SafeSegment(realm)
    ensures !Contains(RpcQueryable(realm), SLASH_COMMAND)
  {
    var ss := [realm, "rpc", "*"];
    SafeIsSegment(realm);
    assert ss[1..] == ["rpc", "*"] && ss[1..][1..] == ["*"];
    assert Join(ss[1..][1..]) == "*";
    assert Join(ss[1..]) == "rpc" + "/" + "*";
    assert Join(ss) == realm + "/" + ("rpc" + "/" + "*");
    assert Join(ss) == RpcQueryable(realm);
    assert Plains(ss);
    CommandInKey(ss);
    forall i: nat ensures !CommandSegment(ss, i) {
      if 0 < i < 3 { NotCommand(ss[i]); }
    }
  }

  /** Who the matrix lets PUT a route towards the router: exactly its publishers. */
  lemma PutGrants(p: Profile, who: Principal, r: RouteId, flow: Flow)
    requires ValidProfile(p)
    ensures Grant(who.id, "put", FlowName(flow), Route(p.realm, p.sessionId, r)) in PrincipalGrants(p, who) <==>
            r in Granted(who.permissions, if flow.Ingress? then Publish else Subscribe)
  {
    hide Route, OpGrants, ValidProfile;
    AclMeaning.OpOnRoute(p, who, Publish, "put", FlowName(flow), r);
    AclMeaning.OpOnRoute(p, who, Subscribe, "put", FlowName(flow), r);
    AclMeaning.OpOnRoute(p, who, Query, "put", FlowName(flow), r);
    AclMeaning.OpOnRoute(p, who, Serve, "put", FlowName(flow), r);
    MessagesDiffer();
  }

  /** The principals that may put the command route in the given direction. */
  function CommandUsers(p: Profile, flow: Flow): set<string> {
    set i | 0 <= i < |p.principals|
            && FinalCommand in Granted(p.principals[i].permissions, if flow.Ingress? then Publish else Subscribe)
          :: p.principals[i].id
  }

  predicate GrantsSessionRoute(perms: Permissions) {
    exists op, r :: r in Granted(perms, op) && !IsRpc(r) && r != FinalCommand
  }

  predicate UsesSession(p: Profile) {
    exists i :: 0 <= i < |p.principals| && GrantsSessionRoute(p.principals[i].permissions)
  }

  lemma CommandUsersAre(p: Profile, flow: Flow)
    requires ValidProfile(p)
    ensures var command := Route(p.realm, p.sessionId, FinalCommand);
            (set g | g in MatrixGrants(p) && g.key == command && g.message == "put" && g.flow == FlowName(flow) :: g.principal)
            == CommandUsers(p, flow)
  {
    hide Route, PrincipalGrants, Granted, ValidProfile;
    var command := Route(p.realm, p.sessionId, FinalCommand);
    var users := set g | g in MatrixGrants(p) && g.key == command && g.message == "put" && g.flow == FlowName(flow) :: g.principal;
    forall w | w in users ensures w in CommandUsers(p, flow) {
      var g :| g in MatrixGrants(p) && g.key == command && g.message == "put" && g.flow == FlowName(flow) && g.principal == w;
      var i :| 0 <= i < |p.principals| && g in PrincipalGrants(p, p.principals[i]);
      GrantNamesPrincipal(p, p.principals[i], g);
      PutGrants(p, p.principals[i], FinalCommand, flow);
    }
    forall w | w in CommandUsers(p, flow) ensures w in users {
      var i :| 0 <= i < |p.principals| && p.principals[i].id == w
        && FinalCommand in Granted(p.principals[i].permissions, if flow.Ingress? then Publish else Subscribe);
      PutGrants(p, p.principals[i], FinalCommand, flow);
      var g := Grant(w, "put", FlowName(flow), command);
      assert g in MatrixGrants(p);
    }
  }

  lemma GrantNamesPrincipal(p: Profile, who: Principal, g: Grant)
    requires g in PrincipalGrants(p, who)
    ensures g.principal == who.id
  {
    hide PrincipalGrants, Route;
    OneOpSuffices(p, who, g);
    var op :| g in OpGrants(p, who, op);
  }

  predicate OnlyCommandMentions(p: Profile, grants: set<Grant>) {
    forall g :: g in grants && Contains(g.key, SLASH_COMMAND) ==> g.key == Route(p.realm, p.sessionId, FinalCommand)
  }

  lemma GrantKey(p: Profile, who: Principal, g: Grant)
    requires g in PrincipalGrants(p, who)
    ensures g.key == RpcQueryable(p.realm) || exists op, r :: r in Granted(who.permissions, op) && g.key == Route(p.realm, p.sessionId, r)
  {
    hide Route, PrincipalGrants;
    OneOpSuffices(p, who, g);
    var op :| g in OpGrants(p, who, op);
  }

  lemma SessionGrantExists(p: Profile, who: Principal, op: Op, r: RouteId) returns (g: Grant)
    requires r in Granted(who.permissions, op)
    ensures g in PrincipalGrants(p, who) && g.key == Route(p.realm, p.sessionId, r)
  {
    hide Route, PrincipalGrants;
    var m := OpMessages(op, Ingress)[0];
    g := Grant(who.id, m, FlowName(Ingress), Route(p.realm, p.sessionId, r));
    assert m in OpMessages(op, Ingress);
    assert g in OpGrants(p, who, op);
    OneOpSuffices(p, who, g);
  }

  lemma SessionUse(p: Profile, i: nat, op: Op, r: RouteId)
    requires i < |p.principals| && r in Granted(p.principals[i].permissions, op) && !IsRpc(r) && r != FinalCommand
    ensures UsesSession(p)
  {
    assert GrantsSessionRoute(p.principals[i].permissions);
  }

  lemma MentionsIff(p: Profile)
    requires ValidProfile(p)
    ensures OnlyCommandMentions(p, MatrixGrants(p)) <==> !(StartsWith(p.sessionId, COMMAND) && UsesSession(p))
  {
    hide Route, PrincipalGrants, Granted, Contains, StartsWith;
    if StartsWith(p.sessionId, COMMAND) && UsesSession(p) {
      var i :| 0 <= i < |p.principals| && GrantsSessionRoute(p.principals[i].permissions);
      var op, r :| r in Granted(p.principals[i].permissions, op) && !IsRpc(r) && r != FinalCommand;
      var g := SessionGrantExists(p, p.principals[i], op, r);
      RouteMentionsCommand(p.realm, p.sessionId, r);
      if g.key == Route(p.realm, p.sessionId, FinalCommand) {
        RoutesDistinct(p.realm, p.sessionId, r, FinalCommand);
      }
      assert g in MatrixGrants(p);
    } else {
      forall g | g in MatrixGrants(p) && Contains(g.key, SLASH_COMMAND) ensures g.key == Route(p.realm, p.sessionId, FinalCommand) {
        var i :| 0 <= i < |p.principals| && g in PrincipalGrants(p, p.principals[i]);
        GrantKey(p, p.principals[i], g);
        QueryableMentionsNoCommand(p.realm);
        var op, r :| r in Granted(p.principals[i].permissions, op) && g.key == Route(p.realm, p.sessionId, r);
        if r != FinalCommand && !IsRpc(r) {
          SessionUse(p, i, op, r);
        }
        RouteMentionsCommand(p.realm, p.sessionId, r);
      }
    }
  }

  /**
   * Exactly when `verify_router` accepts `router_config`, for every matrix: Gate alone publishes the
   * command route, the two receivers alone subscribe to it, and no other granted route mentions it.
   */
  lemma AcceptsRenderedIff(p: Profile)
    requires ValidProfile(p)
    ensures Acceptable(p, Render(p)) <==>
            && CommandUsers(p, Ingress) == {"gate"}
            && CommandUsers(p, Egress) == COMMAND_RECEIVERS
            && !(StartsWith(p.sessionId, COMMAND) && UsesSession(p))
  {
    hide ValidProfile, Route, MatrixGrants, CommandUsers, UsesSession, Acceptable;
    RenderedAcceptedIff(p);
    CommandUsersAre(p, Ingress);
    CommandUsersAre(p, Egress);
    MentionsIff(p);
  }

  // ----- The audited matrix -----

  const IDS: seq<string> :=
    ["admission-authority", "controller-a", "controller-b", "gate", "lifecycle", "mission-authority", "observer",
     "robot-crebain"]

  const RPCS := [RpcOpenSession, RpcStepRequest, RpcRunRequest, RpcCloseSession]

  const MATRIX: seq<Permissions> :=
    [Permissions([AdmissionRecord, AdmissionRevocation], [GateChallenge, GateStatus], [], []),
     Permissions([ControllerAIntent], [StatePose, GateChallenge, GateStatus], [], []),
     Permissions([ControllerBIntent], [StatePose, GateChallenge, GateStatus], [], []),
     Permissions([FinalCommand, GateChallenge, DecisionEvidence, GateStatus],
                 [ControllerAIntent, ControllerBIntent, StatePose, SessionStatus, MissionLease, MissionRevocation,
                  AdmissionRecord, AdmissionRevocation, ApplicationEvidence], [], []),
     Permissions([SessionStatus], [GateStatus], [], RPCS),
     Permissions([MissionLease, MissionRevocation], [GateChallenge, GateStatus], [], []),
     Permissions([], [FinalCommand, StatePose, SessionStatus, DecisionEvidence, GateStatus, ApplicationEvidence], [], []),
     Permissions([StatePose, ApplicationEvidence], [FinalCommand, SessionStatus, GateStatus], RPCS, [])]

  predicate HasAuditedMatrix(p: Profile) {
    |p.principals| == 8 &&
    forall i :: 0 <= i < 8 ==> p.principals[i].id == IDS[i] && p.principals[i].permissions == MATRIX[i]
  }

  lemma AuditedUsers(p: Profile)
    requires HasAuditedMatrix(p)
    ensures CommandUsers(p, Ingress) == {"gate"} && CommandUsers(p, Egress) == COMMAND_RECEIVERS && UsesSession(p)
  {
    forall i | 0 <= i < 8
      ensures FinalCommand in MATRIX[i].publish <==> i == 3
      ensures FinalCommand in MATRIX[i].subscribe <==> i == 6 || i == 7
    {
      CommandInMatrix(i);
    }
    assert p.principals[3].id == "gate" && p.principals[6].id == "observer" && p.principals[7].id == "robot-crebain";
    assert p.principals[3].permissions.publish[1] == GateChallenge;
    SessionUse(p, 3, Publish, GateChallenge);
  }

  lemma CommandInMatrix(i: nat)
    requires i < 8
    ensures FinalCommand in MATRIX[i].publish <==> i == 3
    ensures FinalCommand in MATRIX[i].subscribe <==> i == 6 || i == 7
  {
    assert MATRIX[3].publish[0] == FinalCommand && MATRIX[6].subscribe[0] == FinalCommand && MATRIX[7].subscribe[0] == FinalCommand;
  }

  /** With the audited matrix the verifier accepts the renderer exactly when the session id does not start with `command`. */
  lemma AuditedAcceptedIff(p: Profile)
    requires ValidProfile(p) && HasAuditedMatrix(p)
    ensures Acceptable(p, Render(p)) <==> !StartsWith(p.sessionId, COMMAND)
  {
    hide ValidProfile, HasAuditedMatrix, CommandUsers, UsesSession, Acceptable;
    AcceptsRenderedIff(p);
    AuditedUsers(p);
  }

  /** Gate is the only principal the rendered rules let PUT the command route, whatever the session id. */
  lemma OnlyGateCommands(p: Profile, g: Grant)
    requires ValidProfile(p) && HasAuditedMatrix(p)
    requires g.key == Route(p.realm, p.sessionId, FinalCommand) && g.message == "put" && g.flow == "ingress"
    ensures GrantedBy(Render(p), g) <==> g.principal == "gate"
  {
    hide ValidProfile, HasAuditedMatrix, Route, MatrixGrants, CommandUsers, GrantedBy, UsesSession;
    CompilationPreservesGrants(p, g);
    AuditedUsers(p);
    CommandUsersAre(p, Ingress);
    var users := set h | h in MatrixGrants(p) && h.key == g.key && h.message == "put" && h.flow == FlowName(Ingress) :: h.principal;
    assert users == {"gate"};
    if g.principal == "gate" {
      assert "gate" in users;
      var h :| h in MatrixGrants(p) && h.key == g.key && h.message == "put" && h.flow == FlowName(Ingress) && h.principal == "gate";
      assert h == g;
    }
    if g in MatrixGrants(p) {
      assert g.principal in users;
    }
  }

  /** A session id for which the verifier rejects the renderer's own output. */
  lemma CommandSessionRejected(p: Profile)
    requires ValidProfile(p) && HasAuditedMatrix(p) && p.sessionId == "command-1"
    ensures !Acceptable(p, Render(p))
  {
    hide ValidProfile, HasAuditedMatrix, Acceptable;
    AuditedAcceptedIff(p);
    assert p.sessionId[..7] == COMMAND;
  }

  /** A valid profile with that session id and the audited matrix. */
  const COMMAND_SESSION := Profile("r", "command-1", seq(8, i requires 0 <= i < 8 => Principal(IDS[i], IDS[i], MATRIX[i])))

  lemma CommandSessionExists()
    ensures ValidProfile(COMMAND_SESSION) && HasAuditedMatrix(COMMAND_SESSION)
    ensures !Acceptable(COMMAND_SESSION, Render(COMMAND_SESSION))
  {
    hide Acceptable, Render;
    IdsDistinct();
    assert SafeSegment("r") && SafeSegment("command-1");
    CommandSessionRejected(COMMAND_SESSION);
  }

  lemma IdsDistinct()
    ensures |IDS| == 8 && forall i, j :: 0 <= i < j < 8 ==> IDS[i] != IDS[j]
  {
    assert IDS[0][0] == 'a' && IDS[1][|IDS[1]| - 1] == 'a' && IDS[2][|IDS[2]| - 1] == 'b' && IDS[3][0] == 'g';
    assert IDS[1][0] == 'c' && IDS[2][0] == 'c' && IDS[4][0] == 'l' && IDS[5][0] == 'm' && IDS[6][0] == 'o' && IDS[7][0] == 'r';
  }

  // ----- The matrix by routes -----

  /** Rows of the matrix. */
  const ADMISSION := 0
  const CONTROLLER_A := 1
  const CONTROLLER_B := 2
  const GATE := 3
  const LIFECYCLE := 4
  const MISSION := 5
  const OBSERVER := 6
  const ROBOT := 7

  /** The one principal that writes a route of the session. */
  function WriterOf(r: RouteId): (i: nat)
    ensures i < 8
  {
    match r
    case AdmissionRecord | AdmissionRevocation => ADMISSION
    case ControllerAIntent => CONTROLLER_A
    case ControllerBIntent => CONTROLLER_B
    case FinalCommand | GateChallenge | DecisionEvidence | GateStatus => GATE
    case SessionStatus => LIFECYCLE
    case MissionLease | MissionRevocation => MISSION
    case StatePose | ApplicationEvidence => ROBOT
    case RpcCloseSession | RpcOpenSession | RpcRunRequest | RpcStepRequest => ROBOT
  }

  /** The principals that read it. */
  function ReadersOf(r: RouteId): set<nat> {
    match r
    case AdmissionRecord | AdmissionRevocation | MissionLease | MissionRevocation => {GATE}
    case ControllerAIntent | ControllerBIntent => {GATE}
    case FinalCommand => {OBSERVER, ROBOT}
    case GateChallenge => {ADMISSION, CONTROLLER_A, CONTROLLER_B, MISSION}
    case GateStatus => {ADMISSION, CONTROLLER_A, CONTROLLER_B, LIFECYCLE, MISSION, OBSERVER, ROBOT}
    case DecisionEvidence => {OBSERVER}
    case SessionStatus => {GATE, OBSERVER, ROBOT}
    case StatePose => {CONTROLLER_A, CONTROLLER_B, GATE, OBSERVER}
    case ApplicationEvidence => {GATE, OBSERVER}
    case RpcCloseSession | RpcOpenSession | RpcRunRequest | RpcStepRequest => {}
  }

  /** Membership in a short list, place by place. */
  lemma OneOfNine(s: seq<RouteId>, r: RouteId)
    requires |s| <= 9
    ensures r in s <==>
            || (|s| > 0 && s[0] == r) || (|s| > 1 && s[1] == r) || (|s| > 2 && s[2] == r) || (|s| > 3 && s[3] == r)
            || (|s| > 4 && s[4] == r) || (|s| > 5 && s[5] == r) || (|s| > 6 && s[6] == r) || (|s| > 7 && s[7] == r)
            || (|s| > 8 && s[8] == r)
  {
  }

  lemma PublishColumn(i: nat, r: RouteId)
    requires i < 8
    ensures r in MATRIX[i].publish <==> !IsRpc(r) && WriterOf(r) == i
  {
    hide WriterOf, IsRpc;
    if i < 4 { PublishUpper(i, r); } else { PublishLower(i, r); }
  }

  lemma PublishUpper(i: nat, r: RouteId)
    requires 0 <= i < 4
    ensures r in MATRIX[i].publish <==> !IsRpc(r) && WriterOf(r) == i
  {
    OneOfNine(MATRIX[i].publish, r);
  }

  lemma PublishLower(i: nat, r: RouteId)
    requires 4 <= i < 8
    ensures r in MATRIX[i].publish <==> !IsRpc(r) && WriterOf(r) == i
  {
    OneOfNine(MATRIX[i].publish, r);
  }

  lemma SubscribeColumn(i: nat, r: RouteId)
    requires i < 8
    ensures r in MATRIX[i].subscribe <==> i in ReadersOf(r)
  {
    hide ReadersOf;
    if i < 3 { SubscribeUpper(i, r); } else if i < 4 { SubscribeGate(i, r); }
    else if i < 6 { SubscribeMiddle(i, r); }
    else if i < 7 { SubscribeObserver(i, r); } else { SubscribeRobot(i, r); }
  }

  lemma SubscribeUpper(i: nat, r: RouteId)
    requires 0 <= i < 3
    ensures r in MATRIX[i].subscribe <==> i in ReadersOf(r)
  {
    OneOfNine(MATRIX[i].subscribe, r);
  }

  lemma SubscribeGate(i: nat, r: RouteId)
    requires i == GATE
    ensures r in MATRIX[i].subscribe <==> i in ReadersOf(r)
  {
    hide ReadersOf;
    assert MATRIX[GATE].subscribe ==
           [ControllerAIntent, ControllerBIntent, StatePose, SessionStatus, MissionLease, MissionRevocation,
            AdmissionRecord, AdmissionRevocation, ApplicationEvidence];
    GateReads(MATRIX[GATE].subscribe, r);
  }

  lemma GateReads(s: seq<RouteId>, r: RouteId)
    requires s == [ControllerAIntent, ControllerBIntent, StatePose, SessionStatus, MissionLease, MissionRevocation,
                   AdmissionRecord, AdmissionRevocation, ApplicationEvidence]
    ensures r in s <==> 3 in ReadersOf(r)
  {
    OneOfNine(s, r);
  }

  lemma SubscribeMiddle(i: nat, r: RouteId)
    requires 4 <= i < 6
    ensures r in MATRIX[i].subscribe <==> i in ReadersOf(r)
  {
    OneOfNine(MATRIX[i].subscribe, r);
  }

  lemma SubscribeObserver(i: nat, r: RouteId)
    requires 6 <= i < 7
    ensures r in MATRIX[i].subscribe <==> i in ReadersOf(r)
  {
    OneOfNine(MATRIX[i].subscribe, r);
  }

  lemma SubscribeRobot(i: nat, r: RouteId)
    requires 7 <= i < 8
    ensures r in MATRIX[i].subscribe <==> i in ReadersOf(r)
  {
    OneOfNine(MATRIX[i].subscribe, r);
  }

  lemma RpcColumns(i: nat, r: RouteId)
    requires i < 8
    ensures r in MATRIX[i].query <==> IsRpc(r) && i == ROBOT
    ensures r in MATRIX[i].serve <==> IsRpc(r) && i == LIFECYCLE
  {
    OneOfNine(MATRIX[i].query, r);
    OneOfNine(MATRIX[i].serve, r);
  }

  /** A name that is a principal's is that row's; no other name is granted anything on a route. */
  lemma RowOf(p: Profile, g: Grant) returns (i: nat)
    requires ValidProfile(p) && HasAuditedMatrix(p) && GrantedBy(Render(p), g)
    ensures i < 8 && p.principals[i].id == g.principal
  {
    hide ValidProfile, Render, GrantedBy;
    AclMeaning.NothingElseGranted(p, g);
    var w :| w in p.principals && w.id == g.principal;
    i :| 0 <= i < |p.principals| && p.principals[i] == w;
  }

  /**
   * Every route of the session has exactly one writer and just these readers, and the RPC routes are queried by
   * the robot and served by the lifecycle alone: the rendered rules of the audited matrix, route by route.
   */
  lemma RouteUsers(p: Profile, r: RouteId, who: string)
    requires ValidProfile(p) && HasAuditedMatrix(p)
    ensures var key := Route(p.realm, p.sessionId, r);
      && (GrantedBy(Render(p), Grant(who, "put", "ingress", key)) <==> !IsRpc(r) && who == IDS[WriterOf(r)])
      && (GrantedBy(Render(p), Grant(who, "put", "egress", key)) <==> exists i :: i in ReadersOf(r) && i < 8 && who == IDS[i])
      && (GrantedBy(Render(p), Grant(who, "query", "ingress", key)) <==> IsRpc(r) && who == "robot-crebain")
      && (GrantedBy(Render(p), Grant(who, "query", "egress", key)) <==> IsRpc(r) && who == "lifecycle")
      && (GrantedBy(Render(p), Grant(who, "reply", "ingress", key)) <==> IsRpc(r) && who == "lifecycle")
      && (GrantedBy(Render(p), Grant(who, "reply", "egress", key)) <==> IsRpc(r) && who == "robot-crebain")
  {
    hide ValidProfile, HasAuditedMatrix, Render, GrantedBy, Route, WriterOf, ReadersOf, IsRpc, RowGrants;
    UsersAre(p, r, who, "put", "ingress");
    UsersAre(p, r, who, "put", "egress");
    UsersAre(p, r, who, "query", "ingress");
    UsersAre(p, r, who, "query", "egress");
    UsersAre(p, r, who, "reply", "ingress");
    UsersAre(p, r, who, "reply", "egress");
    forall i: nat | i < 8
      ensures RowGrants(i, "put", "ingress", r) <==> !IsRpc(r) && WriterOf(r) == i
      ensures RowGrants(i, "put", "egress", r) <==> i in ReadersOf(r)
      ensures RowGrants(i, "query", "ingress", r) <==> IsRpc(r) && i == ROBOT
      ensures RowGrants(i, "query", "egress", r) <==> IsRpc(r) && i == LIFECYCLE
      ensures RowGrants(i, "reply", "ingress", r) <==> IsRpc(r) && i == LIFECYCLE
      ensures RowGrants(i, "reply", "egress", r) <==> IsRpc(r) && i == ROBOT
    {
      RowByRoute(i, r);
    }
    assert IDS[LIFECYCLE] == "lifecycle" && IDS[ROBOT] == "robot-crebain";
  }

  /** A name passes a message exactly when it is a row's and that row does. */
  lemma UsersAre(p: Profile, r: RouteId, who: string, m: string, f: string)
    requires ValidProfile(p) && HasAuditedMatrix(p)
    ensures |IDS| == 8
    ensures GrantedBy(Render(p), Grant(who, m, f, Route(p.realm, p.sessionId, r))) <==>
            exists i :: 0 <= i < 8 && IDS[i] == who && RowGrants(i, m, f, r)
  {
    hide ValidProfile, Render, GrantedBy, Route, RowGrants;
    var g := Grant(who, m, f, Route(p.realm, p.sessionId, r));
    if GrantedBy(Render(p), g) {
      var i := RowOf(p, g);
      RowGranted(p, i, m, f, r);
    }
    if i :| 0 <= i < 8 && IDS[i] == who && RowGrants(i, m, f, r) {
      RowGranted(p, i, m, f, r);
    }
  }

  lemma RowByRoute(i: nat, r: RouteId)
    requires i < 8
    ensures RowGrants(i, "put", "ingress", r) <==> !IsRpc(r) && WriterOf(r) == i
    ensures RowGrants(i, "put", "egress", r) <==> i in ReadersOf(r)
    ensures RowGrants(i, "query", "ingress", r) <==> IsRpc(r) && i == ROBOT
    ensures RowGrants(i, "query", "egress", r) <==> IsRpc(r) && i == LIFECYCLE
    ensures RowGrants(i, "reply", "ingress", r) <==> IsRpc(r) && i == LIFECYCLE
    ensures RowGrants(i, "reply", "egress", r) <==> IsRpc(r) && i == ROBOT
  {
    hide WriterOf, ReadersOf, IsRpc;
    MessagesDiffer();
    PublishColumn(i, r);
    SubscribeColumn(i, r);
    RpcColumns(i, r);
  }

  lemma MessagesDiffer()
    ensures "put" != "query" && "put" != "reply" && "query" != "reply" && "ingress" != "egress"
    ensures "declare_subscriber" != "put" && "declare_subscriber" != "query" && "declare_subscriber" != "reply"
  {
    assert "query"[0] == 'q' && "reply"[0] == 'r';
  }

  /** What row i of the matrix lets pass on a route. */
  predicate RowGrants(i: nat, m: string, f: string, r: RouteId)
    requires i < 8
  {
    || (r in MATRIX[i].publish && ((f == "ingress" && m == "put") || (f == "egress" && m == "declare_subscriber")))
    || (r in MATRIX[i].subscribe && ((f == "ingress" && m == "declare_subscriber") || (f == "egress" && m == "put")))
    || (r in MATRIX[i].query && ((f == "ingress" && m == "query") || (f == "egress" && m == "reply")))
    || (r in MATRIX[i].serve && ((f == "ingress" && m == "reply") || (f == "egress" && m == "query")))
  }

  lemma RowGranted(p: Profile, i: nat, m: string, f: string, r: RouteId)
    requires ValidProfile(p) && HasAuditedMatrix(p) && i < 8
    ensures GrantedBy(Render(p), Grant(IDS[i], m, f, Route(p.realm, p.sessionId, r))) <==> RowGrants(i, m, f, r)
  {
    hide ValidProfile, Render, GrantedBy, Route;
    var w := p.principals[i];
    assert w.id == IDS[i] && w.permissions == MATRIX[i];
    AclMeaning.RouteGrantedIff(p, w, m, f, r);
  }
}
