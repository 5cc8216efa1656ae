/** The counts, thresholds and agreements of the capture, in plain terms (tools/ecosystem_source_inventory.py). */
module CaptureMeaning {
  import opened Bytes
  import opened Capture

  // ----- Rates -----

  /** The attempts are summed. */
  lemma AttemptsAdd(a: seq<Rate>, r: Rate, b: seq<Rate>)
    ensures Attempts(a + [r] + b) == Attempts(a) + r.attempts + Attempts(b)
    ensures Attempts([]) == 0
  {
    AttemptsAppend(a + [r], b);
    assert (a + [r])[..|a|] == a;
  }

  /** An identity check passes when owner and viewer agree and the owner's request left quota for the viewer's. */
  lemma IdentityOkIff(owner: Rate, viewer: Rate, agrees: bool, minimum: int)
    ensures IdentityOk(Identity(owner, viewer, agrees), minimum) <==>
            && agrees
            && owner.attempts in {1, 2, 3} && 0 <= owner.remaining <= 100_000 && minimum + 3 <= owner.remaining
            && viewer.attempts in {1, 2, 3} && 0 <= viewer.remaining <= 100_000 && minimum <= viewer.remaining
  {
  }

  // ----- Pages -----

  /** The listed repositories whose head is asked for. */
  function WithBranch(nodes: seq<Node>): set<nat> {
    set i: nat | i < |nodes| && nodes[i].hasBranch
  }

  lemma {:induction false} HeadsAsked(nodes: seq<Node>)
    ensures |HeadRates(nodes)| == |WithBranch(nodes)|
  {
    if nodes != [] {
      var n := |nodes| - 1;
      HeadsAsked(nodes[..n]);
      assert WithBranch(nodes) == WithBranch(nodes[..n]) + if nodes[n].hasBranch then {n} else {};
    } else {
      assert WithBranch(nodes) == {};
    }
  }

  /** The budget: at most 100 repositories, three GETs for each branch and three more for a next page. */
  lemma BudgetOkIff(p: Page, minimum: int)
    ensures BudgetOk(p, minimum) <==>
            && |p.nodes| <= 100
            && p.rate.remaining >= minimum + 3 * |WithBranch(p.nodes)| + (if |p.nodes| == 100 then 3 else 0)
  {
    HeadsAsked(p.nodes);
  }

  // ----- Rows -----

  function CommitRows(rows: seq<Row>): set<nat> {
    set i: nat | i < |rows| && rows[i].commit
  }

  lemma {:induction false} CommitsCount(rows: seq<Row>)
    ensures Commits(rows) == |CommitRows(rows)|
  {
    if rows != [] {
      var n := |rows| - 1;
      CommitsCount(rows[..n]);
      assert CommitRows(rows) == CommitRows(rows[..n]) + if rows[n].commit then {n} else {};
    } else {
      assert CommitRows(rows) == {};
    }
  }

  function Ids(rows: seq<Row>): set<int> {
    set i | 0 <= i < |rows| :: rows[i].meta.id
  }

  function Names(rows: seq<Row>): set<seq<Byte>> {
    set i | 0 <= i < |rows| :: rows[i].meta.name
  }

  /** No id and no name is listed twice exactly when there are as many ids, and as many names, as rows. */
  lemma {:induction false} DistinctIff(rows: seq<Row>)
    ensures Distinct(rows) <==> |Ids(rows)| == |rows| && |Names(rows)| == |rows|
    ensures |Ids(rows)| <= |rows| && |Names(rows)| <= |rows|
  {
    if rows != [] {
      var n := |rows| - 1;
      var init := rows[..n];
      DistinctIff(init);
      LastId(rows);
      LastName(rows);
      LastDistinct(rows);
      hide Distinct, Ids, Names;
    }
  }

  lemma LastDistinct(rows: seq<Row>)
    requires rows != []
    ensures var init, last := rows[..|rows| - 1], rows[|rows| - 1];
            Distinct(rows) <==> Distinct(init) && last.meta.id !in Ids(init) && last.meta.name !in Names(init)
  {
    var init, last := rows[..|rows| - 1], rows[|rows| - 1];
    if Distinct(rows) {
      assert forall i :: 0 <= i < |init| ==> rows[i].meta.id != last.meta.id && rows[i].meta.name != last.meta.name;
    }
    if last.meta.id !in Ids(init) && last.meta.name !in Names(init) {
      forall i | 0 <= i < |init| ensures rows[i].meta.id != last.meta.id && rows[i].meta.name != last.meta.name {
        assert init[i].meta.id in Ids(init) && init[i].meta.name in Names(init);
      }
    }
  }

  lemma LastId(rows: seq<Row>)
    requires rows != []
    ensures Ids(rows) == Ids(rows[..|rows| - 1]) + {rows[|rows| - 1].meta.id}
  {
    var init := rows[..|rows| - 1];
    forall x | x in Ids(init) ensures x in Ids(rows) {
      var i :| 0 <= i < |init| && init[i].meta.id == x;
      assert rows[i].meta.id == x;
    }
    forall x | x in Ids(rows) ensures x in Ids(init) || x == rows[|rows| - 1].meta.id {
      var i :| 0 <= i < |rows| && rows[i].meta.id == x;
      if i < |init| { assert init[i].meta.id == x; }
    }
  }

  lemma LastName(rows: seq<Row>)
    requires rows != []
    ensures Names(rows) == Names(rows[..|rows| - 1]) + {rows[|rows| - 1].meta.name}
  {
    var init := rows[..|rows| - 1];
    forall x | x in Names(init) ensures x in Names(rows) {
      var i :| 0 <= i < |init| && init[i].meta.name == x;
      assert rows[i].meta.name == x;
    }
    forall x | x in Names(rows) ensures x in Names(init) || x == rows[|rows| - 1].meta.name {
      var i :| 0 <= i < |rows| && rows[i].meta.name == x;
      if i < |init| { assert init[i].meta.name == x; }
    }
  }

  // ----- Visibility -----

  /** Selecting by visibility keeps every row that has it, as often as it occurs, and no other row. */
  lemma {:induction false} VisibleCounts(rows: seq<Row>, v: Visibility, x: Row)
    ensures multiset(Visible(rows, v))[x] == if x.meta.visibility == v then multiset(rows)[x] else 0
  {
    if rows != [] {
      var n := |rows| - 1;
      VisibleCounts(rows[..n], v, x);
      assert rows == rows[..n] + [rows[n]];
    }
  }

  function Shown(rows: seq<Row>, v: Visibility): set<nat> {
    set i: nat | i < |rows| && rows[i].meta.visibility == v
  }

  lemma {:induction false} VisibleLength(rows: seq<Row>, v: Visibility)
    ensures |Visible(rows, v)| == |Shown(rows, v)|
  {
    if rows != [] {
      var n := |rows| - 1;
      VisibleLength(rows[..n], v);
      assert Shown(rows, v) == Shown(rows[..n], v) + if rows[n].meta.visibility == v then {n} else {};
    } else {
      assert Shown(rows, v) == {};
    }
  }

  /** The owner's public rows that the projection makes into y. */
  function PublicAs(rows: seq<Row>, project: Row -> Row, y: Row): set<nat> {
    set i: nat | i < |rows| && rows[i].meta.visibility == Public && project(rows[i]) == y
  }

  lemma {:induction false} ProjectedCounts(rows: seq<Row>, project: Row -> Row, y: Row)
    ensures multiset(Projected(Visible(rows, Public), project))[y] == |PublicAs(rows, project, y)|
  {
    if rows != [] {
      var n := |rows| - 1;
      var before, last := Visible(rows[..n], Public), rows[n];
      ProjectedCounts(rows[..n], project, y);
      assert PublicAs(rows, project, y) == PublicAs(rows[..n], project, y)
        + if last.meta.visibility == Public && project(last) == y then {n} else {};
      assert Projected(Visible(rows, Public), project)
          == Projected(before, project) + if last.meta.visibility == Public then [project(last)] else [];
    } else {
      assert PublicAs(rows, project, y) == {};
    }
  }

  predicate TwoVisibilities(rows: seq<Row>) {
    forall r <- rows :: r.meta.visibility == Public || r.meta.visibility == Private
  }

  /** Every row is public or private exactly when the two kinds make up the list. */
  lemma PartitionIff(rows: seq<Row>)
    ensures |Visible(rows, Public)| + |Visible(rows, Private)| == |rows| <==> TwoVisibilities(rows)
  {
    VisibleLength(rows, Public);
    VisibleLength(rows, Private);
    VisibleLength(rows, Other);
    ThreeKinds(rows);
    if TwoVisibilities(rows) {
      assert Shown(rows, Other) == {};
    } else {
      var r :| r in rows && r.meta.visibility != Public && r.meta.visibility != Private;
      var i: nat :| i < |rows| && rows[i] == r;
      assert i in Shown(rows, Other);
    }
  }

  lemma {:induction false} ThreeKinds(rows: seq<Row>)
    ensures |Visible(rows, Public)| + |Visible(rows, Private)| + |Visible(rows, Other)| == |rows|
  {
    if rows != [] {
      ThreeKinds(rows[..|rows| - 1]);
    }
  }

  /**
   * When the passes agree: both passes of a scope hold the same rows, every row of the owner is public
   * or private, and each row of the public scope occurs as often as some public row of the owner projects to it.
   */
  lemma AgreeIff(pf: Snapshot, ps: Snapshot, of: Snapshot, os: Snapshot, project: Row -> Row)
    ensures PassesAgree(pf, ps, of, os, project) <==>
            && multiset(pf.rows) == multiset(ps.rows) && multiset(of.rows) == multiset(os.rows)
            && (forall r <- of.rows :: r.meta.visibility == Public || r.meta.visibility == Private)
            && (forall y :: multiset(pf.rows)[y] == |PublicAs(of.rows, project, y)|)
  {
    hide Visible, Projected;
    var public := Visible(of.rows, Public);
    forall y ensures multiset(Projected(public, project))[y] == |PublicAs(of.rows, project, y)| {
      ProjectedCounts(of.rows, project, y);
    }
    PartitionIff(of.rows);
    ProjectedLength(public, project);
    if multiset(Projected(public, project)) == multiset(pf.rows) {
      assert |pf.rows| == |multiset(pf.rows)| == |multiset(Projected(public, project))|;
    }
  }

  lemma ProjectedLength(rows: seq<Row>, project: Row -> Row)
    ensures |Projected(rows, project)| == |rows| == |multiset(Projected(rows, project))|
  {
  }
}
