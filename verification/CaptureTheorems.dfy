/**
 * What the telemetry checker's arithmetic means, and why the page budgets are enough
 * (tools/ecosystem_source_inventory.py).
 */
module CaptureTheorems {
  import opened Capture
  import opened Decimal

  // ----- The checker -----

  /** The arithmetic `_validate_private_telemetry` does on one summary of a scope with these retained rows. */
  predicate SummaryAccepted(s: Summary, rows: int, commits: int, reserve: int, maximumPages: int) {
    && 1 <= s.pages <= 100
    && 1 <= s.requests <= MAX_GET_ATTEMPTS * (100 + MAX_REPOSITORIES)
    && 0 <= s.rows <= MAX_REPOSITORIES
    && s.rows == rows
    && s.pages <= maximumPages
    && s.pages == rows / MAX_PAGE_NODES + 1
    && s.pages + commits <= s.requests <= MAX_GET_ATTEMPTS * (s.pages + rows)
    && 0 <= s.least <= MAX_REMAINING
    && reserve + 2 * MAX_GET_ATTEMPTS <= s.least
  }

  predicate IdentityAccepted(rates: seq<Rate>, requests: int, least: int, reserve: int) {
    && |rates| == 4
    && (forall i :: 0 <= i < 4 ==> RateOk(rates[i], reserve + (3 - i) * MAX_GET_ATTEMPTS))
    && 4 <= requests <= 4 * MAX_GET_ATTEMPTS
    && requests == Attempts(rates)
    && 0 <= least <= MAX_REMAINING
    && least == Least(rates)
  }

  predicate ScopeAccepted(summaries: seq<Summary>, rows: seq<Row>, reserve: int, maximumPages: int) {
    |summaries| == 2 && forall s <- summaries :: SummaryAccepted(s, |rows|, Commits(rows), reserve, maximumPages)
  }

  predicate TelemetryAccepted(a: Account, reserve: int, maximumPages: int) {
    && IdentityAccepted(a.identityRates, a.identityRequests, a.identityLeast, reserve)
    && ScopeAccepted(a.publicSummaries, a.publicRows, reserve, maximumPages)
    && ScopeAccepted(a.ownerSummaries, a.ownerRows, reserve, maximumPages)
  }

  // ----- Every capture passes the checker -----

  lemma WithoutOne(b: seq<Row>, i: nat)
    requires i < |b|
    ensures multiset(b[..i] + b[i + 1..]) == multiset(b) - multiset{b[i]}
  {
    hide *;
    assert b == b[..i] + [b[i]] + b[i + 1..];
  }

  lemma CommitsWithoutOne(b: seq<Row>, i: nat)
    requires i < |b|
    ensures Commits(b) == Commits(b[..i] + b[i + 1..]) + Commits([b[i]])
  {
    hide *;
    assert b == b[..i] + [b[i]] + b[i + 1..];
    CommitsAppend(b[..i] + [b[i]], b[i + 1..]);
    CommitsAppend(b[..i], [b[i]]);
    CommitsAppend(b[..i], b[i + 1..]);
  }

  /** The number of commit rows does not depend on the order the rows are kept in. */
  lemma {:induction false} CommitsOfMultiset(a: seq<Row>, b: seq<Row>)
    requires multiset(a) == multiset(b)
    ensures Commits(a) == Commits(b) && |a| == |b|
  {
    assert |a| == |multiset(a)| && |b| == |multiset(b)|;
    if a != [] {
      var n := |a| - 1;
      assert a[n] in multiset(b);
      var i :| 0 <= i < |b| && b[i] == a[n];
      WithoutOne(a, n);
      WithoutOne(b, i);
      CommitsWithoutOne(a, n);
      CommitsWithoutOne(b, i);
      assert a[..n] + a[n + 1..] == a[..n];
      CommitsOfMultiset(a[..n], b[..i] + b[i + 1..]);
    }
  }

  /** Any snapshot the loop can report satisfies the checker, whatever the server answered. */
  lemma SnapshotAccepted(serve: nat -> Page, s: Snapshot, reserve: int, maximumPages: int)
    requires Produces(serve, s, reserve + 2 * MAX_GET_ATTEMPTS, maximumPages)
    ensures SummaryAccepted(s.summary, |s.rows|, Commits(s.rows), reserve, maximumPages)
  {
    hide PageOk, Distinct, Attempts, AllRows, AllRates, Commits;
    var minimum := reserve + 2 * MAX_GET_ATTEMPTS;
    var k: nat :| Collects(serve, k, minimum, maximumPages) && s == SnapshotOf(serve, k);
    Counts(serve, k, minimum);
    AttemptsBounded(AllRates(serve, k), minimum);
    LastPageIsShort(serve(k - 1), minimum);
    var last: nat := k - 1;
    assert |serve(last).nodes| != MAX_PAGE_NODES;
  }

  lemma LastPageIsShort(p: Page, minimum: int)
    ensures PageOk(p, minimum) && |p.nodes| != MAX_PAGE_NODES ==> |p.nodes| < MAX_PAGE_NODES
  {
  }

  lemma PassesHaveSameCounts(pf: Snapshot, ps: Snapshot, of: Snapshot, os: Snapshot, project: Row -> Row)
    requires PassesAgree(pf, ps, of, os, project)
    ensures |pf.rows| == |ps.rows| && Commits(pf.rows) == Commits(ps.rows)
    ensures |of.rows| == |os.rows| && Commits(of.rows) == Commits(os.rows)
  {
    CommitsOfMultiset(pf.rows, ps.rows);
    CommitsOfMultiset(of.rows, os.rows);
  }

  /** Producer and checker agree: whatever `capture_account` returns is accepted. */
  lemma CaptureIsAccepted(server: Server, pf: Snapshot, ps: Snapshot, of: Snapshot, os: Snapshot,
                          reserve: int, maximumPages: int, project: Row -> Row)
    requires IdentityOk(server.opening, reserve + 2 * MAX_GET_ATTEMPTS) && IdentityOk(server.closing, reserve)
    requires FourPasses(server, pf, ps, of, os, reserve + 2 * MAX_GET_ATTEMPTS, maximumPages)
    requires PassesAgree(pf, ps, of, os, project)
    requires reserve >= 0
    ensures TelemetryAccepted(AccountOf(server, pf, ps, of, os), reserve, maximumPages)
  {
    hide SummaryAccepted, Produces, Commits, PassesAgree;
    SnapshotAccepted(server.publicFirst, pf, reserve, maximumPages);
    SnapshotAccepted(server.publicSecond, ps, reserve, maximumPages);
    SnapshotAccepted(server.ownerFirst, of, reserve, maximumPages);
    SnapshotAccepted(server.ownerSecond, os, reserve, maximumPages);
    PassesHaveSameCounts(pf, ps, of, os, project);
    var rates := [server.opening.owner, server.opening.viewer, server.closing.owner, server.closing.viewer];
    AttemptsBounded(rates, 0);
  }

  /** The four identity rates are accepted exactly when both identity checks passed at their staged reserves. */
  lemma IdentityAcceptedIff(opening: Identity, closing: Identity, requests: int, least: int, reserve: int)
    requires reserve >= 0 && opening.agrees && closing.agrees
    ensures var rates := [opening.owner, opening.viewer, closing.owner, closing.viewer];
      IdentityAccepted(rates, requests, least, reserve) <==>
      && IdentityOk(opening, reserve + 2 * MAX_GET_ATTEMPTS) && IdentityOk(closing, reserve)
      && requests == Attempts(rates) && least == Least(rates)
  {
    var rates := [opening.owner, opening.viewer, closing.owner, closing.viewer];
    if IdentityOk(opening, reserve + 2 * MAX_GET_ATTEMPTS) && IdentityOk(closing, reserve) {
      AttemptsBounded(rates, 0);
    }
    if IdentityAccepted(rates, requests, least, reserve) {
      assert RateOk(rates[0], reserve + 9) && RateOk(rates[1], reserve + 6);
      assert RateOk(rates[2], reserve + 3) && RateOk(rates[3], reserve);
    }
  }

  /**
   * An account put together from any answers at all is accepted exactly when both identity checks hold at their
   * reserves and each of the four summaries is acceptable for the rows kept of its scope.
   */
  lemma TelemetryAcceptedIff(server: Server, pf: Snapshot, ps: Snapshot, of: Snapshot, os: Snapshot,
                             reserve: int, maximumPages: int)
    requires reserve >= 0 && server.opening.agrees && server.closing.agrees
    ensures TelemetryAccepted(AccountOf(server, pf, ps, of, os), reserve, maximumPages) <==>
            && IdentityOk(server.opening, reserve + 6) && IdentityOk(server.closing, reserve)
            && SummaryAccepted(pf.summary, |pf.rows|, Commits(pf.rows), reserve, maximumPages)
            && SummaryAccepted(ps.summary, |pf.rows|, Commits(pf.rows), reserve, maximumPages)
            && SummaryAccepted(of.summary, |of.rows|, Commits(of.rows), reserve, maximumPages)
            && SummaryAccepted(os.summary, |of.rows|, Commits(of.rows), reserve, maximumPages)
  {
    hide SummaryAccepted, IdentityAccepted, IdentityOk, Commits;
    var a := AccountOf(server, pf, ps, of, os);
    IdentityAcceptedIff(server.opening, server.closing, a.identityRequests, a.identityLeast, reserve);
    assert pf.summary in a.publicSummaries && ps.summary in a.publicSummaries by {
      assert a.publicSummaries[0] == pf.summary && a.publicSummaries[1] == ps.summary;
    }
    assert of.summary in a.ownerSummaries && os.summary in a.ownerSummaries by {
      assert a.ownerSummaries[0] == of.summary && a.ownerSummaries[1] == os.summary;
    }
  }

  // ----- Nothing weaker would do: each accepted summary has a server behind it -----

  function Min(a: int, b: int): int { if a < b then a else b }

  /** Attempts of the t-th GET when the first ones retry as often as needed to spend the extra attempts. */
  function TriesAt(extra: int, t: int): (n: int)
    ensures 1 <= n <= MAX_GET_ATTEMPTS
  {
    if extra >= 2 * t + 2 then 3 else if extra == 2 * t + 1 then 2 else 1
  }

  /** The numbers a server has to reproduce: the first `heads` repositories have a branch, the first `commits` a commit. */
  datatype Plan = Plan(rows: nat, commits: nat, heads: nat, extra: nat, least: int, ample: int) {
    predicate Valid() {
      commits <= heads <= rows <= MAX_REPOSITORIES && 0 <= least <= MAX_REMAINING && ample <= MAX_REMAINING
    }

    function Pages(): nat { rows / MAX_PAGE_NODES + 1 }

    /** One GET per page and per head before page k. */
    function GetsBefore(k: nat): nat { k + if heads < MAX_PAGE_NODES * k then heads else MAX_PAGE_NODES * k }

    function Size(k: nat): nat {
      if k == rows / MAX_PAGE_NODES then rows % MAX_PAGE_NODES else MAX_PAGE_NODES
    }

    function NodeAt(k: nat, j: nat): Node {
      var g := MAX_PAGE_NODES * k + j;
      Node(Metadata(g, Str(g), Public, 0), g < heads, Rate(TriesAt(extra, GetsBefore(k) + 1 + j), least), g < commits)
    }

    /** A page with room for everything, except that a run without heads must show the least rate somewhere. */
    function PageRate(k: nat): Rate {
      Rate(TriesAt(extra, GetsBefore(k)), if (heads == 0 && k + 1 == Pages()) || least > ample then least else ample)
    }

    function PageAt(k: nat): Page {
      Page(PageRate(k), seq(Size(k), j requires 0 <= j < Size(k) => NodeAt(k, j)))
    }

    function Server(): nat -> Page { (k: nat) => PageAt(k) }
  }

  /** When the first m listed repositories have a branch, exactly their heads are asked, in order. */
  lemma {:induction false} HeadRatesOfPrefix(nodes: seq<Node>, m: nat)
    requires m <= |nodes|
    requires forall j :: 0 <= j < |nodes| ==> (nodes[j].hasBranch <==> j < m)
    ensures |HeadRates(nodes)| == m
    ensures forall j :: 0 <= j < m ==> HeadRates(nodes)[j] == nodes[j].head
  {
    if nodes != [] {
      var n := |nodes| - 1;
      HeadRatesOfPrefix(nodes[..n], if m <= n then m else n);
    }
  }

  lemma {:induction false} AttemptsOfTries(rates: seq<Rate>, extra: int)
    requires extra >= 0
    requires forall t :: 0 <= t < |rates| ==> rates[t].attempts == TriesAt(extra, t)
    ensures Attempts(rates) == |rates| + Min(extra, 2 * |rates|)
  {
    if rates != [] {
      AttemptsOfTries(rates[..|rates| - 1], extra);
    }
  }

  lemma PlanSizes(p: Plan, k: nat)
    requires p.Valid() && k < p.Pages()
    ensures MAX_PAGE_NODES * k + p.Size(k) == Min(p.rows, MAX_PAGE_NODES * (k + 1))
    ensures p.Size(k) <= MAX_PAGE_NODES && (p.Size(k) == MAX_PAGE_NODES <==> k + 1 < p.Pages())
    ensures 0 <= p.GetsBefore(k + 1) - p.GetsBefore(k) - 1 <= p.Size(k)
    ensures p.GetsBefore(p.Pages()) == p.Pages() + p.heads
  {
  }

  lemma HeadsHere(p: Plan, k: nat, j: nat)
    requires p.Valid() && k < p.Pages() && j < p.Size(k)
    ensures p.NodeAt(k, j).hasBranch <==> j < p.GetsBefore(k + 1) - p.GetsBefore(k) - 1
  {
  }

  lemma PlanStart(p: Plan)
    ensures p.GetsBefore(0) == 0
    ensures p.heads > 0 ==> p.GetsBefore(1) > 1
    ensures forall k: nat :: k <= p.GetsBefore(k) <= k + p.heads
    ensures p.PageRate(p.Pages() - 1).remaining == p.least || p.heads > 0
  {
  }

  /** The GETs of a planned page: the page itself and its heads, numbered on from the pages before. */
  lemma PlanRates(p: Plan, k: nat)
    requires p.Valid() && k < p.Pages()
    ensures |PageRates(p.PageAt(k))| == p.GetsBefore(k + 1) - p.GetsBefore(k)
    ensures PageRates(p.PageAt(k))[0] == p.PageRate(k)
    ensures forall t :: 0 < t < |PageRates(p.PageAt(k))| ==> PageRates(p.PageAt(k))[t] == Rate(TriesAt(p.extra, p.GetsBefore(k) + t), p.least)
  {
    hide TriesAt, Str, Plan.GetsBefore, Plan.Size, Plan.PageRate, Plan.Pages;
    PlanSizes(p, k);
    var nodes := p.PageAt(k).nodes;
    var m: nat := p.GetsBefore(k + 1) - p.GetsBefore(k) - 1;
    forall j: nat | j < |nodes|
      ensures nodes[j].hasBranch <==> j < m
    {
      assert nodes[j] == p.NodeAt(k, j);
      HeadsHere(p, k, j);
    }
    HeadRatesOfPrefix(nodes, m);
    forall t | 0 < t < |PageRates(p.PageAt(k))|
      ensures PageRates(p.PageAt(k))[t] == Rate(TriesAt(p.extra, p.GetsBefore(k) + t), p.least)
    {
      assert PageRates(p.PageAt(k))[t] == HeadRates(nodes)[t - 1] == p.NodeAt(k, t - 1).head;
    }
  }

  lemma PlannedPageOk(p: Plan, k: nat, minimum: int)
    requires p.Valid() && k < p.Pages()
    requires 0 <= minimum <= p.least && minimum + MAX_GET_ATTEMPTS * (MAX_PAGE_NODES + 1) == p.ample
    ensures PageOk(p.PageAt(k), minimum)
    ensures |p.PageAt(k).nodes| == MAX_PAGE_NODES <==> k < p.Pages() - 1
    ensures forall r <- PageRates(p.PageAt(k)) :: p.least <= r.remaining
  {
    hide TriesAt;
    PlanSizes(p, k);
    PlanRates(p, k);
    var page := p.PageAt(k);
    assert FollowUps(page) <= MAX_PAGE_NODES + 1 && (p.heads == 0 && k + 1 == p.Pages() ==> FollowUps(page) == 0);
    forall r | r in PageRates(page)
      ensures RateOk(r, minimum) && p.least <= r.remaining
    {
      var t :| 0 <= t < |PageRates(page)| && PageRates(page)[t] == r;
    }
  }

  /** All GETs of the first k planned pages. */
  lemma {:induction false} PlannedRates(p: Plan, k: nat)
    requires p.Valid() && k <= p.Pages()
    ensures |AllRates(p.Server(), k)| == p.GetsBefore(k)
    ensures forall t :: 0 <= t < p.GetsBefore(k) ==> AllRates(p.Server(), k)[t].attempts == TriesAt(p.extra, t)
    ensures forall t :: 0 <= t < p.GetsBefore(k) ==> p.least <= AllRates(p.Server(), k)[t].remaining
    ensures k > 0 && p.heads > 0 ==> AllRates(p.Server(), k)[1].remaining == p.least
    ensures k == p.Pages() && p.heads == 0 ==> AllRates(p.Server(), k)[k - 1].remaining == p.least
  {
    hide TriesAt, PageRates, Plan.PageAt, Plan.GetsBefore;
    PlanStart(p);
    if k > 0 {
      PlannedRates(p, k - 1);
      PlanSizes(p, k - 1);
      PlanRates(p, k - 1);
      assert AllRates(p.Server(), k) == AllRates(p.Server(), k - 1) + PageRates(p.PageAt(k - 1));
    }
  }

  function RowAt(p: Plan, g: nat): Row { Row(Metadata(g, Str(g), Public, 0), g < p.commits) }

  lemma PlannedPageRows(p: Plan, k: nat)
    requires p.Valid()
    ensures |PageRows(p.PageAt(k).nodes)| == p.Size(k)
    ensures forall j :: 0 <= j < p.Size(k) ==> PageRows(p.PageAt(k).nodes)[j] == RowAt(p, MAX_PAGE_NODES * k + j)
  {
    hide TriesAt, Str, Plan.GetsBefore, Plan.PageRate, Plan.Size;
    var nodes := p.PageAt(k).nodes;
    forall j: nat | j < p.Size(k)
      ensures PageRows(nodes)[j] == RowAt(p, MAX_PAGE_NODES * k + j)
    {
      assert nodes[j] == p.NodeAt(k, j);
    }
  }

  lemma {:induction false} PlannedRows(p: Plan, k: nat)
    requires p.Valid() && k <= p.Pages()
    ensures |AllRows(p.Server(), k)| == Min(p.rows, MAX_PAGE_NODES * k)
    ensures forall g :: 0 <= g < |AllRows(p.Server(), k)| ==> AllRows(p.Server(), k)[g] == RowAt(p, g)
  {
    hide RowAt, PageRows, Plan.PageAt, Plan.Size, Plan.GetsBefore, RowOf;
    if k > 0 {
      PlannedRows(p, k - 1);
      PlanSizes(p, k - 1);
      PlannedPageRows(p, k - 1);
      var before, here := AllRows(p.Server(), k - 1), PageRows(p.PageAt(k - 1).nodes);
      assert AllRows(p.Server(), k) == before + here;
      assert |before| == MAX_PAGE_NODES * (k - 1);
      forall g | |before| <= g < |before + here|
        ensures (before + here)[g] == RowAt(p, g)
      {
        assert here[g - |before|] == RowAt(p, MAX_PAGE_NODES * (k - 1) + (g - |before|));
      }
    }
  }

  lemma {:induction false} CommitsOfPrefix(rows: seq<Row>, commits: nat)
    requires forall g :: 0 <= g < |rows| ==> (rows[g].commit <==> g < commits)
    ensures Commits(rows) == Min(commits, |rows|)
  {
    if rows != [] {
      CommitsOfPrefix(rows[..|rows| - 1], commits);
    }
  }

  /** The number of head requests that lets pages and heads add up to the requests. */
  function Heads(s: Summary, commits: int): int {
    if s.requests <= MAX_GET_ATTEMPTS * (s.pages + commits) then commits
    else (s.requests + 2) / MAX_GET_ATTEMPTS - s.pages
  }

  /** The plan's whole run adds up to the planned numbers. */
  lemma PlanRun(p: Plan, minimum: int, maximumPages: int)
    requires p.Valid() && p.Pages() <= maximumPages <= 100
    requires 0 <= minimum <= p.least && minimum + MAX_GET_ATTEMPTS * (MAX_PAGE_NODES + 1) == p.ample
    requires p.extra <= 2 * (p.Pages() + p.heads)
    ensures Collects(p.Server(), p.Pages(), minimum, maximumPages)
    ensures SnapshotOf(p.Server(), p.Pages()).summary == Summary(p.Pages(), p.Pages() + p.heads + p.extra, p.rows, p.least)
    ensures Commits(AllRows(p.Server(), p.Pages())) == p.commits
  {
    hide TriesAt, PageOk, PageRates, AllRates, AllRows, Attempts, Commits, Str;
    var n := p.Pages();
    var rates, rows := AllRates(p.Server(), n), AllRows(p.Server(), n);
    PlannedRates(p, n);
    PlannedRows(p, n);
    PlanSizes(p, n - 1);
    AttemptsOfTries(rates, p.extra);
    CommitsOfPrefix(rows, p.commits);
    assert rates[if p.heads > 0 then 1 else n - 1] in rates;
    forall i, j | 0 <= i < j < p.rows
      ensures Str(i) != Str(j)
    {
      if Str(i) == Str(j) {
        StrInjective(i, j);
      }
    }
    forall i: nat | i < n
      ensures PageOk(p.PageAt(i), minimum) && (|p.PageAt(i).nodes| == MAX_PAGE_NODES <==> i < n - 1)
    {
      PlannedPageOk(p, i, minimum);
    }
  }

  /** Some snapshot of some server has this summary and this many commit rows. */
  ghost predicate Producible(s: Summary, commits: int, minimum: int, maximumPages: int) {
    exists serve, t :: Produces(serve, t, minimum, maximumPages) && t.summary == s && Commits(t.rows) == commits
  }

  /** The checker's arithmetic is exact: it accepts just the summaries `collect_snapshot` can report. */
  lemma AcceptedIffProducible(s: Summary, commits: int, reserve: int, maximumPages: int)
    requires 0 <= reserve <= 5000 && maximumPages <= 100
    ensures (0 <= commits <= s.rows && SummaryAccepted(s, s.rows, commits, reserve, maximumPages)) <==>
            Producible(s, commits, reserve + 2 * MAX_GET_ATTEMPTS, maximumPages)
  {
    hide Collects, SnapshotOf, Commits, AllRows;
    var minimum := reserve + 2 * MAX_GET_ATTEMPTS;
    if 0 <= commits <= s.rows && SummaryAccepted(s, s.rows, commits, reserve, maximumPages) {
      var heads := Heads(s, commits);
      assert commits <= heads <= s.rows && s.pages + heads <= s.requests <= MAX_GET_ATTEMPTS * (s.pages + heads);
      var p := Plan(s.rows, commits, heads, s.requests - (s.pages + heads), s.least,
                    minimum + MAX_GET_ATTEMPTS * (MAX_PAGE_NODES + 1));
      PlanRun(p, minimum, maximumPages);
      PlanProduces(p.Server(), p.Pages(), minimum, maximumPages);
    }
    if Producible(s, commits, minimum, maximumPages) {
      var serve, t :| Produces(serve, t, minimum, maximumPages) && t.summary == s && Commits(t.rows) == commits;
      SnapshotAccepted(serve, t, reserve, maximumPages);
      CommitsAtMostRows(t.rows);
      assert s.rows == |t.rows|;
    }
  }

  lemma PlanProduces(serve: nat -> Page, k: nat, minimum: int, maximumPages: int)
    requires k > 0 && Collects(serve, k, minimum, maximumPages)
    ensures Produces(serve, SnapshotOf(serve, k), minimum, maximumPages)
    ensures SnapshotOf(serve, k).rows == AllRows(serve, k)
  {
  }

  lemma {:induction false} CommitsAtMostRows(rows: seq<Row>)
    ensures Commits(rows) <= |rows|
  {
    if rows != [] {
      CommitsAtMostRows(rows[..|rows| - 1]);
    }
  }

  // ----- Rate budgeting is sufficient -----

  /** GETs in the order the server served them, each lowering what remains by at most three. */
  predicate DropsSlowly(remaining: seq<int>) {
    forall i :: 0 <= i < |remaining| - 1 ==> remaining[i] - MAX_GET_ATTEMPTS <= remaining[i + 1]
  }

  lemma {:induction false} DropBound(remaining: seq<int>, n: nat)
    requires DropsSlowly(remaining) && n < |remaining|
    ensures remaining[0] - MAX_GET_ATTEMPTS * n <= remaining[n]
  {
    if n > 0 {
      DropBound(remaining, n - 1);
    }
  }

  function Remaining(rates: seq<Rate>): (rs: seq<int>)
    ensures |rs| == |rates|
  {
    seq(|rates|, i requires 0 <= i < |rates| => rates[i].remaining)
  }

  /** Some order of the page's head requests, however many workers ran them, followed by the next GET. */
  ghost predicate ServedSlowly(p: Page, next: int) {
    exists order: seq<int> :: multiset(order) == multiset(Remaining(HeadRates(p.nodes)))
                              && DropsSlowly([p.rate.remaining] + order + [next])
  }

  /** After a page within its budget, no head request and no next-page request can fall below the reserve. */
  lemma BudgetSuffices(p: Page, next: int, minimum: int)
    requires BudgetOk(p, minimum) && ServedSlowly(p, next)
    ensures forall h <- HeadRates(p.nodes) :: minimum <= h.remaining
    ensures |p.nodes| == MAX_PAGE_NODES ==> minimum <= next
  {
    var heads := HeadRates(p.nodes);
    var order: seq<int> :| multiset(order) == multiset(Remaining(heads)) && DropsSlowly([p.rate.remaining] + order + [next]);
    var trace := [p.rate.remaining] + order + [next];
    assert |order| == |multiset(order)| == |multiset(Remaining(heads))| == |heads|;
    forall h | h in heads
      ensures minimum <= h.remaining
    {
      var i :| 0 <= i < |heads| && heads[i] == h;
      assert Remaining(heads)[i] in multiset(order);
      var n :| 0 <= n < |order| && order[n] == h.remaining;
      DropBound(trace, n + 1);
      assert trace[n + 1] == order[n];
    }
    DropBound(trace, |order| + 1);
  }

  /** Every check of a page except that its heads keep the reserve. */
  predicate PageOkButReserve(p: Page, minimum: int) {
    BudgetOk(p, minimum) && forall r <- PageRates(p) :: RateOk(r, 0)
  }

  /**
   * On a server that lowers its quota by at most three a GET, once the first page has kept the reserve no
   * later rate check of the snapshot can fail it: only the page budgets decide.
   */
  lemma {:induction false} ReserveNeverFailsLater(serve: nat -> Page, k: nat, minimum: int)
    requires minimum >= 0 && k > 0
    requires forall i: nat :: i < k ==> PageOkButReserve(serve(i), minimum)
    requires forall i: nat :: i + 1 < k ==> |serve(i).nodes| == MAX_PAGE_NODES
    requires forall i: nat :: i < k ==> ServedSlowly(serve(i), serve(i + 1).rate.remaining)
    requires minimum <= serve(0).rate.remaining
    ensures forall i: nat :: i < k ==> PageOk(serve(i), minimum)
    ensures |serve(k - 1).nodes| == MAX_PAGE_NODES ==> minimum <= serve(k).rate.remaining
  {
    hide ServedSlowly, BudgetOk;
    if k > 1 {
      ReserveNeverFailsLater(serve, k - 1, minimum);
    }
    var p := serve(k - 1);
    assert PageOkButReserve(p, minimum);
    BudgetSuffices(p, serve(k).rate.remaining, minimum);
  }

  /**
   * After the last snapshot the closing identity check cannot fail its reserve: every rate of the snapshot
   * kept the operational reserve, and the two closing GETs lower it by at most three each.
   */
  lemma ClosingCannotFail(serve: nat -> Page, k: nat, last: Rate, closing: Identity, reserve: int, maximumPages: int)
    requires Collects(serve, k, reserve + 2 * MAX_GET_ATTEMPTS, maximumPages)
    requires last in AllRates(serve, k)
    requires DropsSlowly([last.remaining, closing.owner.remaining, closing.viewer.remaining])
    requires 0 <= reserve && closing.agrees && RateOk(closing.owner, 0) && RateOk(closing.viewer, 0)
    ensures IdentityOk(closing, reserve)
  {
    hide PageOk, Distinct;
    Counts(serve, k, reserve + 2 * MAX_GET_ATTEMPTS);
    var trace := [last.remaining, closing.owner.remaining, closing.viewer.remaining];
    assert trace[0] - MAX_GET_ATTEMPTS <= trace[1] && trace[1] - MAX_GET_ATTEMPTS <= trace[2];
  }

  /** A successful snapshot lists fewer than a hundred repositories per allowed page: full pages need one more. */
  lemma PageLimitBoundsRows(serve: nat -> Page, minimum: int, maximumPages: int)
    requires Succeeds(serve, minimum, maximumPages)
    ensures exists k: nat :: Collects(serve, k, minimum, maximumPages) && |AllRows(serve, k)| < MAX_PAGE_NODES * maximumPages
  {
    hide PageOk, Distinct;
    var k: nat :| Collects(serve, k, minimum, maximumPages);
    Counts(serve, k, minimum);
    var last: nat := k - 1;
    LastPageIsShort(serve(last), minimum);
    assert PageOk(serve(last), minimum) && |serve(last).nodes| != MAX_PAGE_NODES;
  }

  /** Some server with this many repositories is captured within the limit. */
  ghost predicate Capturable(rows: int, minimum: int, maximumPages: int) {
    exists serve, t :: Produces(serve, t, minimum, maximumPages) && |t.rows| == rows
  }

  /** The page limit decides how many repositories can be captured: fewer than a hundred a page, and a thousand at most. */
  lemma CapturableIff(rows: nat, reserve: int, maximumPages: int)
    requires 0 <= reserve <= 5000 && 1 <= maximumPages <= 100
    ensures Capturable(rows, reserve + 6, maximumPages) <==> rows < 100 * maximumPages && rows <= 1000
  {
    hide Produces, Commits;
    var minimum := reserve + 2 * MAX_GET_ATTEMPTS;
    if rows < MAX_PAGE_NODES * maximumPages && rows <= MAX_REPOSITORIES {
      var pages := rows / MAX_PAGE_NODES + 1;
      var s := Summary(pages, pages, rows, minimum);
      AcceptedIffProducible(s, 0, reserve, maximumPages);
      var serve, t :| Produces(serve, t, minimum, maximumPages) && t.summary == s && Commits(t.rows) == 0;
      SnapshotAccepted(serve, t, reserve, maximumPages);
      assert |t.rows| == rows;
    }
    if Capturable(rows, minimum, maximumPages) {
      var serve, t :| Produces(serve, t, minimum, maximumPages) && |t.rows| == rows;
      SnapshotAccepted(serve, t, reserve, maximumPages);
    }
  }
}
