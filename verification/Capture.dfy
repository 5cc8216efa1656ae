/**
 * The paged, rate-budgeted capture of an account and the telemetry checker that re-derives its numbers
 * (tools/ecosystem_source_inventory.py). The server is an oracle: any answers, any rates.
 */
module Capture {
  import opened Bytes

  const MAX_GET_ATTEMPTS := 3
  const MAX_PAGE_NODES := 100
  const MAX_REPOSITORIES := 1000
  const MAX_REMAINING := 100_000

  datatype Rate = Rate(attempts: int, remaining: int)

  datatype Visibility = Public | Private | Other

  /** What one page lists about a repository; name is the case-folded one, as bytes. */
  datatype Metadata = Metadata(id: int, name: seq<Byte>, visibility: Visibility, detail: int)

  /** A listed repository with the answer its head request would get; a 409 answer is not a commit. */
  datatype Node = Node(meta: Metadata, hasBranch: bool, head: Rate, commit: bool)

  datatype Page = Page(rate: Rate, nodes: seq<Node>)

  datatype Row = Row(meta: Metadata, commit: bool)

  datatype Error =
    | PAGE_LIMIT | RATE | PAGE_NODES | RATE_PAGE_BUDGET | REPOSITORY_BOUND | DUPLICATE_REPOSITORY
    | SNAPSHOT_DRIFT | PUBLIC_SUBSET_MISMATCH | VISIBILITY_PARTITION

  datatype Summary = Summary(pages: int, requests: int, rows: int, least: int)

  datatype Snapshot = Snapshot(rows: seq<Row>, summary: Summary)

  /** `_rate`: attempts and remaining are in range and the reserve is kept. */
  predicate RateOk(r: Rate, minimum: int) {
    1 <= r.attempts <= MAX_GET_ATTEMPTS && 0 <= r.remaining <= MAX_REMAINING && minimum <= r.remaining
  }

  function RowOf(n: Node): Row { Row(n.meta, n.hasBranch && n.commit) }

  function PageRows(nodes: seq<Node>): (rows: seq<Row>)
    ensures |rows| == |nodes|
  {
    seq(|nodes|, i requires 0 <= i < |nodes| => RowOf(nodes[i]))
  }

  /** The rates of the head requests a page causes, in listing order. */
  function HeadRates(nodes: seq<Node>): (rates: seq<Rate>)
    ensures |rates| <= |nodes|
  {
    if nodes == [] then [] else
      var last := nodes[|nodes| - 1];
      HeadRates(nodes[..|nodes| - 1]) + if last.hasBranch then [last.head] else []
  }

  function PageRates(p: Page): (rates: seq<Rate>)
    ensures rates != []
  {
    [p.rate] + HeadRates(p.nodes)
  }

  /** Everything observed on the first k pages. */
  function AllRates(serve: nat -> Page, k: nat): seq<Rate> {
    if k == 0 then [] else AllRates(serve, k - 1) + PageRates(serve(k - 1))
  }

  function AllRows(serve: nat -> Page, k: nat): seq<Row> {
    if k == 0 then [] else AllRows(serve, k - 1) + PageRows(serve(k - 1).nodes)
  }

  function Attempts(rates: seq<Rate>): int {
    if rates == [] then 0 else Attempts(rates[..|rates| - 1]) + rates[|rates| - 1].attempts
  }

  function Least(rates: seq<Rate>): (m: int)
    requires rates != []
    ensures forall r <- rates :: m <= r.remaining
    ensures exists r <- rates :: m == r.remaining
  {
    var last := rates[|rates| - 1];
    if |rates| == 1 then last.remaining else
      assert rates == rates[..|rates| - 1] + [last];
      var before := Least(rates[..|rates| - 1]);
      if last.remaining < before then last.remaining else before
  }

  function Commits(rows: seq<Row>): nat {
    if rows == [] then 0 else Commits(rows[..|rows| - 1]) + if rows[|rows| - 1].commit then 1 else 0
  }

  predicate Distinct(rows: seq<Row>) {
    forall i, j :: 0 <= i < j < |rows| ==> rows[i].meta.id != rows[j].meta.id && rows[i].meta.name != rows[j].meta.name
  }

  /** What the page's quota must still allow: its head requests and, when it is full, the next page. */
  function FollowUps(p: Page): nat {
    |HeadRates(p.nodes)| + if |p.nodes| == MAX_PAGE_NODES then 1 else 0
  }

  predicate BudgetOk(p: Page, minimum: int) {
    |p.nodes| <= MAX_PAGE_NODES && minimum + MAX_GET_ATTEMPTS * FollowUps(p) <= p.rate.remaining
  }

  predicate PageOk(p: Page, minimum: int) {
    BudgetOk(p, minimum) && forall r <- PageRates(p) :: RateOk(r, minimum)
  }

  /** k pages make a snapshot: all but the last are full, every check holds on each. */
  predicate Collects(serve: nat -> Page, k: nat, minimum: int, maximumPages: int) {
    && 1 <= k <= maximumPages <= 100
    && (forall i: nat :: i < k ==> PageOk(serve(i), minimum) && (|serve(i).nodes| == MAX_PAGE_NODES <==> i < k - 1))
    && |AllRows(serve, k)| <= MAX_REPOSITORIES
    && Distinct(AllRows(serve, k))
  }

  function SnapshotOf(serve: nat -> Page, k: nat): Snapshot
    requires k > 0
  {
    Snapshot(AllRows(serve, k),
             Summary(k, Attempts(AllRates(serve, k)), |AllRows(serve, k)|, Least(AllRates(serve, k))))
  }

  // ----- Counting lemmas -----

  lemma {:induction false} AttemptsAppend(a: seq<Rate>, b: seq<Rate>)
    ensures Attempts(a + b) == Attempts(a) + Attempts(b)
  {
    if b == [] {
      assert a + b == a;
    } else {
      assert (a + b)[..|a + b| - 1] == a + b[..|b| - 1];
      AttemptsAppend(a, b[..|b| - 1]);
    }
  }

  lemma {:induction false} CommitsAppend(a: seq<Row>, b: seq<Row>)
    ensures Commits(a + b) == Commits(a) + Commits(b)
  {
    if b == [] {
      assert a + b == a;
    } else {
      assert (a + b)[..|a + b| - 1] == a + b[..|b| - 1];
      CommitsAppend(a, b[..|b| - 1]);
    }
  }

  lemma {:induction false} AttemptsBounded(rates: seq<Rate>, minimum: int)
    requires forall r <- rates :: RateOk(r, minimum)
    ensures |rates| <= Attempts(rates) <= MAX_GET_ATTEMPTS * |rates|
  {
    if rates != [] {
      AttemptsBounded(rates[..|rates| - 1], minimum);
      assert rates[|rates| - 1] in rates;
    }
  }

  /** Every commit row cost a head request. */
  lemma {:induction false} CommitsAreAsked(nodes: seq<Node>)
    ensures Commits(PageRows(nodes)) <= |HeadRates(nodes)|
  {
    if nodes != [] {
      assert PageRows(nodes)[..|nodes| - 1] == PageRows(nodes[..|nodes| - 1]);
      CommitsAreAsked(nodes[..|nodes| - 1]);
    }
  }

  /** After k pages, all full but perhaps the last: row, rate and commit counts. */
  lemma {:induction false} Counts(serve: nat -> Page, k: nat, minimum: int)
    requires forall i: nat :: i < k ==> PageOk(serve(i), minimum)
    requires forall i: nat :: i + 1 < k ==> |serve(i).nodes| == MAX_PAGE_NODES
    ensures k > 0 ==> |AllRows(serve, k)| == MAX_PAGE_NODES * (k - 1) + |serve(k - 1).nodes|
    ensures k + Commits(AllRows(serve, k)) <= |AllRates(serve, k)| <= k + |AllRows(serve, k)|
    ensures forall r <- AllRates(serve, k) :: RateOk(r, minimum)
  {
    if k > 0 {
      Counts(serve, k - 1, minimum);
      var p := serve(k - 1);
      CommitsAppend(AllRows(serve, k - 1), PageRows(p.nodes));
      CommitsAreAsked(p.nodes);
      assert PageOk(p, minimum);
    }
  }

  // ----- The capture loop -----

  /** `resolve_exact_head` for every pending record of a page. */
  method ResolvePage(nodes: seq<Node>, minimum: int) returns (ok: bool, rows: seq<Row>, rates: seq<Rate>)
    ensures ok <==> forall r <- HeadRates(nodes) :: RateOk(r, minimum)
    ensures ok ==> rows == PageRows(nodes) && rates == HeadRates(nodes)
  {
    ok, rows, rates := true, [], [];
    for n := 0 to |nodes|
      invariant ok && rows == PageRows(nodes[..n]) && rates == HeadRates(nodes[..n])
      invariant forall r <- rates :: RateOk(r, minimum)
    {
      var node := nodes[n];
      assert nodes[..n + 1][..n] == nodes[..n];
      if node.hasBranch {
        if !RateOk(node.head, minimum) {
          ok := false;
          assert node.head in HeadRates(nodes[..n + 1]);
          HeadRatesPrefix(nodes, n + 1);
          return;
        }
        rows, rates := rows + [Row(node.meta, node.commit)], rates + [node.head];
      } else {
        rows := rows + [Row(node.meta, false)];
      }
    }
    assert nodes[..|nodes|] == nodes;
  }

  lemma {:induction false} HeadRatesPrefix(nodes: seq<Node>, n: nat)
    requires n <= |nodes|
    ensures HeadRates(nodes[..n]) <= HeadRates(nodes)
    decreases |nodes| - n
  {
    if n < |nodes| {
      assert nodes[..n + 1][..n] == nodes[..n];
      HeadRatesPrefix(nodes, n + 1);
    } else {
      assert nodes[..n] == nodes;
    }
  }

  /** Longer runs hold the shorter ones: rows only grow, so a bound or a duplicate seen stays. */
  lemma {:induction false} RowsGrow(serve: nat -> Page, j: nat, k: nat)
    requires j <= k
    ensures AllRows(serve, j) <= AllRows(serve, k)
    decreases k
  {
    if j < k {
      RowsGrow(serve, j, k - 1);
    }
  }

  function PageError(p: Page, minimum: int): Error {
    if RateOk(p.rate, minimum) && |p.nodes| > MAX_PAGE_NODES then PAGE_NODES
    else if RateOk(p.rate, minimum) && !BudgetOk(p, minimum) then RATE_PAGE_BUDGET
    else RATE
  }

  /** One turn of the page loop: the page's own rate, its size, its budget, then its head requests. */
  method TakePage(answer: Page, minimum: int) returns (r: Result<(seq<Row>, seq<Rate>), Error>)
    ensures r.Ok? <==> PageOk(answer, minimum)
    ensures r.Ok? ==> r.value == (PageRows(answer.nodes), PageRates(answer))
    ensures r.Err? ==> r.error == PageError(answer, minimum)
  {
    hide RateOk;
    if !RateOk(answer.rate, minimum) {
      assert answer.rate in PageRates(answer);
      return Err(RATE);
    }
    if |answer.nodes| > MAX_PAGE_NODES {
      return Err(PAGE_NODES);
    }
    if answer.rate.remaining < minimum + MAX_GET_ATTEMPTS * FollowUps(answer) {
      return Err(RATE_PAGE_BUDGET);
    }
    assert forall h <- HeadRates(answer.nodes) :: h in PageRates(answer);
    var ok, rows, headRates := ResolvePage(answer.nodes, minimum);
    if !ok {
      return Err(RATE);
    }
    r := Ok((rows, [answer.rate] + headRates));
  }

  /** `collect_snapshot`: succeeds exactly when some number of pages makes a snapshot, and reports it. */
  method CollectSnapshot(serve: nat -> Page, minimum: int, maximumPages: int) returns (r: Result<Snapshot, Error>)
    ensures r.Ok? <==> Succeeds(serve, minimum, maximumPages)
    ensures r.Ok? ==> exists k: nat :: Collects(serve, k, minimum, maximumPages) && r.value == SnapshotOf(serve, k)
  {
    hide PageOk, PageRows, PageRates, Distinct, Collects, FullPages;
    BadLimit(serve, minimum, maximumPages);
    if !(1 <= maximumPages <= 100) {
      return Err(PAGE_LIMIT);
    }
    StillFull(serve, 0, minimum);
    var rows: seq<Row>, rates: seq<Rate>, requests, page := [], [], 0, 0;
    while true
      invariant 0 <= page <= maximumPages
      invariant rows == AllRows(serve, page) && rates == AllRates(serve, page) && requests == Attempts(rates)
      invariant |rows| <= MAX_REPOSITORIES
      invariant page > 0 ==> rates != []
      invariant FullPages(serve, page, minimum)
      decreases maximumPages - page
    {
      page := page + 1;
      FullSoFar(serve, page, minimum, maximumPages);
      if page > maximumPages {
        return Err(PAGE_LIMIT);
      }
      var answer := serve(page - 1);
      StillFull(serve, page, minimum);
      var taken := TakePage(answer, minimum);
      if taken.Err? {
        return Err(taken.error);
      }
      AttemptsAppend(rates, taken.value.1);
      rows, rates, requests := rows + taken.value.0, rates + taken.value.1, requests + Attempts(taken.value.1);
      if |rows| > MAX_REPOSITORIES {
        TooManyRows(serve, page, minimum, maximumPages);
        return Err(REPOSITORY_BOUND);
      }
      if |answer.nodes| < MAX_PAGE_NODES {
        break;
      }
    }
    OnlyHere(serve, page, minimum, maximumPages);
    if !Distinct(rows) {
      return Err(DUPLICATE_REPOSITORY);
    }
    r := Ok(Snapshot(rows, Summary(page, requests, |rows|, Least(rates))));
  }

  /** Some number of pages makes a snapshot. */
  ghost predicate Succeeds(serve: nat -> Page, minimum: int, maximumPages: int) {
    exists k: nat :: Collects(serve, k, minimum, maximumPages)
  }

  predicate FullPages(serve: nat -> Page, n: nat, minimum: int) {
    forall i: nat :: i < n ==> PageOk(serve(i), minimum) && |serve(i).nodes| == MAX_PAGE_NODES
  }

  lemma BadLimit(serve: nat -> Page, minimum: int, maximumPages: int)
    ensures Succeeds(serve, minimum, maximumPages) ==> 1 <= maximumPages <= 100
  {
  }

  lemma StillFull(serve: nat -> Page, page: nat, minimum: int)
    ensures FullPages(serve, 0, minimum)
    ensures page > 0 && FullPages(serve, page - 1, minimum) && PageOk(serve(page - 1), minimum) ==>
              |serve(page - 1).nodes| >= MAX_PAGE_NODES ==> FullPages(serve, page, minimum)
  {
  }

  /** While only full pages were seen, a successful run must include the page at hand. */
  lemma FullSoFar(serve: nat -> Page, page: nat, minimum: int, maximumPages: int)
    requires page > 0 && FullPages(serve, page - 1, minimum)
    ensures forall k: nat :: Collects(serve, k, minimum, maximumPages) ==> page <= k && PageOk(serve(page - 1), minimum)
    ensures Succeeds(serve, minimum, maximumPages) ==> page <= maximumPages && PageOk(serve(page - 1), minimum)
  {
    forall k: nat | Collects(serve, k, minimum, maximumPages)
      ensures page <= k && PageOk(serve(page - 1), minimum)
    {
      var last := serve(k - 1);
      assert |last.nodes| != MAX_PAGE_NODES;
    }
  }

  lemma TooManyRows(serve: nat -> Page, page: nat, minimum: int, maximumPages: int)
    requires page > 0 && FullPages(serve, page - 1, minimum)
    requires |AllRows(serve, page)| > MAX_REPOSITORIES
    ensures !Succeeds(serve, minimum, maximumPages)
  {
    FullSoFar(serve, page, minimum, maximumPages);
    if k: nat :| Collects(serve, k, minimum, maximumPages) {
      RowsGrow(serve, page, k);
    }
  }

  /** The first short page is the last one of any snapshot. */
  lemma OnlyHere(serve: nat -> Page, page: nat, minimum: int, maximumPages: int)
    requires 0 < page <= maximumPages <= 100 && FullPages(serve, page - 1, minimum)
    requires PageOk(serve(page - 1), minimum) && |serve(page - 1).nodes| < MAX_PAGE_NODES
    requires |AllRows(serve, page)| <= MAX_REPOSITORIES
    ensures forall k: nat :: Collects(serve, k, minimum, maximumPages) ==> k == page
    ensures Collects(serve, page, minimum, maximumPages) <==> Distinct(AllRows(serve, page))
    ensures Succeeds(serve, minimum, maximumPages) <==> Distinct(AllRows(serve, page))
  {
    hide PageOk, Distinct;
    FullSoFar(serve, page, minimum, maximumPages);
    forall k: nat | Collects(serve, k, minimum, maximumPages)
      ensures k == page
    {
      var here: nat := page - 1;
      assert |serve(here).nodes| == MAX_PAGE_NODES <==> here < k - 1;
    }
  }

  // ----- The whole account -----

  /** The two GETs of `verify_identity` and whether viewer, owner and expected login agree. */
  datatype Identity = Identity(owner: Rate, viewer: Rate, agrees: bool)

  /** `verify_identity` succeeds. */
  predicate IdentityOk(i: Identity, minimum: int) {
    RateOk(i.owner, minimum + MAX_GET_ATTEMPTS) && RateOk(i.viewer, minimum) && i.agrees
  }

  /** What the server answers during one capture: two passes over each scope between two identity checks. */
  datatype Server = Server(
    opening: Identity, publicFirst: nat -> Page, publicSecond: nat -> Page,
    ownerFirst: nat -> Page, ownerSecond: nat -> Page, closing: Identity, ownerUnchanged: bool)

  datatype Account = Account(
    identityRates: seq<Rate>, identityRequests: int, identityLeast: int,
    publicRows: seq<Row>, ownerRows: seq<Row>, publicSummaries: seq<Summary>, ownerSummaries: seq<Summary>)

  ghost predicate Produces(serve: nat -> Page, s: Snapshot, minimum: int, maximumPages: int) {
    exists k: nat :: Collects(serve, k, minimum, maximumPages) && s == SnapshotOf(serve, k)
  }

  lemma ProducesOne(serve: nat -> Page, s: Snapshot, t: Snapshot, minimum: int, maximumPages: int)
    requires Produces(serve, s, minimum, maximumPages) && Produces(serve, t, minimum, maximumPages)
    ensures s == t
  {
    hide PageOk, Distinct, SnapshotOf;
    var j: nat :| Collects(serve, j, minimum, maximumPages) && s == SnapshotOf(serve, j);
    var k: nat :| Collects(serve, k, minimum, maximumPages) && t == SnapshotOf(serve, k);
    var lastJ: nat, lastK: nat := j - 1, k - 1;
    assert |serve(lastJ).nodes| != MAX_PAGE_NODES && |serve(lastK).nodes| != MAX_PAGE_NODES;
  }

  function Visible(rows: seq<Row>, v: Visibility): seq<Row> {
    if rows == [] then [] else
      Visible(rows[..|rows| - 1], v) + if rows[|rows| - 1].meta.visibility == v then [rows[|rows| - 1]] else []
  }

  function Projected(rows: seq<Row>, project: Row -> Row): seq<Row> {
    seq(|rows|, i requires 0 <= i < |rows| => project(rows[i]))
  }

  /** The two passes of each scope agree, and the public scope is the projected public part of the owner's. */
  predicate PassesAgree(pf: Snapshot, ps: Snapshot, of: Snapshot, os: Snapshot, project: Row -> Row) {
    && multiset(pf.rows) == multiset(ps.rows)
    && multiset(of.rows) == multiset(os.rows)
    && multiset(Projected(Visible(of.rows, Public), project)) == multiset(pf.rows)
    && |pf.rows| + |Visible(of.rows, Private)| == |of.rows|
  }

  ghost predicate FourPasses(server: Server, pf: Snapshot, ps: Snapshot, of: Snapshot, os: Snapshot,
                             minimum: int, maximumPages: int)
  {
    && Produces(server.publicFirst, pf, minimum, maximumPages)
    && Produces(server.publicSecond, ps, minimum, maximumPages)
    && Produces(server.ownerFirst, of, minimum, maximumPages)
    && Produces(server.ownerSecond, os, minimum, maximumPages)
  }

  function AccountOf(server: Server, pf: Snapshot, ps: Snapshot, of: Snapshot, os: Snapshot): Account {
    var rates := [server.opening.owner, server.opening.viewer, server.closing.owner, server.closing.viewer];
    Account(rates, Attempts(rates), Least(rates), pf.rows, of.rows,
            [pf.summary, ps.summary], [of.summary, os.summary])
  }

  /** `collect_snapshot` twice over one scope, which must agree. */
  method CollectTwice(first: nat -> Page, second: nat -> Page, minimum: int, maximumPages: int)
    returns (r: Result<(Snapshot, Snapshot), Error>)
    ensures r.Ok? <==> exists s, t :: Produces(first, s, minimum, maximumPages)
                                      && Produces(second, t, minimum, maximumPages) && multiset(s.rows) == multiset(t.rows)
    ensures r.Ok? ==> Produces(first, r.value.0, minimum, maximumPages) && Produces(second, r.value.1, minimum, maximumPages)
                      && multiset(r.value.0.rows) == multiset(r.value.1.rows)
  {
    hide Collects, SnapshotOf;
    var s := CollectSnapshot(first, minimum, maximumPages);
    if s.Err? {
      return Err(s.error);
    }
    var t := CollectSnapshot(second, minimum, maximumPages);
    if t.Err? {
      return Err(t.error);
    }
    assert Produces(first, s.value, minimum, maximumPages) && Produces(second, t.value, minimum, maximumPages);
    forall u, v | Produces(first, u, minimum, maximumPages) && Produces(second, v, minimum, maximumPages)
      ensures u == s.value && v == t.value
    {
      ProducesOne(first, u, s.value, minimum, maximumPages);
      ProducesOne(second, v, t.value, minimum, maximumPages);
    }
    if multiset(s.value.rows) != multiset(t.value.rows) {
      return Err(SNAPSHOT_DRIFT);
    }
    r := Ok((s.value, t.value));
  }

  /**
   * `capture_account`: it succeeds exactly when both identity checks hold at their reserves, each of the
   * four passes is a snapshot at the operational reserve, and the passes agree.
   */
  method CaptureAccount(server: Server, reserve: int, maximumPages: int, project: Row -> Row)
    returns (r: Result<Account, Error>)
    ensures r.Ok? <==>
            && IdentityOk(server.opening, reserve + 2 * MAX_GET_ATTEMPTS)
            && IdentityOk(server.closing, reserve) && server.ownerUnchanged
            && exists pf, ps, of, os :: FourPasses(server, pf, ps, of, os, reserve + 2 * MAX_GET_ATTEMPTS, maximumPages)
                                        && PassesAgree(pf, ps, of, os, project)
    ensures r.Ok? ==> exists pf, ps, of, os ::
                FourPasses(server, pf, ps, of, os, reserve + 2 * MAX_GET_ATTEMPTS, maximumPages)
                && PassesAgree(pf, ps, of, os, project) && r.value == AccountOf(server, pf, ps, of, os)
  {
    hide Produces, IdentityOk, Visible, Projected;
    var operational := reserve + 2 * MAX_GET_ATTEMPTS;
    if !IdentityOk(server.opening, operational) {
      return Err(RATE);
    }
    var publicPasses := CollectTwice(server.publicFirst, server.publicSecond, operational, maximumPages);
    if publicPasses.Err? {
      return Err(publicPasses.error);
    }
    var ownerPasses := CollectTwice(server.ownerFirst, server.ownerSecond, operational, maximumPages);
    if ownerPasses.Err? {
      return Err(ownerPasses.error);
    }
    var (pf, ps) := publicPasses.value;
    var (of, os) := ownerPasses.value;
    OnePass(server, pf, ps, of, os, operational, maximumPages);
    if multiset(Projected(Visible(of.rows, Public), project)) != multiset(pf.rows) {
      return Err(PUBLIC_SUBSET_MISMATCH);
    }
    if |pf.rows| + |Visible(of.rows, Private)| != |of.rows| {
      return Err(VISIBILITY_PARTITION);
    }
    if !IdentityOk(server.closing, reserve) || !server.ownerUnchanged {
      return Err(RATE);
    }
    assert FourPasses(server, pf, ps, of, os, operational, maximumPages) && PassesAgree(pf, ps, of, os, project);
    var rates := [server.opening.owner, server.opening.viewer, server.closing.owner, server.closing.viewer];
    r := Ok(Account(rates, Attempts(rates), Least(rates), pf.rows, of.rows,
                    [pf.summary, ps.summary], [of.summary, os.summary]));
  }

  lemma OnePass(server: Server, pf: Snapshot, ps: Snapshot, of: Snapshot, os: Snapshot, minimum: int, maximumPages: int)
    requires FourPasses(server, pf, ps, of, os, minimum, maximumPages)
    ensures forall a, b, c, d :: FourPasses(server, a, b, c, d, minimum, maximumPages) ==> a == pf && b == ps && c == of && d == os
  {
    hide Produces;
    forall a, b, c, d | FourPasses(server, a, b, c, d, minimum, maximumPages)
      ensures a == pf && b == ps && c == of && d == os
    {
      ProducesOne(server.publicFirst, a, pf, minimum, maximumPages);
      ProducesOne(server.publicSecond, b, ps, minimum, maximumPages);
      ProducesOne(server.ownerFirst, c, of, minimum, maximumPages);
      ProducesOne(server.ownerSecond, d, os, minimum, maximumPages);
    }
  }
}
