/** Which dictionary entries identify a private repository, branch or object (tools/ecosystem_source_inventory.py). */
module IdentityMatch {
  import opened Json
  import opened JsonScan

  const BRANCH_KEYS: set<string> :=
    {"baseref", "baserefname", "branch", "branches", "defaultbranch", "defaultbranchref", "headref", "headrefname", "ref",
     "refname", "sha"}
  const REPOSITORY_KEYS: set<string> := {"repo", "reponame", "repos", "repositories", "repository", "repositoryname"}
  const OID_KEYS: set<string> :=
    {"commit", "commitoid", "commitsha", "head", "headoid", "headsha", "objectoid", "objectsha", "oid", "sha"}
  const REPOSITORY_ID_KEYS: set<string> := {"repoid", "repositoryid"}
  const REPOSITORY_ENTITIES: set<string> := {"repo", "repos", "repositories", "repository"}
  const BRANCH_ENTITIES: set<string> := {"baseref", "branch", "branches", "defaultbranchref", "headref", "ref", "refs"}
  const TRANSPARENT: set<string> := {"edge", "edges", "metadata", "node", "nodes", "target"}

  /**
   * What is private, and Python's text functions: key normalisation, `str.isdecimal`, and the casefolded
   * readings of a string with its JSON escapes decoded.
   */
  datatype Context = Context(
    branches: set<string>, repositories: set<string>, oids: set<string>, ids: set<int>,
    normalize: string -> string, isDecimal: string -> bool, readings: string -> set<string>)

  function RulesFor(ctx: Context, anchors: set<string>): ContextRules {
    ContextRules(ctx.normalize, anchors, TRANSPARENT, ctx.isDecimal)
  }

  function Components(path: Path): (cs: seq<Component>)
    ensures |cs| == |path|
  {
    seq(|path|, i requires 0 <= i < |path| => Key(path[i]))
  }

  /** The path ends below an anchor with nothing but transparent components in between. */
  predicate Active(ctx: Context, anchors: set<string>, path: Path) {
    exists i :: 0 <= i < |path| && AnchoredAt(RulesFor(ctx, anchors), Components(path), i)
  }

  predicate AsciiDigits(s: string) {
    s != [] && forall i :: 0 <= i < |s| ==> '0' <= s[i] <= '9'
  }

  function Number(s: string): nat
    requires forall i :: 0 <= i < |s| ==> '0' <= s[i] <= '9'
  {
    if s == [] then 0 else 10 * Number(s[..|s| - 1]) + (s[|s| - 1] as int - '0' as int)
  }

  function Candidates(ctx: Context, item: Json): set<string> {
    if item.Str? then ctx.readings(item.s) else {}
  }

  function Identifiers(ctx: Context, item: Json): set<int> {
    if item.Int? then {item.n}
    else set c | c in Candidates(ctx, item) && AsciiDigits(c) :: Number(c)
  }

  predicate RootSequence(ctx: Context, path: Path) {
    forall i :: 0 <= i < |path| ==> ctx.isDecimal(path[i])
  }

  /** `_structured_private_identifier_match`. */
  predicate Identifies(ctx: Context, key: string, item: Json, path: Path) {
    var k := ctx.normalize(key);
    var repository, branch := Active(ctx, REPOSITORY_ENTITIES, path), Active(ctx, BRANCH_ENTITIES, path);
    || ((k in BRANCH_KEYS || (k == "name" && branch)) && Candidates(ctx, item) * ctx.branches != {})
    || ((k in REPOSITORY_KEYS || (k == "name" && repository)) && Candidates(ctx, item) * ctx.repositories != {})
    || (k in OID_KEYS && Candidates(ctx, item) * ctx.oids != {})
    || ((k in REPOSITORY_ID_KEYS || (k in {"databaseid", "id"} && repository) || (k == "databaseid" && RootSequence(ctx, path)))
        && Identifiers(ctx, item) * ctx.ids != {})
  }

  function Matcher(ctx: Context): Match {
    (key, item, path) => Identifies(ctx, key, item, path)
  }

  /** The function as it is written: the automaton runs twice, then the four kinds of key are tried in turn. */
  method EntryIdentifies(ctx: Context, key: string, item: Json, path: Path) returns (found: bool)
    ensures found == Identifies(ctx, key, item, path)
  {
    hide AnchoredAt, Candidates, Identifiers;
    var normalized := ctx.normalize(key);
    var repository := IdentityContextActive(RulesFor(ctx, REPOSITORY_ENTITIES), Components(path));
    var branch := IdentityContextActive(RulesFor(ctx, BRANCH_ENTITIES), Components(path));
    ActiveIs(ctx, REPOSITORY_ENTITIES, path);
    ActiveIs(ctx, BRANCH_ENTITIES, path);
    var candidates := Candidates(ctx, item);
    if (normalized in BRANCH_KEYS || (normalized == "name" && branch)) && candidates * ctx.branches != {} {
      return true;
    }
    if (normalized in REPOSITORY_KEYS || (normalized == "name" && repository)) && candidates * ctx.repositories != {} {
      return true;
    }
    if normalized in OID_KEYS && candidates * ctx.oids != {} {
      return true;
    }
    var inContext := normalized in REPOSITORY_ID_KEYS || (normalized in {"databaseid", "id"} && repository)
                     || (normalized == "databaseid" && RootSequence(ctx, path));
    found := inContext && Identifiers(ctx, item) * ctx.ids != {};
  }

  lemma ActiveIs(ctx: Context, anchors: set<string>, path: Path)
    ensures Active(ctx, anchors, path) <==> exists i :: AnchoredAt(RulesFor(ctx, anchors), Components(path), i)
  {
    if i: nat :| AnchoredAt(RulesFor(ctx, anchors), Components(path), i) {
      assert i < |path|;
    }
  }

  // ----- Which key is compared with what -----

  /** The path names one of the entities, and after it only edges, nodes and positions. */
  predicate Under(ctx: Context, path: Path, entities: set<string>) {
    exists i :: 0 <= i < |path| && ctx.normalize(path[i]) in entities
                && forall j :: i < j < |path| ==>
                     ctx.normalize(path[j]) in {"edge", "edges", "metadata", "node", "nodes", "target"} || ctx.isDecimal(path[j])
  }

  lemma ActiveIsUnder(ctx: Context, anchors: set<string>, path: Path)
    ensures Active(ctx, anchors, path) <==> Under(ctx, path, anchors)
  {
    var rules, cs := RulesFor(ctx, anchors), Components(path);
    if i :| 0 <= i < |path| && AnchoredAt(rules, cs, i) {
      assert ctx.normalize(path[i]) in anchors;
      forall j | i < j < |path|
        ensures ctx.normalize(path[j]) in {"edge", "edges", "metadata", "node", "nodes", "target"} || ctx.isDecimal(path[j])
      {
        assert IsTransparent(rules, cs[j]);
      }
    }
    if i :| 0 <= i < |path| && ctx.normalize(path[i]) in anchors
            && forall j :: i < j < |path| ==>
                 ctx.normalize(path[j]) in {"edge", "edges", "metadata", "node", "nodes", "target"} || ctx.isDecimal(path[j])
    {
      assert AnchoredAt(rules, cs, i);
    }
  }

  /** Some reading of a string item is one of the words. */
  predicate ReadsAs(ctx: Context, item: Json, words: set<string>) {
    item.Str? && exists w :: w in ctx.readings(item.s) && w in words
  }

  lemma BranchKeyIff(ctx: Context, key: string, item: Json, path: Path)
    requires ctx.repositories == {} && ctx.oids == {} && ctx.ids == {}
    ensures Identifies(ctx, key, item, path) <==>
            && ReadsAs(ctx, item, ctx.branches)
            && (ctx.normalize(key) in {"baseref", "baserefname", "branch", "branches", "defaultbranch", "defaultbranchref",
                                       "headref", "headrefname", "ref", "refname", "sha"}
                || (ctx.normalize(key) == "name"
                    && Under(ctx, path, {"baseref", "branch", "branches", "defaultbranchref", "headref", "ref", "refs"})))
  {
    hide Active, Under;
    ActiveIsUnder(ctx, BRANCH_ENTITIES, path);
    MeetIff(ctx, item, ctx.branches);
  }

  lemma RepositoryKeyIff(ctx: Context, key: string, item: Json, path: Path)
    requires ctx.branches == {} && ctx.oids == {} && ctx.ids == {}
    ensures Identifies(ctx, key, item, path) <==>
            && ReadsAs(ctx, item, ctx.repositories)
            && (ctx.normalize(key) in {"repo", "reponame", "repos", "repositories", "repository", "repositoryname"}
                || (ctx.normalize(key) == "name" && Under(ctx, path, {"repo", "repos", "repositories", "repository"})))
  {
    hide Active, Under;
    ActiveIsUnder(ctx, REPOSITORY_ENTITIES, path);
    MeetIff(ctx, item, ctx.repositories);
  }

  lemma OidKeyIff(ctx: Context, key: string, item: Json, path: Path)
    requires ctx.branches == {} && ctx.repositories == {} && ctx.ids == {}
    ensures Identifies(ctx, key, item, path) <==>
            && ReadsAs(ctx, item, ctx.oids)
            && ctx.normalize(key) in {"commit", "commitoid", "commitsha", "head", "headoid", "headsha", "objectoid",
                                      "objectsha", "oid", "sha"}
  {
    hide Active, Under;
    MeetIff(ctx, item, ctx.oids);
  }

  /** A number stands for itself, and a string for each of its readings that is all digits. */
  predicate NumberedAs(ctx: Context, item: Json, ids: set<int>) {
    || (item.Int? && item.n in ids)
    || (item.Str? && exists w :: w in ctx.readings(item.s) && AsciiDigits(w) && Number(w) in ids)
  }

  lemma IdKeyIff(ctx: Context, key: string, item: Json, path: Path)
    requires ctx.branches == {} && ctx.repositories == {} && ctx.oids == {}
    ensures Identifies(ctx, key, item, path) <==>
            && NumberedAs(ctx, item, ctx.ids)
            && (|| ctx.normalize(key) in {"repoid", "repositoryid"}
                || (ctx.normalize(key) in {"databaseid", "id"} && Under(ctx, path, {"repo", "repos", "repositories", "repository"}))
                || (ctx.normalize(key) == "databaseid" && forall i :: 0 <= i < |path| ==> ctx.isDecimal(path[i])))
  {
    hide Active, Under, Number, AsciiDigits;
    ActiveIsUnder(ctx, REPOSITORY_ENTITIES, path);
    IdMeetIff(ctx, item);
  }

  lemma MeetIff(ctx: Context, item: Json, words: set<string>)
    ensures Candidates(ctx, item) * words != {} <==> ReadsAs(ctx, item, words)
    ensures Candidates(ctx, item) * {} == {}
  {
    if ReadsAs(ctx, item, words) {
      var w :| w in ctx.readings(item.s) && w in words;
      assert w in Candidates(ctx, item) * words;
    }
  }

  lemma IdMeetIff(ctx: Context, item: Json)
    ensures Identifiers(ctx, item) * ctx.ids != {} <==> NumberedAs(ctx, item, ctx.ids)
  {
    hide Number;
    if item.Int? {
      assert item.n in ctx.ids ==> item.n in Identifiers(ctx, item) * ctx.ids;
    } else if NumberedAs(ctx, item, ctx.ids) {
      var w :| w in ctx.readings(item.s) && AsciiDigits(w) && Number(w) in ctx.ids;
      assert Number(w) in Identifiers(ctx, item) * ctx.ids;
    }
  }

  /** The four kinds of key are independent: an entry is reported when it would be for one of them alone. */
  lemma FourKindsOfKey(ctx: Context, key: string, item: Json, path: Path)
    ensures Identifies(ctx, key, item, path) <==>
            || Identifies(ctx.(repositories := {}, oids := {}, ids := {}), key, item, path)
            || Identifies(ctx.(branches := {}, oids := {}, ids := {}), key, item, path)
            || Identifies(ctx.(branches := {}, repositories := {}, ids := {}), key, item, path)
            || Identifies(ctx.(branches := {}, repositories := {}, oids := {}), key, item, path)
  {
    hide Active, RootSequence, Candidates, Identifiers;
    SameReading(ctx, ctx.(repositories := {}, oids := {}, ids := {}), item, path);
    SameReading(ctx, ctx.(branches := {}, oids := {}, ids := {}), item, path);
    SameReading(ctx, ctx.(branches := {}, repositories := {}, ids := {}), item, path);
    SameReading(ctx, ctx.(branches := {}, repositories := {}, oids := {}), item, path);
  }

  lemma SameReading(a: Context, b: Context, item: Json, path: Path)
    requires a.normalize == b.normalize && a.isDecimal == b.isDecimal && a.readings == b.readings
    ensures Candidates(a, item) == Candidates(b, item) && Identifiers(a, item) == Identifiers(b, item)
    ensures Active(a, REPOSITORY_ENTITIES, path) == Active(b, REPOSITORY_ENTITIES, path)
    ensures Active(a, BRANCH_ENTITIES, path) == Active(b, BRANCH_ENTITIES, path)
    ensures RootSequence(a, path) == RootSequence(b, path)
  {
    assert RulesFor(a, REPOSITORY_ENTITIES) == RulesFor(b, REPOSITORY_ENTITIES);
    assert RulesFor(a, BRANCH_ENTITIES) == RulesFor(b, BRANCH_ENTITIES);
  }

  /** Digits are read in base ten: a number's own text gives it back, and leading zeros change nothing. */
  lemma {:induction false} NumberReads(n: nat, zeros: string)
    requires forall i :: 0 <= i < |zeros| ==> zeros[i] == '0'
    ensures AsciiDigits(zeros + IndexText(n)) && Number(zeros + IndexText(n)) == n
  {
    var s := zeros + IndexText(n);
    if n >= 10 {
      NumberReads(n / 10, zeros);
      assert s[..|s| - 1] == zeros + IndexText(n / 10);
    } else {
      assert s[..|s| - 1] == zeros;
      ZerosRead(zeros);
    }
  }

  /** And all digits are read that way: a text is digits exactly when it is a number's own text behind zeros. */
  lemma DigitsIff(s: string)
    ensures AsciiDigits(s) <==> exists zeros: string, n: nat :: AllZeros(zeros) && s == zeros + IndexText(n)
  {
    hide AsciiDigits, IndexText, AllZeros;
    if AsciiDigits(s) {
      var zeros, n := SplitZeros(s);
    }
    forall zeros: string, n: nat | AllZeros(zeros) && s == zeros + IndexText(n) ensures AsciiDigits(s) {
      ZerosAre(zeros);
      NumberReads(n, zeros);
    }
  }

  predicate AllZeros(s: string) {
    forall i :: 0 <= i < |s| ==> s[i] == '0'
  }

  lemma ZerosAre(zeros: string)
    requires AllZeros(zeros)
    ensures forall i :: 0 <= i < |zeros| ==> zeros[i] == '0'
  {
  }

  lemma {:induction false} SplitZeros(s: string) returns (zeros: string, n: nat)
    requires AsciiDigits(s)
    ensures AllZeros(zeros) && s == zeros + IndexText(n)
  {
    var last := s[|s| - 1];
    var d := last as int - '0' as int;
    assert ('0' as int + d) as char == last;
    if |s| == 1 {
      zeros, n := "", d;
      assert s == [last];
    } else {
      var front := s[..|s| - 1];
      assert s == front + [last];
      var before, m := SplitZeros(front);
      if m == 0 {
        zeros, n := before + "0", d;
        assert IndexText(0) == ['0'];
      } else {
        zeros, n := before, 10 * m + d;
        assert IndexText(n) == IndexText(m) + [last];
        assert s == zeros + (IndexText(m) + [last]);
      }
    }
  }

  lemma {:induction false} ZerosRead(zeros: string)
    requires forall i :: 0 <= i < |zeros| ==> zeros[i] == '0'
    ensures Number(zeros) == 0
  {
    if zeros != [] {
      ZerosRead(zeros[..|zeros| - 1]);
    }
  }

  // ----- List positions do not matter -----

  /** Python reads an index as decimal text, and normalising digits changes nothing. */
  ghost predicate ReadsIndices(ctx: Context) {
    forall n: nat :: ctx.isDecimal(IndexText(n)) && ctx.normalize(IndexText(n)) == IndexText(n)
  }

  /** No anchor begins with a digit. */
  lemma IndexIsNoAnchor(n: nat)
    ensures IndexText(n) !in REPOSITORY_ENTITIES && IndexText(n) !in BRANCH_ENTITIES
  {
    IndexStartsWithDigit(n);
    assert "repo"[0] == "repos"[0] == "repositories"[0] == "repository"[0] == "ref"[0] == "refs"[0] == 'r';
    assert "baseref"[0] == "branch"[0] == "branches"[0] == 'b' && "defaultbranchref"[0] == 'd' && "headref"[0] == 'h';
  }

  lemma {:induction false} IndexStartsWithDigit(n: nat)
    ensures IndexText(n) != [] && '0' <= IndexText(n)[0] <= '9'
  {
    if n >= 10 {
      IndexStartsWithDigit(n / 10);
    }
  }

  /** An index anywhere in the path leaves the automaton's answer as it was. */
  lemma IndexIsTransparent(ctx: Context, anchors: set<string>, before: Path, n: nat, after: Path)
    requires ReadsIndices(ctx) && IndexText(n) !in anchors
    ensures Active(ctx, anchors, before + [IndexText(n)] + after) <==> Active(ctx, anchors, before + after)
  {
    hide IndexText;
    var rules := RulesFor(ctx, anchors);
    var long, short := before + [IndexText(n)] + after, before + after;
    var p, q := Components(long), Components(short);
    assert !IsAnchor(rules, Key(IndexText(n))) && IsTransparent(rules, Key(IndexText(n)));
    assert forall i :: 0 <= i < |before| ==> p[i] == q[i];
    assert forall i :: |before| <= i < |q| ==> p[i + 1] == q[i];
    assert forall i :: |before| < i < |p| ==> p[i] == q[i - 1];
    if i :| 0 <= i < |long| && AnchoredAt(rules, p, i) {
      assert i != |before|;
      assert AnchoredAt(rules, q, if i < |before| then i else i - 1);
    }
    if i :| 0 <= i < |short| && AnchoredAt(rules, q, i) {
      assert AnchoredAt(rules, p, if i < |before| then i else i + 1);
    }
  }

  lemma RootSequenceSkips(ctx: Context, before: Path, n: nat, after: Path)
    requires ReadsIndices(ctx)
    ensures RootSequence(ctx, before + [IndexText(n)] + after) <==> RootSequence(ctx, before + after)
  {
    hide IndexText;
    var long, short := before + [IndexText(n)] + after, before + after;
    assert forall i :: 0 <= i < |before| ==> long[i] == short[i];
    assert forall i :: |before| <= i < |short| ==> long[i + 1] == short[i];
    assert forall i :: |before| < i < |long| ==> long[i] == short[i - 1];
    assert long[|before|] == IndexText(n);
  }

  /** So no entry is judged differently for the list position it is found at. */
  lemma {:induction false} PositionsIgnored(ctx: Context, v: Json, before: Path, n: nat, after: Path)
    requires ReadsIndices(ctx)
    ensures HasMatch(Matcher(ctx), v, before + [IndexText(n)] + after) <==> HasMatch(Matcher(ctx), v, before + after)
    decreases v
  {
    hide IndexText, Identifies, ReadsIndices;
    var long, short := before + [IndexText(n)] + after, before + after;
    match v
    case List(items) =>
      forall k | 0 <= k < |items|
        ensures HasMatch(Matcher(ctx), items[k], long + [IndexText(k)]) <==>
                HasMatch(Matcher(ctx), items[k], short + [IndexText(k)])
      {
        PositionsIgnored(ctx, items[k], before, n, after + [IndexText(k)]);
        assert long + [IndexText(k)] == before + [IndexText(n)] + (after + [IndexText(k)]);
        assert short + [IndexText(k)] == before + (after + [IndexText(k)]);
      }
    case Dict(entries) =>
      forall k | 0 <= k < |entries|
        ensures EntryMatches(Matcher(ctx), entries[k], long) <==> EntryMatches(Matcher(ctx), entries[k], short)
      {
        EntryPositionsIgnored(ctx, entries[k], before, n, after);
      }
    case _ =>
  }

  lemma {:induction false} EntryPositionsIgnored(ctx: Context, e: Entry, before: Path, n: nat, after: Path)
    requires ReadsIndices(ctx)
    ensures EntryMatches(Matcher(ctx), e, before + [IndexText(n)] + after) <==> EntryMatches(Matcher(ctx), e, before + after)
    decreases e
  {
    hide IndexText, Active, RootSequence, Candidates, Identifiers, ReadsIndices;
    var long, short := before + [IndexText(n)] + after, before + after;
    IndexIsNoAnchor(n);
    IndexIsTransparent(ctx, REPOSITORY_ENTITIES, before, n, after);
    IndexIsTransparent(ctx, BRANCH_ENTITIES, before, n, after);
    RootSequenceSkips(ctx, before, n, after);
    PositionsIgnored(ctx, e.value, before, n, after + [e.key]);
    assert long + [e.key] == before + [IndexText(n)] + (after + [e.key]);
    assert short + [e.key] == before + (after + [e.key]);
  }

  /** A list is reported exactly when one of its items would be reported in the list's own place. */
  lemma ListIsItsItems(ctx: Context, items: seq<Json>, path: Path)
    requires ReadsIndices(ctx)
    ensures HasMatch(Matcher(ctx), List(items), path) <==>
            exists k :: 0 <= k < |items| && HasMatch(Matcher(ctx), items[k], path)
  {
    forall k | 0 <= k < |items|
      ensures HasMatch(Matcher(ctx), items[k], path + [IndexText(k)]) <==> HasMatch(Matcher(ctx), items[k], path)
    {
      PositionsIgnored(ctx, items[k], path, k, []);
      assert path + [IndexText(k)] + [] == path + [IndexText(k)] && path + [] == path;
    }
  }
}
