/** The private-identifier scans over decoded JSON (tools/ecosystem_source_inventory.py). */
module JsonScan {
  import opened Bytes
  import opened Json

  // ----- The identity context automaton -----

  /** A path component: a dictionary key (or an index written as text), or an integer. */
  datatype Component = Key(s: string) | Index(n: int)

  /** How keys are normalised, which keys anchor and which are transparent, what counts as decimal text. */
  datatype ContextRules = ContextRules(
    normalize: string -> string, anchors: set<string>, transparent: set<string>, isDecimal: string -> bool)

  function Normalized(rules: ContextRules, c: Component): string {
    if c.Key? then rules.normalize(c.s) else ""
  }

  predicate IsAnchor(rules: ContextRules, c: Component) {
    Normalized(rules, c) in rules.anchors
  }

  predicate IsTransparent(rules: ContextRules, c: Component) {
    Normalized(rules, c) in rules.transparent || (c.Key? && rules.isDecimal(c.s)) || c.Index?
  }

  /** An anchor at i with only transparent components after it. */
  predicate AnchoredAt(rules: ContextRules, path: seq<Component>, i: nat) {
    i < |path| && IsAnchor(rules, path[i]) && forall j :: i < j < |path| ==> IsTransparent(rules, path[j])
  }

  /** `_identity_context_active`: an anchor followed only by transparent components. */
  method IdentityContextActive(rules: ContextRules, path: seq<Component>) returns (active: bool)
    ensures active <==> exists i :: AnchoredAt(rules, path, i)
  {
    hide IsAnchor, IsTransparent;
    active := false;
    for n := 0 to |path|
      invariant active <==> exists i :: AnchoredAt(rules, path[..n], i)
    {
      Extend(rules, path[..n], path[n]);
      assert path[..n + 1] == path[..n] + [path[n]];
      if IsAnchor(rules, path[n]) {
        active := true;
      } else if active && IsTransparent(rules, path[n]) {
      } else {
        active := false;
      }
    }
    assert path[..|path|] == path;
  }

  /** One more component: it anchors, or it is transparent and the path before it was anchored. */
  lemma Extend(rules: ContextRules, before: seq<Component>, c: Component)
    ensures (exists i :: AnchoredAt(rules, before + [c], i))
            <==> IsAnchor(rules, c) || (IsTransparent(rules, c) && exists i :: AnchoredAt(rules, before, i))
  {
    hide IsAnchor, IsTransparent;
    var after := before + [c];
    assert after[|before|] == c && forall j :: 0 <= j < |before| ==> before[j] == after[j];
    if i: nat :| AnchoredAt(rules, after, i) && i < |before| {
      assert AnchoredAt(rules, before, i);
    }
    if IsAnchor(rules, c) {
      assert AnchoredAt(rules, after, |before|);
    }
    if IsTransparent(rules, c) {
      if i: nat :| AnchoredAt(rules, before, i) {
        assert AnchoredAt(rules, after, i);
      }
    }
  }

  // ----- What a scan looks for -----

  type Path = seq<string>

  /** `_structured_private_identifier_match(key, item, path=path, ...)` with its tokens fixed. */
  type Match = (string, Json, Path) -> bool

  /** `str(index)`. */
  function IndexText(n: nat): string {
    if n < 10 then [('0' as int + n) as char] else IndexText(n / 10) + [('0' as int + n % 10) as char]
  }

  /** Some dictionary entry under v matches, each judged with the path that leads to its dictionary. */
  predicate HasMatch(m: Match, v: Json, path: Path)
    decreases v
  {
    match v
    case List(items) => exists k :: 0 <= k < |items| && HasMatch(m, items[k], path + [IndexText(k)])
    case Dict(entries) => exists k :: 0 <= k < |entries| && EntryMatches(m, entries[k], path)
    case _ => false
  }

  predicate EntryMatches(m: Match, e: Entry, path: Path)
    decreases e
  {
    m(e.key, e.value, path) || HasMatch(m, e.value, path + [e.key])
  }

  function NodeCount(v: Json): (n: nat)
    ensures n >= 1
    decreases v
  {
    match v
    case List(items) => 1 + ItemNodes(items)
    case Dict(entries) => 1 + EntryNodes(entries)
    case _ => 1
  }

  function ItemNodes(items: seq<Json>): nat
    decreases items
  {
    if items == [] then 0 else ItemNodes(items[..|items| - 1]) + NodeCount(items[|items| - 1])
  }

  function EntryNodes(entries: seq<Entry>): nat
    decreases entries
  {
    if entries == [] then 0 else EntryNodes(entries[..|entries| - 1]) + ValueNodes(entries[|entries| - 1])
  }

  function ValueNodes(e: Entry): nat
    decreases e
  {
    NodeCount(e.value)
  }

  // ----- Nodes by their paths -----

  /** The paths of v and of every node under it, as often as they occur. */
  function Paths(v: Json, path: Path): multiset<Path>
    decreases v
  {
    match v
    case List(items) => multiset{path} + ItemPaths(items, path)
    case Dict(entries) => multiset{path} + EntryPaths(entries, path)
    case _ => multiset{path}
  }

  function ItemPaths(items: seq<Json>, path: Path): multiset<Path>
    decreases items
  {
    if items == [] then multiset{} else
      var last := |items| - 1;
      ItemPaths(items[..last], path) + Paths(items[last], path + [IndexText(last)])
  }

  function EntryPaths(entries: seq<Entry>, path: Path): multiset<Path>
    decreases entries
  {
    if entries == [] then multiset{} else
      EntryPaths(entries[..|entries| - 1], path) + ValuePaths(entries[|entries| - 1], path)
  }

  function ValuePaths(e: Entry, path: Path): multiset<Path>
    decreases e
  {
    Paths(e.value, path + [e.key])
  }

  // ----- The explicit stack -----

  datatype Frame = Frame(node: Json, path: Path)

  predicate StackMatches(m: Match, stack: seq<Frame>) {
    exists k :: 0 <= k < |stack| && HasMatch(m, stack[k].node, stack[k].path)
  }

  function StackNodes(stack: seq<Frame>): nat {
    if stack == [] then 0 else StackNodes(stack[..|stack| - 1]) + NodeCount(stack[|stack| - 1].node)
  }

  function StackPaths(stack: seq<Frame>): multiset<Path> {
    if stack == [] then multiset{} else
      StackPaths(stack[..|stack| - 1]) + Paths(stack[|stack| - 1].node, stack[|stack| - 1].path)
  }

  lemma PushPaths(stack: seq<Frame>, f: Frame)
    ensures StackPaths(stack + [f]) == StackPaths(stack) + Paths(f.node, f.path)
  {
    hide Paths;
    assert (stack + [f])[..|stack|] == stack;
  }

  lemma PathSteps(items: seq<Json>, entries: seq<Entry>, path: Path, k: nat)
    ensures k < |items| ==> ItemPaths(items[..k + 1], path) == ItemPaths(items[..k], path) + Paths(items[k], path + [IndexText(k)])
    ensures k < |entries| ==> EntryPaths(entries[..k + 1], path) == EntryPaths(entries[..k], path) + Paths(entries[k].value, path + [entries[k].key])
    ensures ItemPaths(items[..0], path) == multiset{} && EntryPaths(entries[..0], path) == multiset{}
  {
    hide Paths, IndexText;
    if k < |items| {
      assert items[..k + 1][..k] == items[..k];
    }
    if k < |entries| {
      assert entries[..k + 1][..k] == entries[..k];
    }
  }

  lemma Push(m: Match, stack: seq<Frame>, f: Frame)
    ensures StackNodes(stack + [f]) == StackNodes(stack) + NodeCount(f.node)
    ensures StackMatches(m, stack + [f]) <==> StackMatches(m, stack) || HasMatch(m, f.node, f.path)
  {
    hide HasMatch, NodeCount;
    var after := stack + [f];
    assert after[..|after| - 1] == stack;
    if StackMatches(m, stack) {
      var k :| 0 <= k < |stack| && HasMatch(m, stack[k].node, stack[k].path);
      assert HasMatch(m, after[k].node, after[k].path);
    }
    if HasMatch(m, f.node, f.path) {
      assert HasMatch(m, after[|stack|].node, after[|stack|].path);
    }
  }

  predicate ItemsMatch(m: Match, items: seq<Json>, path: Path, n: nat)
    requires n <= |items|
  {
    exists k :: 0 <= k < n && HasMatch(m, items[k], path + [IndexText(k)])
  }

  predicate EntriesMatch(m: Match, entries: seq<Entry>, path: Path, from: nat) {
    exists k :: from <= k < |entries| && EntryMatches(m, entries[k], path)
  }

  lemma ItemsStep(m: Match, items: seq<Json>, path: Path, n: nat)
    requires 0 < n <= |items|
    ensures ItemsMatch(m, items, path, n)
            <==> ItemsMatch(m, items, path, n - 1) || HasMatch(m, items[n - 1], path + [IndexText(n - 1)])
    ensures ItemNodes(items[..n]) == ItemNodes(items[..n - 1]) + NodeCount(items[n - 1])
  {
    hide HasMatch, NodeCount;
    assert items[..n][..n - 1] == items[..n - 1];
  }

  lemma EntriesStep(m: Match, entries: seq<Entry>, path: Path, k: nat)
    requires k < |entries|
    ensures EntriesMatch(m, entries, path, k) <==> EntryMatches(m, entries[k], path) || EntriesMatch(m, entries, path, k + 1)
    ensures EntryNodes(entries[..k + 1]) == EntryNodes(entries[..k]) + NodeCount(entries[k].value)
  {
    hide EntryMatches, NodeCount;
    assert entries[..k + 1][..k] == entries[..k];
  }

  /** The one-element list `remaining_nodes`. */
  class NodeBudget {
    var remaining: int

    constructor (limit: nat)
      ensures remaining == limit
    {
      remaining := limit;
    }

    /**
     * `_contains_private_identifier_in_structured_value`; None is the bound failure. It answers true
     * only for a match and false only when there is none, and cannot fail with a budget of at least the
     * number of nodes. The paths of the nodes it visits, one per unit of budget, are among those of the value
     * and are all of them when it finds nothing; as paths are unique, no node is visited twice.
     */
    method ScanStack(m: Match, value: Json) returns (r: Option<bool>, ghost visited: multiset<Path>)
      requires remaining >= 0
      modifies this
      ensures visited <= Paths(value, []) && (r == Some(false) ==> visited == Paths(value, []))
      ensures WellKeyed(value) ==> Single(visited)
      ensures |visited| == if r.None? then old(remaining) else old(remaining) - remaining
      ensures r == Some(true) ==> HasMatch(m, value, []) && 0 <= old(remaining) - remaining <= NodeCount(value)
      ensures r == Some(false) <==> !HasMatch(m, value, []) && old(remaining) >= NodeCount(value)
      ensures r == Some(false) ==> remaining == old(remaining) - NodeCount(value)
      ensures r.None? ==> old(remaining) < NodeCount(value)
      ensures r.Some? ==> remaining >= 0
    {
      hide HasMatch, NodeCount, StackMatches, StackNodes, StackPaths, Paths;
      if WellKeyed(value) {
        PathsAreSingle(value, []);
      }
      visited := multiset{};
      StackOfOne(Frame(value, []));
      ghost var goal := HasMatch(m, value, []);
      var stack := [Frame(value, [])];
      EmptyStack(m);
      assert [] + [Frame(value, [])] == stack;
      Push(m, [], Frame(value, []));
      while stack != []
        invariant StackMatches(m, stack) == goal
        invariant remaining >= 0 && old(remaining) - remaining + StackNodes(stack) == NodeCount(value)
        invariant visited + StackPaths(stack) == Paths(value, []) && |visited| == old(remaining) - remaining
        decreases StackNodes(stack)
      {
        var top := stack[|stack| - 1];
        var rest := stack[..|stack| - 1];
        assert rest + [top] == stack;
        Push(m, rest, top);
        PushPaths(rest, top);
        remaining := remaining - 1;
        if remaining < 0 {
          return None, visited;
        }
        OwnPath(top);
        visited := visited + multiset{top.path};
        var grown := Visit(m, rest, top);
        if grown.None? {
          return Some(true), visited;
        }
        stack := grown.value;
      }
      EmptyStack(m);
      return Some(false), visited;
    }
  }

  /** One node: a list pushes its items, a dictionary its values unless an entry matches, anything else nothing. */
  method Visit(m: Match, rest: seq<Frame>, top: Frame) returns (r: Option<seq<Frame>>)
    ensures r.None? ==> HasMatch(m, top.node, top.path)
    ensures r.Some? ==> (StackMatches(m, r.value) <==> StackMatches(m, rest) || HasMatch(m, top.node, top.path))
    ensures r.Some? ==> StackNodes(r.value) + 1 == StackNodes(rest) + NodeCount(top.node)
    ensures r.Some? ==> multiset{top.path} + StackPaths(r.value) == StackPaths(rest) + Paths(top.node, top.path)
  {
    hide HasMatch, NodeCount, StackMatches, StackNodes, StackPaths, Paths;
    OwnPath(top);
    if top.node.List? {
      ListScan(m, top.node.items, top.path);
      var pushed := PushItems(m, rest, top.node.items, top.path);
      return Some(pushed);
    } else if top.node.Dict? {
      DictScan(m, top.node.entries, top.path);
      r := PushEntries(m, rest, top.node.entries, top.path);
    } else {
      ScalarScan(m, top.node, top.path);
      return Some(rest);
    }
  }

  lemma StackOfOne(f: Frame)
    ensures StackPaths([f]) == Paths(f.node, f.path) && StackPaths([]) == multiset{}
  {
    hide Paths;
    assert [f][..0] == [];
  }

  /** A frame's own path, and those below it. */
  lemma OwnPath(f: Frame)
    ensures f.node.List? ==> Paths(f.node, f.path) == multiset{f.path} + ItemPaths(f.node.items, f.path)
    ensures f.node.Dict? ==> Paths(f.node, f.path) == multiset{f.path} + EntryPaths(f.node.entries, f.path)
    ensures !f.node.List? && !f.node.Dict? ==> Paths(f.node, f.path) == multiset{f.path}
    ensures f.path in Paths(f.node, f.path)
  {
  }

  lemma EmptyStack(m: Match)
    ensures !StackMatches(m, []) && StackNodes([]) == 0
  {}

  lemma ListScan(m: Match, items: seq<Json>, path: Path)
    ensures HasMatch(m, List(items), path) == ItemsMatch(m, items, path, |items|)
    ensures NodeCount(List(items)) == 1 + ItemNodes(items)
  {}

  lemma DictScan(m: Match, entries: seq<Entry>, path: Path)
    ensures HasMatch(m, Dict(entries), path) == EntriesMatch(m, entries, path, 0)
    ensures NodeCount(Dict(entries)) == 1 + EntryNodes(entries)
  {}

  lemma ScalarScan(m: Match, v: Json, path: Path)
    requires !v.List? && !v.Dict?
    ensures !HasMatch(m, v, path) && NodeCount(v) == 1
  {}

  /** `stack.extend(... reversed(tuple(enumerate(node))))`. */
  method PushItems(m: Match, base: seq<Frame>, items: seq<Json>, path: Path) returns (stack: seq<Frame>)
    ensures StackMatches(m, stack) <==> StackMatches(m, base) || ItemsMatch(m, items, path, |items|)
    ensures StackNodes(stack) == StackNodes(base) + ItemNodes(items)
    ensures StackPaths(stack) == StackPaths(base) + ItemPaths(items, path)
  {
    hide HasMatch, NodeCount, StackMatches, StackNodes, ItemsMatch, ItemNodes, StackPaths, Paths, ItemPaths;
    stack := base;
    assert items[..|items|] == items;
    for n := |items| downto 0
      invariant StackMatches(m, stack) || ItemsMatch(m, items, path, n) <==>
                StackMatches(m, base) || ItemsMatch(m, items, path, |items|)
      invariant StackNodes(stack) + ItemNodes(items[..n]) == StackNodes(base) + ItemNodes(items)
      invariant StackPaths(stack) + ItemPaths(items[..n], path) == StackPaths(base) + ItemPaths(items, path)
    {
      var f := Frame(items[n], path + [IndexText(n)]);
      ItemsStep(m, items, path, n + 1);
      PathSteps(items, [], path, n);
      Push(m, stack, f);
      PushPaths(stack, f);
      stack := stack + [f];
    }
    NoItems(m, items, path);
    PathSteps(items, [], path, 0);
  }

  lemma NoItems(m: Match, items: seq<Json>, path: Path)
    ensures !ItemsMatch(m, items, path, 0) && ItemNodes(items[..0]) == 0
  {}

  /** The loop over a dictionary's entries: None as soon as one matches, otherwise the grown stack. */
  method PushEntries(m: Match, base: seq<Frame>, entries: seq<Entry>, path: Path) returns (r: Option<seq<Frame>>)
    ensures r.None? ==> EntriesMatch(m, entries, path, 0)
    ensures r.Some? ==> (StackMatches(m, r.value) <==> StackMatches(m, base) || EntriesMatch(m, entries, path, 0))
    ensures r.Some? ==> StackNodes(r.value) == StackNodes(base) + EntryNodes(entries)
    ensures r.Some? ==> StackPaths(r.value) == StackPaths(base) + EntryPaths(entries, path)
  {
    hide HasMatch, NodeCount, StackMatches, StackNodes, EntriesMatch, EntryNodes, StackPaths, Paths, EntryPaths;
    PathSteps([], entries, path, 0);
    var stack := base;
    NoEntries(m, entries, path);
    for k := 0 to |entries|
      invariant StackMatches(m, stack) || EntriesMatch(m, entries, path, k) <==>
                StackMatches(m, base) || EntriesMatch(m, entries, path, 0)
      invariant EntriesMatch(m, entries, path, k) ==> EntriesMatch(m, entries, path, 0)
      invariant StackNodes(stack) == StackNodes(base) + EntryNodes(entries[..k])
      invariant StackPaths(stack) == StackPaths(base) + EntryPaths(entries[..k], path)
    {
      var e := entries[k];
      PathSteps([], entries, path, k);
      EntriesStep(m, entries, path, k);
      if m(e.key, e.value, path) {
        return None;
      }
      Push(m, stack, Frame(e.value, path + [e.key]));
      PushPaths(stack, Frame(e.value, path + [e.key]));
      stack := stack + [Frame(e.value, path + [e.key])];
    }
    assert entries[..|entries|] == entries;
    r := Some(stack);
  }

  lemma NoEntries(m: Match, entries: seq<Entry>, path: Path)
    ensures !EntriesMatch(m, entries, path, |entries|) && EntryNodes(entries[..0]) == 0
  {}

  // ----- A path names one node -----

  predicate Below(p: Path, path: Path) { |path| <= |p| && p[..|path|] == path }

  lemma {:induction false} PathsBelow(v: Json, path: Path)
    ensures forall p :: p in Paths(v, path) ==> Below(p, path)
    decreases v
  {
    assert path[..|path|] == path;
    match v
    case List(items) => ItemsBelow(items, path);
    case Dict(entries) => EntriesBelow(entries, path);
    case _ =>
  }

  predicate UnderItem(p: Path, path: Path, n: nat) {
    Below(p, path) && |p| > |path| && exists k: nat :: k < n && p[|path|] == IndexText(k)
  }

  /** What lies strictly below a list lies below one of its items. */
  lemma {:induction false} ItemsBelow(items: seq<Json>, path: Path)
    ensures forall p :: p in ItemPaths(items, path) ==> UnderItem(p, path, |items|)
    decreases items
  {
    if items != [] {
      var last := |items| - 1;
      ItemsBelow(items[..last], path);
      PathsBelow(items[last], path + [IndexText(last)]);
      forall p | p in ItemPaths(items, path)
        ensures UnderItem(p, path, |items|)
      {
        if p in ItemPaths(items[..last], path) {
          assert UnderItem(p, path, last);
        } else {
          BelowChild(p, path, IndexText(last));
        }
      }
    }
  }

  lemma {:induction false} EntriesBelow(entries: seq<Entry>, path: Path)
    ensures forall p :: p in EntryPaths(entries, path) ==>
              Below(p, path) && |p| > |path| && exists k :: 0 <= k < |entries| && p[|path|] == entries[k].key
    decreases entries
  {
    if entries != [] {
      var last := |entries| - 1;
      EntriesBelow(entries[..last], path);
      ValueBelow(entries[last], path);
      assert forall k :: 0 <= k < last ==> entries[..last][k] == entries[k];
    }
  }

  lemma {:induction false} ValueBelow(e: Entry, path: Path)
    ensures forall p :: p in ValuePaths(e, path) ==> Below(p, path) && |p| > |path| && p[|path|] == e.key
    decreases e
  {
    PathsBelow(e.value, path + [e.key]);
    forall p | p in ValuePaths(e, path)
      ensures Below(p, path) && |p| > |path| && p[|path|] == e.key
    {
      BelowChild(p, path, e.key);
    }
  }

  lemma BelowChild(p: Path, path: Path, key: string)
    requires Below(p, path + [key])
    ensures Below(p, path) && |p| > |path| && p[|path|] == key
  {
    assert p[..|path|] == p[..|path| + 1][..|path|] == path;
    assert p[|path|] == p[..|path| + 1][|path|];
  }

  lemma {:induction false} IndexTextInjective(a: nat, b: nat)
    requires IndexText(a) == IndexText(b)
    ensures a == b
  {
    if a >= 10 && b >= 10 {
      var s := IndexText(a);
      assert s[..|s| - 1] == IndexText(a / 10) == IndexText(b / 10);
      assert s[|s| - 1] == ('0' as int + a % 10) as char == ('0' as int + b % 10) as char;
      IndexTextInjective(a / 10, b / 10);
    } else {
      IndexTextLength(a);
      IndexTextLength(b);
      assert a < 10 ==> IndexText(a)[0] == ('0' as int + a) as char;
      assert b < 10 ==> IndexText(b)[0] == ('0' as int + b) as char;
    }
  }

  lemma {:induction false} IndexTextLength(n: nat)
    ensures |IndexText(n)| >= 1 && (|IndexText(n)| == 1 <==> n < 10)
  {
    if n >= 10 {
      IndexTextLength(n / 10);
    }
  }

  predicate Single(paths: multiset<Path>) { forall p :: p in paths ==> paths[p] == 1 }

  lemma SingleSum(a: multiset<Path>, b: multiset<Path>)
    requires Single(a) && Single(b) && forall p :: p in a ==> p !in b
    ensures Single(a + b)
  {
  }

  /** In a document whose dictionaries hold no key twice, every path belongs to one node. */
  lemma {:induction false} PathsAreSingle(v: Json, path: Path)
    requires WellKeyed(v)
    ensures Single(Paths(v, path))
    decreases v
  {
    match v
    case List(items) =>
      ItemsAreSingle(items, path);
      ItemsBelow(items, path);
      SingleSum(multiset{path}, ItemPaths(items, path));
    case Dict(entries) =>
      EntriesAreSingle(entries, path);
      EntriesBelow(entries, path);
      SingleSum(multiset{path}, EntryPaths(entries, path));
    case _ =>
  }

  lemma {:induction false} ItemsAreSingle(items: seq<Json>, path: Path)
    requires forall k :: 0 <= k < |items| ==> WellKeyed(items[k])
    ensures Single(ItemPaths(items, path))
    decreases items
  {
    hide IndexText;
    if items != [] {
      var last := |items| - 1;
      ItemsAreSingle(items[..last], path);
      PathsAreSingle(items[last], path + [IndexText(last)]);
      ItemsBelow(items[..last], path);
      PathsBelow(items[last], path + [IndexText(last)]);
      forall p | p in ItemPaths(items[..last], path)
        ensures p !in Paths(items[last], path + [IndexText(last)])
      {
        if p in Paths(items[last], path + [IndexText(last)]) {
          BelowChild(p, path, IndexText(last));
          var k: nat :| k < last && p[|path|] == IndexText(k);
          IndexTextInjective(k, last);
        }
      }
      SingleSum(ItemPaths(items[..last], path), Paths(items[last], path + [IndexText(last)]));
    }
  }

  lemma {:induction false} EntriesAreSingle(entries: seq<Entry>, path: Path)
    requires DistinctKeys(entries) && forall k :: 0 <= k < |entries| ==> WellKeyed(entries[k].value)
    ensures Single(EntryPaths(entries, path))
    decreases entries
  {
    if entries != [] {
      var last := |entries| - 1;
      EntriesAreSingle(entries[..last], path);
      ValueIsSingle(entries[last], path);
      EntriesBelow(entries[..last], path);
      ValueBelow(entries[last], path);
      assert forall k :: 0 <= k < last ==> entries[..last][k] == entries[k];
      SingleSum(EntryPaths(entries[..last], path), ValuePaths(entries[last], path));
    }
  }

  lemma {:induction false} ValueIsSingle(e: Entry, path: Path)
    requires WellKeyed(e.value)
    ensures Single(ValuePaths(e, path))
    decreases e
  {
    PathsAreSingle(e.value, path + [e.key]);
  }

  // ----- The recursive twin -----

  /** Some string value under v holds a private identifier. */
  predicate HasText(text: string -> bool, v: Json)
    decreases v
  {
    match v
    case Str(s) => text(s)
    case List(items) => exists k :: 0 <= k < |items| && HasText(text, items[k])
    case Dict(entries) => exists k :: 0 <= k < |entries| && EntryText(text, entries[k])
    case _ => false
  }

  predicate EntryText(text: string -> bool, e: Entry)
    decreases e
  {
    HasText(text, e.value)
  }

  /**
   * `_scan_public_value`, true for the leak failure: it fails exactly when the explicit-stack scan would
   * find a match or some string value holds an identifier.
   */
  method ScanPublic(m: Match, text: string -> bool, value: Json, path: Path) returns (leak: bool)
    ensures leak <==> HasMatch(m, value, path) || HasText(text, value)
    decreases value, 1
  {
    match value
    case Str(s) =>
      leak := text(s);
    case List(items) =>
      leak := ScanItems(m, text, items, path);
    case Dict(entries) =>
      leak := ScanEntries(m, text, entries, path);
    case _ =>
      leak := false;
  }

  method ScanItems(m: Match, text: string -> bool, items: seq<Json>, path: Path) returns (leak: bool)
    ensures leak <==> exists k :: 0 <= k < |items| && (HasMatch(m, items[k], path + [IndexText(k)]) || HasText(text, items[k]))
    decreases items, 0
  {
    hide HasMatch, HasText;
    for n := 0 to |items|
      invariant forall k :: 0 <= k < n ==> !HasMatch(m, items[k], path + [IndexText(k)]) && !HasText(text, items[k])
    {
      var inner := ScanPublic(m, text, items[n], path + [IndexText(n)]);
      if inner {
        return true;
      }
    }
    return false;
  }

  method ScanEntries(m: Match, text: string -> bool, entries: seq<Entry>, path: Path) returns (leak: bool)
    ensures leak <==> exists k :: 0 <= k < |entries| && (EntryMatches(m, entries[k], path) || EntryText(text, entries[k]))
    decreases entries, 0
  {
    hide EntryMatches, EntryText;
    for n := 0 to |entries|
      invariant forall k :: 0 <= k < n ==> !EntryMatches(m, entries[k], path) && !EntryText(text, entries[k])
    {
      var inner := ScanEntry(m, text, entries[n], path);
      if inner {
        return true;
      }
    }
    return false;
  }

  method ScanEntry(m: Match, text: string -> bool, e: Entry, path: Path) returns (leak: bool)
    ensures leak <==> EntryMatches(m, e, path) || EntryText(text, e)
    decreases e, 2
  {
    if m(e.key, e.value, path) {
      return true;
    }
    leak := ScanPublic(m, text, e.value, path + [e.key]);
  }
}
