/** Budgeted structural containment of JSON values (tools/ecosystem_source_inventory.py). */
module StructuralContains {
  import opened Bytes
  import opened Json

  // ----- The relation -----

  /** `type(candidate) is type(expected) and candidate == expected` for an expected scalar. */
  predicate SameScalar(candidate: Json, expected: Json) {
    !expected.List? && !expected.Dict? && candidate == expected && expected != Float(NaN)
  }

  predicate Contains(candidate: Json, expected: Json)
    decreases expected
  {
    match expected
    case Dict(entries) =>
      candidate.Dict? && forall k :: 0 <= k < |entries| ==> EntryContained(candidate.entries, entries[k])
    case List(items) =>
      candidate.List? && exists start :: 0 <= start <= |candidate.items| - |items|
                                         && WindowContains(candidate.items, start, items, 0)
    case _ => SameScalar(candidate, expected)
  }

  predicate EntryContained(entries: seq<Entry>, e: Entry)
    decreases e
  {
    var found := Lookup(entries, e.key);
    found.Some? && Contains(found.value, e.value)
  }

  /** The window at start contains the expected items from offset on. */
  predicate WindowContains(candidate: seq<Json>, start: nat, items: seq<Json>, offset: nat)
    requires start + |items| <= |candidate|
    decreases items
  {
    forall k :: offset <= k < |items| ==> Contains(candidate[start + k], items[k])
  }

  // ----- A preorder -----

  predicate NaNFree(v: Json) {
    match v
    case Float(f) => f != NaN
    case List(items) => forall k :: 0 <= k < |items| ==> NaNFree(items[k])
    case Dict(entries) => forall k :: 0 <= k < |entries| ==> NaNFree(entries[k].value)
    case _ => true
  }

  /** A value contains itself exactly when it holds no NaN. */
  lemma {:induction false} ReflexiveIffNaNFree(v: Json)
    requires WellKeyed(v)
    ensures Contains(v, v) <==> NaNFree(v)
  {
    match v
    case List(items) =>
      forall k | 0 <= k < |items| ensures Contains(items[k], items[k]) <==> NaNFree(items[k]) {
        ReflexiveIffNaNFree(items[k]);
      }
      ListReflexive(items);
    case Dict(entries) =>
      forall k | 0 <= k < |entries| ensures EntryContained(entries, entries[k]) <==> NaNFree(entries[k].value) {
        LookupAt(entries, k);
        ReflexiveIffNaNFree(entries[k].value);
      }
    case _ =>
  }

  lemma ListReflexive(items: seq<Json>)
    requires forall k :: 0 <= k < |items| ==> (Contains(items[k], items[k]) <==> NaNFree(items[k]))
    ensures Contains(List(items), List(items)) <==> NaNFree(List(items))
  {
    var v := List(items);
    assert v.items == items;
    assert Contains(v, v) <==> WindowContains(items, 0, items, 0) by {
      if Contains(v, v) {
        var start :| 0 <= start <= |items| - |items| && WindowContains(items, start, items, 0);
        assert start == 0;
      }
    }
    if WindowContains(items, 0, items, 0) {
      forall k | 0 <= k < |items| ensures NaNFree(items[k]) {
        assert Contains(items[0 + k], items[k]);
      }
    }
    if NaNFree(v) {
      forall k | 0 <= k < |items| ensures Contains(items[0 + k], items[k]) {
        assert NaNFree(items[k]);
      }
    }
  }

  /** Containment is transitive, through dictionary subsets and list windows alike. */
  lemma {:induction false} Transitive(a: Json, b: Json, c: Json)
    requires Contains(a, b) && Contains(b, c)
    ensures Contains(a, c)
    decreases c
  {
    match c
    case List(items) =>
      var t :| 0 <= t <= |b.items| - |items| && WindowContains(b.items, t, items, 0);
      var s :| 0 <= s <= |a.items| - |b.items| && WindowContains(a.items, s, b.items, 0);
      forall k | 0 <= k < |items| ensures Contains(a.items[s + t + k], items[k]) {
        assert Contains(a.items[s + (t + k)], b.items[t + k]);
        Transitive(a.items[s + t + k], b.items[t + k], items[k]);
      }
      assert WindowContains(a.items, s + t, items, 0);
    case Dict(entries) =>
      forall k | 0 <= k < |entries| ensures EntryContained(a.entries, entries[k]) {
        assert EntryContained(b.entries, entries[k]);
        var mid := Lookup(b.entries, entries[k].key).value;
        var j :| 0 <= j < |b.entries| && b.entries[j] == Entry(entries[k].key, mid);
        assert EntryContained(a.entries, b.entries[j]);
        Transitive(Lookup(a.entries, entries[k].key).value, mid, entries[k].value);
      }
    case _ =>
  }

  // ----- What containment is -----

  /** An expected scalar is contained in itself alone, and NaN in nothing. */
  lemma ScalarContained(candidate: Json, expected: Json)
    requires !expected.List? && !expected.Dict?
    ensures Contains(candidate, expected) <==> candidate == expected && !(expected.Float? && expected.f == NaN)
  {
  }

  /** Where a list contains another. */
  lemma Window(candidate: Json, expected: Json) returns (start: nat)
    requires expected.List? && Contains(candidate, expected)
    ensures candidate.List? && start + |expected.items| <= |candidate.items|
    ensures WindowContains(candidate.items, start, expected.items, 0)
  {
    match expected
    case List(items) =>
      start :| 0 <= start <= |candidate.items| - |items| && WindowContains(candidate.items, start, items, 0);
  }

  lemma InWindow(candidate: seq<Json>, start: nat, items: seq<Json>, k: nat)
    requires start + |items| <= |candidate| && WindowContains(candidate, start, items, 0) && k < |items|
    ensures Contains(candidate[start + k], items[k])
  {
  }

  lemma FromWindow(candidate: Json, expected: Json, start: nat)
    requires expected.List? && candidate.List? && start + |expected.items| <= |candidate.items|
    requires forall k :: 0 <= k < |expected.items| ==> Contains(candidate.items[start + k], expected.items[k])
    ensures Contains(candidate, expected)
  {
    match expected
    case List(items) =>
      assert WindowContains(candidate.items, start, items, 0);
  }

  /** mid holds the expected items one by one. */
  predicate ItemByItem(mid: seq<Json>, items: seq<Json>) {
    |mid| == |items| && forall k :: 0 <= k < |items| ==> Contains(mid[k], items[k])
  }

  /** An expected list is contained exactly where a stretch of the candidate contains it item by item. */
  lemma ListContained(candidate: Json, expected: Json)
    requires expected.List?
    ensures Contains(candidate, expected) <==>
            candidate.List? && exists before: seq<Json>, mid: seq<Json>, after: seq<Json> ::
              candidate.items == before + mid + after && ItemByItem(mid, expected.items)
  {
    hide Contains, WindowContains;
    if Contains(candidate, expected) {
      var start := Window(candidate, expected);
      var n := start + |expected.items|;
      var mid := candidate.items[start..n];
      assert candidate.items == candidate.items[..start] + mid + candidate.items[n..];
      forall k | 0 <= k < |mid| ensures Contains(mid[k], expected.items[k]) {
        InWindow(candidate.items, start, expected.items, k);
      }
      assert ItemByItem(mid, expected.items);
    }
    if candidate.List? {
      forall before: seq<Json>, mid: seq<Json>, after: seq<Json> |
        candidate.items == before + mid + after && ItemByItem(mid, expected.items)
        ensures Contains(candidate, expected)
      {
        forall k | 0 <= k < |mid| ensures Contains(candidate.items[|before| + k], expected.items[k]) {
          assert candidate.items[|before| + k] == mid[k];
        }
        FromWindow(candidate, expected, |before|);
      }
    }
  }

  /** An expected dictionary is contained exactly when each of its keys is there, with a value that contains its value. */
  lemma DictContained(candidate: Json, entries: seq<Entry>)
    requires WellKeyed(candidate)
    ensures Contains(candidate, Dict(entries)) <==>
            candidate.Dict? && forall e <- entries :: exists f <- candidate.entries ::
              f.key == e.key && Contains(f.value, e.value)
  {
    if candidate.Dict? {
      forall e ensures EntryContained(candidate.entries, e) <==>
                       exists f <- candidate.entries :: f.key == e.key && Contains(f.value, e.value) {
        EntryFound(candidate.entries, e);
      }
    }
  }

  lemma EntryFound(candidate: seq<Entry>, e: Entry)
    requires DistinctKeys(candidate)
    ensures EntryContained(candidate, e) <==> exists f <- candidate :: f.key == e.key && Contains(f.value, e.value)
  {
    hide Contains;
    if EntryContained(candidate, e) {
      var v := Lookup(candidate, e.key).value;
      assert Entry(e.key, v) in candidate;
    }
    if f :| f in candidate && f.key == e.key && Contains(f.value, e.value) {
      var j :| 0 <= j < |candidate| && candidate[j] == f;
      LookupAt(candidate, j);
    }
  }

  /** Equal but for the order of dictionary entries. */
  predicate SameButOrder(a: Json, b: Json)
    decreases a
  {
    match a
    case List(items) =>
      b.List? && |b.items| == |items| && forall k :: 0 <= k < |items| ==> SameButOrder(items[k], b.items[k])
    case Dict(entries) =>
      && b.Dict?
      && (forall k :: 0 <= k < |entries| ==> EntrySame(entries[k], b.entries))
      && (forall f <- b.entries :: HasKey(entries, f.key))
    case _ => a == b
  }

  predicate EntrySame(e: Entry, others: seq<Entry>)
    decreases e
  {
    exists j :: 0 <= j < |others| && others[j].key == e.key && SameButOrder(e.value, others[j].value)
  }

  predicate HasKey(entries: seq<Entry>, key: string) {
    exists k :: 0 <= k < |entries| && entries[k].key == key
  }

  /** Two values contain each other exactly when they hold no NaN and are equal but for the order of keys. */
  lemma MutualIff(a: Json, b: Json)
    requires WellKeyed(a) && WellKeyed(b)
    ensures Contains(a, b) && Contains(b, a) <==> NaNFree(a) && SameButOrder(a, b)
  {
    if Contains(a, b) && Contains(b, a) {
      Antisymmetric(a, b);
      Transitive(a, b, a);
      ReflexiveIffNaNFree(a);
    }
    if NaNFree(a) && SameButOrder(a, b) {
      SameIsMutual(a, b);
    }
  }

  lemma {:induction false} Antisymmetric(a: Json, b: Json)
    requires WellKeyed(a) && WellKeyed(b) && Contains(a, b) && Contains(b, a)
    ensures SameButOrder(a, b)
    decreases a, 1
  {
    match a
    case List(_) => AntisymmetricLists(a, b);
    case Dict(_) => AntisymmetricDicts(a, b);
    case _ =>
  }

  lemma {:induction false} AntisymmetricLists(a: Json, b: Json)
    requires a.List? && b.List? && WellKeyed(a) && WellKeyed(b) && Contains(a, b) && Contains(b, a)
    ensures SameButOrder(a, b)
    decreases a, 0
  {
    hide Contains, WindowContains, WellKeyed;
    var s := Window(a, b);
    var t := Window(b, a);
    assert s == 0 && t == 0;
    forall k | 0 <= k < |a.items| ensures SameButOrder(a.items[k], b.items[k]) {
      ItemsWellKeyed(a, k);
      ItemsWellKeyed(b, k);
      InWindow(a.items, 0, b.items, k);
      InWindow(b.items, 0, a.items, k);
      Antisymmetric(a.items[k], b.items[k]);
    }
  }

  lemma ItemsWellKeyed(v: Json, k: nat)
    requires v.List? && WellKeyed(v) && k < |v.items|
    ensures WellKeyed(v.items[k])
  {
  }

  lemma {:induction false} AntisymmetricDicts(a: Json, b: Json)
    requires a.Dict? && WellKeyed(a) && WellKeyed(b) && Contains(a, b) && Contains(b, a)
    ensures SameButOrder(a, b)
    decreases a, 0
  {
    assert b.Dict?;
    forall k | 0 <= k < |a.entries| ensures EntrySame(a.entries[k], b.entries) {
      var j := Partner(a, b, k);
      Antisymmetric(a.entries[k].value, b.entries[j].value);
    }
    forall f | f in b.entries ensures HasKey(a.entries, f.key) {
      var j :| 0 <= j < |b.entries| && b.entries[j] == f;
      assert EntryContained(a.entries, b.entries[j]);
    }
  }

  /** An entry of a has its counterpart in b, and their values contain each other. */
  lemma Partner(a: Json, b: Json, k: nat) returns (j: nat)
    requires a.Dict? && b.Dict? && WellKeyed(a) && WellKeyed(b) && Contains(a, b) && Contains(b, a)
    requires k < |a.entries|
    ensures j < |b.entries| && b.entries[j].key == a.entries[k].key
    ensures WellKeyed(a.entries[k].value) && WellKeyed(b.entries[j].value)
    ensures Contains(a.entries[k].value, b.entries[j].value) && Contains(b.entries[j].value, a.entries[k].value)
  {
    hide WellKeyed;
    EntriesWellKeyed(a);
    EntriesWellKeyed(b);
    assert EntryContained(b.entries, a.entries[k]);
    var v := Lookup(b.entries, a.entries[k].key).value;
    j :| 0 <= j < |b.entries| && b.entries[j] == Entry(a.entries[k].key, v);
    assert EntryContained(a.entries, b.entries[j]);
    LookupAt(a.entries, k);
  }

  lemma EntriesWellKeyed(v: Json)
    requires v.Dict? && WellKeyed(v)
    ensures DistinctKeys(v.entries) && forall k :: 0 <= k < |v.entries| ==> WellKeyed(v.entries[k].value)
  {
  }

  lemma {:induction false} SameIsMutual(a: Json, b: Json)
    requires WellKeyed(a) && WellKeyed(b) && NaNFree(a) && SameButOrder(a, b)
    ensures Contains(a, b) && Contains(b, a)
    decreases a, 1
  {
    match a
    case List(items) =>
      forall k | 0 <= k < |items| ensures Contains(items[0 + k], b.items[k]) && Contains(b.items[0 + k], items[k]) {
        SameIsMutual(items[k], b.items[k]);
      }
      FromWindow(a, b, 0);
      FromWindow(b, a, 0);
    case Dict(_) => SameDictsAreMutual(a, b);
    case _ =>
  }

  lemma {:induction false} SameDictsAreMutual(a: Json, b: Json)
    requires a.Dict? && WellKeyed(a) && WellKeyed(b) && NaNFree(a) && SameButOrder(a, b)
    ensures Contains(a, b) && Contains(b, a)
    decreases a, 0
  {
    hide WellKeyed;
    EntriesWellKeyed(a);
    EntriesWellKeyed(b);
    forall k | 0 <= k < |a.entries| ensures EntryContained(b.entries, a.entries[k]) {
      var j := Counterpart(a, b, k);
      LookupAt(b.entries, j);
      SameIsMutual(a.entries[k].value, b.entries[j].value);
    }
    forall m | 0 <= m < |b.entries| ensures EntryContained(a.entries, b.entries[m]) {
      assert b.entries[m] in b.entries;
      assert HasKey(a.entries, b.entries[m].key);
      var k :| 0 <= k < |a.entries| && a.entries[k].key == b.entries[m].key;
      var j := Counterpart(a, b, k);
      LookupAt(a.entries, k);
      SameIsMutual(a.entries[k].value, b.entries[j].value);
    }
  }

  lemma Counterpart(a: Json, b: Json, k: nat) returns (j: nat)
    requires a.Dict? && b.Dict? && NaNFree(a) && SameButOrder(a, b) && k < |a.entries|
    ensures j < |b.entries| && b.entries[j].key == a.entries[k].key
    ensures SameButOrder(a.entries[k].value, b.entries[j].value) && NaNFree(a.entries[k].value)
  {
    assert EntrySame(a.entries[k], b.entries);
    j :| 0 <= j < |b.entries| && b.entries[j].key == a.entries[k].key && SameButOrder(a.entries[k].value, b.entries[j].value);
  }

  // ----- With a budget of comparisons -----

  /** An answer with what is left of the budget, or the scan-bound failure. */
  datatype Outcome = Answer(holds: bool, left: nat) | Exhausted

  function Check(candidate: Json, expected: Json, budget: nat): Outcome
    decreases expected, 2, 0
  {
    if budget == 0 then Exhausted else
    var left := budget - 1;
    match expected
    case Dict(entries) => if candidate.Dict? then CheckEntries(candidate.entries, entries, left) else Answer(false, left)
    case List(items) =>
      if candidate.List? && |candidate.items| >= |items| then CheckStarts(candidate.items, 0, items, left)
      else Answer(false, left)
    case _ => Answer(SameScalar(candidate, expected), left)
  }

  /** `all(...)` over the expected entries, stopping at the first that fails. */
  function CheckEntries(candidate: seq<Entry>, entries: seq<Entry>, budget: nat): Outcome
    decreases entries, 1, 0
  {
    if entries == [] then Answer(true, budget) else
    match CheckEntry(candidate, entries[0], budget)
    case Exhausted => Exhausted
    case Answer(holds, left) => if holds then CheckEntries(candidate, entries[1..], left) else Answer(false, left)
  }

  function CheckEntry(candidate: seq<Entry>, e: Entry, budget: nat): Outcome
    decreases e, 3, 0
  {
    match Lookup(candidate, e.key)
    case None => Answer(false, budget)
    case Some(v) => Check(v, e.value, budget)
  }

  /** `any(...)` over the window starts. */
  function CheckStarts(candidate: seq<Json>, start: nat, items: seq<Json>, budget: nat): Outcome
    requires start + |items| <= |candidate| + 1
    decreases items, 1, |candidate| + 1 - start
  {
    if start + |items| > |candidate| then Answer(false, budget) else
    match CheckWindow(candidate, start, items, budget)
    case Exhausted => Exhausted
    case Answer(holds, left) => if holds then Answer(true, left) else CheckStarts(candidate, start + 1, items, left)
  }

  /** `all(...)` over one window. */
  function CheckWindow(candidate: seq<Json>, start: nat, items: seq<Json>, budget: nat): Outcome
    requires start + |items| <= |candidate|
    decreases items, 0, 0
  {
    if items == [] then Answer(true, budget) else
    match Check(candidate[start], items[0], budget)
    case Exhausted => Exhausted
    case Answer(holds, left) => if holds then CheckWindow(candidate, start + 1, items[1..], left) else Answer(false, left)
  }

  // ----- What the comparisons cost -----

  /** The number of calls the unbudgeted relation makes with Python's short-circuiting. */
  function Cost(candidate: Json, expected: Json): (n: nat)
    ensures n >= 1
    decreases expected, 2, 0
  {
    1 + match expected
        case Dict(entries) => if candidate.Dict? then CostEntries(candidate.entries, entries) else 0
        case List(items) =>
          if candidate.List? && |candidate.items| >= |items| then CostStarts(candidate.items, 0, items) else 0
        case _ => 0
  }

  function CostEntries(candidate: seq<Entry>, entries: seq<Entry>): nat
    decreases entries, 1, 0
  {
    if entries == [] then 0
    else CostEntry(candidate, entries[0])
         + if EntryContained(candidate, entries[0]) then CostEntries(candidate, entries[1..]) else 0
  }

  function CostEntry(candidate: seq<Entry>, e: Entry): nat
    decreases e, 3, 0
  {
    match Lookup(candidate, e.key)
    case None => 0
    case Some(v) => Cost(v, e.value)
  }

  function CostStarts(candidate: seq<Json>, start: nat, items: seq<Json>): nat
    requires start + |items| <= |candidate| + 1
    decreases items, 1, |candidate| + 1 - start
  {
    if start + |items| > |candidate| then 0
    else CostWindow(candidate, start, items)
         + if WindowContains(candidate, start, items, 0) then 0 else CostStarts(candidate, start + 1, items)
  }

  function CostWindow(candidate: seq<Json>, start: nat, items: seq<Json>): nat
    requires start + |items| <= |candidate|
    decreases items, 0, 0
  {
    if items == [] then 0
    else Cost(candidate[start], items[0])
         + if Contains(candidate[start], items[0]) then CostWindow(candidate, start + 1, items[1..]) else 0
  }

  /** What a budget buys: the true answer when it covers the cost, otherwise the failure. */
  function Bought(holds: bool, cost: nat, budget: nat): Outcome {
    if budget >= cost then Answer(holds, budget - cost) else Exhausted
  }

  /**
   * The budgeted check answers exactly when the budget covers its cost, then as the unbudgeted
   * relation does, and leaves exactly the rest of the budget.
   */
  lemma {:induction false} CheckIsContains(candidate: Json, expected: Json, budget: nat)
    ensures Check(candidate, expected, budget) == Bought(Contains(candidate, expected), Cost(candidate, expected), budget)
    decreases expected, 2, 0
  {
    if budget > 0 {
      match expected
      case Dict(entries) =>
        if candidate.Dict? {
          EntriesBought(candidate.entries, entries, budget - 1);
        }
      case List(items) =>
        if candidate.List? && |candidate.items| >= |items| {
          StartsBought(candidate.items, 0, items, budget - 1);
        }
      case _ =>
    }
  }

  predicate EntriesContained(candidate: seq<Entry>, entries: seq<Entry>) {
    forall k :: 0 <= k < |entries| ==> EntryContained(candidate, entries[k])
  }

  lemma {:induction false} EntriesBought(candidate: seq<Entry>, entries: seq<Entry>, budget: nat)
    ensures CheckEntries(candidate, entries, budget)
            == Bought(EntriesContained(candidate, entries), CostEntries(candidate, entries), budget)
    decreases entries, 1, 0
  {
    hide EntryContained;
    if entries != [] {
      EntryBought(candidate, entries[0], budget);
      var first := CheckEntry(candidate, entries[0], budget);
      if first.Answer? {
        EntriesBought(candidate, entries[1..], first.left);
      }
      assert EntriesContained(candidate, entries)
          == (EntryContained(candidate, entries[0]) && EntriesContained(candidate, entries[1..]));
    }
  }

  lemma {:induction false} EntryBought(candidate: seq<Entry>, e: Entry, budget: nat)
    ensures CheckEntry(candidate, e, budget) == Bought(EntryContained(candidate, e), CostEntry(candidate, e), budget)
    decreases e, 3, 0
  {
    var found := Lookup(candidate, e.key);
    if found.Some? {
      CheckIsContains(found.value, e.value, budget);
    }
  }

  predicate SomeWindow(candidate: seq<Json>, start: nat, items: seq<Json>) {
    exists s :: start <= s <= |candidate| - |items| && WindowContains(candidate, s, items, 0)
  }

  lemma {:induction false} StartsBought(candidate: seq<Json>, start: nat, items: seq<Json>, budget: nat)
    requires start + |items| <= |candidate| + 1
    ensures CheckStarts(candidate, start, items, budget)
            == Bought(SomeWindow(candidate, start, items), CostStarts(candidate, start, items), budget)
    decreases items, 1, |candidate| + 1 - start
  {
    hide WindowContains;
    if start + |items| <= |candidate| {
      WindowBought(candidate, start, items, budget);
      var first := CheckWindow(candidate, start, items, budget);
      if first.Answer? {
        StartsBought(candidate, start + 1, items, first.left);
      }
      assert SomeWindow(candidate, start, items)
          == (WindowContains(candidate, start, items, 0) || SomeWindow(candidate, start + 1, items));
    }
  }

  lemma {:induction false} WindowBought(candidate: seq<Json>, start: nat, items: seq<Json>, budget: nat)
    requires start + |items| <= |candidate|
    ensures CheckWindow(candidate, start, items, budget)
            == Bought(WindowContains(candidate, start, items, 0), CostWindow(candidate, start, items), budget)
    decreases items, 0, 0
  {
    hide Contains, Cost, Check;
    if items != [] {
      CheckIsContains(candidate[start], items[0], budget);
      var first := Check(candidate[start], items[0], budget);
      if first.Answer? {
        WindowBought(candidate, start + 1, items[1..], first.left);
      }
      WindowStep(candidate, start, items);
    }
  }

  lemma WindowStep(candidate: seq<Json>, start: nat, items: seq<Json>)
    requires items != [] && start + |items| <= |candidate|
    ensures WindowContains(candidate, start, items, 0)
            == (Contains(candidate[start], items[0]) && WindowContains(candidate, start + 1, items[1..], 0))
  {
    hide Contains;
    if Contains(candidate[start], items[0]) && WindowContains(candidate, start + 1, items[1..], 0) {
      forall k | 0 <= k < |items| ensures Contains(candidate[start + k], items[k]) {
        if k > 0 {
          assert Contains(candidate[start + 1 + (k - 1)], items[1..][k - 1]);
        }
      }
    }
    if WindowContains(candidate, start, items, 0) {
      assert Contains(candidate[start + 0], items[0]);
      forall k | 0 <= k < |items| - 1 ensures Contains(candidate[start + 1 + k], items[1..][k]) {
        assert Contains(candidate[start + (k + 1)], items[k + 1]);
      }
    }
  }

  // ----- As code, with the shared counter -----

  /** The one-element list `remaining` that all comparisons of a scan share. */
  class Budget {
    var remaining: int

    constructor (limit: nat)
      ensures remaining == limit
    {
      remaining := limit;
    }

    /** `_private_structural_contains`; None is the scan-bound failure. */
    method ContainsWithin(candidate: Json, expected: Json) returns (r: Option<bool>)
      requires remaining >= 0
      modifies this
      ensures r.Some? <==> old(remaining) >= Cost(candidate, expected)
      ensures r.Some? ==> r.value == Contains(candidate, expected)
                          && remaining == old(remaining) - Cost(candidate, expected)
      decreases expected, 2
    {
      hide Contains, Cost;
      CheckIsContains(candidate, expected, remaining);
      ghost var goal := Check(candidate, expected, remaining);
      remaining := remaining - 1;
      if remaining < 0 {
        return None;
      }
      match expected
      case Dict(entries) =>
        if !candidate.Dict? {
          return Some(false);
        }
        r := AllEntries(candidate.entries, entries);
      case List(items) =>
        if !candidate.List? || |candidate.items| < |items| {
          return Some(false);
        }
        r := AnyWindow(candidate.items, items);
      case _ =>
        return Some(SameScalar(candidate, expected));
    }

    method AllEntries(candidate: seq<Entry>, entries: seq<Entry>) returns (r: Option<bool>)
      requires remaining >= 0
      modifies this
      ensures r.Some? ==> remaining >= 0
      ensures Outcome(r) == CheckEntries(candidate, entries, old(remaining))
      decreases entries, 1
    {
      hide Contains, Cost, EntryContained;
      ghost var goal := CheckEntries(candidate, entries, remaining);
      for k := 0 to |entries|
        invariant remaining >= 0 && CheckEntries(candidate, entries[k..], remaining) == goal
      {
        var e := entries[k];
        assert entries[k..][0] == e && entries[k..][1..] == entries[k + 1..];
        var inner := EntryHolds(candidate, e);
        if inner != Some(true) {
          return inner;
        }
      }
      return Some(true);
    }

    method EntryHolds(candidate: seq<Entry>, e: Entry) returns (r: Option<bool>)
      requires remaining >= 0
      modifies this
      ensures r.Some? ==> remaining >= 0
      ensures Outcome(r) == CheckEntry(candidate, e, old(remaining))
      decreases e, 3
    {
      hide Contains, Cost;
      var found := Lookup(candidate, e.key);
      if found.None? {
        return Some(false);
      }
      CheckIsContains(found.value, e.value, remaining);
      r := ContainsWithin(found.value, e.value);
    }

    method AnyWindow(candidate: seq<Json>, items: seq<Json>) returns (r: Option<bool>)
      requires remaining >= 0 && |items| <= |candidate|
      modifies this
      ensures r.Some? ==> remaining >= 0
      ensures Outcome(r) == CheckStarts(candidate, 0, items, old(remaining))
      decreases items, 1
    {
      hide Contains, Cost, WindowContains;
      ghost var goal := CheckStarts(candidate, 0, items, remaining);
      for start := 0 to |candidate| - |items| + 1
        invariant remaining >= 0 && CheckStarts(candidate, start, items, remaining) == goal
      {
        var inner := AllOfWindow(candidate, start, items);
        if inner != Some(false) {
          return inner;
        }
      }
      return Some(false);
    }

    method AllOfWindow(candidate: seq<Json>, start: nat, items: seq<Json>) returns (r: Option<bool>)
      requires remaining >= 0 && start + |items| <= |candidate|
      modifies this
      ensures r.Some? ==> remaining >= 0
      ensures Outcome(r) == CheckWindow(candidate, start, items, old(remaining))
      decreases items, 0
    {
      hide Contains, Cost;
      ghost var goal := CheckWindow(candidate, start, items, remaining);
      for k := 0 to |items|
        invariant remaining >= 0 && CheckWindow(candidate, start + k, items[k..], remaining) == goal
      {
        assert items[k..][0] == items[k] && items[k..][1..] == items[k + 1..];
        CheckIsContains(candidate[start + k], items[k], remaining);
        var inner := ContainsWithin(candidate[start + k], items[k]);
        if inner != Some(true) {
          return inner;
        }
      }
      return Some(true);
    }

    ghost function Outcome(r: Option<bool>): Outcome
      reads this
    {
      if r.Some? && remaining >= 0 then Answer(r.value, remaining) else Exhausted
    }
  }
}
