/** Decoded JSON documents as Python holds them, in iteration order. */
module Json {
  import opened Bytes

  /** A Python float, as far as equality is concerned. */
  datatype Float = NaN | PosInf | NegInf | Finite(r: real)

  datatype Json =
    | Null
    | Bool(b: bool)
    | Int(n: int)
    | Float(f: Float)
    | Str(s: string)
    | List(items: seq<Json>)
    | Dict(entries: seq<Entry>)

  datatype Entry = Entry(key: string, value: Json)

  /** `candidate[key]`, None when the key is missing. */
  function Lookup(entries: seq<Entry>, key: string): (r: Option<Json>)
    ensures r.Some? ==> exists j :: 0 <= j < |entries| && entries[j] == Entry(key, r.value)
    ensures r.None? ==> forall j :: 0 <= j < |entries| ==> entries[j].key != key
  {
    if entries == [] then None
    else if entries[0].key == key then
      assert entries[0] == Entry(key, entries[0].value);
      Some(entries[0].value)
    else
      Lookup(entries[1..], key)
  }

  predicate DistinctKeys(entries: seq<Entry>) {
    forall i, j :: 0 <= i < j < |entries| ==> entries[i].key != entries[j].key
  }

  /** Python dictionaries never hold a key twice. */
  predicate WellKeyed(v: Json) {
    match v
    case List(items) => forall k :: 0 <= k < |items| ==> WellKeyed(items[k])
    case Dict(entries) => DistinctKeys(entries) && forall k :: 0 <= k < |entries| ==> WellKeyed(entries[k].value)
    case _ => true
  }

  lemma LookupAt(entries: seq<Entry>, k: nat)
    requires DistinctKeys(entries) && k < |entries|
    ensures Lookup(entries, entries[k].key) == Some(entries[k].value)
  {}
}
