/** Relative POSIX path names as `PurePosixPath` reads them (tools/pinned_cargo_deny.py). */
module PosixPath {
  import opened KeyExpr

  /** `name.split("/")`. */
  function Split(name: string): (pieces: seq<string>)
    ensures |pieces| > 0
    ensures forall i :: 0 <= i < |pieces| ==> '/' !in pieces[i]
  {
    if name == [] then [""]
    else if name[0] == '/' then [""] + Split(name[1..])
    else
      var rest := Split(name[1..]);
      [[name[0]] + rest[0]] + rest[1..]
  }

  /** The components a path keeps: empty pieces and single dots vanish. */
  function Kept(pieces: seq<string>): (parts: seq<string>)
    ensures forall p <- parts :: p in pieces && p != "" && p != "."
  {
    if pieces == [] then []
    else (if pieces[0] == "" || pieces[0] == "." then [] else [pieces[0]]) + Kept(pieces[1..])
  }

  /** `PurePosixPath(name).parts`, for a relative name. */
  function Parts(name: string): (parts: seq<string>)
    ensures forall p <- parts :: Plain(p) && p != "."
  {
    Kept(Split(name))
  }

  /** `as_posix()`. */
  function AsPosix(parts: seq<string>): string {
    if parts == [] then "." else Join(parts)
  }

  /** A component that names something strictly below its directory. */
  predicate Clean(part: string) {
    Plain(part) && part != "." && part != ".." && '\0' !in part && '\\' !in part
  }

  predicate CleanParts(parts: seq<string>) {
    forall i :: 0 <= i < |parts| ==> Clean(parts[i])
  }

  /** The tests `_normalized_member_name` makes on the text of a name. */
  predicate Normalized(name: string) {
    && '\0' !in name && '\\' !in name && name != ""
    && name[0] != '/'
    && "." !in Parts(name) && ".." !in Parts(name)
    && AsPosix(Parts(name)) == name
  }

  lemma {:induction false} SplitPlain(s: string)
    requires '/' !in s
    ensures Split(s) == [s]
  {
    if s != [] {
      assert s[0] in s && forall c :: c in s[1..] ==> c in s;
      SplitPlain(s[1..]);
      assert s == [s[0]] + s[1..];
    }
  }

  lemma {:induction false} SplitAtSlash(head: string, tail: string)
    requires '/' !in head
    ensures Split(head + "/" + tail) == [head] + Split(tail)
  {
    var s := head + "/" + tail;
    if head == [] {
      assert s[0] == '/' && s[1..] == tail;
    } else {
      assert head[0] in head && forall c :: c in head[1..] ==> c in head;
      SplitAtSlash(head[1..], tail);
      assert s[0] == head[0] && s[1..] == head[1..] + "/" + tail;
      assert head == [head[0]] + head[1..];
    }
  }

  /** Joined clean components are read back exactly. */
  lemma {:induction false} PartsOfJoin(parts: seq<string>)
    requires parts != [] && CleanParts(parts)
    ensures Parts(Join(parts)) == parts
  {
    assert parts == [parts[0]] + parts[1..] && Clean(parts[0]);
    if |parts| == 1 {
      SplitPlain(parts[0]);
      assert Kept([parts[0]]) == [parts[0]] + Kept([]);
    } else {
      PartsOfJoin(parts[1..]);
      SplitAtSlash(parts[0], Join(parts[1..]));
      var pieces := Split(Join(parts[1..]));
      assert ([parts[0]] + pieces)[1..] == pieces;
    }
  }

  lemma {:induction false} JoinHolds(parts: seq<string>, i: nat)
    requires i < |parts|
    ensures forall c :: c in parts[i] ==> c in Join(parts)
  {
    if i > 0 {
      JoinHolds(parts[1..], i - 1);
    }
  }

  /** A name passes exactly when it is a lone dot or the join of clean components, which are then its parts. */
  lemma NormalizedIffClean(name: string)
    ensures Normalized(name) <==>
            name == "." || exists parts :: parts != [] && CleanParts(parts) && name == Join(parts)
    ensures Normalized(name) ==> CleanParts(Parts(name))
  {
    if Normalized(name) {
      NormalizedIsClean(name);
    }
    DotIsNormalized();
    if parts :| parts != [] && CleanParts(parts) && name == Join(parts) {
      CleanIsNormalized(parts);
    }
  }

  lemma NormalizedIsClean(name: string)
    requires Normalized(name)
    ensures CleanParts(Parts(name))
    ensures Parts(name) == [] ==> name == "."
    ensures Parts(name) != [] ==> name == Join(Parts(name))
  {
    var parts := Parts(name);
    forall i: nat | i < |parts|
      ensures Clean(parts[i])
    {
      JoinHolds(parts, i);
      assert parts[i] in parts;
    }
  }

  lemma DotIsNormalized()
    ensures Parts(".") == [] && Normalized(".")
  {
    SplitPlain(".");
    assert Kept(["."]) == Kept([]);
  }

  lemma {:induction false} NoBadCharacter(parts: seq<string>, c: char)
    requires parts != [] && c != '/' && forall i :: 0 <= i < |parts| ==> c !in parts[i]
    ensures c !in Join(parts)
  {
    if |parts| > 1 {
      NoBadCharacter(parts[1..], c);
    }
  }

  lemma CleanIsNormalized(parts: seq<string>)
    requires parts != [] && CleanParts(parts)
    ensures Normalized(Join(parts)) && Parts(Join(parts)) == parts
  {
    PartsOfJoin(parts);
    NoBadCharacter(parts, '\0');
    NoBadCharacter(parts, '\\');
    assert Clean(parts[0]);
    assert Join(parts)[0] == parts[0][0];
  }
}
