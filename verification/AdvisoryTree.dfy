/** Extraction of the pinned advisory snapshot into an empty directory (tools/pinned_cargo_deny.py). */
module AdvisoryTree {
  import opened Bytes
  import opened KeyExpr
  import opened PosixPath

  const MAX_MEMBER_NAME_BYTES := 256
  const MAX_MEMBERS := 4096
  const MAX_MEMBER_BYTES := 64 * 1024
  const MAX_WORKTREE_BYTES := 2_000_000
  const BLOCKSIZE := 512
  const MAX_DEPTH := 8
  const DIRECTORY_MODE := 0x1FD // 0o775
  const FILE_MODE := 0x1B4 // 0o664

  datatype Kind = Directory | Regular | Special

  /**
   * A tar member as the library reports it. `encoded` is the length of the name in UTF-8 when it has one,
   * `reviewed` says that its PAX headers are just the pinned commit, `mode` is masked with 0o7777, and
   * `content` is what reading size + 1 bytes of it yields.
   */
  datatype Member = Member(name: string, encoded: Option<nat>, reviewed: bool, kind: Kind,
                           size: int, mode: int, offset: nat, content: seq<Byte>)

  datatype Pin = Pin(root: string, members: nat, files: nat, directories: nat, bytes: int)

  datatype Entry = Dir | File(content: seq<Byte>)

  type Path = seq<string>

  type Tree = map<Path, Entry>

  type Fold = string -> string

  datatype Error =
    | TOO_MANY | NAME | DUPLICATE | OUTSIDE | RESERVED_GIT | PAX | ROOT_ENTRY | PARENT_LATE | PARENT_KIND
    | DIRECTORY_ENTRY | FILE_ENTRY | WORKTREE_BOUND | TRUNCATED | COUNTS | BYTES | TRAILER

  // ----- What is admitted -----

  predicate NameOk(m: Member) {
    m.encoded.Some? && m.encoded.value <= MAX_MEMBER_NAME_BYTES && Normalized(m.name)
  }

  predicate BelowRoot(m: Member, pin: Pin) {
    var parts := Parts(m.name);
    0 < |parts| <= MAX_DEPTH && parts[0] == pin.root
  }

  /** No component below the root is `.git` in any spelling. */
  predicate AvoidsGit(m: Member, fold: Fold) {
    forall i :: 1 <= i < |Parts(m.name)| ==> fold(Parts(m.name)[i]) != ".git"
  }

  predicate IsRoot(m: Member) { |Parts(m.name)| == 1 }

  /** Where a member goes below the destination. */
  function Target(m: Member): Path {
    if Parts(m.name) == [] then [] else Parts(m.name)[1..]
  }

  function ParentName(m: Member): string {
    var parts := Parts(m.name);
    if parts == [] then "." else AsPosix(parts[..|parts| - 1])
  }

  predicate CanonicalDirectory(m: Member) {
    m.kind == Directory && m.size == 0 && m.mode == DIRECTORY_MODE
  }

  predicate AdmittedFile(m: Member) {
    m.kind == Regular && m.mode == FILE_MODE && 0 < m.size <= MAX_MEMBER_BYTES && |m.content| == m.size
  }

  function Content(m: Member): Entry {
    if m.kind == Directory then Dir else File(m.content)
  }

  /** Some earlier member is the directory this one belongs to. */
  predicate ParentBefore(ms: seq<Member>, n: nat)
    requires n < |ms|
  {
    exists j :: 0 <= j < n && ms[j].name == ParentName(ms[n]) && ms[j].kind == Directory
  }

  /** The n-th member is acceptable after the ones before it. */
  predicate MemberOk(ms: seq<Member>, n: nat, pin: Pin, fold: Fold)
    requires n < |ms|
  {
    && n < MAX_MEMBERS && NameOk(ms[n]) && BelowRoot(ms[n], pin) && AvoidsGit(ms[n], fold) && ms[n].reviewed
    && (forall j :: 0 <= j < n ==> ms[j].name != ms[n].name)
    && (if IsRoot(ms[n]) then n == 0 && CanonicalDirectory(ms[n])
        else ParentBefore(ms, n) && (CanonicalDirectory(ms[n]) || AdmittedFile(ms[n])))
    && FileBytes(ms[..n + 1]) <= MAX_WORKTREE_BYTES
  }

  predicate PrefixOk(ms: seq<Member>, n: nat, pin: Pin, fold: Fold)
    requires n <= |ms|
  {
    forall i :: 0 <= i < n ==> MemberOk(ms, i, pin, fold)
  }

  function FileBytes(ms: seq<Member>): int {
    if ms == [] then 0 else
      var m := ms[|ms| - 1];
      FileBytes(ms[..|ms| - 1]) + if m.kind == Directory then 0 else m.size
  }

  function Count(ms: seq<Member>, k: Kind): nat {
    if ms == [] then 0 else Count(ms[..|ms| - 1], k) + if ms[|ms| - 1].kind == k then 1 else 0
  }

  /** The block boundary after the last member's data. */
  function ExpectedEnd(ms: seq<Member>): int {
    if ms == [] then 0 else
      var m := ms[|ms| - 1];
      m.offset + (m.size + BLOCKSIZE - 1) / BLOCKSIZE * BLOCKSIZE
  }

  /** At least two blocks follow and every byte of them is zero. */
  predicate TrailerOk(payload: seq<Byte>, end: int) {
    0 <= end && end + 2 * BLOCKSIZE <= |payload| && forall i :: end <= i < |payload| ==> payload[i] == 0
  }

  predicate CountsOk(ms: seq<Member>, pin: Pin) {
    |ms| == pin.members && Count(ms, Regular) == pin.files && Count(ms, Directory) == pin.directories
    && FileBytes(ms) == pin.bytes
  }

  predicate Admissible(ms: seq<Member>, payload: seq<Byte>, pin: Pin, fold: Fold) {
    PrefixOk(ms, |ms|, pin, fold) && CountsOk(ms, pin) && TrailerOk(payload, ExpectedEnd(ms))
  }

  /** The tree that holds just the members. */
  function TreeOf(ms: seq<Member>): Tree {
    if ms == [] then map[[] := Dir] else
      var m := ms[|ms| - 1];
      TreeOf(ms[..|ms| - 1])[Target(m) := Content(m)]
  }

  // ----- What the tree may hold -----

  /** Everything is named by clean components below the destination, and no component below is `.git`. */
  predicate Contained(t: Tree, fold: Fold) {
    forall p <- t :: |p| < MAX_DEPTH && CleanParts(p) && forall i :: 0 <= i < |p| ==> fold(p[i]) != ".git"
  }

  /** Every entry sits in a directory of the tree. */
  predicate ParentClosed(t: Tree) {
    forall p <- t :: p != [] ==> p[..|p| - 1] in t && t[p[..|p| - 1]] == Dir
  }

  // ----- What the measures are -----

  /** The expected end is the first block boundary, counted from the last member's offset, at or after its data. */
  lemma EndIsNextBoundary(ms: seq<Member>, m: Member)
    requires m.size >= 0
    ensures var end := ExpectedEnd(ms + [m]);
      && m.offset + m.size <= end < m.offset + m.size + 512
      && (end - m.offset) % 512 == 0
    ensures ExpectedEnd([]) == 0
  {
    var n := m.size + 511;
    assert n == n / 512 * 512 + n % 512;
    assert n / 512 * 512 % 512 == 0;
  }

  function OfKind(ms: seq<Member>, k: Kind): set<nat> {
    set i: nat | i < |ms| && ms[i].kind == k
  }

  /** Members are counted by kind. */
  lemma {:induction false} CountIs(ms: seq<Member>, k: Kind)
    ensures Count(ms, k) == |OfKind(ms, k)|
  {
    if ms != [] {
      var n := |ms| - 1;
      CountIs(ms[..n], k);
      assert OfKind(ms, k) == OfKind(ms[..n], k) + if ms[n].kind == k then {n} else {};
    } else {
      assert OfKind(ms, k) == {};
    }
  }

  /** The worktree holds the sizes of all members that are not directories. */
  lemma {:induction false} BytesAdd(a: seq<Member>, m: Member, b: seq<Member>)
    ensures FileBytes(a + [m] + b) == FileBytes(a) + (if m.kind == Directory then 0 else m.size) + FileBytes(b)
    ensures FileBytes([]) == 0
  {
    var all := a + [m] + b;
    if b == [] {
      assert all[..|all| - 1] == a && b == [];
      assert all == a + [m];
    } else {
      assert all[..|all| - 1] == a + [m] + b[..|b| - 1];
      BytesAdd(a, m, b[..|b| - 1]);
    }
  }

  /** A member's name is the root followed by its target; its parent's name is that without the last component. */
  lemma NameIsRootAndTarget(m: Member, pin: Pin)
    requires NameOk(m) && BelowRoot(m, pin)
    ensures m.name == Join([pin.root] + Target(m))
    ensures Target(m) != [] ==>
              m.name == ParentName(m) + "/" + Target(m)[|Target(m)| - 1]
              && ParentName(m) == Join([pin.root] + Target(m)[..|Target(m)| - 1])
    ensures IsRoot(m) <==> m.name == pin.root
  {
    hide Clean;
    NormalizedIffClean(m.name);
    var parts := Parts(m.name);
    assert parts == [pin.root] + Target(m);
    if Target(m) != [] {
      JoinLast(parts);
      assert parts[..|parts| - 1] == [pin.root] + Target(m)[..|Target(m)| - 1];
    }
  }

  lemma {:induction false} JoinLast(ss: seq<string>)
    requires |ss| > 1
    ensures Join(ss) == Join(ss[..|ss| - 1]) + "/" + ss[|ss| - 1]
  {
    var n := |ss| - 1;
    if |ss| > 2 {
      JoinLast(ss[1..]);
      assert ss[1..][..n - 1] == ss[..n][1..];
    }
  }

  /** The name leads from the root down at most seven clean components. */
  predicate NamedBelow(name: string, root: string, target: Path) {
    CleanParts([root] + target) && |target| <= 7 && name == Join([root] + target)
  }

  lemma NameMeans(m: Member, pin: Pin)
    ensures Normalized(m.name) && BelowRoot(m, pin) <==> exists target: Path :: NamedBelow(m.name, pin.root, target)
    ensures forall target: Path :: NamedBelow(m.name, pin.root, target) ==> Target(m) == target && Normalized(m.name)
  {
    hide Clean;
    NormalizedIffClean(m.name);
    if Normalized(m.name) && BelowRoot(m, pin) {
      assert Parts(m.name) == [pin.root] + Target(m);
      NormalizedIsClean(m.name);
      assert NamedBelow(m.name, pin.root, Target(m));
    }
    forall target: Path | NamedBelow(m.name, pin.root, target)
      ensures Target(m) == target && Normalized(m.name) && BelowRoot(m, pin)
    {
      var parts := [pin.root] + target;
      PartsOfJoin(parts);
      assert parts[1..] == target;
    }
  }

  /** What admission asks of the n-th member's name, whatever its kind. */
  predicate Named(ms: seq<Member>, n: nat, pin: Pin, fold: Fold, target: Path)
    requires n < |ms|
  {
    && ms[n].encoded.Some? && ms[n].encoded.value <= 256
    && NamedBelow(ms[n].name, pin.root, target)
    && (forall c <- target :: fold(c) != ".git")
    && (forall j :: 0 <= j < n ==> ms[j].name != ms[n].name)
  }

  /** What admission asks of the n-th member for its place and kind. */
  predicate Placed(ms: seq<Member>, n: nat, target: Path)
    requires n < |ms|
  {
    var m := ms[n];
    var directory := m.kind == Directory && m.size == 0 && m.mode == 7 * 64 + 7 * 8 + 5;
    var file := m.kind == Regular && m.mode == 6 * 64 + 6 * 8 + 4 && 1 <= m.size <= 65536 && |m.content| == m.size;
    if target == [] then n == 0 && directory
    else (directory || file)
         && exists j :: 0 <= j < n && ms[j].kind == Directory && m.name == ms[j].name + "/" + target[|target| - 1]
  }

  /**
   * What it takes to be admitted as the n-th member, in full: fewer than 4096 before it; a name of at most 256
   * bytes that no earlier member has, which leads from the root down at most seven clean components, none of
   * them `.git`; reviewed headers; at most 2000000 bytes of files so far. The root itself comes first and is an empty
   * directory with mode 775; anything else comes after the directory it lies in and is such a directory or a
   * regular file with mode 664, one to 65536 bytes long and complete.
   */
  lemma MemberOkIff(ms: seq<Member>, n: nat, pin: Pin, fold: Fold)
    requires n < |ms|
    ensures MemberOk(ms, n, pin, fold) <==>
            && n < 4096 && ms[n].reviewed && FileBytes(ms[..n + 1]) <= 2_000_000
            && exists target: Path :: Named(ms, n, pin, fold, target) && Placed(ms, n, target)
  {
    hide NamedBelow, Normalized, BelowRoot, Target, Parts;
    var m := ms[n];
    NameMeans(m, pin);
    TargetIs(m, pin);
    if NameOk(m) && BelowRoot(m, pin) {
      NameIsRootAndTarget(m, pin);
      assert NamedBelow(m.name, pin.root, Target(m));
      assert Named(ms, n, pin, fold, Target(m)) <==>
             m.encoded.value <= 256 && AvoidsGit(m, fold) && forall j :: 0 <= j < n ==> ms[j].name != m.name by {
        GitMeans(m, pin, fold);
      }
      if Target(m) != [] {
        forall j | 0 <= j < n
          ensures ms[j].name == ParentName(m) <==> m.name == ms[j].name + "/" + Target(m)[|Target(m)| - 1]
        {
          SameStem(ms[j].name, ParentName(m), Target(m)[|Target(m)| - 1]);
        }
      }
    }
  }

  lemma TargetIs(m: Member, pin: Pin)
    ensures Normalized(m.name) && BelowRoot(m, pin) ==> NamedBelow(m.name, pin.root, Target(m))
    ensures BelowRoot(m, pin) ==> (IsRoot(m) <==> Target(m) == [])
  {
    NameMeans(m, pin);
  }

  lemma GitMeans(m: Member, pin: Pin, fold: Fold)
    requires BelowRoot(m, pin)
    ensures AvoidsGit(m, fold) <==> forall c <- Target(m) :: fold(c) != ".git"
  {
    var parts := Parts(m.name);
    if AvoidsGit(m, fold) {
      forall c | c in Target(m) ensures fold(c) != ".git" {
        var i :| 0 <= i < |Target(m)| && Target(m)[i] == c;
        assert parts[i + 1] == c;
      }
    }
    assert forall i :: 1 <= i < |parts| ==> Target(m)[i - 1] == parts[i];
  }

  lemma SameStem(a: string, b: string, tail: string)
    ensures a + "/" + tail == b + "/" + tail <==> a == b
  {
    if a + "/" + tail == b + "/" + tail {
      assert |a| == |b|;
      assert a == (a + "/" + tail)[..|a|] && b == (b + "/" + tail)[..|b|];
    }
  }

  /** What the pin counts, and what follows the last member: at least 1024 bytes, all zero. */
  lemma PinMeans(ms: seq<Member>, payload: seq<Byte>, end: int, pin: Pin)
    ensures CountsOk(ms, pin) <==>
            && |ms| == pin.members && |OfKind(ms, Regular)| == pin.files && |OfKind(ms, Directory)| == pin.directories
            && FileBytes(ms) == pin.bytes
    ensures TrailerOk(payload, end) <==>
            end >= 0 && exists zeros: seq<Byte> :: |zeros| >= 1024 && (forall z <- zeros :: z == 0)
                                                   && end <= |payload| && payload == payload[..end] + zeros
  {
    CountIs(ms, Regular);
    CountIs(ms, Directory);
    if TrailerOk(payload, end) {
      assert payload == payload[..end] + payload[end..];
    }
    if end >= 0 {
      forall zeros: seq<Byte> | |zeros| >= 1024 && (forall z <- zeros :: z == 0) && end <= |payload| && payload == payload[..end] + zeros
        ensures TrailerOk(payload, end)
      {
        assert |payload| == end + |zeros|;
        assert forall i :: end <= i < |payload| ==> payload[i] == zeros[i - end] && zeros[i - end] in zeros;
      }
    }
  }

  // ----- Facts about admitted members -----

  lemma TargetNames(a: Member, b: Member, pin: Pin)
    requires NameOk(a) && BelowRoot(a, pin) && NameOk(b) && BelowRoot(b, pin)
    ensures Target(a) == Target(b) <==> a.name == b.name
  {
    var p, q := Parts(a.name), Parts(b.name);
    assert p == [pin.root] + Target(a) && q == [pin.root] + Target(b);
  }

  /** The parent a member names is the one its target lies in. */
  lemma ParentTarget(m: Member, parent: Member, pin: Pin)
    requires NameOk(m) && BelowRoot(m, pin) && !IsRoot(m) && parent.name == ParentName(m)
    ensures Target(m) != [] && Target(parent) == Target(m)[..|Target(m)| - 1]
  {
    var parts := Parts(m.name);
    NormalizedIffClean(m.name);
    PartsOfJoin(parts[..|parts| - 1]);
  }

  /** The tree of admitted members: each at its target with its content, and nothing else but the destination. */
  lemma {:induction false} TreeHoldsMembers(ms: seq<Member>, n: nat, pin: Pin, fold: Fold)
    requires n <= |ms| && PrefixOk(ms, n, pin, fold)
    ensures forall i :: 0 <= i < n ==> Target(ms[i]) in TreeOf(ms[..n]) && TreeOf(ms[..n])[Target(ms[i])] == Content(ms[i])
    ensures forall p <- TreeOf(ms[..n]) :: p == [] || exists i :: 0 <= i < n && Target(ms[i]) == p
    ensures [] in TreeOf(ms[..n]) && TreeOf(ms[..n])[[]] == Dir
  {
    hide NameOk, AvoidsGit, Content, ParentBefore, Target, BelowRoot;
    if n > 0 {
      TreeHoldsMembers(ms, n - 1, pin, fold);
      var m := ms[n - 1];
      assert MemberOk(ms, n - 1, pin, fold);
      assert ms[..n][..n - 1] == ms[..n - 1];
      forall i | 0 <= i < n - 1
        ensures Target(ms[i]) != Target(m)
      {
        assert MemberOk(ms, i, pin, fold);
        TargetNames(ms[i], m, pin);
      }
      RootTarget(m, pin);
    }
  }

  lemma RootTarget(m: Member, pin: Pin)
    requires BelowRoot(m, pin)
    ensures IsRoot(m) <==> Target(m) == []
    ensures CanonicalDirectory(m) ==> Content(m) == Dir
  {
  }

  /** Whatever prefix was admitted, nothing lies outside the destination or under `.git`, and parents are directories. */
  lemma TreeIsSafe(ms: seq<Member>, n: nat, pin: Pin, fold: Fold)
    requires n <= |ms| && PrefixOk(ms, n, pin, fold)
    ensures Contained(TreeOf(ms[..n]), fold) && ParentClosed(TreeOf(ms[..n]))
  {
    hide MemberOk, TreeOf, Clean, Target;
    TreeHoldsMembers(ms, n, pin, fold);
    var t := TreeOf(ms[..n]);
    forall p | p in t
      ensures |p| < MAX_DEPTH && CleanParts(p) && (forall i :: 0 <= i < |p| ==> fold(p[i]) != ".git")
      ensures p != [] ==> p[..|p| - 1] in t && t[p[..|p| - 1]] == Dir
    {
      if p != [] {
        var i :| 0 <= i < n && Target(ms[i]) == p;
        MemberIsSafe(ms, i, pin, fold);
        var j :| 0 <= j < i && Target(ms[j]) == p[..|p| - 1] && ms[j].kind == Directory;
      }
    }
  }

  lemma MemberIsSafe(ms: seq<Member>, i: nat, pin: Pin, fold: Fold)
    requires i < |ms| && MemberOk(ms, i, pin, fold)
    ensures var p := Target(ms[i]);
      && |p| < MAX_DEPTH && CleanParts(p) && (forall k :: 0 <= k < |p| ==> fold(p[k]) != ".git")
      && (p != [] ==> exists j :: 0 <= j < i && Target(ms[j]) == p[..|p| - 1] && ms[j].kind == Directory)
  {
    hide Clean, Normalized, Parts;
    var m := ms[i];
    var p := Target(m);
    NormalizedIffClean(m.name);
    assert forall k :: 0 <= k < |p| ==> p[k] == Parts(m.name)[k + 1];
    if !IsRoot(m) {
      assert ParentBefore(ms, i);
      var j :| 0 <= j < i && ms[j].name == ParentName(m) && ms[j].kind == Directory;
      ParentTarget(m, ms[j], pin);
    }
  }

  /** The first failing member ends every admission. */
  lemma NotAdmissible(ms: seq<Member>, n: nat, payload: seq<Byte>, pin: Pin, fold: Fold)
    requires n < |ms| && !MemberOk(ms, n, pin, fold)
    ensures !Admissible(ms, payload, pin, fold)
  {
  }

  /** What the loop looks up before it creates an entry: the parent was seen and is a directory on disk. */
  lemma ParentLookup(ms: seq<Member>, n: nat, pin: Pin, fold: Fold)
    requires n < |ms| && PrefixOk(ms, n, pin, fold)
    requires NameOk(ms[n]) && BelowRoot(ms[n], pin) && !IsRoot(ms[n])
    ensures var t, p := TreeOf(ms[..n]), Target(ms[n]);
      && p != []
      && (ParentBefore(ms, n) <==>
          (exists j :: 0 <= j < n && ms[j].name == ParentName(ms[n])) && p[..|p| - 1] in t && t[p[..|p| - 1]] == Dir)
  {
    hide MemberOk, NameOk, BelowRoot, TreeOf, Target, IsRoot, ParentName;
    TreeHoldsMembers(ms, n, pin, fold);
    ParentTarget(ms[n], ms[n].(name := ParentName(ms[n])), pin);
    forall j | 0 <= j < n && ms[j].name == ParentName(ms[n])
      ensures Target(ms[j]) == Target(ms[n])[..|Target(ms[n])| - 1]
    {
      ParentTarget(ms[n], ms[j], pin);
    }
  }

  /** A new name means a new target: neither `mkdir` nor `O_EXCL` can find the entry there already. */
  lemma TargetIsNew(ms: seq<Member>, n: nat, pin: Pin, fold: Fold)
    requires n < |ms| && PrefixOk(ms, n, pin, fold)
    requires NameOk(ms[n]) && BelowRoot(ms[n], pin) && !IsRoot(ms[n])
    requires forall j :: 0 <= j < n ==> ms[j].name != ms[n].name
    ensures Target(ms[n]) !in TreeOf(ms[..n])
  {
    hide NameOk, BelowRoot, TreeOf, Target, IsRoot, Content;
    TreeHoldsMembers(ms, n, pin, fold);
    RootTarget(ms[n], pin);
    forall j | 0 <= j < n
      ensures Target(ms[j]) != Target(ms[n])
    {
      assert MemberOk(ms, j, pin, fold);
      TargetNames(ms[j], ms[n], pin);
    }
  }

  // ----- The extraction loop -----

  class Destination {
    var tree: Tree

    /** A new empty directory. */
    constructor ()
      ensures tree == map[[] := Dir]
    {
      tree := map[[] := Dir];
    }

    /** `mkdir(parents=False, exist_ok=False)`; the caller knows that the directory is missing. */
    method MakeDirectory(target: Path)
      requires target != [] && target !in tree && target[..|target| - 1] in tree && tree[target[..|target| - 1]] == Dir
      modifies this
      ensures tree == old(tree)[target := Dir]
    {
      tree := tree[target := Dir];
    }

    /** `_write_new_regular` with O_EXCL. */
    method WriteNewRegular(target: Path, content: seq<Byte>)
      requires target != [] && target !in tree && target[..|target| - 1] in tree && tree[target[..|target| - 1]] == Dir
      modifies this
      ensures tree == old(tree)[target := File(content)]
    {
      tree := tree[target := File(content)];
    }

    /**
     * One turn of the loop: an acceptable member adds its entry; any other fails and adds nothing.
     */
    method ExtractMember(ms: seq<Member>, n: nat, seen: set<string>, worktree: int, pin: Pin, fold: Fold)
      returns (error: Option<Error>)
      requires n < |ms| && PrefixOk(ms, n, pin, fold) && tree == TreeOf(ms[..n])
      requires seen == set j | 0 <= j < n :: ms[j].name
      requires worktree == FileBytes(ms[..n]) <= MAX_WORKTREE_BYTES
      modifies this
      ensures error == None <==> MemberOk(ms, n, pin, fold)
      ensures tree == if error == None then TreeOf(ms[..n + 1]) else old(tree)
    {
      hide NameOk, AvoidsGit, ParentName, ParentBefore, BelowRoot, IsRoot, Target, FileBytes;
      assert forall x :: x in seen <==> exists j :: 0 <= j < n && ms[j].name == x;
      var m := ms[n];
      assert ms[..n + 1][..n] == ms[..n];
      assert FileBytes(ms[..n + 1]) == worktree + (if m.kind == Directory then 0 else m.size) by { FileBytesStep(ms, n); }
      if n >= MAX_MEMBERS {
        return Some(TOO_MANY);
      }
      if !NameOk(m) {
        return Some(NAME);
      }
      if m.name in seen {
        return Some(DUPLICATE);
      }
      if !BelowRoot(m, pin) {
        return Some(OUTSIDE);
      }
      if !AvoidsGit(m, fold) {
        return Some(RESERVED_GIT);
      }
      if !m.reviewed {
        return Some(PAX);
      }
      var target := Target(m);
      if IsRoot(m) {
        if n != 0 || !CanonicalDirectory(m) {
          return Some(ROOT_ENTRY);
        }
        RootTarget(m, pin);
        return None;
      }
      ParentLookup(ms, n, pin, fold);
      TargetIsNew(ms, n, pin, fold);
      if ParentName(m) !in seen {
        return Some(PARENT_LATE);
      }
      var parent := target[..|target| - 1];
      if parent !in tree || tree[parent] != Dir {
        return Some(PARENT_KIND);
      }
      if m.kind == Directory {
        if !CanonicalDirectory(m) {
          return Some(DIRECTORY_ENTRY);
        }
        MakeDirectory(target);
        return None;
      }
      if m.kind != Regular || m.mode != FILE_MODE || m.size <= 0 || m.size > MAX_MEMBER_BYTES {
        return Some(FILE_ENTRY);
      }
      if worktree + m.size > MAX_WORKTREE_BYTES {
        return Some(WORKTREE_BOUND);
      }
      if |m.content| != m.size {
        return Some(TRUNCATED);
      }
      WriteNewRegular(target, m.content);
      return None;
    }

    /**
     * `_extract_advisory_tree`: it succeeds on exactly the admissible archives, then the tree is the archive's,
     * and however it ends the tree is safe.
     */
    method Extract(ms: seq<Member>, payload: seq<Byte>, pin: Pin, fold: Fold) returns (error: Option<Error>)
      requires tree == map[[] := Dir]
      modifies this
      ensures error == None <==> Admissible(ms, payload, pin, fold)
      ensures error == None ==> tree == TreeOf(ms)
      ensures Contained(tree, fold) && ParentClosed(tree)
      ensures exists n :: 0 <= n <= |ms| && PrefixOk(ms, n, pin, fold) && tree == TreeOf(ms[..n])
    {
      hide MemberOk, PrefixOk, NameOk, AvoidsGit, BelowRoot, TrailerOk, FileBytes, Count, Contained, ParentClosed, TreeOf, ExpectedEnd;
      var seen: set<string>, files, directories, worktree, end := {}, 0, 0, 0, 0;
      EmptyPrefix(ms, pin, fold);
      for n := 0 to |ms|
        invariant PrefixOk(ms, n, pin, fold)
        invariant tree == TreeOf(ms[..n])
        invariant seen == set j | 0 <= j < n :: ms[j].name
        invariant |seen| == n
        invariant files == Count(ms[..n], Regular) && directories == Count(ms[..n], Directory)
        invariant worktree == FileBytes(ms[..n]) <= MAX_WORKTREE_BYTES && end == ExpectedEnd(ms[..n])
      {
        var m := ms[n];
        error := ExtractMember(ms, n, seen, worktree, pin, fold);
        if error != None {
          NotAdmissible(ms, n, payload, pin, fold);
          TreeIsSafe(ms, n, pin, fold);
          return;
        }
        PrefixStep(ms, n, pin, fold);
        assert seen + {m.name} == set j | 0 <= j < n + 1 :: ms[j].name;
        seen := seen + {m.name};
        if m.kind == Directory {
          directories := directories + 1;
          end := m.offset + (m.size + BLOCKSIZE - 1) / BLOCKSIZE * BLOCKSIZE;
        } else {
          worktree := worktree + m.size;
          files := files + 1;
          end := m.offset + (m.size + BLOCKSIZE - 1) / BLOCKSIZE * BLOCKSIZE;
        }
      }
      assert ms[..|ms|] == ms;
      TreeIsSafe(ms, |ms|, pin, fold);
      if |seen| != pin.members || files != pin.files || directories != pin.directories {
        return Some(COUNTS);
      }
      if worktree != pin.bytes {
        return Some(BYTES);
      }
      var zero := TrailerIsZero(payload, end);
      if !zero {
        return Some(TRAILER);
      }
      return None;
    }
  }

  method TrailerIsZero(payload: seq<Byte>, end: int) returns (ok: bool)
    ensures ok <==> TrailerOk(payload, end)
  {
    if end < 0 || end + 2 * BLOCKSIZE > |payload| {
      return false;
    }
    for i := end to |payload|
      invariant forall k :: end <= k < i ==> payload[k] == 0
    {
      if payload[i] != 0 {
        return false;
      }
    }
    return true;
  }

  lemma FileBytesStep(ms: seq<Member>, n: nat)
    requires n < |ms|
    ensures FileBytes(ms[..n + 1]) == FileBytes(ms[..n]) + if ms[n].kind == Directory then 0 else ms[n].size
  {
    assert ms[..n + 1][..n] == ms[..n];
  }

  lemma EmptyPrefix(ms: seq<Member>, pin: Pin, fold: Fold)
    ensures PrefixOk(ms, 0, pin, fold)
    ensures TreeOf(ms[..0]) == map[[] := Dir] && FileBytes(ms[..0]) == 0 && ExpectedEnd(ms[..0]) == 0
    ensures Count(ms[..0], Regular) == 0 && Count(ms[..0], Directory) == 0
  {
  }

  lemma PrefixStep(ms: seq<Member>, n: nat, pin: Pin, fold: Fold)
    requires n < |ms| && PrefixOk(ms, n, pin, fold) && MemberOk(ms, n, pin, fold)
    ensures PrefixOk(ms, n + 1, pin, fold)
    ensures ms[n].name !in (set j | 0 <= j < n :: ms[j].name)
    ensures ms[n].kind != Directory ==> ms[n].kind == Regular
    ensures FileBytes(ms[..n + 1]) <= MAX_WORKTREE_BYTES
    ensures FileBytes(ms[..n + 1]) == FileBytes(ms[..n]) + if ms[n].kind == Directory then 0 else ms[n].size
    ensures ExpectedEnd(ms[..n + 1]) == ms[n].offset + (ms[n].size + BLOCKSIZE - 1) / BLOCKSIZE * BLOCKSIZE
    ensures forall k :: Count(ms[..n + 1], k) == Count(ms[..n], k) + if ms[n].kind == k then 1 else 0
  {
    assert ms[..n + 1][..n] == ms[..n];
  }

  /** On success the tree is the archive: every member at its target, nothing else, and the counts add up. */
  lemma ExtractedExactly(ms: seq<Member>, payload: seq<Byte>, pin: Pin, fold: Fold)
    requires Admissible(ms, payload, pin, fold)
    ensures forall i :: 0 <= i < |ms| ==> Target(ms[i]) in TreeOf(ms) && TreeOf(ms)[Target(ms[i])] == Content(ms[i])
    ensures TreeOf(ms).Keys == {[]} + set m | m in ms :: Target(m)
    ensures |TreeOf(ms).Keys| == (if ms == [] then 1 else pin.members)
  {
    hide MemberOk, Target, Content, TreeOf;
    TreeHoldsMembers(ms, |ms|, pin, fold);
    assert ms[..|ms|] == ms;
    KeyCount(ms, |ms|, pin, fold);
  }

  /** The first admitted member is the root, and every later one adds one entry. */
  lemma {:induction false} KeyCount(ms: seq<Member>, n: nat, pin: Pin, fold: Fold)
    requires n <= |ms| && PrefixOk(ms, n, pin, fold)
    ensures |TreeOf(ms[..n]).Keys| == if n == 0 then 1 else n
  {
    hide NameOk, AvoidsGit, Target, BelowRoot, Content;
    if n > 0 {
      KeyCount(ms, n - 1, pin, fold);
      assert ms[..n][..n - 1] == ms[..n - 1];
      assert MemberOk(ms, n - 1, pin, fold);
      RootTarget(ms[n - 1], pin);
      if n == 1 {
        assert TreeOf(ms[..1]).Keys == {[]} + {Target(ms[0])};
        assert {[]} + {Target(ms[0])} == {Target(ms[0])};
      } else {
        RootComesFirst(ms, n - 1, pin, fold);
        TargetIsNew(ms, n - 1, pin, fold);
        assert TreeOf(ms[..n]).Keys == TreeOf(ms[..n - 1]).Keys + {Target(ms[n - 1])};
      }
    }
  }

  lemma RootComesFirst(ms: seq<Member>, n: nat, pin: Pin, fold: Fold)
    requires n < |ms| && MemberOk(ms, n, pin, fold)
    ensures IsRoot(ms[n]) <==> n == 0
  {
  }
}
