/** Zenoh key expressions as slash-separated segments (tools/secure_zenoh.py). */
module KeyExpr {

  predicate AlphaNumeric(c: char) {
    'a' <= c <= 'z' || 'A' <= c <= 'Z' || '0' <= c <= '9'
  }

  predicate SafeChar(c: char) {
    AlphaNumeric(c) || c == '.' || c == '_' || c == '-' || c == ':'
  }

  /** `_is_safe_segment`. */
  predicate SafeSegment(s: string) {
    0 < |s| <= 128 && forall i :: 0 <= i < |s| ==> SafeChar(s[i])
  }

  /** The characters an exact key may contain: printable ASCII but for the wildcard and quoting marks. */
  predicate KeyChar(c: char) {
    '!' <= c <= '~' && c != '$' && c != '*' && c != '#' && c != '?'
  }

  /** `_is_exact_key_expression`. */
  predicate ExactKey(s: string) {
    && s != [] && s[0] != '/' && s[|s| - 1] != '/'
    && (forall i :: 0 <= i < |s| - 1 ==> !(s[i] == '/' && s[i + 1] == '/'))
    && (forall i :: 0 <= i < |s| ==> KeyChar(s[i]))
  }

  /** Python's `sub in s`. */
  predicate Contains(s: string, sub: string) {
    exists i :: 0 <= i <= |s| && FoundAt(s, sub, i)
  }

  predicate FoundAt(s: string, sub: string, i: nat) {
    i + |sub| <= |s| && s[i..i + |sub|] == sub
  }

  predicate StartsWith(s: string, p: string) {
    |p| <= |s| && s[..|p|] == p
  }

  // ----- Joined segments -----

  predicate Segment(s: string) {
    s != [] && forall i :: 0 <= i < |s| ==> KeyChar(s[i]) && s[i] != '/'
  }

  predicate Segments(ss: seq<string>) {
    ss != [] && forall i :: 0 <= i < |ss| ==> Segment(ss[i])
  }

  /** A piece between slashes, whatever other characters it has. */
  predicate Plain(s: string) {
    s != [] && forall i :: 0 <= i < |s| ==> s[i] != '/'
  }

  predicate Plains(ss: seq<string>) {
    ss != [] && forall i :: 0 <= i < |ss| ==> Plain(ss[i])
  }

  function Join(ss: seq<string>): string
    requires ss != []
  {
    if |ss| == 1 then ss[0] else ss[0] + "/" + Join(ss[1..])
  }

  lemma SafeIsSegment(s: string)
    requires SafeSegment(s)
    ensures Segment(s)
  {}

  lemma {:induction false} JoinExact(ss: seq<string>)
    requires Segments(ss)
    ensures ExactKey(Join(ss))
  {
    if |ss| > 1 {
      JoinExact(ss[1..]);
      var head, tail := ss[0], Join(ss[1..]);
      var s := head + "/" + tail;
      assert forall i :: 0 <= i < |head| ==> s[i] == head[i];
      assert s[|head|] == '/';
      assert forall i :: |head| < i < |s| ==> s[i] == tail[i - |head| - 1];
    }
  }

  lemma SegmentsArePlain(ss: seq<string>)
    requires Segments(ss)
    ensures Plains(ss)
  {}

  /** Where the first slash of a joined key is. */
  lemma HeadBoundary(head: string, tail: string, i: nat)
    requires Plain(head) && i < |head + "/" + tail|
    ensures i < |head| ==> (head + "/" + tail)[i] == head[i] && (head + "/" + tail)[i] != '/'
    ensures i == |head| ==> (head + "/" + tail)[i] == '/'
    ensures i > |head| ==> (head + "/" + tail)[i] == tail[i - |head| - 1]
  {}

  /** Joining loses nothing: equal keys have equal segments. */
  lemma {:induction false} JoinInjective(a: seq<string>, b: seq<string>)
    requires Plains(a) && Plains(b) && Join(a) == Join(b)
    ensures a == b
  {
    if |a| == 1 || |b| == 1 {
      if |a| == 1 {
        NoSlashAlone(a, b);
      } else {
        NoSlashAlone(b, a);
      }
      assert a == [a[0]] && b == [b[0]];
    } else {
      var s, t := Join(a[1..]), Join(b[1..]);
      if |a[0]| <= |b[0]| {
        SameHead(a[0], s, b[0], t);
      } else {
        SameHead(b[0], t, a[0], s);
      }
      JoinInjective(a[1..], b[1..]);
      assert a == [a[0]] + a[1..] && b == [b[0]] + b[1..];
    }
  }

  lemma NoSlashAlone(a: seq<string>, b: seq<string>)
    requires Plains(a) && Plains(b) && Join(a) == Join(b) && |a| == 1
    ensures |b| == 1
  {
    if |b| > 1 {
      HeadBoundary(b[0], Join(b[1..]), |b[0]|);
    }
  }

  lemma SameHead(h1: string, t1: string, h2: string, t2: string)
    requires Plain(h1) && Plain(h2) && |h1| <= |h2| && h1 + "/" + t1 == h2 + "/" + t2
    ensures h1 == h2 && t1 == t2
  {
    var s := h1 + "/" + t1;
    HeadBoundary(h1, t1, |h1|);
    HeadBoundary(h2, t2, |h1|);
    assert |h1| == |h2|;
    assert h1 == s[..|h1|] && h2 == s[..|h2|];
    assert t1 == s[|h1| + 1..] && t2 == s[|h2| + 1..];
  }

  const COMMAND := "command"
  const SLASH_COMMAND := "/command"

  predicate CommandSegment(ss: seq<string>, i: nat) {
    0 < i < |ss| && StartsWith(ss[i], COMMAND)
  }

  /** `"/command" in key` holds exactly when some segment after the first starts with `command`. */
  lemma {:induction false} CommandInKey(ss: seq<string>)
    requires Plains(ss)
    ensures Contains(Join(ss), SLASH_COMMAND) <==> exists i :: CommandSegment(ss, i)
  {
    if |ss| == 1 {
      NoCommandInSegment(ss[0]);
    } else {
      CommandInKey(ss[1..]);
      CommandInTail(ss[0], ss[1..]);
      CommandShift(ss);
    }
  }

  lemma NoCommandInSegment(s: string)
    requires Plain(s)
    ensures !Contains(s, SLASH_COMMAND)
  {
    if Contains(s, SLASH_COMMAND) {
      var i: nat :| i <= |s| && FoundAt(s, SLASH_COMMAND, i);
      FoundFirst(s, SLASH_COMMAND, i);
    }
  }

  lemma FoundFirst(s: string, sub: string, i: nat)
    requires FoundAt(s, sub, i) && sub != []
    ensures s[i] == sub[0]
  {
    assert s[i] == s[i..i + |sub|][0];
  }

  lemma CommandShift(ss: seq<string>)
    requires |ss| > 1
    ensures (exists i :: CommandSegment(ss, i))
            <==> StartsWith(ss[1], COMMAND) || exists i :: CommandSegment(ss[1..], i)
  {
    if i: nat :| CommandSegment(ss, i) && i > 1 {
      assert CommandSegment(ss[1..], i - 1);
    }
    if j: nat :| CommandSegment(ss[1..], j) {
      assert CommandSegment(ss, j + 1);
    }
    if StartsWith(ss[1], COMMAND) {
      assert CommandSegment(ss, 1);
    }
  }

  lemma CommandInTail(head: string, rest: seq<string>)
    requires Plain(head) && Plains(rest)
    ensures Contains(head + "/" + Join(rest), SLASH_COMMAND)
            <==> StartsWith(rest[0], COMMAND) || Contains(Join(rest), SLASH_COMMAND)
  {
    hide FoundAt, Plain, StartsWith;
    var tail := Join(rest);
    var s := head + "/" + tail;
    HeadPrefix(rest);
    if Contains(s, SLASH_COMMAND) {
      var i: nat :| i <= |s| && FoundAt(s, SLASH_COMMAND, i);
      FoundInTail(head, tail, i);
    }
    if StartsWith(tail, COMMAND) {
      FoundAtBoundary(head, tail);
    }
    if Contains(tail, SLASH_COMMAND) {
      var j: nat :| j <= |tail| && FoundAt(tail, SLASH_COMMAND, j);
      FoundShifted(head, tail, j);
    }
  }

  lemma FoundInTail(head: string, tail: string, i: nat)
    requires Plain(head) && FoundAt(head + "/" + tail, SLASH_COMMAND, i)
    ensures StartsWith(tail, COMMAND) || Contains(tail, SLASH_COMMAND)
  {
    var s := head + "/" + tail;
    FoundFirst(s, SLASH_COMMAND, i);
    HeadBoundary(head, tail, i);
    if i == |head| {
      assert tail[..7] == s[i..i + 8][1..];
    } else {
      assert tail[i - |head| - 1..i - |head| + 7] == s[i..i + 8];
      assert FoundAt(tail, SLASH_COMMAND, i - |head| - 1);
    }
  }

  lemma FoundAtBoundary(head: string, tail: string)
    requires StartsWith(tail, COMMAND)
    ensures Contains(head + "/" + tail, SLASH_COMMAND)
  {
    var s := head + "/" + tail;
    assert s[|head|..|head| + 8] == "/" + tail[..7];
    assert FoundAt(s, SLASH_COMMAND, |head|);
  }

  lemma FoundShifted(head: string, tail: string, j: nat)
    requires FoundAt(tail, SLASH_COMMAND, j)
    ensures Contains(head + "/" + tail, SLASH_COMMAND)
  {
    var s := head + "/" + tail;
    assert s[|head| + 1 + j..|head| + 1 + j + 8] == tail[j..j + 8];
    assert FoundAt(s, SLASH_COMMAND, |head| + 1 + j);
  }

  /** The joined key starts with `command` exactly when its first segment does. */
  lemma HeadPrefix(ss: seq<string>)
    requires Plains(ss)
    ensures StartsWith(Join(ss), COMMAND) <==> StartsWith(ss[0], COMMAND)
  {
    var s, h := Join(ss), ss[0];
    assert |h| <= |s| && s[..|h|] == h;
    if |h| < 7 {
      if |ss| > 1 {
        HeadBoundary(h, Join(ss[1..]), |h|);
        CommandHasNoSlash(|h|);
        assert |s| >= 7 ==> s[..7][|h|] == '/';
      }
    } else {
      assert h[..7] == s[..7];
    }
  }

  lemma CommandHasNoSlash(i: nat)
    requires i < 7
    ensures |COMMAND| == 7 && COMMAND[i] != '/'
  {}
}
