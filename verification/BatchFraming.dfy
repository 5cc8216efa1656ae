/** The `git cat-file` output parsers of tools/ecosystem_source_inventory.py. */
module BatchFraming {
  import opened Bytes
  import Decimal

  type Oid = seq<Byte>

  const SPACE: Byte := 32
  const NEWLINE: Byte := 10
  const RETURN: Byte := 13
  const BLOB: seq<Byte> := [98, 108, 111, 98]

  datatype ParseError = BadFormat | TooLarge

  // ----- Library operations -----

  /** `s.find(bytes([b]), from)`: the first index at or after `from`, None for -1. */
  function Find(s: seq<Byte>, b: Byte, from: nat): (r: Option<nat>)
    ensures r.Some? ==> from <= r.value < |s| && s[r.value] == b && forall i :: from <= i < r.value ==> s[i] != b
    ensures r.None? ==> forall i :: from <= i < |s| ==> s[i] != b
    decreases |s| - from
  {
    if from >= |s| then None
    else if s[from] == b then Some(from)
    else Find(s, b, from + 1)
  }

  /** `s.split(b" ")`. */
  function Split(s: seq<Byte>): (parts: seq<seq<Byte>>)
    ensures |parts| >= 1
    decreases |s|
  {
    match Find(s, SPACE, 0)
    case None => [s]
    case Some(i) => [s[..i]] + Split(s[i + 1..])
  }

  predicate Free(s: seq<Byte>, b: Byte) {
    forall i :: 0 <= i < |s| ==> s[i] != b
  }

  lemma SplitWord(a: seq<Byte>, rest: seq<Byte>)
    requires Free(a, SPACE)
    ensures Split(a) == [a] && Split(a + [SPACE] + rest) == [a] + Split(rest)
  {
    assert Find(a, SPACE, 0).None?;
    var s := a + [SPACE] + rest;
    assert s[|a|] == SPACE && forall i :: 0 <= i < |a| ==> s[i] == a[i];
    assert Find(s, SPACE, 0) == Some(|a|);
    assert s[..|a|] == a && s[|a| + 1..] == rest;
  }

  lemma SplitBack(s: seq<Byte>)
    ensures Free(Split(s)[0], SPACE)
    ensures |Split(s)| == 1 ==> s == Split(s)[0]
    ensures |Split(s)| > 1 ==> s == Split(s)[0] + [SPACE] + s[|Split(s)[0]| + 1..]
                               && |Split(s)[0]| < |s| && Split(s[|Split(s)[0]| + 1..]) == Split(s)[1..]
  {}

  /** A header of three words is what splits into exactly those words. */
  lemma SplitThree(s: seq<Byte>, a: seq<Byte>, b: seq<Byte>, c: seq<Byte>)
    requires Free(a, SPACE) && Free(b, SPACE) && Free(c, SPACE)
    ensures Split(s) == [a, b, c] <==> s == a + [SPACE] + (b + [SPACE] + c)
  {
    if Split(s) == [a, b, c] {
      SplitBack(s);
      var t := s[|a| + 1..];
      assert [a, b, c][1..] == [b, c];
      SplitBack(t);
      var u := t[|b| + 1..];
      assert [b, c][1..] == [c];
      SplitBack(u);
    }
    SplitWord(a, b + [SPACE] + c);
    SplitWord(b, c);
    SplitWord(c, []);
  }

  // ----- The batch stream -----

  function Header(oid: Oid, size: nat): seq<Byte> {
    oid + [SPACE] + (BLOB + [SPACE] + Decimal.Digits(size))
  }

  /** What git writes for one object. */
  function Frame(oid: Oid, payload: seq<Byte>): seq<Byte> {
    Header(oid, |payload|) + [NEWLINE] + payload + [NEWLINE]
  }

  /** The frame in bytes: the id, " blob ", the payload's length in digits, a newline, the payload, a newline. */
  lemma FrameLayout(oid: Oid, payload: seq<Byte>) returns (digits: seq<Byte>)
    ensures Frame(oid, payload) == oid + [32, 98, 108, 111, 98, 32] + digits + [10] + payload + [10]
    ensures Decimal.AllDigits(digits) && Decimal.Parse(digits) == |payload|
    ensures digits != [] && (|digits| > 1 ==> digits[0] != 48)
  {
    digits := Decimal.Digits(|payload|);
    Decimal.ParseDigits(|payload|);
    assert Header(oid, |payload|) == oid + [32, 98, 108, 111, 98, 32] + digits;
  }

  function Stream(oids: seq<Oid>, payloads: seq<seq<Byte>>): seq<Byte>
    requires |oids| == |payloads|
  {
    if oids == [] then []
    else Stream(oids[..|oids| - 1], payloads[..|oids| - 1]) + Frame(oids[|oids| - 1], payloads[|oids| - 1])
  }

  /** Object ids are hexadecimal: no space and no newline in them. */
  predicate Word(oid: Oid) {
    Free(oid, SPACE) && Free(oid, NEWLINE)
  }

  predicate Words(oids: seq<Oid>) {
    forall i :: 0 <= i < |oids| ==> Word(oids[i])
  }

  /** The stream is the framing of these payloads, which have the announced sizes. */
  predicate Frames(stream: seq<Byte>, oids: seq<Oid>, sizes: map<Oid, nat>, payloads: seq<seq<Byte>>) {
    && |payloads| == |oids|
    && (forall i :: 0 <= i < |oids| ==> oids[i] in sizes && |payloads[i]| == sizes[oids[i]])
    && stream == Stream(oids, payloads)
  }

  /** `result[oid] = ...` for each object in order. */
  function Results(oids: seq<Oid>, payloads: seq<seq<Byte>>): map<Oid, seq<Byte>>
    requires |oids| == |payloads|
  {
    if oids == [] then map[]
    else Results(oids[..|oids| - 1], payloads[..|oids| - 1])[oids[|oids| - 1] := payloads[|oids| - 1]]
  }

  lemma {:induction false} ResultsDistinct(oids: seq<Oid>, payloads: seq<seq<Byte>>, i: nat)
    requires |oids| == |payloads| && i < |oids|
    requires forall j, k :: 0 <= j < k < |oids| ==> oids[j] != oids[k]
    ensures oids[i] in Results(oids, payloads) && Results(oids, payloads)[oids[i]] == payloads[i]
  {
    var n := |oids| - 1;
    if i < n {
      ResultsDistinct(oids[..n], payloads[..n], i);
      assert oids[..n][i] == oids[i];
    }
  }

  lemma HeaderFacts(oid: Oid, size: nat)
    requires Word(oid)
    ensures Free(Header(oid, size), NEWLINE)
    ensures forall s :: Split(s) == [oid, BLOB, Decimal.Digits(size)] <==> s == Header(oid, size)
  {
    var d := Decimal.Digits(size);
    forall s ensures Split(s) == [oid, BLOB, d] <==> s == Header(oid, size) {
      SplitThree(s, oid, BLOB, d);
    }
  }

  /** One object starts at this offset: its header, its payload, its closing newline. */
  predicate FrameAt(s: seq<Byte>, offset: nat, oid: Oid, size: nat) {
    var start := offset + |Header(oid, size)| + 1;
    && start + size < |s|
    && s[offset..start - 1] == Header(oid, size)
    && s[start - 1] == NEWLINE && s[start + size] == NEWLINE
  }

  function FrameLength(oid: Oid, size: nat): nat {
    |Header(oid, size)| + 1 + size + 1
  }

  lemma FrameIsAt(s: seq<Byte>, offset: nat, oid: Oid, payload: seq<Byte>)
    requires offset + |Frame(oid, payload)| <= |s|
    ensures s[offset..offset + |Frame(oid, payload)|] == Frame(oid, payload) <==>
            var start := offset + |Header(oid, |payload|)| + 1;
            FrameAt(s, offset, oid, |payload|) && s[start..start + |payload|] == payload
  {
    var h := Header(oid, |payload|);
    var start := offset + |h| + 1;
    var f := Frame(oid, payload);
    var piece := s[offset..offset + |f|];
    assert piece == s[offset..start - 1] + [s[start - 1]] + s[start..start + |payload|] + [s[start + |payload|]];
    if piece == f {
      assert piece[..|h|] == h && f[..|h|] == h;
      assert piece[|h|] == f[|h|] == NEWLINE;
      assert piece[|h| + 1..|h| + 1 + |payload|] == f[|h| + 1..|h| + 1 + |payload|] == payload;
      assert piece[|f| - 1] == f[|f| - 1] == NEWLINE;
    }
  }

  /** Reading one object, as the loop body of `_git_blob_payloads` does. */
  method ReadFrame(s: seq<Byte>, offset: nat, oid: Oid, size: nat) returns (r: Option<(seq<Byte>, nat)>)
    requires offset <= |s| && Word(oid)
    ensures r.Some? <==> FrameAt(s, offset, oid, size)
    ensures r.Some? ==> var start := offset + |Header(oid, size)| + 1;
                        start + size + 1 <= |s| && r.value == (s[start..start + size], start + size + 1)
  {
    hide Header, Split;
    HeaderFacts(oid, size);
    var newline := Find(s, NEWLINE, offset);
    if newline.None? {
      return None;
    }
    HeaderEnds(s, offset, oid, size, newline.value);
    var words := Split(s[offset..newline.value]);
    if words != [oid, BLOB, Decimal.Digits(size)] {
      return None;
    }
    var start := newline.value + 1;
    var end := start + size;
    if end >= |s| || s[end] != NEWLINE {
      return None;
    }
    return Some((s[start..end], end + 1));
  }

  lemma HeaderEnds(s: seq<Byte>, offset: nat, oid: Oid, size: nat, newline: nat)
    requires Free(Header(oid, size), NEWLINE) && offset <= newline < |s|
    requires s[newline] == NEWLINE && forall i :: offset <= i < newline ==> s[i] != NEWLINE
    ensures FrameAt(s, offset, oid, size) ==> newline == offset + |Header(oid, size)|
  {
    hide Header;
    if FrameAt(s, offset, oid, size) {
      var h := Header(oid, size);
      forall i | offset <= i < offset + |h| ensures s[i] != NEWLINE {
        assert s[i] == s[offset..offset + |h|][i - offset];
      }
    }
  }

  lemma {:induction false} StreamPrefix(oids: seq<Oid>, payloads: seq<seq<Byte>>, k: nat)
    requires |oids| == |payloads| && k < |oids|
    ensures Stream(oids[..k], payloads[..k]) + Frame(oids[k], payloads[k]) == Stream(oids[..k + 1], payloads[..k + 1])
    ensures Stream(oids[..k + 1], payloads[..k + 1]) <= Stream(oids, payloads)
    decreases |oids|
  {
    hide Frame;
    assert oids[..k + 1][..k] == oids[..k] && payloads[..k + 1][..k] == payloads[..k];
    var n := |oids| - 1;
    if k < n {
      StreamPrefix(oids[..n], payloads[..n], k);
      assert oids[..n][..k + 1] == oids[..k + 1] && payloads[..n][..k + 1] == payloads[..k + 1];
    } else {
      assert oids[..k + 1] == oids && payloads[..k + 1] == payloads;
    }
  }

  /** In a framed stream, the next object stands right after the objects before it. */
  lemma FramedNext(stream: seq<Byte>, oids: seq<Oid>, sizes: map<Oid, nat>, payloads: seq<seq<Byte>>, k: nat)
    requires Frames(stream, oids, sizes, payloads) && k < |oids|
    ensures var offset := |Stream(oids[..k], payloads[..k])|;
            var start := offset + |Header(oids[k], sizes[oids[k]])| + 1;
            && FrameAt(stream, offset, oids[k], sizes[oids[k]])
            && stream[start..start + sizes[oids[k]]] == payloads[k]
  {
    hide FrameAt, Header, Frame, Stream;
    StreamPrefix(oids, payloads, k);
    var before, after := Stream(oids[..k], payloads[..k]), Stream(oids[..k + 1], payloads[..k + 1]);
    var f := Frame(oids[k], payloads[k]);
    assert after == stream[..|after|];
    assert stream[|before|..|before| + |f|] == after[|before|..] == f;
    FrameIsAt(stream, |before|, oids[k], payloads[k]);
  }

  /** Two framings of one stream with the same sizes carry the same payloads. */
  lemma {:induction false} FramesUnique(stream: seq<Byte>, oids: seq<Oid>, sizes: map<Oid, nat>,
                                        p: seq<seq<Byte>>, q: seq<seq<Byte>>, k: nat)
    requires Frames(stream, oids, sizes, p) && Frames(stream, oids, sizes, q) && k <= |oids|
    ensures p[..k] == q[..k]
  {
    hide FrameAt, Header, Frame, Stream;
    if k > 0 {
      FramesUnique(stream, oids, sizes, p, q, k - 1);
      FramedNext(stream, oids, sizes, p, k - 1);
      FramedNext(stream, oids, sizes, q, k - 1);
      assert p[..k] == p[..k - 1] + [p[k - 1]] && q[..k] == q[..k - 1] + [q[k - 1]];
    }
  }

  /**
   * The parsing part of `_git_blob_payloads`: it accepts exactly the framed streams, whatever the
   * payloads contain, and returns their payloads with nothing left over.
   */
  method ParseBatch(stream: seq<Byte>, oids: seq<Oid>, sizes: map<Oid, nat>)
    returns (r: Result<map<Oid, seq<Byte>>, ParseError>, ghost payloads: seq<seq<Byte>>)
    requires Words(oids) && forall i :: 0 <= i < |oids| ==> oids[i] in sizes
    ensures r.Ok? ==> Frames(stream, oids, sizes, payloads) && r.value == Results(oids, payloads)
    ensures r.Err? ==> forall ps :: !Frames(stream, oids, sizes, ps)
  {
    hide FrameAt, Header, Frame, Stream, Results;
    var result: map<Oid, seq<Byte>>, offset: nat := map[], 0;
    payloads := [];
    StartEmpty();
    assert oids[..0] == [];
    for k := 0 to |oids|
      invariant offset <= |stream| && |payloads| == k
      invariant Frames(stream[..offset], oids[..k], sizes, payloads)
      invariant result == Results(oids[..k], payloads)
    {
      var size := sizes[oids[k]];
      var next := ReadFrame(stream, offset, oids[k], size);
      if next.None? {
        forall ps ensures !Frames(stream, oids, sizes, ps) {
          if Frames(stream, oids, sizes, ps) {
            PrefixOffset(stream, oids, sizes, ps, payloads, offset, k);
            FramedNext(stream, oids, sizes, ps, k);
          }
        }
        r := Err(BadFormat);
        return;
      }
      ExtendFrames(stream, oids, sizes, payloads, offset, k, next.value.0);
      ExtendResults(oids, payloads, k, next.value.0);
      result := result[oids[k] := next.value.0];
      payloads := payloads + [next.value.0];
      offset := next.value.1;
    }
    assert oids[..|oids|] == oids;
    if offset != |stream| {
      forall ps ensures !Frames(stream, oids, sizes, ps) {
        if Frames(stream, oids, sizes, ps) {
          PrefixOffset(stream, oids, sizes, ps, payloads, offset, |oids|);
        }
      }
      r := Err(BadFormat);
      return;
    }
    assert stream[..offset] == stream;
    r := Ok(result);
  }

  lemma StartEmpty()
    ensures Stream([], []) == [] && Results([], []) == map[]
  {}

  lemma ExtendResults(oids: seq<Oid>, payloads: seq<seq<Byte>>, k: nat, p: seq<Byte>)
    requires k < |oids| && |payloads| == k
    ensures Results(oids[..k + 1], payloads + [p]) == Results(oids[..k], payloads)[oids[k] := p]
  {
    assert oids[..k + 1][..k] == oids[..k] && (payloads + [p])[..k] == payloads;
  }

  lemma ExtendFrames(stream: seq<Byte>, oids: seq<Oid>, sizes: map<Oid, nat>, payloads: seq<seq<Byte>>,
                     offset: nat, k: nat, p: seq<Byte>)
    requires k < |oids| && offset <= |stream| && oids[k] in sizes
    requires Frames(stream[..offset], oids[..k], sizes, payloads)
    requires FrameAt(stream, offset, oids[k], sizes[oids[k]])
    requires var start := offset + |Header(oids[k], sizes[oids[k]])| + 1;
             start + sizes[oids[k]] <= |stream| && p == stream[start..start + sizes[oids[k]]]
    ensures var end := offset + FrameLength(oids[k], sizes[oids[k]]);
            end <= |stream| && Frames(stream[..end], oids[..k + 1], sizes, payloads + [p])
  {
    var end := offset + FrameLength(oids[k], sizes[oids[k]]);
    assert end <= |stream|;
    hide Header;
    FrameIsAt(stream, offset, oids[k], p);
    assert oids[..k + 1][..k] == oids[..k] && (payloads + [p])[..k] == payloads;
    assert stream[..end] == stream[..offset] + stream[offset..end];
  }

  /** The sizes alone decide where the objects of a framed stream end. */
  lemma {:induction false} PrefixOffset(stream: seq<Byte>, oids: seq<Oid>, sizes: map<Oid, nat>, ps: seq<seq<Byte>>,
                                        payloads: seq<seq<Byte>>, offset: nat, k: nat)
    requires k <= |oids| && |payloads| == k && offset <= |stream|
    requires Frames(stream, oids, sizes, ps) && Frames(stream[..offset], oids[..k], sizes, payloads)
    ensures |Stream(oids[..k], ps[..k])| == offset
    ensures k == |oids| ==> offset == |stream|
  {
    hide FrameAt, Header, Frame, Stream;
    SameLength(oids[..k], payloads, ps[..k]);
    if k == |oids| { assert oids[..k] == oids && ps[..k] == ps; }
  }

  lemma {:induction false} SameLength(oids: seq<Oid>, p: seq<seq<Byte>>, q: seq<seq<Byte>>)
    requires |p| == |oids| == |q| && forall i :: 0 <= i < |oids| ==> |p[i]| == |q[i]|
    ensures |Stream(oids, p)| == |Stream(oids, q)|
  {
    if oids != [] {
      var n := |oids| - 1;
      SameLength(oids[..n], p[..n], q[..n]);
    }
  }

  /** Round trip for distinct object ids: every payload comes back under its own id. */
  lemma BatchRoundTrip(oids: seq<Oid>, sizes: map<Oid, nat>, payloads: seq<seq<Byte>>, parsed: seq<seq<Byte>>)
    requires Words(oids) && forall j, k :: 0 <= j < k < |oids| ==> oids[j] != oids[k]
    requires |payloads| == |oids|
    requires Frames(Stream(oids, payloads), oids, sizes, payloads) && Frames(Stream(oids, payloads), oids, sizes, parsed)
    ensures parsed == payloads
    ensures forall i :: 0 <= i < |oids| ==>
              oids[i] in Results(oids, parsed) && Results(oids, parsed)[oids[i]] == payloads[i]
  {
    hide FrameAt, Header, Frame, Stream, Results;
    FramesUnique(Stream(oids, payloads), oids, sizes, parsed, payloads, |oids|);
    assert parsed[..|oids|] == parsed && payloads[..|oids|] == payloads;
    forall i | 0 <= i < |oids|
      ensures oids[i] in Results(oids, parsed) && Results(oids, parsed)[oids[i]] == payloads[i]
    {
      ResultsDistinct(oids, parsed, i);
    }
  }

  // ----- The size listing -----

  const MAX_TRACKED_FILE_BYTES := 16 * 1024 * 1024

  /** `bytes.splitlines()`: lines end at "\n", "\r" or "\r\n"; a final terminator opens no further line. */
  function SplitLines(s: seq<Byte>): seq<seq<Byte>>
    decreases |s|
  {
    if s == [] then [] else
    var i := LineEnd(s, 0);
    if i == |s| then [s]
    else if s[i] == RETURN && i + 1 < |s| && s[i + 1] == NEWLINE then [s[..i]] + SplitLines(s[i + 2..])
    else [s[..i]] + SplitLines(s[i + 1..])
  }

  function LineEnd(s: seq<Byte>, from: nat): (i: nat)
    requires from <= |s|
    ensures from <= i <= |s| && (i < |s| ==> s[i] == NEWLINE || s[i] == RETURN)
    ensures forall k :: from <= k < i ==> s[k] != NEWLINE && s[k] != RETURN
    decreases |s| - from
  {
    if from == |s| || s[from] == NEWLINE || s[from] == RETURN then from else LineEnd(s, from + 1)
  }

  lemma SplitLinesFirst(line: seq<Byte>, rest: seq<Byte>)
    requires Free(line, NEWLINE) && Free(line, RETURN)
    ensures SplitLines(line + [NEWLINE] + rest) == [line] + SplitLines(rest)
  {
    var s := line + [NEWLINE] + rest;
    assert s[|line|] == NEWLINE && forall k :: 0 <= k < |line| ==> s[k] == line[k];
    var i := LineEnd(s, 0);
    assert i == |line|;
    assert s[..i] == line && s[i + 1..] == rest;
  }

  /** How text is cut into lines; these five cases determine it. */
  lemma SplitLinesCases(line: seq<Byte>, rest: seq<Byte>)
    requires forall i :: 0 <= i < |line| ==> line[i] != 10 && line[i] != 13
    ensures SplitLines([]) == []
    ensures line != [] ==> SplitLines(line) == [line]
    ensures SplitLines(line + [10] + rest) == [line] + SplitLines(rest)
    ensures SplitLines(line + [13, 10] + rest) == [line] + SplitLines(rest)
    ensures rest == [] || rest[0] != 10 ==> SplitLines(line + [13] + rest) == [line] + SplitLines(rest)
  {
    hide SplitLines;
    SplitLinesFirst(line, rest);
    EmptyLines();
    if line != [] {
      LastLine(line);
    }
    ReturnNewline(line, rest);
    if rest == [] || rest[0] != 10 {
      ReturnAlone(line, rest);
    }
  }

  lemma LastLine(line: seq<Byte>)
    requires line != [] && forall i :: 0 <= i < |line| ==> line[i] != 10 && line[i] != 13
    ensures SplitLines(line) == [line]
  {
    assert LineEnd(line, 0) == |line|;
  }

  lemma ReturnNewline(line: seq<Byte>, rest: seq<Byte>)
    requires forall i :: 0 <= i < |line| ==> line[i] != 10 && line[i] != 13
    ensures SplitLines(line + [13, 10] + rest) == [line] + SplitLines(rest)
  {
    ReturnEnds(line, [10] + rest);
    var s := line + [13, 10] + rest;
    assert s == line + [13] + ([10] + rest) && s[|line| + 1] == 10 && s[|line| + 2..] == rest;
  }

  lemma ReturnAlone(line: seq<Byte>, rest: seq<Byte>)
    requires forall i :: 0 <= i < |line| ==> line[i] != 10 && line[i] != 13
    requires rest == [] || rest[0] != 10
    ensures SplitLines(line + [13] + rest) == [line] + SplitLines(rest)
  {
    ReturnEnds(line, rest);
    var s := line + [13] + rest;
    assert s[|line| + 1..] == rest && (rest != [] ==> s[|line| + 1] == rest[0]);
  }

  lemma ReturnEnds(line: seq<Byte>, rest: seq<Byte>)
    requires forall i :: 0 <= i < |line| ==> line[i] != 10 && line[i] != 13
    ensures var s := line + [13] + rest; LineEnd(s, 0) == |line| && s[|line|] == 13 && s[..|line|] == line
  {
    var s := line + [13] + rest;
    assert s[|line|] == 13 && forall k :: 0 <= k < |line| ==> s[k] == line[k];
  }

  /** What `git cat-file --batch-check` prints for blobs of these sizes. */
  function Listing(oids: seq<Oid>, sizes: seq<nat>): seq<Byte>
    requires |oids| == |sizes|
  {
    if oids == [] then [] else Header(oids[0], sizes[0]) + [NEWLINE] + Listing(oids[1..], sizes[1..])
  }

  function Headers(oids: seq<Oid>, sizes: seq<nat>): seq<seq<Byte>>
    requires |oids| == |sizes|
  {
    seq(|oids|, i requires 0 <= i < |oids| => Header(oids[i], sizes[i]))
  }

  predicate PlainWords(oids: seq<Oid>) {
    Words(oids) && forall i :: 0 <= i < |oids| ==> Free(oids[i], RETURN)
  }

  lemma {:induction false} ListingLines(oids: seq<Oid>, sizes: seq<nat>)
    requires |oids| == |sizes| && PlainWords(oids)
    ensures SplitLines(Listing(oids, sizes)) == Headers(oids, sizes)
  {
    hide SplitLines;
    if oids == [] {
      EmptyLines();
    } else {
      var h := Header(oids[0], sizes[0]);
      HeaderFacts(oids[0], sizes[0]);
      assert Free(h, RETURN);
      SplitLinesFirst(h, Listing(oids[1..], sizes[1..]));
      ListingLines(oids[1..], sizes[1..]);
      assert Headers(oids, sizes) == [h] + Headers(oids[1..], sizes[1..]);
    }
  }

  lemma EmptyLines()
    ensures SplitLines([]) == []
  {}

  /** `re.fullmatch(rb"0|[1-9][0-9]*", s)`. */
  predicate SizeText(s: seq<Byte>) {
    |s| >= 1 && Decimal.AllDigits(s) && (|s| > 1 ==> s[0] != 48)
  }

  /** The pattern admits exactly the canonical decimals. */
  lemma SizeTextIffCanonical(s: seq<Byte>)
    ensures SizeText(s) <==> exists n: nat :: s == Decimal.Digits(n)
  {
    if SizeText(s) {
      Decimal.DigitsParse(s);
    }
  }

  /** One line of the listing: exactly `oid blob size` with a canonical size. */
  lemma LineIff(line: seq<Byte>, oid: Oid, size: nat)
    requires Word(oid)
    ensures line == Header(oid, size) <==>
            var w := Split(line); |w| == 3 && w[0] == oid && w[1] == BLOB && SizeText(w[2]) && Decimal.Parse(w[2]) == size
  {
    hide Split, Header;
    HeaderFacts(oid, size);
    var w := Split(line);
    Decimal.ParseDigits(size);
    assert |w| == 3 ==> w == [w[0], w[1], w[2]];
    if |w| == 3 && SizeText(w[2]) && Decimal.Parse(w[2]) == size {
      Decimal.DigitsParse(w[2]);
    }
  }

  /** These lines list these object ids with these sizes, none above the file bound. */
  predicate Lists(lines: seq<seq<Byte>>, oids: seq<Oid>, sizes: seq<nat>) {
    && |lines| == |oids| == |sizes|
    && lines == Headers(oids, sizes)
    && (forall i :: 0 <= i < |sizes| ==> sizes[i] <= MAX_TRACKED_FILE_BYTES)
  }

  /** Line by line and in bytes: the id, " blob " and the canonical digits of a size of at most 16 MiB. */
  lemma ListsIff(lines: seq<seq<Byte>>, oids: seq<Oid>, sizes: seq<nat>)
    ensures Lists(lines, oids, sizes) <==>
            && |lines| == |oids| == |sizes|
            && forall i :: 0 <= i < |lines| ==>
                 sizes[i] <= 16_777_216 && lines[i] == oids[i] + [32, 98, 108, 111, 98, 32] + Decimal.Digits(sizes[i])
  {
    if |lines| == |oids| == |sizes| {
      forall i | 0 <= i < |lines| ensures Header(oids[i], sizes[i]) == oids[i] + [32, 98, 108, 111, 98, 32] + Decimal.Digits(sizes[i]) {
        assert [32] + (BLOB + [32]) == [32, 98, 108, 111, 98, 32];
      }
    }
  }

  /** The parsing part of `_git_blob_sizes`: accepts exactly the well-formed listings within the bound. */
  method ParseSizes(payload: seq<Byte>, oids: seq<Oid>) returns (r: Result<map<Oid, nat>, ParseError>, ghost sizes: seq<nat>)
    requires Words(oids)
    ensures r.Ok? ==> Lists(SplitLines(payload), oids, sizes)
    ensures r.Ok? ==> r.value.Keys == (set i | 0 <= i < |oids| :: oids[i])
    ensures r.Ok? ==> forall i :: 0 <= i < |oids| && (forall j :: i < j < |oids| ==> oids[j] != oids[i]) ==> r.value[oids[i]] == sizes[i]
    ensures r.Err? ==> forall ss :: !Lists(SplitLines(payload), oids, ss)
  {
    hide SplitLines, Split, Header;
    var lines := SplitLines(payload);
    sizes := [];
    if |lines| != |oids| {
      r := Err(BadFormat);
      return;
    }
    var result: map<Oid, nat> := map[];
    for i := 0 to |oids|
      invariant |sizes| == i && forall k :: 0 <= k < i ==> lines[k] == Header(oids[k], sizes[k])
      invariant forall k :: 0 <= k < i ==> sizes[k] <= MAX_TRACKED_FILE_BYTES
      invariant forall x :: x in result <==> exists k :: 0 <= k < i && oids[k] == x
      invariant forall k :: 0 <= k < i && (forall j :: k < j < i ==> oids[j] != oids[k]) ==> result[oids[k]] == sizes[k]
    {
      var words := Split(lines[i]);
      if |words| != 3 || words[0] != oids[i] || words[1] != BLOB || !SizeText(words[2]) {
        forall ss ensures !Lists(lines, oids, ss) {
          if Lists(lines, oids, ss) {
            LineIff(lines[i], oids[i], ss[i]);
          }
        }
        r := Err(BadFormat);
        return;
      }
      var size := Decimal.Parse(words[2]);
      LineIff(lines[i], oids[i], size);
      if size > MAX_TRACKED_FILE_BYTES {
        forall ss ensures !Lists(lines, oids, ss) {
          if Lists(lines, oids, ss) {
            LineIff(lines[i], oids[i], ss[i]);
          }
        }
        r := Err(TooLarge);
        return;
      }
      result := result[oids[i] := size];
      sizes := sizes + [size];
    }
    assert lines == Headers(oids, sizes);
    r := Ok(result);
  }

  /** Git's own listing is accepted and gives the sizes it was printed from. */
  lemma ListingAccepted(oids: seq<Oid>, sizes: seq<nat>)
    requires PlainWords(oids) && |sizes| == |oids| && forall i :: 0 <= i < |sizes| ==> sizes[i] <= MAX_TRACKED_FILE_BYTES
    ensures Lists(SplitLines(Listing(oids, sizes)), oids, sizes)
  {
    ListingLines(oids, sizes);
  }
}
