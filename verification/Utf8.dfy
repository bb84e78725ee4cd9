/** Reading a span of a UTF-8 file without its partial edge characters. */
module Utf8 {

  type Byte = bv8
  type Bytes = seq<Byte>

  predicate IsContinuation(b: Byte) { b & 0xC0 == 0x80 }

  /** How many bytes the sequence starting at `b` occupies, or 0 when `b` cannot start one. */
  function SequenceLength(b: Byte): nat {
    if b < 0x80 then 1
    else if b < 0xC0 then 0
    else if b < 0xE0 then 2
    else if b < 0xF0 then 3
    else if b < 0xF8 then 4
    else 0
  }

  /** How many leading bytes, three at most, continue a character begun earlier. */
  function LeadingPart(buffer: Bytes, from: nat): (start: nat)
    requires from <= |buffer| && from <= 3
    ensures from <= start <= |buffer| && start <= 3
    decreases |buffer| - from
  {
    if from < |buffer| && from < 3 && IsContinuation(buffer[from]) then LeadingPart(buffer, from + 1) else from
  }

  /** The last byte, at `start` or after it, that begins something. */
  function LastBegun(buffer: Bytes, start: nat, last: int): (r: int)
    requires last < |buffer|
    ensures r <= last && (start <= last ==> start <= r)
    decreases last
  {
    if last > start && IsContinuation(buffer[last]) then LastBegun(buffer, start, last - 1) else last
  }

  function WholeEnd(buffer: Bytes, start: nat): (end: nat)
    ensures end <= |buffer|
  {
    var last := LastBegun(buffer, start, |buffer| - 1);
    if last >= start && SequenceLength(buffer[last]) != 0 && last + SequenceLength(buffer[last]) > |buffer|
    then last else |buffer|
  }

  function WholeStart(buffer: Bytes, trimLeading: bool): (start: nat)
    ensures start <= |buffer| && start <= 3
  {
    if trimLeading then LeadingPart(buffer, 0) else 0
  }

  function Decoded(buffer: Bytes, trimLeading: bool): Bytes {
    var start := WholeStart(buffer, trimLeading);
    var end := WholeEnd(buffer, start);
    if start < end then buffer[start..end] else []
  }

  method DecodeChunk(buffer: Bytes, trimLeading: bool) returns (chunk: Bytes)
    ensures chunk == Decoded(buffer, trimLeading)
  {
    if |buffer| == 0 {
      return [];
    }
    var start := 0;
    if trimLeading {
      while start < |buffer| && start < 3 && IsContinuation(buffer[start])
        invariant start <= |buffer| && start <= 3
        invariant LeadingPart(buffer, 0) == LeadingPart(buffer, start)
      {
        start := start + 1;
      }
    }
    var end := |buffer|;
    var last := |buffer| - 1;
    while last > start && IsContinuation(buffer[last])
      invariant last < |buffer|
      invariant LastBegun(buffer, start, |buffer| - 1) == LastBegun(buffer, start, last)
    {
      last := last - 1;
    }
    if last >= start {
      var need := SequenceLength(buffer[last]);
      if need != 0 && last + need > |buffer| {
        end := last;
      }
    }
    return if start >= end then [] else buffer[start..end];
  }

  /** Main result: whatever the bytes, what is read is the buffer less at most three bytes at each end: in front
      only continuation bytes, and as many of them as there are; behind only the last sequence begun, when it
      is cut short. */
  lemma {:induction false} DecodedExactly(buffer: Bytes, trimLeading: bool) returns (start: nat, end: nat)
    ensures start <= 3 && start <= |buffer| && end <= |buffer| && |buffer| <= end + 3
    ensures Decoded(buffer, trimLeading) == if start < end then buffer[start..end] else []
    ensures forall i :: 0 <= i < start ==> IsContinuation(buffer[i])
    ensures if trimLeading then start == 3 || start == |buffer| || !IsContinuation(buffer[start]) else start == 0
    ensures end < |buffer| ==> start <= end && CutShort(buffer, end)
    ensures end == |buffer| ==> forall i :: start <= i < |buffer| && (i == start || !IsContinuation(buffer[i])) ==> !CutShort(buffer, i)
  {
    start := WholeStart(buffer, trimLeading);
    end := WholeEnd(buffer, start);
    if trimLeading { LeadingExactly(buffer, 0); }
    EndExactly(buffer, start);
  }

  /** What begins at `i` goes on to the end of the buffer, and past it. */
  ghost predicate CutShort(buffer: Bytes, i: nat)
    requires i < |buffer|
  {
    |buffer| < i + Announced(buffer[i]) && forall k :: i < k < |buffer| ==> IsContinuation(buffer[k])
  }

  /** How long a sequence its first byte announces, by its leading bits. */
  function Announced(b: Byte): nat {
    if b & 0x80 == 0 then 1 else if b & 0xE0 == 0xC0 then 2 else if b & 0xF0 == 0xE0 then 3
    else if b & 0xF8 == 0xF0 then 4 else 0
  }

  lemma AnnouncedExactly(b: Byte)
    ensures Announced(b) == SequenceLength(b)
  {
  }

  lemma EndExactly(buffer: Bytes, start: nat)
    ensures var end := WholeEnd(buffer, start);
            && |buffer| <= end + 3 && (end < |buffer| ==> start <= end && CutShort(buffer, end))
            && (end == |buffer| ==>
                  forall i :: start <= i < |buffer| && (i == start || !IsContinuation(buffer[i])) ==> !CutShort(buffer, i))
  {
    LastBegunFinds(buffer, start, |buffer| - 1);
    forall b ensures Announced(b) == SequenceLength(b) {
      AnnouncedExactly(b);
    }
  }

  lemma {:induction false} LeadingExactly(buffer: Bytes, from: nat)
    requires from <= |buffer| && from <= 3
    ensures var s := LeadingPart(buffer, from);
            && (forall i :: from <= i < s ==> IsContinuation(buffer[i]))
            && (s == 3 || s == |buffer| || !IsContinuation(buffer[s]))
    decreases |buffer| - from
  {
    if from < |buffer| && from < 3 && IsContinuation(buffer[from]) { LeadingExactly(buffer, from + 1); }
  }

  // ----- Well-formed files: section 4 of RFC 3629 -----

  predicate Tail(b: Byte) { 0x80 <= b <= 0xBF }

  predicate IsChar(c: Bytes) {
    || (|c| == 1 && c[0] <= 0x7F)
    || (|c| == 2 && 0xC2 <= c[0] <= 0xDF && Tail(c[1]))
    || (|c| == 3 && c[0] == 0xE0 && 0xA0 <= c[1] <= 0xBF && Tail(c[2]))
    || (|c| == 3 && 0xE1 <= c[0] <= 0xEC && Tail(c[1]) && Tail(c[2]))
    || (|c| == 3 && c[0] == 0xED && 0x80 <= c[1] <= 0x9F && Tail(c[2]))
    || (|c| == 3 && 0xEE <= c[0] <= 0xEF && Tail(c[1]) && Tail(c[2]))
    || (|c| == 4 && c[0] == 0xF0 && 0x90 <= c[1] <= 0xBF && Tail(c[2]) && Tail(c[3]))
    || (|c| == 4 && 0xF1 <= c[0] <= 0xF3 && Tail(c[1]) && Tail(c[2]) && Tail(c[3]))
    || (|c| == 4 && c[0] == 0xF4 && 0x80 <= c[1] <= 0x8F && Tail(c[2]) && Tail(c[3]))
  }

  lemma CharShape(c: Bytes)
    requires IsChar(c)
    ensures 1 <= |c| <= 4 && SequenceLength(c[0]) == |c| && !IsContinuation(c[0])
    ensures forall i :: 1 <= i < |c| ==> IsContinuation(c[i])
  {
  }

  function File(chars: seq<Bytes>): Bytes {
    if chars == [] then [] else chars[0] + File(chars[1..])
  }

  /** `p` lies between two characters, or at either end of the file. */
  ghost predicate IsBoundary(chars: seq<Bytes>, p: nat) {
    exists k :: 0 <= k <= |chars| && p == |File(chars[..k])|
  }

  predicate WellFormed(chars: seq<Bytes>) { forall c :: c in chars ==> IsChar(c) }

  lemma {:induction false} FileSplits(chars: seq<Bytes>, k: nat)
    requires k <= |chars|
    ensures File(chars) == File(chars[..k]) + File(chars[k..])
    decreases chars
  {
    if k == 0 {
      assert chars[..0] == [] && chars[0..] == chars;
    } else {
      FileSplits(chars[1..], k - 1);
      assert chars[..k][1..] == chars[1..][..k - 1] && chars[1..][k - 1..] == chars[k..];
    }
  }

  /** Character `k` occupies the bytes between two consecutive boundaries. */
  lemma CharInFile(chars: seq<Bytes>, k: nat)
    requires k < |chars|
    ensures var p := |File(chars[..k])|;
            && p + |chars[k]| <= |File(chars)|
            && |File(chars[..k + 1])| == p + |chars[k]|
            && File(chars)[p..p + |chars[k]|] == chars[k]
  {
    FileSplits(chars, k);
    FileSplits(chars[..k + 1], k);
    assert chars[..k + 1][..k] == chars[..k] && chars[..k + 1][k..] == [chars[k]];
    assert File([chars[k]]) == chars[k] + File([]);
    assert chars[k..][0] == chars[k];
  }

  lemma {:induction false} CharHolding(chars: seq<Bytes>, p: nat) returns (k: nat)
    requires p < |File(chars)|
    ensures k < |chars| && |File(chars[..k])| <= p < |File(chars[..k])| + |chars[k]|
    decreases chars
  {
    if p < |chars[0]| {
      k := 0;
      assert chars[..0] == [];
    } else {
      k := CharHolding(chars[1..], p - |chars[0]|);
      k := k + 1;
      assert chars[..k][1..] == chars[1..][..k - 1];
    }
  }

  lemma CharAt(chars: seq<Bytes>, k: nat)
    requires WellFormed(chars) && k < |chars|
    ensures var p, n := |File(chars[..k])|, |chars[k]|;
            && 1 <= n <= 4 && p + n <= |File(chars)| && p + n == |File(chars[..k + 1])|
            && !IsContinuation(File(chars)[p]) && SequenceLength(File(chars)[p]) == n
            && forall q :: p < q < p + n ==> IsContinuation(File(chars)[q])
  {
    CharInFile(chars, k);
    CharShape(chars[k]);
    var p, n := |File(chars[..k])|, |chars[k]|;
    assert File(chars)[p] == File(chars)[p..p + n][0];
    forall q | p < q < p + n ensures IsContinuation(File(chars)[q]) {
      assert File(chars)[q] == File(chars)[p..p + n][q - p];
    }
  }

  /** In a well-formed file the boundaries are the end and the bytes that continue nothing. */
  lemma BoundaryExactly(chars: seq<Bytes>, p: nat)
    requires WellFormed(chars) && p <= |File(chars)|
    ensures IsBoundary(chars, p) <==> p == |File(chars)| || !IsContinuation(File(chars)[p])
  {
    assert chars[..|chars|] == chars;
    if p < |File(chars)| {
      var k := CharHolding(chars, p);
      CharAt(chars, k);
      if IsBoundary(chars, p) {
        var j :| 0 <= j <= |chars| && p == |File(chars[..j])|;
        CharAt(chars, j);
      }
    }
  }

  /** A byte that begins a character says where the next boundary is. */
  lemma NextBoundary(chars: seq<Bytes>, p: nat)
    requires WellFormed(chars) && p < |File(chars)| && !IsContinuation(File(chars)[p])
    ensures var n := SequenceLength(File(chars)[p]);
            && 1 <= n <= 4 && p + n <= |File(chars)| && IsBoundary(chars, p + n)
            && forall q :: p < q < p + n ==> IsContinuation(File(chars)[q])
  {
    var k := CharHolding(chars, p);
    CharAt(chars, k);
    assert p == |File(chars[..k])|;
    assert p + |chars[k]| == |File(chars[..k + 1])|;
  }

  /** Within three bytes of any position there is one that continues nothing, or the end. */
  lemma BoundaryAhead(chars: seq<Bytes>, p: nat) returns (b: nat)
    requires WellFormed(chars) && p <= |File(chars)|
    ensures p <= b <= p + 3 && b <= |File(chars)| && IsBoundary(chars, b)
    ensures forall q :: p <= q < b ==> IsContinuation(File(chars)[q])
  {
    BoundaryExactly(chars, p);
    if IsBoundary(chars, p) {
      b := p;
    } else {
      var k := CharHolding(chars, p);
      CharAt(chars, k);
      b := |File(chars[..k + 1])|;
    }
  }

  // ----- What the trimming scans find -----

  lemma {:induction false} LeadingPartFinds(buffer: Bytes, from: nat)
    requires from <= |buffer| && from <= 3
    ensures var start := LeadingPart(buffer, from);
            && (forall i :: from <= i < start ==> IsContinuation(buffer[i]))
            && (start < |buffer| && start < 3 ==> !IsContinuation(buffer[start]))
    decreases |buffer| - from
  {
    if from < |buffer| && from < 3 && IsContinuation(buffer[from]) {
      LeadingPartFinds(buffer, from + 1);
    }
  }

  lemma {:induction false} LastBegunFinds(buffer: Bytes, start: nat, last: int)
    requires last < |buffer|
    ensures var r := LastBegun(buffer, start, last);
            && (forall i :: r < i <= last && start < i ==> IsContinuation(buffer[i]))
            && (r > start ==> !IsContinuation(buffer[r]))
    decreases last
  {
    if last > start && IsContinuation(buffer[last]) {
      LastBegunFinds(buffer, start, last - 1);
    }
  }

  /** A span of whole characters inside the window [from, to). */
  ghost predicate WholeRun(chars: seq<Bytes>, from: nat, to: nat, s: nat, e: nat) {
    from <= s <= e <= to && IsBoundary(chars, s) && IsBoundary(chars, e)
  }

  /** Where the whole characters of a window start. */
  lemma WindowStart(chars: seq<Bytes>, from: nat, to: nat) returns (s: nat)
    requires WellFormed(chars) && from <= to <= |File(chars)|
    ensures s == from + WholeStart(File(chars)[from..to], from > 0) && s <= to
    ensures s < to ==> IsBoundary(chars, s)
    ensures forall q :: from <= q < s ==> !IsBoundary(chars, q)
  {
    var buffer := File(chars)[from..to];
    s := from + WholeStart(buffer, from > 0);
    if from > 0 {
      LeadingPartFinds(buffer, 0);
      var b := BoundaryAhead(chars, from);
      forall q | from <= q < s ensures !IsBoundary(chars, q) {
        assert buffer[q - from] == File(chars)[q];
        BoundaryExactly(chars, q);
      }
      if s < to {
        assert buffer[s - from] == File(chars)[s];
        BoundaryExactly(chars, s);
      }
    } else {
      assert chars[..0] == [] && |File(chars[..0])| == 0;
    }
  }

  /** Within a window nothing but continuations follows the last character begun in it. */
  lemma InsideIsNoBoundary(chars: seq<Bytes>, from: nat, to: nat, buffer: Bytes, q: nat)
    requires WellFormed(chars) && from <= q < to <= |File(chars)| && buffer == File(chars)[from..to]
    requires forall i :: q - from < i < |buffer| ==> IsContinuation(buffer[i])
    ensures forall r :: q < r < to ==> !IsBoundary(chars, r)
  {
    forall r | q < r < to ensures !IsBoundary(chars, r) {
      assert buffer[r - from] == File(chars)[r];
      BoundaryExactly(chars, r);
    }
  }

  /** Where they end. */
  lemma WindowEnd(chars: seq<Bytes>, from: nat, to: nat, s: nat) returns (e: nat)
    requires WellFormed(chars) && from <= s < to <= |File(chars)| && IsBoundary(chars, s)
    ensures e == from + WholeEnd(File(chars)[from..to], s - from)
    ensures s <= e <= to <= e + 3 && IsBoundary(chars, e)
    ensures forall q :: e < q <= to ==> !IsBoundary(chars, q)
  {
    var buffer, start := File(chars)[from..to], s - from;
    var last := LastBegun(buffer, start, |buffer| - 1);
    LastBegunFinds(buffer, start, |buffer| - 1);
    e := from + WholeEnd(buffer, start);
    var q := from + last;
    assert buffer[last] == File(chars)[q];
    BoundaryExactly(chars, s);
    BoundaryExactly(chars, q);
    NextBoundary(chars, q);
    InsideIsNoBoundary(chars, from, to, buffer, q);
    LastCharacterEnds(chars, to, q, e);
  }

  /** The last character begun at `q` either ends the window or is cut by it. */
  lemma LastCharacterEnds(chars: seq<Bytes>, to: nat, q: nat, e: nat)
    requires WellFormed(chars) && q < to <= |File(chars)| && IsBoundary(chars, q) && !IsContinuation(File(chars)[q])
    requires forall r :: q < r < to ==> !IsBoundary(chars, r)
    requires e == if q + SequenceLength(File(chars)[q]) > to then q else to
    ensures e <= to <= e + 3 && IsBoundary(chars, e)
    ensures forall r :: e < r <= to ==> !IsBoundary(chars, r)
  {
    NextBoundary(chars, q);
    if e == q { BoundaryExactly(chars, to); }
  }

  lemma SpanOfSpan<T>(f: seq<T>, from: nat, to: nat, s: nat, e: nat)
    requires from <= s <= e <= to <= |f|
    ensures f[from..to][s - from..e - from] == f[s..e]
  {
    var a, b := f[from..to][s - from..e - from], f[s..e];
    assert |a| == |b|;
    forall i | 0 <= i < |b| ensures a[i] == b[i] {
      assert a[i] == f[from..to][s - from + i];
    }
    assert a == b;
  }

  /** Main result: of any window of a well-formed file, decoding returns exactly the longest run of whole
      characters inside it, dropping at most three bytes at each end. */
  lemma DecodesWholeCharacters(chars: seq<Bytes>, from: nat, to: nat) returns (s: nat, e: nat)
    requires WellFormed(chars) && from <= to <= |File(chars)|
    ensures from <= s <= from + 3 && s <= e <= to
    ensures Decoded(File(chars)[from..to], from > 0) == File(chars)[s..e]
    ensures s < e ==> WholeRun(chars, from, to, s, e) && to <= e + 3
    ensures forall s': nat, e': nat :: WholeRun(chars, from, to, s', e') && s' < e' ==> s <= s' && e' <= e
  {
    var buffer := File(chars)[from..to];
    s := WindowStart(chars, from, to);
    if s == to {
      e := s;
      assert Decoded(buffer, from > 0) == [];
    } else {
      e := WindowEnd(chars, from, to, s);
      if s < e {
        SpanOfSpan(File(chars), from, to, s, e);
      }
    }
  }

  lemma {:induction false} AsciiDecodesToItself(buffer: Bytes, trimLeading: bool)
    requires forall b :: b in buffer ==> b < 0x80
    ensures Decoded(buffer, trimLeading) == buffer
  {
    if buffer != [] {
      assert buffer[0] in buffer && !IsContinuation(buffer[0]);
      var last := |buffer| - 1;
      assert buffer[last] in buffer && !IsContinuation(buffer[last]) && SequenceLength(buffer[last]) == 1;
      assert LastBegun(buffer, 0, last) == last;
      assert buffer[0..|buffer|] == buffer;
    }
  }
}
