/** Paging a delimited text file by whole lines. */
module Tabular {
  import opened Utf8

  const NEWLINE: Byte := 0x0A

  datatype Page = Page(page: nat, pages: nat, loadOffset: nat, loadLength: nat)

  datatype Answer = Chunk(text: Bytes) | InvalidPage(page: nat, pages: nat) | NegativeSpan

  /** How many windows of `size` bytes it takes to cover a file. */
  function PageCount(size: int, fileSize: nat): nat
    decreases fileSize
  {
    if size <= 0 || fileSize == 0 then 0 else if fileSize <= size then 1 else 1 + PageCount(size, fileSize - size)
  }

  /** Where window `k` starts. */
  function Offset(size: nat, k: nat): nat { if k == 0 then 0 else Offset(size, k - 1) + size }

  /** The counts and offsets are what the service computes by dividing and multiplying. */
  lemma {:induction false} PageArithmetic(size: int, fileSize: nat, k: nat)
    ensures PageCount(size, fileSize) == if size <= 0 then 0 else (fileSize + size - 1) / size
    ensures 0 < size ==> Offset(size, k) == size * k
  {
    if 0 < size {
      var pages := PageCount(size, fileSize);
      PageCountIs(size, fileSize);
      OffsetFormula(size, pages);
      if 0 < pages { OffsetStep(size, pages - 1); }
      Quotient(size, pages, fileSize + size - 1 - size * pages);
      OffsetFormula(size, k);
    }
  }

  lemma {:induction false} Quotient(size: nat, q: nat, r: nat)
    requires r < size
    ensures (size * q + r) / size == q
  {
    var a := size * q + r;
    assert a == size * (a / size) + a % size;
    Nearest(size, q, a / size, r, a % size);
  }

  lemma {:induction false} Nearest(size: nat, p: nat, q: nat, r: nat, s: nat)
    requires r < size && s < size && size * p + r == size * q + s
    ensures p == q
  {
    if p < q {
      Apart(size, p, q);
    } else if q < p {
      Apart(size, q, p);
    }
  }

  lemma {:induction false} Apart(size: nat, p: nat, q: nat)
    requires p < q
    ensures size * p + size <= size * q
  {
    assert size * (q - 1) + size == size * q;
    if p < q - 1 { Apart(size, p, q - 1); }
  }

  lemma {:induction false} OffsetFormula(size: nat, k: nat)
    ensures Offset(size, k) == size * k
  {
    if 0 < k {
      OffsetFormula(size, k - 1);
      assert size * k == size * (k - 1) + size;
    }
  }

  /** The read that covers a page: beyond the first page it starts a page early and is twice as long. */
  function PlanTabularPage(page: nat, size: nat, fileSize: nat): Page
    requires 0 < page && 0 < size
  {
    var zeroBased := page - 1;
    var loadPage := if zeroBased != 0 then zeroBased - 1 else zeroBased;
    var length := if zeroBased != 0 then size * 2 else size;
    Page(zeroBased, PageCount(size, fileSize), Offset(size, loadPage), length)
  }

  /** Just after the last newline of the first `position + 1` bytes, not counting byte 0. */
  function LineStart(chunk: Bytes, position: int): (r: nat)
    requires position < |chunk|
    ensures r <= position + 1 || r == 0
    decreases position
  {
    if position <= 0 then 0
    else if chunk[position] == NEWLINE then position + 1
    else LineStart(chunk, position - 1)
  }

  /** Main result: a line start is just after the last line end up to the position, one in the very first byte
      not counting, or the beginning when there is none. */
  lemma {:induction false} LineStartExactly(chunk: Bytes, position: int)
    requires position < |chunk|
    ensures var r := LineStart(chunk, position);
            && (r == 0 || (2 <= r <= position + 1 && chunk[r - 1] == NEWLINE))
            && forall i :: 0 < i <= position && r <= i ==> chunk[i] != NEWLINE
    decreases position
  {
    if 0 < position && chunk[position] != NEWLINE { LineStartExactly(chunk, position - 1); }
  }

  function Clamped(chunk: Bytes, position: int): int {
    if position >= |chunk| then |chunk| - 1 else position
  }

  method SeekLineStart(chunk: Bytes, position: int) returns (offset: nat)
    ensures offset == LineStart(chunk, Clamped(chunk, position))
  {
    var from := position;
    if from >= |chunk| {
      from := |chunk| - 1;
    }
    if from <= 0 {
      return 0;
    }
    var i := from;
    while i > 0
      invariant i < |chunk|
      invariant LineStart(chunk, from) == LineStart(chunk, i)
    {
      if chunk[i] == NEWLINE {
        return i + 1;
      }
      i := i - 1;
    }
    return 0;
  }

  function TrimStart(chunk: Bytes, size: nat, page: Page): nat
    requires chunk != []
  {
    LineStart(chunk, Clamped(chunk, if page.page != 0 then size - 1 else 0))
  }

  function TrimEnd(chunk: Bytes, page: Page): nat
    requires chunk != []
    ensures TrimEnd(chunk, page) <= |chunk|
  {
    if page.page != page.pages - 1 then LineStart(chunk, |chunk| - 1) else |chunk|
  }

  function Trimmed(chunk: Bytes, size: nat, page: Page): Bytes {
    if chunk == [] || TrimStart(chunk, size, page) >= TrimEnd(chunk, page) then []
    else chunk[TrimStart(chunk, size, page)..TrimEnd(chunk, page)]
  }

  method TrimToWholeLines(chunk: Bytes, size: nat, page: Page) returns (lines: Bytes)
    ensures lines == Trimmed(chunk, size, page)
  {
    if |chunk| == 0 {
      return [];
    }
    var pageStart := 0;
    if page.page != 0 {
      pageStart := size - 1;
    }
    var start := SeekLineStart(chunk, pageStart);
    var end := |chunk|;
    if page.page != page.pages - 1 {
      end := SeekLineStart(chunk, |chunk| - 1);
    }
    if start >= end {
      return [];
    }
    return chunk[start..end];
  }

  function Span(file: Bytes, offset: nat, length: nat): Bytes {
    if offset >= |file| then []
    else
      var clamped := if length > |file| - offset then |file| - offset else length;
      Decoded(file[offset..offset + clamped], offset > 0)
  }

  /** Reads a span of a file as UTF-8, never past its end. */
  method Read(file: Bytes, offset: int, length: int) returns (answer: Answer)
    ensures answer == if offset < 0 || length < 0 then NegativeSpan else Chunk(Span(file, offset, length))
  {
    if offset < 0 || length < 0 {
      return NegativeSpan;
    }
    if offset >= |file| {
      return Chunk([]);
    }
    var clamped := length;
    var remaining := |file| - offset;
    if clamped > remaining {
      clamped := remaining;
    }
    var text := DecodeChunk(file[offset..offset + clamped], offset > 0);
    return Chunk(text);
  }

  /** The text of one page, numbered from one. */
  function PageText(file: Bytes, page: nat, size: nat): Bytes
    requires 0 < page && 0 < size
  {
    var plan := PlanTabularPage(page, size, |file|);
    Trimmed(Span(file, plan.loadOffset, plan.loadLength), size, plan)
  }

  /** One page past the last is answered, and anything beyond is refused. */
  method TabularChunk(file: Bytes, page: nat, size: nat) returns (answer: Answer)
    requires 0 < page && 0 < size
    ensures answer == if page - 1 > PageCount(size, |file|) then InvalidPage(page - 1, PageCount(size, |file|))
                      else Chunk(PageText(file, page, size))
  {
    var plan := PlanTabularPage(page, size, |file|);
    if plan.page > plan.pages {
      return InvalidPage(plan.page, plan.pages);
    }
    var raw := Read(file, plan.loadOffset, plan.loadLength);
    var lines := TrimToWholeLines(raw.text, size, plan);
    return Chunk(lines);
  }

  // ----- Pages as spans of the file -----

  predicate Ascii(file: Bytes) { forall b :: b in file ==> b < 0x80 }

  lemma OffsetStep(size: nat, k: nat)
    ensures Offset(size, k + 1) == Offset(size, k) + size
  {
  }

  lemma {:induction false} PageCountIs(size: nat, n: nat)
    requires 0 < size
    ensures var pages := PageCount(size, n);
            n <= Offset(size, pages) && (0 < pages ==> Offset(size, pages - 1) < n)
    decreases n
  {
    if size < n {
      PageCountIs(size, n - size);
      OffsetAfter(size, PageCount(size, n - size));
      if 0 < PageCount(size, n - size) { OffsetAfter(size, PageCount(size, n - size) - 1); }
    } else if 0 < n {
      OffsetStep(size, 0);
    }
  }

  lemma {:induction false} OffsetAfter(size: nat, k: nat)
    ensures Offset(size, k + 1) == size + Offset(size, k)
  {
    OffsetStep(size, k);
  }

  lemma {:induction false} OffsetGrows(size: nat, j: nat, k: nat)
    requires j <= k
    ensures Offset(size, j) <= Offset(size, k)
    decreases k
  {
    if j < k {
      OffsetGrows(size, j, k - 1);
      OffsetStep(size, k - 1);
    }
  }

  /** Just after the last newline in (lo, hi], or `lo`. */
  function FileSeek(file: Bytes, lo: nat, hi: nat): (r: nat)
    requires hi < |file|
    ensures lo <= r && (lo <= hi ==> r <= hi + 1)
    ensures r == lo || (lo < r <= |file| && file[r - 1] == NEWLINE)
    decreases hi
  {
    if hi <= lo then lo else if file[hi] == NEWLINE then hi + 1 else FileSeek(file, lo, hi - 1)
  }

  lemma {:induction false} SeekInWindow(file: Bytes, lo: nat, top: nat, position: nat)
    requires lo < top <= |file| && lo + position < top
    ensures FileSeek(file, lo, lo + position) == lo + LineStart(file[lo..top], position)
  {
    if 0 < position {
      assert file[lo..top][position] == file[lo + position];
      SeekInWindow(file, lo, top, position - 1);
    }
  }

  function Min(a: int, b: int): int { if a < b then a else b }

  /** Where page `k`, counted from zero, starts and ends in the file. */
  function PageStart(file: Bytes, size: nat, k: nat): nat
    requires 0 < size && file != []
  {
    if k == 0 then 0 else FileSeek(file, Offset(size, k - 1), Min(Offset(size, k) - 1, |file| - 1))
  }

  function PageEnd(file: Bytes, size: nat, k: nat): nat
    requires 0 < size && file != []
  {
    if k == PageCount(size, |file|) - 1 then |file|
    else FileSeek(file, if k == 0 then 0 else Offset(size, k - 1), Min(Offset(size, k + 1) - 1, |file| - 1))
  }

  function Slice(file: Bytes, from: nat, to: nat): Bytes {
    if from < to <= |file| then file[from..to] else []
  }

  lemma AsciiSpan(file: Bytes, offset: nat, length: nat, top: nat)
    requires Ascii(file) && offset < |file| && top == Min(offset + length, |file|)
    ensures Span(file, offset, length) == file[offset..top]
  {
    assert top == offset + if length > |file| - offset then |file| - offset else length;
    var slice := file[offset..top];
    forall b | b in slice ensures b < 0x80 {
      assert b in file;
    }
    AsciiDecodesToItself(slice, offset > 0);
  }

  function WindowStart(file: Bytes, lo: nat, top: nat, position: nat): (r: nat)
    requires lo < top <= |file|
    ensures lo <= r
  {
    FileSeek(file, lo, Min(lo + position, top - 1))
  }

  function WindowEnd(file: Bytes, lo: nat, top: nat, whole: bool): (r: nat)
    requires lo < top <= |file|
    ensures lo <= r <= top
  {
    if whole then top else FileSeek(file, lo, top - 1)
  }

  lemma StartInWindow(file: Bytes, lo: nat, top: nat, chunk: Bytes, size: nat, page: Page)
    requires 0 < size && lo < top <= |file| && chunk == file[lo..top]
    ensures WindowStart(file, lo, top, if page.page != 0 then size - 1 else 0) == lo + TrimStart(chunk, size, page)
  {
    SeekInWindow(file, lo, top, Clamped(chunk, if page.page != 0 then size - 1 else 0));
  }

  lemma EndInWindow(file: Bytes, lo: nat, top: nat, chunk: Bytes, page: Page)
    requires lo < top <= |file| && chunk == file[lo..top]
    ensures WindowEnd(file, lo, top, page.page == page.pages - 1) == lo + TrimEnd(chunk, page)
  {
    SeekInWindow(file, lo, top, top - lo - 1);
  }

  /** What trimming keeps of a window of the file, in file positions. */
  lemma TrimmedWindow(file: Bytes, lo: nat, top: nat, chunk: Bytes, size: nat, page: Page)
    requires 0 < size && lo < top <= |file| && chunk == file[lo..top]
    ensures Trimmed(chunk, size, page)
         == Slice(file, WindowStart(file, lo, top, if page.page != 0 then size - 1 else 0),
                  WindowEnd(file, lo, top, page.page == page.pages - 1))
  {
    StartInWindow(file, lo, top, chunk, size, page);
    EndInWindow(file, lo, top, chunk, page);
    TrimmedIsCut(chunk, size, page, TrimStart(chunk, size, page), TrimEnd(chunk, page));
    CutOfWindow(file, lo, top, chunk, TrimStart(chunk, size, page), TrimEnd(chunk, page));
  }

  function Cut(chunk: Bytes, start: nat, end: nat): Bytes
    requires end <= |chunk|
  {
    if start >= end then [] else chunk[start..end]
  }

  lemma TrimmedIsCut(chunk: Bytes, size: nat, page: Page, start: nat, end: nat)
    requires chunk != [] && start == TrimStart(chunk, size, page) && end == TrimEnd(chunk, page)
    ensures Trimmed(chunk, size, page) == Cut(chunk, start, end)
  {
  }

  lemma CutOfWindow(file: Bytes, lo: nat, top: nat, chunk: Bytes, start: nat, end: nat)
    requires lo < top <= |file| && chunk == file[lo..top] && end <= |chunk|
    ensures Cut(chunk, start, end) == Slice(file, lo + start, lo + end)
  {
    if start < end { SpanOfSpan(file, lo, top, lo + start, lo + end); }
  }

  lemma PlanOf(size: nat, n: nat, k: nat)
    requires 0 < size && 0 < n && k <= PageCount(size, n)
    ensures var plan := PlanTabularPage(k + 1, size, n);
            && plan.loadOffset == (if k == 0 then 0 else Offset(size, k - 1)) < n
            && 0 < plan.loadLength
            && plan.loadOffset + plan.loadLength == Offset(size, k + 1)
            && (k == PageCount(size, n) - 1 ==> n <= Offset(size, k + 1))
            && (k != 0 ==> plan.loadOffset + size == Offset(size, k))
  {
    PageCountIs(size, n);
    OffsetStep(size, k);
    if k > 0 {
      OffsetStep(size, k - 1);
      OffsetGrows(size, k - 1, PageCount(size, n) - 1);
    }
  }

  /** Where the window of page `k` lies in the file. */
  ghost predicate IsWindow(n: nat, size: nat, k: nat, lo: nat, top: nat)
    requires 0 < size
  {
    lo == (if k == 0 then 0 else Offset(size, k - 1)) && top == Min(Offset(size, k + 1), n) && lo < top
  }

  lemma WindowOf(file: Bytes, size: nat, k: nat, lo: nat, top: nat)
    requires Ascii(file) && file != [] && 0 < size && k <= PageCount(size, |file|) && IsWindow(|file|, size, k, lo, top)
    ensures PageText(file, k + 1, size)
         == Slice(file, WindowStart(file, lo, top, if k != 0 then size - 1 else 0),
                  WindowEnd(file, lo, top, k == PageCount(size, |file|) - 1))
  {
    PlanOf(size, |file|, k);
    var plan := PlanTabularPage(k + 1, size, |file|);
    AsciiSpan(file, lo, plan.loadLength, top);
    TrimmedWindow(file, lo, top, file[lo..top], size, plan);
  }

  lemma StartOfWindow(file: Bytes, size: nat, k: nat, lo: nat, top: nat)
    requires file != [] && 0 < size && k <= PageCount(size, |file|) && IsWindow(|file|, size, k, lo, top)
    ensures PageStart(file, size, k) == WindowStart(file, lo, top, if k != 0 then size - 1 else 0)
  {
    PlanOf(size, |file|, k);
    OffsetStep(size, k);
  }

  lemma EndOfWindow(file: Bytes, size: nat, k: nat, lo: nat, top: nat)
    requires file != [] && 0 < size && k <= PageCount(size, |file|) && IsWindow(|file|, size, k, lo, top)
    ensures PageEnd(file, size, k) == WindowEnd(file, lo, top, k == PageCount(size, |file|) - 1)
  {
    PlanOf(size, |file|, k);
  }

  lemma FindWindow(n: nat, size: nat, k: nat) returns (lo: nat, top: nat)
    requires 0 < size && 0 < n && k <= PageCount(size, n)
    ensures IsWindow(n, size, k, lo, top)
  {
    PlanOf(size, n, k);
    lo, top := if k == 0 then 0 else Offset(size, k - 1), Min(Offset(size, k + 1), n);
  }

  /** A page of an ASCII file is the span of the file from its start to its end. */
  lemma PageIsSpan(file: Bytes, size: nat, k: nat)
    requires Ascii(file) && file != [] && 0 < size && k <= PageCount(size, |file|)
    ensures PageText(file, k + 1, size) == Slice(file, PageStart(file, size, k), PageEnd(file, size, k))
  {
    var lo, top := FindWindow(|file|, size, k);
    WindowOf(file, size, k, lo, top);
    StartOfWindow(file, size, k, lo, top);
    EndOfWindow(file, size, k, lo, top);
  }

  // ----- When the pages tile the file -----

  /** The pages, from zero to the last, follow on from each other without gap or overlap. */
  ghost predicate Tiles(file: Bytes, size: nat)
    requires 0 < size && file != []
  {
    forall k :: 0 <= k < PageCount(size, |file|) - 1 ==> PageEnd(file, size, k) == PageStart(file, size, k + 1)
  }

  /** A line break page `k` and the next can both find: inside window `k`, or right at its start. */
  ghost predicate BreaksWindow(file: Bytes, size: nat, k: nat) {
    || (exists i :: Offset(size, k) < i < Min(Offset(size, k + 1), |file|) && file[i] == NEWLINE)
    || (2 <= size && 0 < Offset(size, k) < |file|
        && file[Offset(size, k) - 1] == NEWLINE && file[Offset(size, k)] != NEWLINE)
  }

  lemma {:induction false} SeekFinds(file: Bytes, lo: nat, hi: nat)
    requires hi < |file| && lo <= hi
    ensures FileSeek(file, lo, hi) == lo <==> forall i :: lo < i <= hi ==> file[i] != NEWLINE
    decreases hi
  {
    if lo < hi && file[hi] != NEWLINE {
      SeekFinds(file, lo, hi - 1);
    }
  }

  lemma {:induction false} SeekSplits(file: Bytes, lo: nat, mid: nat, hi: nat)
    requires lo <= mid <= hi < |file|
    ensures FileSeek(file, lo, hi)
         == if FileSeek(file, mid, hi) != mid then FileSeek(file, mid, hi) else FileSeek(file, lo, mid)
    decreases hi
  {
    if mid < hi && file[hi] != NEWLINE {
      SeekSplits(file, lo, mid, hi - 1);
    }
  }

  lemma WindowBounds(size: nat, n: nat, k: nat)
    requires 0 < size && k < PageCount(size, n) - 1
    ensures Offset(size, k) < Offset(size, k + 1) < n
    ensures 0 < k ==> Offset(size, k) == Offset(size, k - 1) + size
  {
    PageCountIs(size, n);
    OffsetStep(size, k);
    if 0 < k { OffsetStep(size, k - 1); }
    OffsetGrows(size, k + 1, PageCount(size, n) - 1);
  }

  /** Main result: neighbouring pages meet exactly when the window between them is broken; the first two
      always do. */
  lemma {:induction false} PagesMeetExactly(file: Bytes, size: nat, k: nat)
    requires 0 < size && file != [] && k < PageCount(size, |file|) - 1
    ensures PageEnd(file, size, k) == PageStart(file, size, k + 1) <==> k == 0 || BreaksWindow(file, size, k)
  {
    WindowBounds(size, |file|, k);
    if k > 0 {
      var lo, mid, top := Offset(size, k - 1), Offset(size, k), Offset(size, k + 1) - 1;
      SeekSplits(file, lo, mid, top);
      SeekFinds(file, mid, top);
      if FileSeek(file, mid, top) != mid {
        var i :| mid < i <= top && file[i] == NEWLINE;
        assert Offset(size, k) < i < Min(Offset(size, k + 1), |file|) && file[i] == NEWLINE;
      }
    }
  }

  /** Main result: the pages of a file tile it exactly when every window but the first and the last
      one is broken. */
  lemma {:induction false} TilesExactly(file: Bytes, size: nat)
    requires 0 < size && file != []
    ensures Tiles(file, size)
       <==> forall k :: 1 <= k <= PageCount(size, |file|) - 2 ==> BreaksWindow(file, size, k)
  {
    forall k | 0 <= k < PageCount(size, |file|) - 1
      ensures PageEnd(file, size, k) == PageStart(file, size, k + 1) <==> k == 0 || BreaksWindow(file, size, k)
    {
      PagesMeetExactly(file, size, k);
    }
  }

  lemma PageIsForward(file: Bytes, size: nat, k: nat)
    requires 0 < size && file != [] && k < PageCount(size, |file|)
    ensures PageStart(file, size, k) <= PageEnd(file, size, k) <= |file|
    ensures k == PageCount(size, |file|) - 1 ==> PageStart(file, size, k) < PageEnd(file, size, k)
  {
    PageCountIs(size, |file|);
    OffsetGrows(size, k, PageCount(size, |file|) - 1);
    OffsetStep(size, k);
    if k > 0 {
      var lo := Offset(size, k - 1);
      OffsetStep(size, k - 1);
      SeekSplits(file, lo, Offset(size, k) - 1, Min(Offset(size, k + 1) - 1, |file| - 1));
    }
  }

  /** The text of the pages from `k`, counted from zero, to the last, end to end. */
  function PagesFrom(file: Bytes, size: nat, k: nat): Bytes
    requires 0 < size && k <= PageCount(size, |file|)
    decreases PageCount(size, |file|) - k
  {
    if k == PageCount(size, |file|) then [] else PageText(file, k + 1, size) + PagesFrom(file, size, k + 1)
  }

  lemma Joined(file: Bytes, from: nat, mid: nat)
    requires from <= mid <= |file|
    ensures Slice(file, from, mid) + file[mid..] == file[from..]
  {
  }

  /** One step: a page, and what follows from where it ends. */
  lemma {:induction false} PageThenRest(file: Bytes, size: nat, k: nat, rest: Bytes)
    requires Ascii(file) && file != [] && 0 < size && k < PageCount(size, |file|)
    requires PageEnd(file, size, k) <= |file| && rest == file[PageEnd(file, size, k)..]
    ensures PageStart(file, size, k) <= |file|
    ensures PageText(file, k + 1, size) + rest == file[PageStart(file, size, k)..]
  {
    PageIsForward(file, size, k);
    var start, end := PageStart(file, size, k), PageEnd(file, size, k);
    PageIsSpan(file, size, k);
    Joined(file, start, end);
  }

  lemma {:induction false} TiledFrom(file: Bytes, size: nat, k: nat)
    requires Ascii(file) && file != [] && 0 < size && Tiles(file, size) && k < PageCount(size, |file|)
    ensures PageStart(file, size, k) <= |file| && PagesFrom(file, size, k) == file[PageStart(file, size, k)..]
    decreases PageCount(size, |file|) - k
  {
    var rest := PagesFrom(file, size, k + 1);
    if k < PageCount(size, |file|) - 1 {
      TiledFrom(file, size, k + 1);
      assert PageEnd(file, size, k) == PageStart(file, size, k + 1);
    } else {
      LastPageEnds(file, size, k);
    }
    PageThenRest(file, size, k, rest);
  }

  lemma LastPageEnds(file: Bytes, size: nat, k: nat)
    requires file != [] && 0 < size && k == PageCount(size, |file|) - 1
    ensures PageEnd(file, size, k) == |file| && PagesFrom(file, size, k + 1) == [] == file[PageEnd(file, size, k)..]
  {
  }

  /** Main result: pages that tile a file give it back byte for byte. */
  lemma {:induction false} TilingPagesGiveTheFile(file: Bytes, size: nat)
    requires Ascii(file) && 0 < size && (file != [] ==> Tiles(file, size))
    ensures PagesFrom(file, size, 0) == file
  {
    PageCountIs(size, |file|);
    if file != [] {
      OffsetStep(size, 0);
      TiledFrom(file, size, 0);
    } else {
      assert PageCount(size, 0) == 0;
    }
  }

  /** A page starts at the beginning of the file, just after a line break, or where its window does; when
      the pages tile the file the last of these never happens inside a line. */
  lemma PageBegins(file: Bytes, size: nat, k: nat)
    requires 0 < size && file != [] && 0 < k <= PageCount(size, |file|)
    ensures var start := PageStart(file, size, k);
            start == 0 || (start <= |file| && file[start - 1] == NEWLINE) || start == Offset(size, k - 1)
    ensures Tiles(file, size) && k < PageCount(size, |file|) ==>
              var start := PageStart(file, size, k);
              start == 0 || (start <= |file| && file[start - 1] == NEWLINE)
  {
    if Tiles(file, size) && 1 < k < PageCount(size, |file|) && PageStart(file, size, k) == Offset(size, k - 1) {
      PagesMeetExactly(file, size, k - 1);
      WindowBounds(size, |file|, k - 1);
      SeekFinds(file, Offset(size, k - 1), Offset(size, k) - 1);
    }
  }

  /** Main result: whatever the file holds, the page one past its last is empty. */
  lemma {:induction false} PagePastTheLastIsEmpty(file: Bytes, size: nat)
    requires 0 < size
    ensures PageText(file, PageCount(size, |file|) + 1, size) == []
  {
    var n, pages := |file|, PageCount(size, |file|);
    PageCountIs(size, n);
    if file != [] {
      PlanOf(size, n, pages);
      var plan := PlanTabularPage(pages + 1, size, n);
      var chunk := Span(file, plan.loadOffset, plan.loadLength);
      assert |chunk| <= size;
      if chunk != [] {
        assert TrimStart(chunk, size, plan) == LineStart(chunk, |chunk| - 1) == TrimEnd(chunk, plan);
      }
    }
  }

  // ----- A file whose pages do not tile -----

  /** Six bytes without a line break, in pages of two. */
  const UNBROKEN: Bytes := [0x61, 0x62, 0x63, 0x64, 0x65, 0x66]

  lemma UnbrokenOffsets()
    ensures PageCount(2, 6) == 3 && Offset(2, 0) == 0 && Offset(2, 1) == 2 && Offset(2, 2) == 4 && Offset(2, 3) == 6
  {
    assert PageCount(2, 4) == 1 + PageCount(2, 2);
    OffsetStep(2, 0);
    OffsetStep(2, 1);
    OffsetStep(2, 2);
  }

  lemma UnbrokenSeeks(lo: nat, hi: nat)
    requires hi < 6 && lo <= hi
    ensures FileSeek(UNBROKEN, lo, hi) == lo
  {
    SeekFinds(UNBROKEN, lo, hi);
  }

  /** Its middle window is not broken, its pages leave a gap, and its first two bytes are in none of them. */
  lemma UnbrokenFileLosesBytes()
    ensures Ascii(UNBROKEN) && PageCount(2, |UNBROKEN|) == 3 && !BreaksWindow(UNBROKEN, 2, 1)
    ensures !Tiles(UNBROKEN, 2) && PagesFrom(UNBROKEN, 2, 0) == UNBROKEN[2..]
  {
    UnbrokenOffsets();
    UnbrokenTexts();
    TilesExactly(UNBROKEN, 2);
    UnbrokenPages(PageText(UNBROKEN, 1, 2), PageText(UNBROKEN, 2, 2), PageText(UNBROKEN, 3, 2));
  }

  lemma UnbrokenTexts()
    ensures PageText(UNBROKEN, 1, 2) == [] == PageText(UNBROKEN, 2, 2) && PageText(UNBROKEN, 3, 2) == UNBROKEN[2..]
  {
    UnbrokenOffsets();
    UnbrokenSeeks(0, 1);
    UnbrokenSeeks(0, 3);
    PageIsSpan(UNBROKEN, 2, 0);
    PageIsSpan(UNBROKEN, 2, 1);
    LastUnbrokenText();
  }

  lemma LastUnbrokenText()
    ensures PageText(UNBROKEN, 3, 2) == UNBROKEN[2..]
  {
    UnbrokenOffsets();
    UnbrokenSeeks(2, 5);
    PageIsSpan(UNBROKEN, 2, 2);
  }

  lemma UnbrokenPages(a: Bytes, b: Bytes, c: Bytes)
    requires PageCount(2, |UNBROKEN|) == 3
    requires a == PageText(UNBROKEN, 1, 2) && b == PageText(UNBROKEN, 2, 2) && c == PageText(UNBROKEN, 3, 2)
    ensures PagesFrom(UNBROKEN, 2, 0) == a + (b + (c + []))
  {
    var n := PageCount(2, |UNBROKEN|);
    assert PagesFrom(UNBROKEN, 2, n) == [];
    assert PagesFrom(UNBROKEN, 2, n - 1) == c + PagesFrom(UNBROKEN, 2, n);
    assert PagesFrom(UNBROKEN, 2, n - 2) == b + PagesFrom(UNBROKEN, 2, n - 1);
  }
}
