/** Flattening a DMA scatter list into a buffer's page table
    (saa7231_dmabuf_sgpagefill). */
module PageTable {
  import opened Arithmetic

  const PAGE: nat := 4096
  /** 64-bit entries in one page of table. */
  const ENTRIES: nat := 512

  /** A scatter-list element after dma_map_sg. */
  datatype Segment = Segment(dmaAddress: nat, dmaLength: nat, length: nat, offset: nat) {
    /** What the function insists on: the page its data begins in has a
        non-zero, page-aligned address. */
    predicate Aligned() {
      offset < dmaAddress && Base() % PAGE == 0 && dmaAddress + dmaLength <= U32 * U32
    }

    function Base(): nat { if offset <= dmaAddress then dmaAddress - offset else 0 }

    function PageCount(): nat { PagesFor(dmaLength) }
  }

  /** The least number of pages that hold so many bytes. */
  function PagesFor(length: nat): (n: nat)
    ensures length <= n * PAGE < length + PAGE
  {
    if length == 0 then 0 else if length <= PAGE then 1 else PagesFor(length - PAGE) + 1
  }

  /** Only the first element may have an offset. */
  predicate AllAligned(sg: seq<Segment>) {
    (forall s :: s in sg ==> s.Aligned()) && forall i :: 0 < i < |sg| ==> sg[i].offset == 0
  }

  /** Every segment but the last is a whole number of pages. */
  predicate WholePages(sg: seq<Segment>) {
    forall i :: 0 <= i < |sg| - 1 ==> sg[i].dmaLength % PAGE == 0
  }

  function TotalBytes(sg: seq<Segment>): nat {
    if sg == [] then 0 else sg[0].dmaLength + TotalBytes(sg[1..])
  }

  /** The bus address of byte x of the memory the list describes. */
  function BusAddress(sg: seq<Segment>, x: nat): nat
    requires x < TotalBytes(sg)
  {
    if x < sg[0].dmaLength then sg[0].dmaAddress + x
    else BusAddress(sg[1..], x - sg[0].dmaLength)
  }

  /** Page addresses of a segment and of a list, in order. */
  function SegmentPages(s: Segment, n: nat): (p: seq<nat>)
    ensures |p| == n && forall j :: 0 <= j < n ==> p[j] == s.Base() + j * PAGE
  {
    if n == 0 then [] else SegmentPages(s, n - 1) + [s.Base() + (n - 1) * PAGE]
  }

  function ListPages(sg: seq<Segment>): seq<nat> {
    if sg == [] then []
    else ListPages(sg[..|sg| - 1]) + SegmentPages(sg[|sg| - 1], sg[|sg| - 1].PageCount())
  }

  /** Entry k of a table of 32-bit words, the halves put together. */
  function Entry(words: seq<nat>, k: nat): nat
    requires 2 * k + 1 < |words|
  {
    words[2 * k] + words[2 * k + 1] * U32
  }

  /** The hardware's view: byte x of the buffer, through the table. */
  function Translate(words: seq<nat>, x: nat): nat
    requires |words| == 2 * ENTRIES && x < ENTRIES * PAGE
  {
    Entry(words, x / PAGE) + x % PAGE
  }

  /** Entry e of a table listing `pages` and then repeating the last. */
  function Padded(pages: seq<nat>, e: nat): nat {
    if e < |pages| then pages[e] else if pages == [] then 0 else pages[|pages| - 1]
  }

  /** The first n entries list `pages`, in two 32-bit halves each. */
  ghost predicate Lists(words: seq<nat>, pages: seq<nat>, n: nat)
    requires |words| == 2 * ENTRIES && n <= ENTRIES
  {
    forall e :: 0 <= e < n ==>
      words[2 * e] == Padded(pages, e) % 0x1_0000_0000 && words[2 * e + 1] == Padded(pages, e) / 0x1_0000_0000
  }

  /** The low word comes first. */
  lemma EntryOfHalves(words: seq<nat>, pages: seq<nat>, n: nat, e: nat)
    requires |words| == 2 * ENTRIES && e < n <= ENTRIES && Lists(words, pages, n)
    ensures Entry(words, e) == Padded(pages, e)
  {
    var a := Padded(pages, e);
    assert words[2 * e] == a % 0x1_0000_0000 && words[2 * e + 1] == a / 0x1_0000_0000;
  }

  method StoreEntry(page: array<nat>, k: nat, addr: nat, ghost pages: seq<nat>)
    requires page.Length == 2 * ENTRIES && k < ENTRIES && addr < U32 * U32
    requires Lists(page[..], pages, k) && addr == Padded(pages, k)
    modifies page
    ensures Lists(page[..], pages, k + 1)
  {
    page[k * 2] := addr % U32;
    page[k * 2 + 1] := addr / U32;
    ghost var was, words := old(page[..]), page[..];
    forall e | 0 <= e < k + 1
      ensures words[2 * e] == Padded(pages, e) % U32 && words[2 * e + 1] == Padded(pages, e) / U32
    {
      if e < k {
        assert words[2 * e] == was[2 * e] && words[2 * e + 1] == was[2 * e + 1];
      }
    }
  }

  /** The pages the table lists: those of the list but the first few. */
  function Kept(pages: seq<nat>, first: nat): (kept: seq<nat>)
    ensures |kept| == if |pages| <= first then 0 else |pages| - first
  {
    if |pages| <= first then [] else pages[first..]
  }

  /** The skip test: a signed offset and an unsigned one added and compared as
      unsigned 32-bit numbers. */
  predicate Skips(offset: int, s: Segment) { (offset + s.offset) % U32 >= PAGE }

  /** How many of the first n pages of an element the function skips when it
      comes to the element with some offset left. */
  function SkipUpTo(s: Segment, offset: int, n: nat): (m: nat)
    ensures m <= n
  {
    if n == 0 then 0
    else
      var m := SkipUpTo(s, offset, n - 1);
      if m == n - 1 && Skips(offset - m * PAGE, s) then n else m
  }

  /** The offset left, and the pages kept, after j pages of one element. */
  function LeftAt(s: Segment, offset: int, j: nat): int { offset - SkipUpTo(s, offset, j) * PAGE }

  function KeptAt(s: Segment, offset: int, j: nat): seq<nat> { Kept(SegmentPages(s, j), SkipUpTo(s, offset, j)) }

  /** The pages the table lists. */
  function KeptPages(sg: seq<Segment>, offset: int): seq<nat> {
    if sg == [] then []
    else KeptAt(sg[0], offset, sg[0].PageCount()) + KeptPages(sg[1..], LeftAt(sg[0], offset, sg[0].PageCount()))
  }

  /** Once a page of an element is not skipped, no further one is. */
  lemma {:induction false} SkipStops(s: Segment, offset: int, n: nat)
    ensures SkipUpTo(s, offset, n) < n ==> !Skips(offset - SkipUpTo(s, offset, n) * PAGE, s)
  {
    if n > 0 {
      SkipStops(s, offset, n - 1);
    }
  }

  /** Taking off no more than the remainder takes it off the remainder. */
  lemma TakeOff(a: int, b: nat)
    requires b <= a % U32
    ensures (a - b) % U32 == a % U32 - b
  {
    DivModUnique(a - b, U32, a / U32, a % U32 - b);
  }

  /** The pages skipped are those the offset and the element's own span
      together, as an unsigned number. */
  lemma {:induction false} SkipClosed(s: Segment, offset: int, n: nat)
    ensures SkipUpTo(s, offset, n) == Fewer((offset + s.offset) % U32 / PAGE, n)
  {
    if n > 0 {
      SkipClosed(s, offset, n - 1);
      var e, m := (offset + s.offset) % U32, SkipUpTo(s, offset, n - 1);
      assert e / PAGE * PAGE <= e < e / PAGE * PAGE + PAGE;
      TakeOff(offset + s.offset, m * PAGE);
    }
  }

  function Fewer(a: nat, b: nat): nat { if a < b then a else b }

  /** Where the fill stands: the kept pages are listed. */
  ghost predicate Progress(words: seq<nat>, kept: seq<nat>, k: nat, addr: nat)
    requires |words| == 2 * ENTRIES
  {
    k == |kept| <= ENTRIES && addr < U32 * U32 && addr == Padded(kept, k) && Lists(words, kept, k)
  }

  lemma KeptNext(s: Segment, offset: int, j: nat)
    ensures if Skips(LeftAt(s, offset, j), s) then
        KeptAt(s, offset, j + 1) == KeptAt(s, offset, j) == [] &&
        LeftAt(s, offset, j + 1) == LeftAt(s, offset, j) - PAGE
      else
        KeptAt(s, offset, j + 1) == KeptAt(s, offset, j) + [s.Base() + j * PAGE] &&
        LeftAt(s, offset, j + 1) == LeftAt(s, offset, j)
  {
    SkipStops(s, offset, j);
  }

  /** The inner loop's body: skip one page of the list or store it. */
  method OnePage(page: array<nat>, cur: Segment, j: nat, offset: int, addr: nat, k: nat,
                 ghost before: seq<nat>, ghost offset0: int)
    returns (offset': int, addr': nat, k': nat)
    requires page.Length == 2 * ENTRIES && cur.Aligned() && j * PAGE < cur.dmaLength && j < cur.PageCount()
    requires Progress(page[..], before + KeptAt(cur, offset0, j), k, addr) && offset == LeftAt(cur, offset0, j)
    requires |before + KeptAt(cur, offset0, j + 1)| <= ENTRIES
    modifies page
    ensures Progress(page[..], before + KeptAt(cur, offset0, j + 1), k', addr')
    ensures offset' == LeftAt(cur, offset0, j + 1)
  {
    KeptNext(cur, offset0, j);
    if (offset + cur.offset) % U32 >= PAGE {
      return offset - PAGE, addr, k;
    }
    addr' := cur.dmaAddress + j * PAGE - cur.offset;
    ghost var was, kept := before + KeptAt(cur, offset0, j), before + KeptAt(cur, offset0, j + 1);
    assert kept == was + [addr'];
    assert forall e :: 0 <= e < k ==> Padded(kept, e) == Padded(was, e);
    StoreEntry(page, k, addr', kept);
    offset', k' := offset, k + 1;
  }

  /** A page count short of the segment's, and what it keeps. */
  lemma KeptWithin(s: Segment, offset: int, j: nat)
    requires j * PAGE < s.dmaLength
    ensures j + 1 <= s.PageCount() && |KeptAt(s, offset, j + 1)| <= |KeptAt(s, offset, s.PageCount())|
  {
    KeptMore(s, offset, j + 1, s.PageCount());
  }

  lemma {:induction false} KeptMore(s: Segment, offset: int, j: nat, n: nat)
    requires j <= n
    ensures |KeptAt(s, offset, j)| <= |KeptAt(s, offset, n)|
    decreases n - j
  {
    if j < n {
      KeptNext(s, offset, j);
      KeptMore(s, offset, j + 1, n);
    }
  }

  /** The pages of one segment. */
  method FillSegment(page: array<nat>, cur: Segment, offset: int, addr: nat, k: nat, ghost before: seq<nat>)
    returns (offset': int, addr': nat, k': nat)
    requires page.Length == 2 * ENTRIES && cur.Aligned() && Progress(page[..], before, k, addr)
    requires |before + KeptAt(cur, offset, cur.PageCount())| <= ENTRIES
    modifies page
    ensures Progress(page[..], before + KeptAt(cur, offset, cur.PageCount()), k', addr')
    ensures offset' == LeftAt(cur, offset, cur.PageCount())
  {
    offset', addr', k' := offset, addr, k;
    var j := 0;
    assert before + KeptAt(cur, offset, 0) == before;
    while j * PAGE < cur.dmaLength
      invariant 0 <= j <= cur.PageCount()
      invariant Progress(page[..], before + KeptAt(cur, offset, j), k', addr')
      invariant offset' == LeftAt(cur, offset, j)
      decreases cur.dmaLength - j * PAGE
    {
      KeptWithin(cur, offset, j);
      offset', addr', k' := OnePage(page, cur, j, offset', addr', k', before, offset);
      j := j + 1;
    }
  }

  /** saa7231_dmabuf_sgpagefill; `skip` is its offset argument.  The result is
      the buffer offset it records.  The table lists the pages kept and repeats
      the last; for a list whose only offset is the first element's, these are
      the later pages the offset asks for exactly when none of it was overdrawn
      on the first element, or there are no later pages. */
  method SgPageFill(page: array<nat>, sg: seq<Segment>, skip: int) returns (bufferOffset: nat)
    requires page.Length == 1024 && sg != [] && AllAligned(sg)
    requires |KeptPages(sg, skip)| <= ENTRIES
    modifies page
    ensures bufferOffset == (sg[0].length + sg[0].offset) % PAGE
    ensures Lists(page[..], KeptPages(sg, skip), ENTRIES)
    ensures 0 <= skip < U32 ==> (LaterAsMeant(sg, skip) <==> ListPages(sg[1..]) == [] || LeftAfterFirst(sg, skip) >= 0)
  {
    bufferOffset := (sg[0].length + sg[0].offset) % PAGE;
    var k, addr := FillList(page, sg, skip);
    while k < ENTRIES
      invariant 0 <= k <= ENTRIES && Lists(page[..], KeptPages(sg, skip), k)
      invariant addr == Padded(KeptPages(sg, skip), k) && addr < U32 * U32
      invariant |KeptPages(sg, skip)| <= k
    {
      StoreEntry(page, k, addr, KeptPages(sg, skip));
      k := k + 1;
    }
    if 0 <= skip < U32 {
      LaterPagesIff(sg, skip);
    }
  }

  /** The outer loop. */
  method FillList(page: array<nat>, sg: seq<Segment>, skip: int) returns (k: nat, addr: nat)
    requires page.Length == 2 * ENTRIES && AllAligned(sg) && |KeptPages(sg, skip)| <= ENTRIES
    modifies page
    ensures Progress(page[..], KeptPages(sg, skip), k, addr)
  {
    var offset := skip;
    k, addr := 0, 0;
    var i := 0;
    ghost var kept: seq<nat> := [];
    assert sg[0..] == sg;
    while i < |sg|
      invariant 0 <= i <= |sg| && kept + KeptPages(sg[i..], offset) == KeptPages(sg, skip)
      invariant Progress(page[..], kept, k, addr)
    {
      ghost var more := KeptAt(sg[i], offset, sg[i].PageCount());
      KeptOn(sg, i, offset, kept);
      offset, addr, k := FillSegment(page, sg[i], offset, addr, k, kept);
      kept := kept + more;
      i := i + 1;
    }
  }

  lemma {:induction false} KeptOn(sg: seq<Segment>, i: nat, offset: int, kept: seq<nat>)
    requires i < |sg|
    ensures var more := KeptAt(sg[i], offset, sg[i].PageCount());
      kept + KeptPages(sg[i..], offset)
        == kept + more + KeptPages(sg[i + 1..], LeftAt(sg[i], offset, sg[i].PageCount()))
  {
    assert sg[i..][0] == sg[i] && sg[i..][1..] == sg[i + 1..];
  }

  // ---------------------------------------------------------------------
  // Which pages are kept

  predicate NoOffsets(sg: seq<Segment>) { forall s :: s in sg ==> s.offset == 0 }

  /** Where no element has an offset the argument skips as many whole pages as
      it spans, read as an unsigned number. */
  lemma {:induction false} KeptWithoutOffsets(sg: seq<Segment>, offset: int)
    requires NoOffsets(sg)
    ensures KeptPages(sg, offset) == Kept(ListPages(sg), offset % U32 / PAGE)
    decreases |sg|
  {
    if sg != [] {
      var s, rest := sg[0], sg[1..];
      var left := LeftAt(s, offset, s.PageCount());
      assert forall t :: t in rest ==> t in sg;
      KeptWithoutOffsets(rest, left);
      ListFromFront(sg);
      SpanLeft(s, offset);
      KeptTwoLists(SegmentPages(s, s.PageCount()), ListPages(rest), offset % U32 / PAGE);
    }
  }

  /** What an element without an offset leaves of the span. */
  lemma SpanLeft(s: Segment, offset: int)
    requires s.offset == 0
    ensures var spanned, n := offset % U32 / PAGE, s.PageCount();
      SkipUpTo(s, offset, n) == Fewer(spanned, n) && LeftAt(s, offset, n) % U32 / PAGE == spanned - Fewer(spanned, n)
  {
    var spanned, n := offset % U32 / PAGE, s.PageCount();
    SkipClosed(s, offset, n);
    var done := Fewer(spanned, n);
    assert spanned * PAGE <= offset % U32;
    TakeOff(offset, done * PAGE);
    SpannedLess(offset % U32, done);
  }

  lemma SpannedLess(e: nat, done: nat)
    requires done * PAGE <= e
    ensures (e - done * PAGE) / PAGE == e / PAGE - done
  {
    DivModUnique(e - done * PAGE, PAGE, e / PAGE - done, e % PAGE);
  }

  lemma KeptTwoLists(a: seq<nat>, b: seq<nat>, n: nat)
    ensures Kept(a + b, n) == Kept(a, n) + Kept(b, n - Fewer(n, |a|))
  {
    if n <= |a| {
      assert (a + b)[n..] == a[n..] + b;
    } else if n <= |a| + |b| {
      assert (a + b)[n..] == b[n - |a|..];
    }
  }

  /** The offset left when the first element is done. */
  function LeftAfterFirst(sg: seq<Segment>, skip: int): int
    requires sg != []
  {
    LeftAt(sg[0], skip, sg[0].PageCount())
  }

  /** The later pages listed are all but those the offset left spans, none if
      nothing is left of it. */
  ghost predicate LaterAsMeant(sg: seq<Segment>, skip: int)
    requires sg != []
  {
    var left := LeftAfterFirst(sg, skip);
    KeptPages(sg[1..], left) == Kept(ListPages(sg[1..]), if left >= 0 then left / PAGE else 0)
  }

  /** An offset overdrawn on the first element turns into a huge one: exactly
      then the later pages are not those meant. */
  lemma {:induction false} LaterPagesIff(sg: seq<Segment>, skip: int)
    requires sg != [] && AllAligned(sg) && 0 <= skip < U32
    ensures KeptPages(sg, skip)
         == KeptAt(sg[0], skip, sg[0].PageCount()) + KeptPages(sg[1..], LeftAfterFirst(sg, skip))
    ensures LaterAsMeant(sg, skip) <==> ListPages(sg[1..]) == [] || LeftAfterFirst(sg, skip) >= 0
    ensures LeftAfterFirst(sg, skip) < 0 && |ListPages(sg[1..])| <= (U32 + LeftAfterFirst(sg, skip)) / PAGE ==>
      KeptPages(sg[1..], LeftAfterFirst(sg, skip)) == []
  {
    assert NoOffsets(sg[1..]) by {
      forall s | s in sg[1..]
        ensures s.offset == 0
      {
        var i :| 0 <= i < |sg[1..]| && sg[1..][i] == s;
        assert s == sg[i + 1];
      }
    }
    var left := LeftAfterFirst(sg, skip);
    KeptWithoutOffsets(sg[1..], left);
    OverdrawnSpan(sg[0], skip);
  }

  /** How many pages the offset left spans, read as unsigned. */
  lemma OverdrawnSpan(s: Segment, skip: int)
    requires 0 <= skip < U32
    ensures var left := LeftAt(s, skip, s.PageCount());
      if left >= 0 then left % U32 == left else left % U32 == left + U32 && (left + U32) / PAGE > 0
  {
    var e, n := (skip + s.offset) % U32, SkipUpTo(s, skip, s.PageCount());
    var left := skip - n * PAGE;
    SkipClosed(s, skip, s.PageCount());
    assert n <= e / PAGE && e / PAGE * PAGE <= e && e / PAGE <= 0xF_FFFF;
    if left >= 0 {
      DivModUnique(left, U32, 0, left);
    } else {
      DivModUnique(left, U32, -1, left + U32);
    }
  }

  /** Where nothing is overdrawn, and the two offsets do not wrap together, the
      pages kept are all from some page on. */
  lemma {:induction false} KeptIsSuffix(sg: seq<Segment>, skip: nat)
    requires sg != [] && AllAligned(sg) && skip + sg[0].offset < U32 && LeftAfterFirst(sg, skip) >= 0
    ensures KeptPages(sg, skip)
         == Kept(ListPages(sg), SkipUpTo(sg[0], skip, sg[0].PageCount()) + LeftAfterFirst(sg, skip) / PAGE)
  {
    var s, left := sg[0], LeftAfterFirst(sg, skip);
    LaterPagesIff(sg, skip);
    ListFromFront(sg);
    LeftWithin(s, skip);
    SuffixOfTwo(SegmentPages(s, s.PageCount()), ListPages(sg[1..]), SkipUpTo(s, skip, s.PageCount()), left / PAGE);
  }

  lemma SuffixOfTwo(a: seq<nat>, b: seq<nat>, n: nat, q: nat)
    requires n <= |a| && (n < |a| ==> q == 0)
    ensures Kept(a, n) + Kept(b, q) == Kept(a + b, n + q)
  {
    KeptTwoLists(a, b, n + q);
  }

  /** Short of its last page an element leaves less than a page to skip. */
  lemma {:induction false} LeftWithin(s: Segment, skip: nat)
    requires skip + s.offset < U32 && LeftAt(s, skip, s.PageCount()) >= 0
    ensures SkipUpTo(s, skip, s.PageCount()) < s.PageCount() ==> LeftAt(s, skip, s.PageCount()) / PAGE == 0
  {
    SkipClosed(s, skip, s.PageCount());
    DivModUnique(skip + s.offset, U32, 0, skip + s.offset);
    var left := LeftAt(s, skip, s.PageCount());
    if SkipUpTo(s, skip, s.PageCount()) < s.PageCount() {
      DivModUnique(left, PAGE, 0, left);
    }
  }

  /** The driver's own call, no offset anywhere, keeps every page. */
  lemma KeepsAll(sg: seq<Segment>)
    requires NoOffsets(sg)
    ensures KeptPages(sg, 0) == ListPages(sg)
  {
    KeptWithoutOffsets(sg, 0);
  }

  /** An offset of 4000 into a list that begins 200 bytes into its page: the
      second element's page is lost. */
  lemma LaterPageLost()
    ensures var sg := [Segment(0x1_0000 + 200, 7992, 7992, 200), Segment(0x4_0000, 4096, 4096, 0)];
      AllAligned(sg) && ListPages(sg) == [0x1_0000, 0x1_1000, 0x4_0000] && KeptPages(sg, 4000) == [0x1_1000]
  {
    var a, b := Segment(0x1_0000 + 200, 7992, 7992, 200), Segment(0x4_0000, 4096, 4096, 0);
    var sg := [a, b];
    assert a.PageCount() == 2 && b.PageCount() == 1;
    assert SegmentPages(a, 1) == [0x1_0000] && SegmentPages(a, 2) == [0x1_0000, 0x1_1000];
    assert SegmentPages(b, 1) == [0x4_0000];
    assert sg[1..] == [b];
    ListFromFront(sg);
    ListFromFront([b]);
    assert ListPages(sg[1..]) == [0x4_0000];
    DivModUnique(4200, U32, 0, 4200);
    SkipClosed(a, 4000, 2);
    assert SkipUpTo(a, 4000, 2) == 1 && LeftAfterFirst(sg, 4000) == -96;
    LaterPagesIff(sg, 4000);
    assert (U32 - 96) / PAGE >= 1;
  }

  lemma ListGrows(sg: seq<Segment>, i: nat)
    requires i < |sg|
    ensures ListPages(sg[..i + 1]) == ListPages(sg[..i]) + SegmentPages(sg[i], sg[i].PageCount())
  {
    assert sg[..i + 1][..i] == sg[..i];
  }

  // ---------------------------------------------------------------------
  // The table means what the scatter list means

  /** The list taken from its front. */
  lemma {:induction false} ListFromFront(sg: seq<Segment>)
    requires sg != []
    ensures ListPages(sg) == SegmentPages(sg[0], sg[0].PageCount()) + ListPages(sg[1..])
    decreases |sg|
  {
    var n := |sg| - 1;
    if n > 0 {
      ListFromFront(sg[..n]);
      assert sg[..n][1..] == sg[1..][..n - 1];
      ListGrows(sg[1..], n - 1);
      assert sg[1..][..n] == sg[1..] && sg[..n + 1] == sg;
    } else {
      assert sg[..n] == [] && sg[1..] == [];
    }
  }

  lemma PagesOn(n: nat, x: nat)
    ensures (n * PAGE + x) / PAGE == n + x / PAGE && (n * PAGE + x) % PAGE == x % PAGE
  {
    DivModUnique(n * PAGE + x, PAGE, n + x / PAGE, x % PAGE);
  }

  lemma WholePagesFor(length: nat)
    requires length % PAGE == 0
    ensures PagesFor(length) * PAGE == length
  {
    assert length == length / PAGE * PAGE;
  }

  /** The page of byte x and its place in it. */
  ghost predicate PageOf(pages: seq<nat>, x: nat, address: nat) {
    x / PAGE < |pages| && pages[x / PAGE] + x % PAGE == address
  }

  lemma PageInFirst(s: Segment, rest: seq<nat>, x: nat)
    requires s.offset == 0 && x < s.dmaLength
    ensures PageOf(SegmentPages(s, s.PageCount()) + rest, x, s.dmaAddress + x)
  {
    assert x == x / PAGE * PAGE + x % PAGE;
  }

  lemma PageInRest(before: seq<nat>, rest: seq<nat>, x: nat, address: nat)
    requires PageOf(rest, x, address)
    ensures PageOf(before + rest, |before| * PAGE + x, address)
  {
    PagesOn(|before|, x);
  }

  lemma {:induction false} PageAt(sg: seq<Segment>, x: nat)
    requires NoOffsets(sg) && WholePages(sg) && x < TotalBytes(sg)
    ensures PageOf(ListPages(sg), x, BusAddress(sg, x))
    decreases |sg|
  {
    ListFromFront(sg);
    var s, rest := sg[0], sg[1..];
    if x < s.dmaLength {
      PageInFirst(s, ListPages(rest), x);
    } else {
      assert rest != [];
      assert forall i :: 0 <= i < |rest| ==> rest[i] == sg[i + 1];
      PageAt(rest, x - s.dmaLength);
      WholePagesFor(s.dmaLength);
      PageInRest(SegmentPages(s, s.PageCount()), ListPages(rest), x - s.dmaLength, BusAddress(sg, x));
    }
  }

  /** The same memory from the start of the first element's page on. */
  function Straight(sg: seq<Segment>): seq<Segment>
    requires sg != []
  {
    [sg[0].(dmaAddress := sg[0].Base(), dmaLength := sg[0].dmaLength + sg[0].offset, offset := 0)] + sg[1..]
  }

  /** The first element's data fits the pages its length alone asks for. */
  predicate Covered(s: Segment) { PagesFor(s.dmaLength + s.offset) == s.PageCount() }

  /** A page of data that begins 200 bytes into its page is listed without its
      last 200 bytes. */
  lemma LastByteMissed()
    ensures var s := Segment(0x1_0000 + 200, 4096, 4096, 200); s.Aligned() && !Covered(s)
  {
    assert PagesFor(4096) == 1 && PagesFor(4296) == PagesFor(200) + 1 == 2;
  }

  /** With an offset the function counts pages by the length alone, and that
      reaches the last byte exactly when it covers the data. */
  lemma LastByteIff(s: Segment)
    requires s.dmaLength > 0
    ensures (s.offset + s.dmaLength - 1) / PAGE < s.PageCount() <==> Covered(s)
  {
    var last := s.offset + s.dmaLength - 1;
    assert last / PAGE * PAGE <= last < last / PAGE * PAGE + PAGE;
    MorePages(s.dmaLength, s.dmaLength + s.offset);
  }

  lemma MorePages(length: nat, length': nat)
    requires length <= length'
    ensures PagesFor(length) <= PagesFor(length')
  {
  }

  lemma {:induction false} StraightPages(sg: seq<Segment>)
    requires sg != [] && Covered(sg[0]) && sg[0].Aligned()
    ensures ListPages(Straight(sg)) == ListPages(sg)
  {
    var t := Straight(sg);
    ListFromFront(sg);
    ListFromFront(t);
    assert t[1..] == sg[1..] && t[0].PageCount() == sg[0].PageCount();
    SameBase(sg[0], t[0], sg[0].PageCount());
  }

  /** Byte x of the list stands on its page list behind the first offset. */
  lemma {:induction false} PageOfByte(sg: seq<Segment>, x: nat)
    requires sg != [] && AllAligned(sg) && Covered(sg[0]) && WholePages(Straight(sg)) && x < TotalBytes(sg)
    ensures PageOf(ListPages(sg), sg[0].offset + x, BusAddress(sg, x))
  {
    assert sg[0] in sg;
    StraightPages(sg);
    StraightAddress(sg, x);
    forall s | s in Straight(sg)
      ensures s.offset == 0
    {
      var i :| 0 <= i < |sg| && Straight(sg)[i] == s;
      assert i > 0 ==> s == sg[i];
    }
    PageAt(Straight(sg), sg[0].offset + x);
  }

  lemma SameBase(s: Segment, t: Segment, n: nat)
    requires s.Base() == t.Base()
    ensures SegmentPages(s, n) == SegmentPages(t, n)
  {
  }

  lemma {:induction false} StraightAddress(sg: seq<Segment>, x: nat)
    requires sg != [] && sg[0].Aligned() && x < TotalBytes(sg)
    ensures sg[0].offset + x < TotalBytes(Straight(sg))
    ensures BusAddress(Straight(sg), sg[0].offset + x) == BusAddress(sg, x)
  {
    var t := Straight(sg);
    assert t[1..] == sg[1..];
  }

  /** Through the table every byte the scatter list describes is reached at the
      bus address the list gives it, at its distance from the start of the first
      page not skipped; the entries left over repeat the last page. */
  lemma {:induction false} TranslatesLikeList(words: seq<nat>, sg: seq<Segment>, first: nat, x: nat)
    requires |words| == 2 * ENTRIES && sg != [] && AllAligned(sg) && Covered(sg[0]) && WholePages(Straight(sg))
    requires |Kept(ListPages(sg), first)| <= ENTRIES && Lists(words, Kept(ListPages(sg), first), ENTRIES)
    requires x < TotalBytes(sg) && first * PAGE <= sg[0].offset + x
    ensures sg[0].offset + x - first * PAGE < ENTRIES * PAGE
    ensures Translate(words, sg[0].offset + x - first * PAGE) == BusAddress(sg, x)
    ensures ListPages(sg) != []
    ensures forall e :: |Kept(ListPages(sg), first)| <= e < ENTRIES ==>
      Entry(words, e) == ListPages(sg)[|ListPages(sg)| - 1]
  {
    PageOfByte(sg, x);
    KeptTranslates(words, ListPages(sg), first, sg[0].offset + x - first * PAGE, BusAddress(sg, x));
  }

  lemma {:induction false} KeptTranslates(words: seq<nat>, pages: seq<nat>, first: nat, y: nat, address: nat)
    requires |words| == 2 * ENTRIES && |Kept(pages, first)| <= ENTRIES && Lists(words, Kept(pages, first), ENTRIES)
    requires PageOf(pages, first * PAGE + y, address)
    ensures y < ENTRIES * PAGE && Translate(words, y) == address
    ensures forall e :: |Kept(pages, first)| <= e < ENTRIES ==> Entry(words, e) == pages[|pages| - 1]
  {
    PageKept(pages, first, y, address);
    Listed(words, Kept(pages, first), y, address);
  }

  lemma {:induction false} PageKept(pages: seq<nat>, first: nat, y: nat, address: nat)
    requires PageOf(pages, first * PAGE + y, address)
    ensures PageOf(Kept(pages, first), y, address) && Kept(pages, first)[|Kept(pages, first)| - 1] == pages[|pages| - 1]
  {
    PagesOn(first, y);
  }

  /** A table that lists some pages translates as they do. */
  lemma {:induction false} Listed(words: seq<nat>, pages: seq<nat>, y: nat, address: nat)
    requires |words| == 2 * ENTRIES && |pages| <= ENTRIES && Lists(words, pages, ENTRIES) && PageOf(pages, y, address)
    ensures y < ENTRIES * PAGE && Translate(words, y) == address
    ensures forall e :: |pages| <= e < ENTRIES ==> Entry(words, e) == pages[|pages| - 1]
  {
    InTable(y);
    EntryOfHalves(words, pages, ENTRIES, y / PAGE);
    forall e | |pages| <= e < ENTRIES
      ensures Entry(words, e) == pages[|pages| - 1]
    {
      EntryOfHalves(words, pages, ENTRIES, e);
    }
  }

  lemma InTable(x: nat)
    requires x / PAGE < ENTRIES
    ensures x < ENTRIES * PAGE
  {
  }
}
