/** The three-level Sv39 page table: `map`, `unmap` and `is_mapped`. */
module PageTables {
  import opened Arithmetic
  import opened Machine
  import PageEntries

  type PageFlags = PageEntries.PageFlags

  const ENTRY_COUNT: nat := 512
  const VIRTUAL_END: nat := 0x80_0000_0000
  const PHYSICAL_END: nat := 0x40_0000_0000

  type Level = l: nat | l <= 2

  /** The bytes one entry of a table at `level` translates. */
  function LeafSize(level: Level): pos {
    if level == 0 then 0x1000 else if level == 1 then 0x20_0000 else 0x4000_0000
  }

  /** The bytes a whole table at `level` translates. */
  function Span(level: Level): nat {
    if level == 0 then 0x20_0000 else if level == 1 then 0x4000_0000 else 0x80_0000_0000
  }

  /** The first address entry `i` of the table at `base` translates. */
  function Window(base: nat, i: nat, level: Level): nat {
    base + i * LeafSize(level)
  }

  function VpnSegment(virt: nat, level: Level): nat {
    virt / LeafSize(level) % ENTRY_COUNT
  }

  /** One call of `map`: what a caller asked for and has not unmapped. */
  datatype Region = Region(virt: nat, phys: nat, size: nat, flags: PageFlags) {
    function End(): nat { virt + size }

    predicate Contains(v: nat) { virt <= v < End() }

    predicate Intersects(lo: nat, n: nat) { size > 0 && virt < lo + n && lo < End() }

    predicate Covers(lo: nat, n: nat) { virt <= lo && lo + n <= End() }

    /** What `map` and `unmap` assert of their arguments. */
    predicate Legal() {
      && virt % PAGE_SIZE == 0 && phys % PAGE_SIZE == 0 && size % PAGE_SIZE == 0
      && virt < VIRTUAL_END && End() <= VIRTUAL_END
      && phys < PHYSICAL_END && phys + size <= PHYSICAL_END
    }

    /** The region is large enough, and aligned well enough, for a leaf of `level` at `w`. */
    predicate LeafAt(w: nat, level: Level) {
      Covers(w, LeafSize(level)) && (phys + (w - virt)) % LeafSize(level) == 0
    }
  }

  predicate Overlaps(q: Region, r: Region) {
    q.size > 0 && r.size > 0 && q.virt < r.End() && r.virt < q.End()
  }

  /** `q` and `r` share no address in `lo..hi`. */
  predicate Apart(q: Region, r: Region, lo: nat, hi: nat) {
    !(q.size > 0 && r.size > 0 && Max(Max(q.virt, r.virt), lo) < Min(Min(q.End(), r.End()), hi))
  }

  ghost predicate AllApart(live: set<Region>, r: Region, lo: nat, hi: nat) {
    forall q <- live :: Apart(q, r, lo, hi)
  }

  lemma ApartJoin(live: set<Region>, r: Region, lo: nat, mid: nat, hi: nat)
    requires lo <= mid <= hi
    ensures AllApart(live, r, lo, hi) <==> AllApart(live, r, lo, mid) && AllApart(live, r, mid, hi)
  {
    if AllApart(live, r, lo, hi) {
      forall q <- live ensures Apart(q, r, lo, mid) && Apart(q, r, mid, hi) { assert Apart(q, r, lo, hi); }
    } else {
      var q :| q in live && !Apart(q, r, lo, hi);
      assert !Apart(q, r, lo, mid) || !Apart(q, r, mid, hi);
    }
  }

  lemma ApartOutside(live: set<Region>, r: Region, lo: nat, hi: nat)
    requires lo <= hi && (lo == hi || !r.Intersects(lo, hi - lo))
    ensures AllApart(live, r, lo, hi)
  {
  }

  datatype Entry =
    | Invalid
    | Leaf(phys: nat, flags: PageFlags)
    | Indirect(table: seq<Entry>)

  function EmptyTable(): (t: seq<Entry>) {
    seq(ENTRY_COUNT, _ => Invalid)
  }

  /** Every entry of the table at `base` is the one that the regions in `live` call for. */
  ghost predicate Describes(t: seq<Entry>, live: set<Region>, base: nat, level: Level)
    decreases level, 1
  {
    |t| == ENTRY_COUNT && forall i :: 0 <= i < ENTRY_COUNT ==> EntryDescribes(t[i], live, Window(base, i, level), level)
  }

  ghost predicate EntryDescribes(e: Entry, live: set<Region>, w: nat, level: Level)
    decreases level, 0
  {
    match e
    case Invalid => forall r <- live :: !r.Intersects(w, LeafSize(level))
    case Leaf(phys, flags) =>
      exists r <- live ::
        && r.LeafAt(w, level) && phys == r.phys + (w - r.virt) && flags == r.flags
        && OnlyOneIn(r, live, w, LeafSize(level))
    case Indirect(sub) =>
      && level > 0
      && (exists r <- live :: r.Intersects(w, LeafSize(level)))
      && (forall r <- live :: !r.LeafAt(w, level))
      && Describes(sub, live, w, level - 1)
  }

  ghost predicate OnlyOneIn(r: Region, live: set<Region>, lo: nat, n: nat) {
    forall q <- live :: q.Intersects(lo, n) ==> q == r
  }

  ghost predicate AllLegal(live: set<Region>) {
    forall r <- live :: r.Legal()
  }

  // ---------------------------------------------------------------- windows

  lemma Sizes(level: Level)
    ensures Span(level) == ENTRY_COUNT * LeafSize(level)
    ensures level > 0 ==> LeafSize(level) == Span(level - 1)
  {
  }

  lemma WindowOf(base: nat, v: nat, level: Level)
    requires base % Span(level) == 0 && base <= v < base + Span(level)
    ensures var i := VpnSegment(v, level);
            i < ENTRY_COUNT && Window(base, i, level) <= v < Window(base, i, level) + LeafSize(level)
  {
    hide LeafSize, Span, VpnSegment;
    Sizes(level);
    var size, d := LeafSize(level), v - base;
    var m := Multiple(base, Span(level));
    MulAssociates(m, ENTRY_COUNT, size);
    var q, rest := Quotient(d, size);
    MulOrder(ENTRY_COUNT, q, size);
    MulAdd(m * ENTRY_COUNT, q, size);
    DivModUnique(v, m * ENTRY_COUNT + q, rest, size);
    SegmentOfQuotient(v, m, q, level);
  }

  lemma SegmentOfQuotient(v: nat, m: int, q: nat, level: Level)
    requires q < ENTRY_COUNT && v / LeafSize(level) == m * ENTRY_COUNT + q
    ensures VpnSegment(v, level) == q
  {
    hide LeafSize;
    DivModUnique(v / LeafSize(level), m, q, ENTRY_COUNT);
  }

  lemma WindowsOrdered(base: nat, i: nat, j: nat, level: Level)
    requires i <= j
    ensures Window(base, i, level) <= Window(base, j, level)
    ensures i < j ==> Window(base, i, level) + LeafSize(level) <= Window(base, j, level)
  {
    hide LeafSize;
    MulOrder(i, j, LeafSize(level));
  }

  lemma WindowShape(base: nat, i: nat, level: Level)
    requires base % Span(level) == 0 && i < ENTRY_COUNT
    ensures base <= Window(base, i, level)
    ensures Window(base, i, level) + LeafSize(level) == Window(base, i + 1, level) <= base + Span(level)
    ensures Window(base, i, level) % LeafSize(level) == 0
    ensures level > 0 ==> LeafSize(level) == Span(level - 1) && Window(base, i, level) % Span(level - 1) == 0
    ensures VpnSegment(Window(base, i, level), level) == i
  {
    hide LeafSize, Span, Window, VpnSegment;
    Sizes(level);
    WindowEnds(base, level);
    WindowsOrdered(base, 0, i, level);
    WindowsOrdered(base, i + 1, ENTRY_COUNT, level);
    WindowIsMultiple(base, i, level);
    SegmentOf(base, Window(base, i, level), i, level);
  }

  lemma WindowIsMultiple(base: nat, i: nat, level: Level)
    requires base % Span(level) == 0
    ensures Window(base, i, level) % LeafSize(level) == 0
    ensures Window(base, i + 1, level) == Window(base, i, level) + LeafSize(level)
  {
    hide LeafSize, Span;
    Sizes(level);
    var size := LeafSize(level);
    var m := Multiple(base, Span(level));
    MulAssociates(m, ENTRY_COUNT, size);
    MulAdd(m * ENTRY_COUNT, i, size);
    DivModUnique(Window(base, i, level), m * ENTRY_COUNT + i, 0, size);
    MulAdd(i, 1, size);
  }

  lemma SegmentOf(base: nat, v: nat, k: nat, level: Level)
    requires base % Span(level) == 0 && k < ENTRY_COUNT
    requires Window(base, k, level) <= v < Window(base, k, level) + LeafSize(level)
    ensures VpnSegment(v, level) == k
  {
    hide LeafSize, Span, Window, VpnSegment;
    WindowEnds(base, level);
    WindowsOrdered(base, 0, k, level);
    WindowsOrdered(base, k, ENTRY_COUNT, level);
    WindowOf(base, v, level);
    var i := VpnSegment(v, level);
    if i < k { WindowsOrdered(base, i, k, level); } else { WindowsOrdered(base, k, i, level); }
  }

  // ---------------------------------------------------------------- splitting a request

  datatype Range = Range(start: nat, end: nat) {
    predicate IsEmpty() { start >= end }
  }

  function NextMultipleOf(x: nat, align: nat): nat
    requires align > 0
  {
    if x % align == 0 then x else x + (align - x % align)
  }

  function AlignBy(range: Range, align: nat): (Range, Range, Range)
    requires align > 0
  {
    var alignedStart := NextMultipleOf(range.start, align);
    if alignedStart >= range.end then
      (range, Range(0, 0), Range(range.end, range.end))
    else
      var up := NextMultipleOf(range.end, align);
      var alignedEnd := if up > range.end then up - align else up;
      (Range(range.start, alignedStart), Range(alignedStart, alignedEnd), Range(alignedEnd, range.end))
  }

  /** The windows a request falls into: `first` is where its first byte is, `lo..hi` are those it fills. */
  lemma SplitByWindows(range: Range, base: nat, level: Level) returns (first: nat, lo: nat, hi: nat)
    requires base % Span(level) == 0
    requires base <= range.start < range.end <= base + Span(level)
    ensures first == VpnSegment(range.start, level) && first < ENTRY_COUNT && lo <= ENTRY_COUNT && hi <= ENTRY_COUNT
    ensures Window(base, first, level) <= range.start < Window(base, first + 1, level)
    ensures lo == if range.start == Window(base, first, level) then first else first + 1
    ensures var (prefix, aligned, suffix) := AlignBy(range, LeafSize(level));
            if Window(base, lo, level) >= range.end then
              lo == hi == first + 1 && prefix == range && aligned == Range(0, 0) && suffix == Range(range.end, range.end)
            else
              && lo <= hi && Window(base, hi, level) <= range.end < Window(base, hi + 1, level)
              && prefix == Range(range.start, Window(base, lo, level))
              && aligned == Range(Window(base, lo, level), Window(base, hi, level))
              && suffix == Range(Window(base, hi, level), range.end)
  {
    WindowOf(base, range.start, level);
    first := VpnSegment(range.start, level);
    WindowShape(base, first, level);
    lo := if range.start == Window(base, first, level) then first else first + 1;
    AlignedStart(base, range.start, first, level);
    if Window(base, lo, level) >= range.end {
      hi := lo;
    } else {
      hi := FloorWindow(base, range.end, level);
      AlignedStart(base, range.end, hi, level);
      if hi < lo { WindowsOrdered(base, hi + 1, lo, level); }
    }
  }

  lemma WindowEnds(base: nat, level: Level)
    ensures Window(base, 0, level) == base && Window(base, ENTRY_COUNT, level) == base + Span(level)
  {
  }

  lemma FloorWindow(base: nat, end: nat, level: Level) returns (hi: nat)
    requires base % Span(level) == 0 && base < end <= base + Span(level)
    ensures hi <= ENTRY_COUNT
    ensures Window(base, hi, level) <= end < Window(base, hi + 1, level)
  {
    if end == base + Span(level) {
      hi := ENTRY_COUNT;
    } else {
      WindowOf(base, end, level);
      hi := VpnSegment(end, level);
    }
  }

  lemma AlignedStart(base: nat, v: nat, i: nat, level: Level)
    requires base % Span(level) == 0
    requires Window(base, i, level) <= v < Window(base, i + 1, level)
    ensures NextMultipleOf(v, LeafSize(level)) == if v == Window(base, i, level) then v else Window(base, i + 1, level)
  {
    hide Window, Span;
    WindowIsMultiple(base, i, level);
    OffsetInWindow(Window(base, i, level), v, level);
  }

  lemma OffsetInWindow(w: nat, v: nat, level: Level)
    requires w % LeafSize(level) == 0 && w <= v < w + LeafSize(level)
    ensures v % LeafSize(level) == v - w
  {
    hide LeafSize;
    var q := Multiple(w, LeafSize(level));
    DivModUnique(v, q, v - w, LeafSize(level));
  }

  // ---------------------------------------------------------------- frames

  /** The regions in one of the two sets but not in both stay clear of `lo..lo + n`. */
  ghost predicate SameNear(a: set<Region>, b: set<Region>, lo: nat, n: nat) {
    && (forall r <- a :: r in b || !r.Intersects(lo, n))
    && (forall r <- b :: r in a || !r.Intersects(lo, n))
  }

  lemma NearBelow(a: set<Region>, b: set<Region>, w: nat, i: nat, level: Level)
    requires level > 0 && i < ENTRY_COUNT && w % LeafSize(level) == 0 && SameNear(a, b, w, LeafSize(level))
    ensures SameNear(a, b, Window(w, i, level - 1), LeafSize(level - 1))
  {
    WindowShape(w, i, level - 1);
  }

  lemma {:induction false} FrameEntry(e: Entry, a: set<Region>, b: set<Region>, w: nat, level: Level)
    requires w % LeafSize(level) == 0
    requires SameNear(a, b, w, LeafSize(level)) && EntryDescribes(e, a, w, level)
    ensures EntryDescribes(e, b, w, level)
    decreases level, 0
  {
    match e {
      case Invalid =>
      case Leaf(phys, flags) =>
        var r :| r in a && r.LeafAt(w, level) && phys == r.phys + (w - r.virt) && flags == r.flags
                 && OnlyOneIn(r, a, w, LeafSize(level));
        assert r in b && OnlyOneIn(r, b, w, LeafSize(level));
      case Indirect(sub) =>
        forall i | 0 <= i < ENTRY_COUNT ensures EntryDescribes(sub[i], b, Window(w, i, level - 1), level - 1) {
          WindowShape(w, i, level - 1);
          NearBelow(a, b, w, i, level);
          FrameEntry(sub[i], a, b, Window(w, i, level - 1), level - 1);
        }
    }
  }

  /** Entries below `k` are already as `after` calls for, the others still as `before` does. */
  ghost predicate Mixed(t: seq<Entry>, before: set<Region>, after: set<Region>, base: nat, level: Level, k: nat) {
    && |t| == ENTRY_COUNT
    && (forall i :: 0 <= i < k && i < ENTRY_COUNT ==> EntryDescribes(t[i], after, Window(base, i, level), level))
    && (forall i :: k <= i < ENTRY_COUNT ==> EntryDescribes(t[i], before, Window(base, i, level), level))
  }

  lemma DescribesMixed(t: seq<Entry>, before: set<Region>, after: set<Region>, base: nat, level: Level)
    ensures Mixed(t, before, after, base, level, 0) <==> Describes(t, before, base, level)
    ensures Mixed(t, before, after, base, level, ENTRY_COUNT) <==> Describes(t, after, base, level)
  {
  }

  /** Windows that the changed region does not touch need no work. */
  lemma Advance(t: seq<Entry>, before: set<Region>, after: set<Region>, base: nat, level: Level, k: nat, k': nat)
    requires base % Span(level) == 0 && k <= k' <= ENTRY_COUNT
    requires Mixed(t, before, after, base, level, k)
    requires Window(base, k, level) <= Window(base, k', level)
    requires k < k' ==> SameNear(before, after, Window(base, k, level), Window(base, k', level) - Window(base, k, level))
    ensures Mixed(t, before, after, base, level, k')
  {
    forall i | k <= i < k' ensures EntryDescribes(t[i], after, Window(base, i, level), level) {
      WindowShape(base, i, level);
      WindowsOrdered(base, k, i, level);
      WindowsOrdered(base, i, k', level);
      FrameEntry(t[i], before, after, Window(base, i, level), level);
    }
  }

  lemma EmptyDescribes(live: set<Region>, base: nat, level: Level)
    requires base % Span(level) == 0
    requires forall r <- live :: !r.Intersects(base, Span(level))
    ensures Describes(EmptyTable(), live, base, level)
  {
    forall i | 0 <= i < ENTRY_COUNT ensures EntryDescribes(EmptyTable()[i], live, Window(base, i, level), level) {
      WindowShape(base, i, level);
    }
  }

  // ---------------------------------------------------------------- map

  /** The part of `r` that the table at `base` translates is `virt..virt + size`. */
  predicate Clip(virt: nat, phys: nat, size: nat, flags: PageFlags, r: Region, base: nat, level: Level) {
    && virt == Max(r.virt, base) && virt + size == Min(r.End(), base + Span(level))
    && phys == r.phys + (virt - r.virt) && flags == r.flags
  }

  /** Rounding to a leaf boundary leaves nothing over at the lowest level, where pages are whole. */
  lemma PagesFillWindows(v: nat, w: nat)
    requires v % PAGE_SIZE == 0 && w % PAGE_SIZE == 0 && w <= v < w + PAGE_SIZE
    ensures v == w
  {
  }

  lemma CongruentEverywhere(r: Region, a: nat, v: nat, level: Level)
    requires a % LeafSize(level) == 0 && v % LeafSize(level) == 0 && r.virt <= a <= v
    ensures (r.phys + (a - r.virt)) % LeafSize(level) == (r.phys + (v - r.virt)) % LeafSize(level)
  {
    hide LeafSize;
    var size, x := LeafSize(level), r.phys + (a - r.virt);
    var qa := Multiple(a, size);
    var qv := Multiple(v, size);
    var q, rest := Quotient(x, size);
    DivModUnique(x, q, rest, size);
    MulAdd(qv, -qa, size);
    MulAdd(q, qv - qa, size);
    DivModUnique(x + (v - a), q + (qv - qa), rest, size);
  }

  /** `range` is what `r` asks of window `k` alone, and it is too small or misaligned for a leaf there. */
  predicate PieceOf(range: Range, phys: nat, flags: PageFlags, r: Region, base: nat, k: nat, level: Level) {
    && k < ENTRY_COUNT && level > 0 && !range.IsEmpty()
    && r.Intersects(Window(base, k, level), LeafSize(level)) && !r.LeafAt(Window(base, k, level), level)
    && Clip(range.start, phys, range.end - range.start, flags, r, Window(base, k, level), level - 1)
  }

  /** Nothing of `r` lies in the windows before `k`. */
  predicate StartsAt(r: Region, base: nat, k: nat, level: Level) {
    k <= ENTRY_COUNT && (r.size == 0 || Window(base, k, level) <= r.virt || k == 0)
  }

  /** Nothing of `r` lies in the windows from `k` on. */
  predicate EndsBy(r: Region, base: nat, k: nat, level: Level) {
    k <= ENTRY_COUNT && (r.size == 0 || r.End() <= Window(base, k, level) || k == ENTRY_COUNT)
  }

  /** What `align_by` makes of a request: a piece of one window, whole windows, a piece of one window. */
  lemma SplitRequest(virt: nat, phys: nat, size: nat, flags: PageFlags, r: Region, base: nat, level: Level)
    returns (first: nat, lo: nat, hi: nat)
    requires base % Span(level) == 0 && r.Legal() && Clip(virt, phys, size, flags, r, base, level)
    requires size == 0 ==> r.size == 0
    ensures first <= lo <= hi <= ENTRY_COUNT && StartsAt(r, base, first, level)
    ensures var (prefix, aligned, suffix) := AlignBy(Range(virt, virt + size), LeafSize(level));
            && (if prefix.IsEmpty() then lo == first
                else lo == first + 1 && prefix.start >= virt
                     && PieceOf(prefix, phys + (prefix.start - virt), flags, r, base, first, level))
            && (if aligned.IsEmpty() then lo == hi
                else lo < hi && aligned == Range(Window(base, lo, level), Window(base, hi, level))
                     && r.virt <= virt <= aligned.start && aligned.end <= r.End())
            && (if suffix.IsEmpty() then EndsBy(r, base, hi, level)
                else suffix.start >= virt && EndsBy(r, base, hi + 1, level)
                     && PieceOf(suffix, phys + (suffix.start - virt), flags, r, base, hi, level))
  {
    hide Window, LeafSize, Span, AlignBy, PieceOf;
    first, lo, hi := 0, 0, 0;
    WindowEnds(base, level);
    if size == 0 {
      EmptyRequest(virt, level);
    } else {
      first, lo, hi := SplitByWindows(Range(virt, virt + size), base, level);
      WindowsOrdered(base, 0, first, level);
      WindowsOrdered(base, lo, hi, level);
      WindowsOrdered(base, hi, ENTRY_COUNT, level);
      if virt != Window(base, first, level) {
        PrefixPiece(virt, phys, size, flags, r, base, first, level);
      }
      if Window(base, lo, level) < virt + size && virt + size != Window(base, hi, level) {
        WindowsOrdered(base, hi + 1, ENTRY_COUNT, level);
        SuffixPiece(virt, phys, size, flags, r, base, hi, level);
      }
    }
  }

  lemma EmptyRequest(virt: nat, level: Level)
    ensures AlignBy(Range(virt, virt), LeafSize(level)) == (Range(virt, virt), Range(0, 0), Range(virt, virt))
  {
  }

  lemma PrefixPiece(virt: nat, phys: nat, size: nat, flags: PageFlags, r: Region, base: nat, k: nat, level: Level)
    requires base % Span(level) == 0 && r.Legal() && Clip(virt, phys, size, flags, r, base, level)
    requires k < ENTRY_COUNT && Window(base, k, level) < virt < Window(base, k + 1, level) && size > 0
    ensures PieceOf(Range(virt, Min(virt + size, Window(base, k + 1, level))), phys, flags, r, base, k, level)
  {
    hide Window, Span, LeafSize, Region.LeafAt, VpnSegment, Region.Legal;
    WindowShape(base, k, level);
    PageAlignedEnds(virt, phys, size, flags, r, base, level);
    CutsAreInTables(virt, base, k, level);
    NotCovered(r, Window(base, k, level), level);
  }

  lemma SuffixPiece(virt: nat, phys: nat, size: nat, flags: PageFlags, r: Region, base: nat, k: nat, level: Level)
    requires base % Span(level) == 0 && r.Legal() && Clip(virt, phys, size, flags, r, base, level)
    requires k < ENTRY_COUNT && virt <= Window(base, k, level) < virt + size < Window(base, k + 1, level)
    ensures PieceOf(Range(Window(base, k, level), virt + size), phys + (Window(base, k, level) - virt), flags, r, base, k, level)
  {
    hide Window, Span, LeafSize, Region.LeafAt, VpnSegment, Region.Legal;
    WindowShape(base, k, level);
    PageAlignedEnds(virt, phys, size, flags, r, base, level);
    CutsAreInTables(virt + size, base, k, level);
    NotCovered(r, Window(base, k, level), level);
  }

  lemma PageAlignedEnds(virt: nat, phys: nat, size: nat, flags: PageFlags, r: Region, base: nat, level: Level)
    requires base % Span(level) == 0 && r.Legal() && Clip(virt, phys, size, flags, r, base, level)
    ensures virt % PAGE_SIZE == 0 && (virt + size) % PAGE_SIZE == 0
  {
    hide Span;
    TablesArePageAligned(base, level);
    MultiplesAdd(base, Span(level), PAGE_SIZE);
    MultiplesAdd(r.virt, r.size, PAGE_SIZE);
  }

  lemma TablesArePageAligned(base: nat, level: Level)
    requires base % Span(level) == 0
    ensures base % PAGE_SIZE == 0 && Span(level) % PAGE_SIZE == 0
  {
    var m := Multiple(base, Span(level));
    var pages := if level == 0 then 512 else if level == 1 then 512 * 512 else 512 * 512 * 512;
    assert Span(level) == pages * PAGE_SIZE;
    MulAssociates(m, pages, PAGE_SIZE);
    DivModUnique(base, m * pages, 0, PAGE_SIZE);
  }

  /** A page boundary strictly inside a window is only found above the lowest level. */
  lemma CutsAreInTables(v: nat, base: nat, k: nat, level: Level)
    requires base % Span(level) == 0 && Window(base, k, level) < v < Window(base, k + 1, level) && v % PAGE_SIZE == 0
    ensures level > 0
  {
    hide Span, Window;
    WindowIsMultiple(base, k, level);
    if level == 0 { PagesFillWindows(v, Window(base, k, level)); }
  }

  lemma NotCovered(r: Region, w: nat, level: Level)
    ensures r.LeafAt(w, level) ==> r.Covers(w, LeafSize(level))
  {
  }

  /** The two sets differ at most in `r`. */
  ghost predicate SameBut(before: set<Region>, after: set<Region>, r: Region) {
    before - {r} == after - {r}
  }

  lemma BeginChange(t: seq<Entry>, before: set<Region>, after: set<Region>, r: Region, base: nat, first: nat, level: Level)
    requires base % Span(level) == 0 && Describes(t, before, base, level) && StartsAt(r, base, first, level)
    requires SameBut(before, after, r)
    ensures Mixed(t, before, after, base, level, first)
  {
    hide Window, LeafSize, Span, Describes, Mixed, EntryDescribes;
    WindowEnds(base, level);
    WindowsOrdered(base, 0, first, level);
    DescribesMixed(t, before, after, base, level);
    FarFrom(before, after, r, base, Window(base, first, level) - base);
    Advance(t, before, after, base, level, 0, first);
  }

  lemma EndChange(t: seq<Entry>, before: set<Region>, after: set<Region>, r: Region, base: nat, k: nat, level: Level)
    requires base % Span(level) == 0 && EndsBy(r, base, k, level) && Mixed(t, before, after, base, level, k)
    requires SameBut(before, after, r)
    ensures Describes(t, after, base, level)
  {
    hide Window, LeafSize, Span, Describes, Mixed, EntryDescribes;
    WindowEnds(base, level);
    WindowsOrdered(base, k, ENTRY_COUNT, level);
    FarFrom(before, after, r, Window(base, k, level), base + Span(level) - Window(base, k, level));
    Advance(t, before, after, base, level, k, ENTRY_COUNT);
    DescribesMixed(t, before, after, base, level);
  }

  lemma FarFrom(before: set<Region>, after: set<Region>, r: Region, lo: nat, n: nat)
    requires SameBut(before, after, r)
    ensures !r.Intersects(lo, n) ==> SameNear(before, after, lo, n)
  {
    forall q <- before ensures q in after || q == r { assert q == r || q in before - {r}; }
    forall q <- after ensures q in before || q == r { assert q == r || q in after - {r}; }
  }

  /** A request leaves the windows before its first and after its last one alone. */
  lemma ApartAtEnds(live: set<Region>, r: Region, base: nat, k: nat, level: Level)
    requires base % Span(level) == 0 && k <= ENTRY_COUNT
    ensures StartsAt(r, base, k, level) ==> AllApart(live, r, base, Window(base, k, level))
    ensures EndsBy(r, base, k, level) ==> AllApart(live, r, Window(base, k, level), base + Span(level))
  {
    hide Window, LeafSize, Span, AllApart;
    WindowEnds(base, level);
    WindowsOrdered(base, 0, k, level);
    WindowsOrdered(base, k, ENTRY_COUNT, level);
    if StartsAt(r, base, k, level) { ApartOutside(live, r, base, Window(base, k, level)); }
    if EndsBy(r, base, k, level) { ApartOutside(live, r, Window(base, k, level), base + Span(level)); }
  }

  /** A window that the request fills takes a leaf exactly when the physical side is aligned too. */
  lemma FilledWindow(r: Region, phys: nat, base: nat, k: nat, hi: nat, start: nat, level: Level)
    requires base % Span(level) == 0 && r.Legal() && k < ENTRY_COUNT && hi <= ENTRY_COUNT
    requires r.virt <= start <= Window(base, k, level) < Window(base, hi, level) <= r.End()
    requires start % LeafSize(level) == 0 && phys == r.phys + (start - r.virt)
    ensures k < hi && Window(base, k, level) + LeafSize(level) == Window(base, k + 1, level) <= Window(base, hi, level)
    ensures var w := Window(base, k, level);
            if phys % LeafSize(level) == 0 then r.LeafAt(w, level)
            else PieceOf(Range(w, w + LeafSize(level)), phys + (w - start), r.flags, r, base, k, level)
  {
    hide Window, Span, LeafSize, VpnSegment, Region.Legal;
    WindowShape(base, k, level);
    if hi <= k { WindowsOrdered(base, hi, k, level); } else { WindowsOrdered(base, k + 1, hi, level); }
    CongruentEverywhere(r, start, Window(base, k, level), level);
    if phys % LeafSize(level) != 0 { MisalignedMeansDeeper(r, phys, start, level); }
  }

  lemma MisalignedMeansDeeper(r: Region, phys: nat, start: nat, level: Level)
    requires r.Legal() && r.virt <= start && start % LeafSize(level) == 0 && phys == r.phys + (start - r.virt)
    requires phys % LeafSize(level) != 0
    ensures level > 0
  {
    if level == 0 {
      var a := Multiple(r.phys, PAGE_SIZE);
      var b := Multiple(start, PAGE_SIZE);
      var c := Multiple(r.virt, PAGE_SIZE);
      DivModUnique(phys, a + b - c, 0, PAGE_SIZE);
    }
  }

  lemma LeafClashes(e: Entry, live: set<Region>, r: Region, w: nat, level: Level)
    requires EntryDescribes(e, live, w, level) && e.Leaf? && r.Intersects(w, LeafSize(level))
    ensures !AllApart(live, r, w, w + LeafSize(level))
  {
    var q :| q in live && q.LeafAt(w, level);
    assert !Apart(q, r, w, w + LeafSize(level));
  }

  lemma IndirectEntry(e: Entry, sub: seq<Entry>, live: set<Region>, r: Region, w: nat, level: Level)
    requires level > 0 && EntryDescribes(e, live, w, level) && !e.Leaf?
    requires r.Intersects(w, LeafSize(level)) && !r.LeafAt(w, level)
    requires Describes(sub, live + {r}, w, level - 1)
    ensures EntryDescribes(Indirect(sub), live + {r}, w, level)
  {
    assert r in live + {r};
    forall q | q in live + {r} ensures !q.LeafAt(w, level) {
      if q.LeafAt(w, level) { assert q.Intersects(w, LeafSize(level)); }
    }
  }

  // ---------------------------------------------------------------- unmap

  predicate IsEmptyTable(t: seq<Entry>) {
    forall i :: 0 <= i < |t| ==> t[i] == Invalid
  }

  /** Where a live region is too small or misaligned for a leaf, the entry points to a table. */
  lemma OwnsIndirect(e: Entry, live: set<Region>, r: Region, w: nat, level: Level)
    requires EntryDescribes(e, live, w, level) && r in live
    requires r.Intersects(w, LeafSize(level)) && !r.LeafAt(w, level)
    ensures e.Indirect?
  {
  }

  lemma ShrunkEntry(e: Entry, sub: seq<Entry>, live: set<Region>, r: Region, w: nat, level: Level)
    requires level > 0 && w % LeafSize(level) == 0 && EntryDescribes(e, live, w, level) && e.Indirect?
    requires Describes(sub, live - {r}, w, level - 1)
    ensures EntryDescribes(if IsEmptyTable(sub) then Invalid else Indirect(sub), live - {r}, w, level)
  {
    EmptyIff(sub, live - {r}, w, level - 1);
    forall q <- live - {r} ensures !q.LeafAt(w, level) { assert q in live; }
  }

  /** A table has no valid entry exactly when no region reaches into it. */
  lemma EmptyIff(t: seq<Entry>, live: set<Region>, base: nat, level: Level)
    requires base % Span(level) == 0 && Describes(t, live, base, level)
    ensures IsEmptyTable(t) <==> forall q <- live :: !q.Intersects(base, Span(level))
  {
    forall q <- live | q.Intersects(base, Span(level)) ensures !IsEmptyTable(t) {
      var v := Max(q.virt, base);
      WindowOf(base, v, level);
      assert q.Intersects(Window(base, VpnSegment(v, level), level), LeafSize(level));
      assert t[VpnSegment(v, level)] != Invalid;
    }
    if i :| 0 <= i < |t| && t[i] != Invalid {
      WindowShape(base, i, level);
      var q :| q in live && q.Intersects(Window(base, i, level), LeafSize(level));
      assert q.Intersects(base, Span(level));
    }
  }

  // ---------------------------------------------------------------- what the table means

  datatype Translation = Fault | To(phys: nat, flags: PageFlags)

  /** Address translation, sections 12.3.2 and 12.4.1 of the RISC-V Privileged Architecture. */
  function Walk(t: seq<Entry>, virt: nat, level: Level): Translation
    decreases level
  {
    var i := VpnSegment(virt, level);
    if i >= |t| then Fault
    else
      match t[i]
      case Invalid => Fault
      case Leaf(phys, flags) =>
        // A misaligned superpage raises a page fault.
        if phys % LeafSize(level) != 0 then Fault else To(phys + virt % LeafSize(level), flags)
      case Indirect(sub) => if level == 0 then Fault else Walk(sub, virt, level - 1)
  }

  /** What the region says about an address it contains. */
  function TranslationIn(r: Region, v: nat): Translation
    requires r.Contains(v)
  {
    To(r.phys + (v - r.virt), r.flags)
  }

  lemma {:induction false} WalkOfLive(t: seq<Entry>, live: set<Region>, base: nat, level: Level, v: nat)
    requires base % Span(level) == 0 && base <= v < base + Span(level) && Describes(t, live, base, level)
    ensures forall r <- live :: r.Contains(v) ==> Walk(t, v, level) == TranslationIn(r, v)
    ensures (forall r <- live :: !r.Contains(v)) ==> Walk(t, v, level) == Fault
    decreases level
  {
    WindowOf(base, v, level);
    var i := VpnSegment(v, level);
    var w := Window(base, i, level);
    WindowShape(base, i, level);
    assert EntryDescribes(t[i], live, w, level);
    match t[i] {
      case Invalid =>
      case Indirect(sub) => WalkOfLive(sub, live, w, level - 1, v);
      case Leaf(phys, flags) =>
        var r :| r in live && r.LeafAt(w, level) && phys == r.phys + (w - r.virt) && flags == r.flags
                 && OnlyOneIn(r, live, w, LeafSize(level));
        OffsetInWindow(w, v, level);
        assert r.Contains(v);
    }
  }

  /** Mapping `r` adds the translations of `r` to those there were, whatever pages it is made of. */
  lemma MapExtendsTranslations(t: seq<Entry>, t': seq<Entry>, live: set<Region>, r: Region, v: nat)
    requires Describes(t, live, 0, 2) && Describes(t', live + {r}, 0, 2) && v < VIRTUAL_END
    ensures Walk(t', v, 2) == if r.Contains(v) then TranslationIn(r, v) else Walk(t, v, 2)
  {
    WalkOfLive(t, live, 0, 2, v);
    WalkOfLive(t', live + {r}, 0, 2, v);
    assert r in live + {r};
    if !r.Contains(v) {
      if q :| q in live && q.Contains(v) {
        assert q in live + {r};
      }
    }
  }

  /** Live regions of a table share no address. */
  lemma LiveRegionsAreDisjoint(t: seq<Entry>, live: set<Region>, q: Region, r: Region)
    requires Describes(t, live, 0, 2) && AllLegal(live) && q in live && r in live && Overlaps(q, r)
    ensures q == r
  {
    OwnerIsUnique(t, live, 0, 2, Max(q.virt, r.virt), q, r);
  }

  lemma {:induction false} OwnerIsUnique(t: seq<Entry>, live: set<Region>, base: nat, level: Level, v: nat, q: Region, r: Region)
    requires base % Span(level) == 0 && base <= v < base + Span(level) && Describes(t, live, base, level)
    requires AllLegal(live) && q in live && r in live && q.Contains(v) && r.Contains(v)
    ensures q == r
    decreases level
  {
    WindowOf(base, v, level);
    var i := VpnSegment(v, level);
    WindowShape(base, i, level);
    assert EntryDescribes(t[i], live, Window(base, i, level), level);
    if t[i].Indirect? {
      OwnerIsUnique(t[i].table, live, Window(base, i, level), level - 1, v, q, r);
    }
  }

  /** The live regions alone decide the table, down to which page sizes and which child tables there are. */
  lemma {:induction false} TableIsCanonical(t: seq<Entry>, t': seq<Entry>, live: set<Region>, base: nat, level: Level)
    requires base % Span(level) == 0 && Describes(t, live, base, level) && Describes(t', live, base, level)
    ensures t == t'
    decreases level
  {
    forall i | 0 <= i < ENTRY_COUNT ensures t[i] == t'[i] {
      var w := Window(base, i, level);
      WindowShape(base, i, level);
      assert EntryDescribes(t[i], live, w, level) && EntryDescribes(t'[i], live, w, level);
      if t[i].Indirect? && t'[i].Indirect? {
        TableIsCanonical(t[i].table, t'[i].table, live, w, level - 1);
      }
    }
  }

  /** What the table stores can be packed into hardware entries without loss. */
  lemma {:induction false} LeavesArePackable(t: seq<Entry>, live: set<Region>, base: nat, level: Level, i: nat)
    requires base % Span(level) == 0 && Describes(t, live, base, level) && AllLegal(live)
    requires i < ENTRY_COUNT && t[i].Leaf?
    ensures t[i].phys % LeafSize(level) == 0 && t[i].phys < PHYSICAL_END
  {
    var w := Window(base, i, level);
    var r :| r in live && r.LeafAt(w, level) && t[i].phys == r.phys + (w - r.virt);
  }
}
