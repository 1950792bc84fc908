/** Lazily read disk regions: page faults load one page each, and agree with reading the region at once. */
module DemandPaging {
  import opened Arithmetic
  import opened Bytes
  import opened Machine
  import opened PageTableObjects
  import opened PageTables
  import PageEntries

  const SECTOR_SIZE: nat := 512
  const STACK_GUARD_START: nat := 0x2000
  const STACK_GUARD_END: nat := 0x3000

  /** The flags of a lazily mapped page: readable by the user, not writable. */
  function LazyFlags(): PageFlags { PageEntries.Readonly().User() }

  /** A mapped disk region with its `backed_pages`: page index and physical address of each page read so far. */
  datatype Lazy = Lazy(start: nat, size: nat, firstSector: nat, backed: seq<(nat, nat)>) {
    predicate Contains(v: nat) { start <= v < start + size }

    /** The region is whole pages, inside the address space and inside the disk. */
    predicate Legal(diskSize: nat) {
      && start % PAGE_SIZE == 0 && size % PAGE_SIZE == 0 && start + size <= VIRTUAL_END
      && firstSector * SECTOR_SIZE + size <= diskSize
      && STACK_GUARD_END <= start
    }

    function Mapping(page: (nat, nat)): Region {
      Region(start + PAGE_SIZE * page.0, page.1, PAGE_SIZE, LazyFlags())
    }
  }

  /** Reads one sector into `page` from `at` on. */
  method ReadSector(disk: seq<Byte>, sector: nat, page: array<Byte>, at: nat)
    requires sector * SECTOR_SIZE + SECTOR_SIZE <= |disk| && at + SECTOR_SIZE <= page.Length
    modifies page
    ensures page[..at] == old(page[..at])
    ensures page[at..at + SECTOR_SIZE] == disk[sector * SECTOR_SIZE..][..SECTOR_SIZE]
    ensures page[at + SECTOR_SIZE..] == old(page[at + SECTOR_SIZE..])
  {
    var base := sector * SECTOR_SIZE;
    for i := 0 to SECTOR_SIZE
      invariant page[..at] == old(page[..at]) && page[at + SECTOR_SIZE..] == old(page[at + SECTOR_SIZE..])
      invariant page[at..at + i] == disk[base..base + i]
    {
      page[at + i] := disk[base + i];
      assert page[at..at + i + 1] == page[at..at + i] + [disk[base + i]];
    }
  }

  /** `MappedRegion::load_page`: the page at index `pageIndex` of the region, block by block. */
  method LoadPage(disk: seq<Byte>, firstSector: nat, pageIndex: nat) returns (page: array<Byte>)
    requires firstSector * SECTOR_SIZE + PAGE_SIZE * pageIndex + PAGE_SIZE <= |disk|
    ensures fresh(page) && page[..] == disk[firstSector * SECTOR_SIZE + PAGE_SIZE * pageIndex..][..PAGE_SIZE]
  {
    page := new Byte[PAGE_SIZE](_ => 0);
    var sectorOffset := firstSector + pageIndex * PAGE_SIZE / SECTOR_SIZE;
    ghost var base := firstSector * SECTOR_SIZE + PAGE_SIZE * pageIndex;
    assert sectorOffset * SECTOR_SIZE == base;
    for i := 0 to PAGE_SIZE / SECTOR_SIZE
      invariant page.Length == PAGE_SIZE
      invariant page[..i * SECTOR_SIZE] == disk[base..][..i * SECTOR_SIZE]
    {
      ghost var at := i * SECTOR_SIZE;
      ghost var before := page[..at];
      ReadSector(disk, sectorOffset + i, page, i * SECTOR_SIZE);
      assert page[..at + SECTOR_SIZE] == page[..at] + page[at..at + SECTOR_SIZE];
      assert disk[base..][..at + SECTOR_SIZE] == disk[base..][..at] + disk[base + at..][..SECTOR_SIZE];
    }
    assert page[..] == page[..PAGE_SIZE];
  }

  /** What a byte of the region would be, had the whole region been read at once. */
  function EagerByte(disk: seq<Byte>, lazy: Lazy, v: nat): Byte
    requires lazy.Legal(|disk|) && lazy.Contains(v)
  {
    disk[lazy.firstSector * SECTOR_SIZE + (v - lazy.start)]
  }

  /** `Aborted` is a kernel panic. */
  datatype FaultOutcome = Killed | Loaded | Aborted

  ghost function AllMappings(lazies: seq<Lazy>): set<Region> {
    set l <- lazies, page <- l.backed :: l.Mapping(page)
  }

  predicate RegionsApart(l: Lazy, k: Lazy) {
    l.start + l.size <= k.start || k.start + k.size <= l.start
  }

  /** `page` is one whole page of `lazy`, kept in a frame that holds the disk's bytes. */
  ghost predicate PageIsLoaded(disk: seq<Byte>, frames: map<nat, seq<Byte>>, lazy: Lazy, page: (nat, nat)) {
    && PAGE_SIZE * page.0 + PAGE_SIZE <= lazy.size
    && page.1 % PAGE_SIZE == 0 && page.1 + PAGE_SIZE <= PHYSICAL_END && page.1 in frames
    && lazy.Legal(|disk|)
    && frames[page.1] == disk[lazy.firstSector * SECTOR_SIZE + PAGE_SIZE * page.0..][..PAGE_SIZE]
  }

  ghost predicate LoadedOnce(backed: seq<(nat, nat)>) {
    forall i, j :: 0 <= i < j < |backed| ==> backed[i].0 != backed[j].0
  }

  ghost predicate LazyOk(disk: seq<Byte>, frames: map<nat, seq<Byte>>, lazy: Lazy) {
    && lazy.Legal(|disk|) && LoadedOnce(lazy.backed)
    && forall page <- lazy.backed :: PageIsLoaded(disk, frames, lazy, page)
  }

  class AddressSpace {
    const disk: seq<Byte>
    var table: PageTable
    var lazies: seq<Lazy>
    /** Kernel pages handed out so far, by physical address. */
    var frames: map<nat, seq<Byte>>
    ghost var fixed: set<Region>

    ghost predicate Valid()
      reads this, table, table.Repr
    {
      && table.Valid() && table in table.Repr && (this as object) !in table.Repr
      && table.live == fixed + AllMappings(lazies)
      && (forall l <- lazies :: LazyOk(disk, frames, l))
      && (forall i, j :: 0 <= i < j < |lazies| ==> RegionsApart(lazies[i], lazies[j]))
      && (forall q <- fixed, l <- lazies :: q.size == 0 || q.End() <= l.start || l.start + l.size <= q.virt)
    }

    constructor (disk: seq<Byte>, table: PageTable)
      requires table.Valid()
      ensures Valid() && this.disk == disk && this.table == table && lazies == [] && fixed == table.live
    {
      this.disk, this.table, lazies, frames, fixed := disk, table, [], map[], table.live;
      assert AllMappings([]) == {};
    }

    /** `shared_memory_map` of a region of which the pages `backed` have been read already, by whichever process, into the
        kernel pages `loaded`. Two processes may each have read the same page: mapping it the second time is a panic. */
    method MapRegion(start: nat, size: nat, firstSector: nat, backed: seq<(nat, nat)>, loaded: map<nat, seq<Byte>>)
      returns (aborted: bool)
      requires Valid() && Lazy(start, size, firstSector, []).Legal(|disk|)
      requires forall l <- lazies :: RegionsApart(l, Lazy(start, size, firstSector, []))
      requires forall q <- fixed :: q.size == 0 || q.End() <= start || start + size <= q.virt
      requires forall page <- backed :: PageIsLoaded(disk, loaded, Lazy(start, size, firstSector, []), page)
      requires forall f <- loaded :: f in frames ==> frames[f] == loaded[f]
      modifies this`lazies, this`frames, table.Repr
      ensures aborted <==> !LoadedOnce(backed)
      ensures !aborted ==> Valid() && frames == old(frames) + loaded
      ensures !aborted ==> lazies == old(lazies) + [Lazy(start, size, firstSector, backed)]
    {
      hide PageTable.Valid, LazyOk, AllMappings, RegionsApart, PageIsLoaded, Lazy.Mapping, Lazy.Legal, LoadedOnce;
      ghost var l := Lazy(start, size, firstSector, []);
      AllStillOk(disk, frames, loaded, lazies, l, backed);
      frames := frames + loaded;
      NoneBacked(lazies, l);
      var ok := MapBacked(start, backed, l);
      if !ok {
        return true;
      }
      AllBacked(disk, frames, l, backed);
      OneMoreApart(lazies, fixed, l, backed);
      lazies := lazies + [Lazy(start, size, firstSector, backed)];
      return false;
    }

    /** The loop over the pages that are there already. */
    method MapBacked(start: nat, backed: seq<(nat, nat)>, ghost l: Lazy) returns (ok: bool)
      requires table.Valid() && table in table.Repr && (this as object) !in table.Repr && l.start == start
      requires table.live == fixed + AllMappings(lazies + [l.(backed := [])])
      requires (forall m <- lazies :: RegionsApart(m, l)) && (forall m <- lazies :: LazyOk(disk, frames, m))
      requires forall q <- fixed :: q.size == 0 || q.End() <= l.start || l.start + l.size <= q.virt
      requires forall page <- backed :: PageIsLoaded(disk, frames, l, page)
      modifies table.Repr
      ensures ok <==> LoadedOnce(backed)
      ensures ok ==> table.Valid() && table in table.Repr && (this as object) !in table.Repr
      ensures ok ==> table.live == fixed + AllMappings(lazies + [l.(backed := backed)]) && fresh(table.Repr - old(table.Repr))
    {
      hide PageTable.Valid, LazyOk, AllMappings, RegionsApart, PageIsLoaded, Lazy.Mapping, Lazy.Legal, LoadedOnce, Overlaps;
      hide Region.Legal, Region.End;
      assert LoadedOnce([]) by { NoneBacked(lazies, l.(backed := [])); }
      for i := 0 to |backed|
        invariant table.Valid() && table in table.Repr && (this as object) !in table.Repr && fresh(table.Repr - old(table.Repr))
        invariant table.live == fixed + AllMappings(lazies + [l.(backed := backed[..i])]) && LoadedOnce(backed[..i])
        modifies table.Repr
      {
        assert backed[i] in backed;
        NextIsClearIff(disk, frames, lazies, fixed, l, backed, i);
        PageMapping(l, backed[i]);
        ok := table.Map(start + PAGE_SIZE * backed[i].0, backed[i].1, PAGE_SIZE, LazyFlags());
        if !ok {
          return;
        }
        NextBacked(lazies, l, backed, i);
      }
      assert backed[..|backed|] == backed;
      ok := true;
    }

    /** An access that no region allows, or that is not allowed although the page is there. */
    ghost predicate Forbidden(stval: nat)
      reads this, table
    {
      (forall l <- lazies :: !l.Contains(stval)) || (exists r <- table.live :: r.Contains(stval))
    }

    /** `handle_page_fault` at `stval`; `frame` is the page that the kernel heap would give. A stack overflow kills the
        process. To kill it for a forbidden access the kernel locks it a second time and panics. */
    method HandlePageFault(stval: nat, frame: nat) returns (outcome: FaultOutcome)
      requires Valid()
      requires frame % PAGE_SIZE == 0 && frame + PAGE_SIZE <= PHYSICAL_END && frame !in frames
      modifies this`lazies, this`frames, table.Repr
      ensures outcome == Killed <==> STACK_GUARD_START <= stval < STACK_GUARD_END
      ensures outcome == Aborted <==> !(STACK_GUARD_START <= stval < STACK_GUARD_END) && old(Forbidden(stval))
      ensures outcome != Aborted ==> Valid()
      ensures outcome == Killed ==> lazies == old(lazies) && frames == old(frames) && table.entries == old(table.entries)
      ensures outcome == Loaded ==>
                exists i :: 0 <= i < |old(lazies)| && old(lazies)[i].Contains(stval) &&
                  var l := old(lazies)[i];
                  lazies == old(lazies)[i := l.(backed := l.backed + [((stval - l.start) / PAGE_SIZE, frame)])]
      ensures outcome == Loaded ==> exists r <- table.live ::
                r.Contains(stval) && r.phys == frame && r.size == 0x1000 && r.flags.bits == 0x12
    {
      hide PageTable.Valid, LazyOk, AllMappings, RegionsApart, Region.Contains, Region.End, Lazy.Contains, Lazy.Mapping;
      if STACK_GUARD_START <= stval < STACK_GUARD_END { return Killed; }
      var i, found := 0, false;
      while i < |lazies| && !found
        invariant 0 <= i <= |lazies| && (found ==> i < |lazies|)
        invariant found ==> lazies[i].Contains(stval) && forall r <- table.live :: !r.Contains(stval)
        invariant forall j :: 0 <= j < i && lazies[j].Contains(stval) ==> exists r <- table.live :: r.Contains(stval)
        decreases |lazies| - i, !found
        modifies {}
      {
        if lazies[i].Contains(stval) {
          InAddressSpace(disk, frames, lazies[i], stval);
          var mapped := table.IsMapped(stval);
          found := !mapped;
        }
        if !found {
          i := i + 1;
        }
      }
      if !found { return Aborted; }
      LoadRegionPage(i, stval, frame);
      return Loaded;
    }

    /** `VirtualMemoryMapping::load_page` for the page of region `i` that holds `stval`. */
    method LoadRegionPage(i: nat, stval: nat, frame: nat)
      requires Valid() && i < |lazies| && lazies[i].Contains(stval) && forall r <- table.live :: !r.Contains(stval)
      requires frame % PAGE_SIZE == 0 && frame + PAGE_SIZE <= PHYSICAL_END && frame !in frames
      modifies this`lazies, this`frames, table.Repr
      ensures Valid()
      ensures var l := old(lazies)[i];
              && lazies == old(lazies)[i := l.(backed := l.backed + [((stval - l.start) / PAGE_SIZE, frame)])]
              && l.Mapping(((stval - l.start) / PAGE_SIZE, frame)) in table.live
              && l.Mapping(((stval - l.start) / PAGE_SIZE, frame)).Contains(stval)
      ensures exists r <- table.live ::
                r.Contains(stval) && r.phys == frame && r.size == 0x1000 && r.flags.bits == 0x12
    {
      hide PageTable.Valid, LazyOk, AllMappings, LazyFlags;
      var l := lazies[i];
      assert l in lazies;
      var pageIndex := (stval - l.start) / PAGE_SIZE;
      PageOfAddress(disk, frames, l, stval);
      FaultingPageIsClear(this, i, frame, stval);
      var page := LoadPage(disk, l.firstSector, pageIndex);
      var ok := table.Map(l.start + PAGE_SIZE * pageIndex, frame, PAGE_SIZE, LazyFlags());
      assert ok;
      BackedKeepsAll(disk, frames, lazies, fixed, i, pageIndex, frame, page[..]);
      frames := frames[frame := page[..]];
      lazies := lazies[i := l.(backed := l.backed + [(pageIndex, frame)])];
      LazyPage(l, stval, frame);
    }
  }

  /** One stray access, at the null address of a process without lazy regions, takes the kernel down. */
  method NullAccessAborts(s: AddressSpace, frame: nat) returns (outcome: FaultOutcome)
    requires s.Valid() && s.lazies == []
    requires frame % PAGE_SIZE == 0 && frame + PAGE_SIZE <= PHYSICAL_END && frame !in s.frames
    modifies s`lazies, s`frames, s.table.Repr
    ensures outcome == Aborted
  {
    outcome := s.HandlePageFault(0, frame);
  }

  lemma InAddressSpace(disk: seq<Byte>, frames: map<nat, seq<Byte>>, l: Lazy, v: nat)
    requires LazyOk(disk, frames, l) && l.Contains(v)
    ensures v < VIRTUAL_END
  {
  }

  // ---- Mapping a region that has pages already ----

  lemma AllStillOk(disk: seq<Byte>, frames: map<nat, seq<Byte>>, loaded: map<nat, seq<Byte>>, lazies: seq<Lazy>, l: Lazy,
                   backed: seq<(nat, nat)>)
    requires forall f <- loaded :: f in frames ==> frames[f] == loaded[f]
    requires forall m <- lazies :: LazyOk(disk, frames, m)
    requires forall page <- backed :: PageIsLoaded(disk, loaded, l, page)
    ensures forall m <- lazies :: LazyOk(disk, frames + loaded, m)
    ensures forall page <- backed :: PageIsLoaded(disk, frames + loaded, l, page)
  {
    hide Lazy.Legal, LoadedOnce;
    forall m <- lazies, page <- m.backed ensures PageIsLoaded(disk, frames + loaded, m, page) {
      assert PageIsLoaded(disk, frames, m, page);
    }
  }

  lemma PageMapping(l: Lazy, page: (nat, nat))
    ensures l.Mapping(page) == Region(l.start + PAGE_SIZE * page.0, page.1, PAGE_SIZE, LazyFlags())
  {
  }

  /** A page that is read lazily is one page of the frame, readable by the user and nothing else. */
  lemma LazyPage(l: Lazy, v: nat, frame: nat)
    requires l.Contains(v)
    ensures var r := l.Mapping(((v - l.start) / PAGE_SIZE, frame));
            r.phys == frame && r.size == 0x1000 && r.flags.bits == 0x12
  {
    PageEntries.KernelFlagBits();
  }

  lemma OneMoreApart(lazies: seq<Lazy>, fixed: set<Region>, l: Lazy, backed: seq<(nat, nat)>)
    requires forall i, j :: 0 <= i < j < |lazies| ==> RegionsApart(lazies[i], lazies[j])
    requires forall m <- lazies :: RegionsApart(m, l)
    requires forall q <- fixed, m <- lazies :: q.size == 0 || q.End() <= m.start || m.start + m.size <= q.virt
    requires forall q <- fixed :: q.size == 0 || q.End() <= l.start || l.start + l.size <= q.virt
    ensures var now := lazies + [l.(backed := backed)];
            && (forall i, j :: 0 <= i < j < |now| ==> RegionsApart(now[i], now[j]))
            && (forall q <- fixed, m <- now :: q.size == 0 || q.End() <= m.start || m.start + m.size <= q.virt)
  {
    var now := lazies + [l.(backed := backed)];
    forall i, j | 0 <= i < j < |now| ensures RegionsApart(now[i], now[j]) {
      assert now[i] == lazies[i] && lazies[i] in lazies;
      assert j < |lazies| ==> RegionsApart(lazies[i], lazies[j]);
    }
  }

  lemma NoneBacked(lazies: seq<Lazy>, l: Lazy)
    requires l.backed == []
    ensures AllMappings(lazies + [l]) == AllMappings(lazies) && LoadedOnce([])
  {
  }

  /** The next page can be mapped exactly when it has not been mapped before as another copy. */
  lemma NextIsClearIff(disk: seq<Byte>, frames: map<nat, seq<Byte>>, lazies: seq<Lazy>, fixed: set<Region>, l: Lazy,
                       backed: seq<(nat, nat)>, i: nat)
    requires i < |backed| && LoadedOnce(backed[..i]) && forall page <- backed :: PageIsLoaded(disk, frames, l, page)
    requires (forall m <- lazies :: RegionsApart(m, l)) && (forall m <- lazies :: LazyOk(disk, frames, m))
    requires forall q <- fixed :: q.size == 0 || q.End() <= l.start || l.start + l.size <= q.virt
    ensures var r := l.Mapping(backed[i]);
            && r.Legal()
            && ((forall q <- fixed + AllMappings(lazies + [l.(backed := backed[..i])]) :: !Overlaps(q, r))
                <==> LoadedOnce(backed[..i + 1]))
    ensures !LoadedOnce(backed[..i + 1]) ==> !LoadedOnce(backed)
  {
    hide LoadedOnce, Overlaps, PageIsLoaded, AllMappings, LazyOk, RegionsApart, Lazy.Mapping;
    var k, r := l.(backed := backed[..i]), l.Mapping(backed[i]);
    OnceMore(backed, i);
    PageIsLegal(disk, frames, l, backed[i]);
    if page :| page in backed[..i] && page.0 == backed[i].0 {
      IsMapping(lazies, k, page);
      SameMapping(l, backed[..i], page);
      SamePageOverlaps(l, page, backed[i]);
    } else {
      forall q <- fixed + AllMappings(lazies + [k]) ensures !Overlaps(q, r) {
        if q in fixed {
          FixedPageApart(disk, frames, l, q, backed[i]);
        } else {
          NextPageApart(disk, frames, lazies, l, backed, i, q);
        }
      }
    }
  }

  lemma IsMapping(lazies: seq<Lazy>, k: Lazy, page: (nat, nat))
    requires page in k.backed
    ensures k.Mapping(page) in AllMappings(lazies + [k])
  {
    assert (lazies + [k])[|lazies|] == k;
  }

  lemma NextPageApart(disk: seq<Byte>, frames: map<nat, seq<Byte>>, lazies: seq<Lazy>, l: Lazy, backed: seq<(nat, nat)>,
                      i: nat, q: Region)
    requires i < |backed| && forall page <- backed :: PageIsLoaded(disk, frames, l, page)
    requires (forall m <- lazies :: RegionsApart(m, l)) && (forall m <- lazies :: LazyOk(disk, frames, m))
    requires (forall page <- backed[..i] :: page.0 != backed[i].0) && q in AllMappings(lazies + [l.(backed := backed[..i])])
    ensures !Overlaps(q, l.Mapping(backed[i]))
  {
    hide Overlaps, PageIsLoaded, RegionsApart, Lazy.Mapping, Lazy.Legal, LoadedOnce;
    var k := l.(backed := backed[..i]);
    var m, page :| m in lazies + [k] && page in m.backed && q == m.Mapping(page);
    if m in lazies {
      OtherRegionApart(disk, frames, m, page, l, backed[i]);
    } else {
      SameMapping(l, backed[..i], page);
      OtherCopyApart(l, page, backed[i]);
    }
  }

  lemma SameMapping(l: Lazy, backed: seq<(nat, nat)>, page: (nat, nat))
    ensures l.(backed := backed).Mapping(page) == l.Mapping(page)
  {
  }

  lemma OnceMore(backed: seq<(nat, nat)>, i: nat)
    requires i < |backed| && LoadedOnce(backed[..i])
    ensures LoadedOnce(backed[..i + 1]) <==> forall page <- backed[..i] :: page.0 != backed[i].0
    ensures LoadedOnce(backed) ==> LoadedOnce(backed[..i + 1])
  {
    var more := backed[..i + 1];
    forall page <- backed[..i] | LoadedOnce(more) ensures page.0 != backed[i].0 {
      var j :| 0 <= j < i && backed[j] == page;
      assert more[j] == page && more[i] == backed[i];
    }
    if forall page <- backed[..i] :: page.0 != backed[i].0 {
      forall a, b | 0 <= a < b < |more| ensures more[a].0 != more[b].0 {
        assert backed[..i][a] == more[a];
        if b < i { assert backed[..i][b] == more[b]; }
      }
    }
  }

  lemma PageIsLegal(disk: seq<Byte>, frames: map<nat, seq<Byte>>, l: Lazy, page: (nat, nat))
    requires PageIsLoaded(disk, frames, l, page)
    ensures l.Mapping(page).Legal() && l.start <= l.Mapping(page).virt && l.Mapping(page).End() <= l.start + l.size
  {
    var first := Multiple(l.start, PAGE_SIZE);
    DivModUnique(l.start + PAGE_SIZE * page.0, first + page.0, 0, PAGE_SIZE);
  }

  lemma SamePageOverlaps(l: Lazy, a: (nat, nat), b: (nat, nat))
    requires a.0 == b.0
    ensures Overlaps(l.Mapping(a), l.Mapping(b))
  {
  }

  lemma OtherCopyApart(l: Lazy, a: (nat, nat), b: (nat, nat))
    requires a.0 != b.0
    ensures !Overlaps(l.Mapping(a), l.Mapping(b))
  {
    MulOrder(a.0, b.0, PAGE_SIZE);
    MulOrder(b.0, a.0, PAGE_SIZE);
  }

  lemma OtherRegionApart(disk: seq<Byte>, frames: map<nat, seq<Byte>>, m: Lazy, a: (nat, nat), l: Lazy, b: (nat, nat))
    requires PageIsLoaded(disk, frames, m, a) && PageIsLoaded(disk, frames, l, b) && RegionsApart(m, l)
    ensures !Overlaps(m.Mapping(a), l.Mapping(b))
  {
    PageIsLegal(disk, frames, m, a);
    PageIsLegal(disk, frames, l, b);
  }

  lemma FixedPageApart(disk: seq<Byte>, frames: map<nat, seq<Byte>>, l: Lazy, q: Region, page: (nat, nat))
    requires PageIsLoaded(disk, frames, l, page) && (q.size == 0 || q.End() <= l.start || l.start + l.size <= q.virt)
    ensures !Overlaps(q, l.Mapping(page))
  {
    PageIsLegal(disk, frames, l, page);
  }

  lemma NextBacked(lazies: seq<Lazy>, l: Lazy, backed: seq<(nat, nat)>, i: nat)
    requires i < |backed|
    ensures AllMappings(lazies + [l.(backed := backed[..i + 1])])
            == AllMappings(lazies + [l.(backed := backed[..i])]) + {l.Mapping(backed[i])}
  {
    hide AllMappings;
    var k := l.(backed := backed[..i]);
    var before := lazies + [k];
    BackedMappings(before, |lazies|, backed[i]);
    assert backed[..i] + [backed[i]] == backed[..i + 1];
    assert before[|lazies| := k.(backed := k.backed + [backed[i]])] == lazies + [l.(backed := backed[..i + 1])];
    assert k.Mapping(backed[i]) == l.Mapping(backed[i]);
  }

  lemma AllBacked(disk: seq<Byte>, frames: map<nat, seq<Byte>>, l: Lazy, backed: seq<(nat, nat)>)
    requires l.Legal(|disk|) && LoadedOnce(backed) && forall page <- backed :: PageIsLoaded(disk, frames, l, page)
    ensures LazyOk(disk, frames, l.(backed := backed))
  {
    hide LoadedOnce;
    forall page <- backed ensures PageIsLoaded(disk, frames, l.(backed := backed), page) {
      assert PageIsLoaded(disk, frames, l, page);
    }
  }

  /** Recording a page just read keeps every region as it should be, and adds one mapping. */
  lemma BackedKeepsAll(disk: seq<Byte>, frames: map<nat, seq<Byte>>, lazies: seq<Lazy>, fixed: set<Region>, i: nat, k: nat,
                       frame: nat, page: seq<Byte>)
    requires i < |lazies| && frame !in frames && (forall m <- lazies :: LazyOk(disk, frames, m))
    requires forall a, b :: 0 <= a < b < |lazies| ==> RegionsApart(lazies[a], lazies[b])
    requires forall q <- fixed, l <- lazies :: q.size == 0 || q.End() <= l.start || l.start + l.size <= q.virt
    requires frame % PAGE_SIZE == 0 && frame + PAGE_SIZE <= PHYSICAL_END && (forall p <- lazies[i].backed :: p.0 != k)
    requires PAGE_SIZE * k + PAGE_SIZE <= lazies[i].size
    requires lazies[i].firstSector * SECTOR_SIZE + PAGE_SIZE * k + PAGE_SIZE <= |disk|
    requires page == disk[lazies[i].firstSector * SECTOR_SIZE + PAGE_SIZE * k..][..PAGE_SIZE]
    ensures var after := lazies[i := lazies[i].(backed := lazies[i].backed + [(k, frame)])];
            && (forall m | m in after :: LazyOk(disk, frames[frame := page], m))
            && (forall a, b :: 0 <= a < b < |after| ==> RegionsApart(after[a], after[b]))
            && (forall q <- fixed, l <- after :: q.size == 0 || q.End() <= l.start || l.start + l.size <= q.virt)
            && AllMappings(after) == AllMappings(lazies) + {lazies[i].Mapping((k, frame))}
  {
    hide LazyOk, AllMappings;
    var after := lazies[i := lazies[i].(backed := lazies[i].backed + [(k, frame)])];
    forall j | 0 <= j < |after| ensures LazyOk(disk, frames[frame := page], after[j]) {
      BackedIsOk(disk, frames, lazies[j], k, frame, page);
    }
    forall a, b | 0 <= a < b < |after| ensures RegionsApart(after[a], after[b]) {
      assert RegionsApart(lazies[a], lazies[b]);
    }
    forall q <- fixed, j | 0 <= j < |after|
      ensures q.size == 0 || q.End() <= after[j].start || after[j].start + after[j].size <= q.virt
    {
      assert lazies[j] in lazies;
    }
    BackedMappings(lazies, i, (k, frame));
  }

  /** The faulting page lies whole inside its region. */
  lemma PageOfAddress(disk: seq<Byte>, frames: map<nat, seq<Byte>>, l: Lazy, v: nat)
    requires LazyOk(disk, frames, l) && l.Contains(v)
    ensures var k := (v - l.start) / PAGE_SIZE;
            && PAGE_SIZE * k + PAGE_SIZE <= l.size
            && l.firstSector * SECTOR_SIZE + PAGE_SIZE * k + PAGE_SIZE <= |disk|
            && l.start + PAGE_SIZE * k <= v < l.start + PAGE_SIZE * k + PAGE_SIZE
            && (l.start + PAGE_SIZE * k) % PAGE_SIZE == 0 && l.start + PAGE_SIZE * k + PAGE_SIZE <= VIRTUAL_END
  {
    var k := (v - l.start) / PAGE_SIZE;
    var pages := Multiple(l.size, PAGE_SIZE);
    var first := Multiple(l.start, PAGE_SIZE);
    DivModUnique(l.start + PAGE_SIZE * k, first + k, 0, PAGE_SIZE);
  }

  /** Some page of region `m` keeps the page of `l` that holds `v` free if it does not hold `v` itself. */
  lemma OtherPageIsClear(disk: seq<Byte>, frames: map<nat, seq<Byte>>, l: Lazy, m: Lazy, page: (nat, nat), frame: nat, v: nat)
    requires LazyOk(disk, frames, l) && l.Contains(v) && PageIsLoaded(disk, frames, m, page)
    requires l == m || RegionsApart(l, m) || RegionsApart(m, l)
    requires !m.Mapping(page).Contains(v)
    ensures var k := (v - l.start) / PAGE_SIZE;
            !Overlaps(m.Mapping(page), l.Mapping((k, frame))) && (l == m ==> page.0 != k)
  {
    hide LazyOk;
    PageOfAddress(disk, frames, l, v);
  }

  lemma FixedIsClear(disk: seq<Byte>, frames: map<nat, seq<Byte>>, l: Lazy, q: Region, frame: nat, v: nat)
    requires LazyOk(disk, frames, l) && l.Contains(v)
    requires q.size == 0 || q.End() <= l.start || l.start + l.size <= q.virt
    ensures !Overlaps(q, l.Mapping(((v - l.start) / PAGE_SIZE, frame)))
  {
    hide LazyOk;
    PageOfAddress(disk, frames, l, v);
  }

  /** Any two regions are the same or apart. */
  lemma AnyTwoApart(s: AddressSpace, l: Lazy, m: Lazy)
    requires s.Valid() && l in s.lazies && m in s.lazies
    ensures l == m || RegionsApart(l, m) || RegionsApart(m, l)
    ensures LazyOk(s.disk, s.frames, l) && LazyOk(s.disk, s.frames, m)
  {
    hide PageTable.Valid, LazyOk, AllMappings, RegionsApart;
    var i :| 0 <= i < |s.lazies| && s.lazies[i] == l;
    var j :| 0 <= j < |s.lazies| && s.lazies[j] == m;
    assert i < j ==> RegionsApart(s.lazies[i], s.lazies[j]);
    assert j < i ==> RegionsApart(s.lazies[j], s.lazies[i]);
  }

  /** A page whose address `v` is not mapped overlaps no mapping. */
  lemma FaultingPageIsClear(s: AddressSpace, i: nat, frame: nat, v: nat)
    requires s.Valid() && i < |s.lazies| && s.lazies[i].Contains(v) && forall q <- s.table.live :: !q.Contains(v)
    ensures var r := s.lazies[i].Mapping(((v - s.lazies[i].start) / PAGE_SIZE, frame));
            forall q <- s.table.live :: !Overlaps(q, r)
    ensures forall page <- s.lazies[i].backed :: page.0 != (v - s.lazies[i].start) / PAGE_SIZE
  {
    hide PageTable.Valid, LazyOk, Overlaps, Lazy.Mapping, RegionsApart, PageIsLoaded;
    var l, k := s.lazies[i], (v - s.lazies[i].start) / PAGE_SIZE;
    var r := l.Mapping((k, frame));
    assert l in s.lazies;
    forall q <- s.table.live ensures !Overlaps(q, r) {
      if q in s.fixed {
        FixedIsClear(s.disk, s.frames, l, q, frame, v);
      } else {
        var m, page :| m in s.lazies && page in m.backed && q == m.Mapping(page);
        BackedPageIsClear(s, l, m, page, frame, v);
      }
    }
    forall page <- l.backed ensures page.0 != k {
      assert l.Mapping(page) in AllMappings(s.lazies);
      BackedPageIsClear(s, l, l, page, frame, v);
    }
  }

  lemma BackedPageIsClear(s: AddressSpace, l: Lazy, m: Lazy, page: (nat, nat), frame: nat, v: nat)
    requires s.Valid() && l in s.lazies && m in s.lazies && page in m.backed && l.Contains(v) && !m.Mapping(page).Contains(v)
    ensures var k := (v - l.start) / PAGE_SIZE;
            !Overlaps(m.Mapping(page), l.Mapping((k, frame))) && (l == m ==> page.0 != k)
  {
    hide AddressSpace.Valid, RegionsApart, Overlaps;
    AnyTwoApart(s, l, m);
    assert PageIsLoaded(s.disk, s.frames, m, page);
    OtherPageIsClear(s.disk, s.frames, l, m, page, frame, v);
  }

  /** Recording a page just read keeps every region as it should be. */
  lemma BackedIsOk(disk: seq<Byte>, frames: map<nat, seq<Byte>>, l: Lazy, k: nat, frame: nat, page: seq<Byte>)
    requires LazyOk(disk, frames, l) && frame !in frames
    ensures LazyOk(disk, frames[frame := page], l)
    ensures frame % PAGE_SIZE == 0 && frame + PAGE_SIZE <= PHYSICAL_END && (forall p <- l.backed :: p.0 != k)
            && PAGE_SIZE * k + PAGE_SIZE <= l.size && l.firstSector * SECTOR_SIZE + PAGE_SIZE * k + PAGE_SIZE <= |disk|
            && page == disk[l.firstSector * SECTOR_SIZE + PAGE_SIZE * k..][..PAGE_SIZE]
            ==> LazyOk(disk, frames[frame := page], l.(backed := l.backed + [(k, frame)]))
  {
    forall p <- l.backed ensures PageIsLoaded(disk, frames[frame := page], l, p) {
      assert PageIsLoaded(disk, frames, l, p);
    }
    var l' := l.(backed := l.backed + [(k, frame)]);
    forall p <- l.backed ensures PageIsLoaded(disk, frames[frame := page], l', p) {
      assert PageIsLoaded(disk, frames[frame := page], l, p);
    }
  }

  lemma BackedMappings(lazies: seq<Lazy>, i: nat, page: (nat, nat))
    requires i < |lazies|
    ensures AllMappings(lazies[i := lazies[i].(backed := lazies[i].backed + [page])])
            == AllMappings(lazies) + {lazies[i].Mapping(page)}
  {
    var l := lazies[i].(backed := lazies[i].backed + [page]);
    var after := lazies[i := l];
    assert after[i] in after && page in l.backed && l.Mapping(page) == lazies[i].Mapping(page);
    forall j, p | 0 <= j < |lazies| && p in lazies[j].backed ensures lazies[j].Mapping(p) in AllMappings(after) {
      assert after[j] in after && p in after[j].backed && after[j].Mapping(p) == lazies[j].Mapping(p);
    }
    forall j, p | 0 <= j < |after| && p in after[j].backed
      ensures after[j].Mapping(p) in AllMappings(lazies) + {lazies[i].Mapping(page)}
    {
      assert lazies[j] in lazies && after[j].Mapping(p) == lazies[j].Mapping(p);
    }
    forall q <- AllMappings(lazies) ensures q in AllMappings(after) {
      var m, p :| m in lazies && p in m.backed && q == m.Mapping(p);
      var j :| 0 <= j < |lazies| && lazies[j] == m;
    }
    forall q <- AllMappings(after) ensures q in AllMappings(lazies) + {lazies[i].Mapping(page)} {
      var m, p :| m in after && p in m.backed && q == m.Mapping(p);
      var j :| 0 <= j < |after| && after[j] == m;
    }
  }

  /** The region and the page that a mapped address of `l` comes from. */
  lemma PageBehind(s: AddressSpace, l: Lazy, v: nat, q: Region) returns (page: (nat, nat))
    requires s.Valid() && l in s.lazies && l.Contains(v) && q in s.table.live && q.Contains(v)
    ensures page in l.backed && q == l.Mapping(page) && PageIsLoaded(s.disk, s.frames, l, page)
  {
    hide PageTable.Valid;
    assert q !in s.fixed;
    var m, p :| m in s.lazies && p in m.backed && q == m.Mapping(p);
    assert PageIsLoaded(s.disk, s.frames, m, p);
    AnyTwoApart(s, l, m);
    page := p;
  }

  /** `t` leads to the byte that reading the region at once would give at `v`, readable by the user. */
  ghost predicate ShowsEagerByte(disk: seq<Byte>, frames: map<nat, seq<Byte>>, l: Lazy, v: nat, t: Translation) {
    && t.To? && t.flags == LazyFlags() && l.Legal(|disk|) && l.Contains(v)
    && var frame, offset := t.phys - t.phys % PAGE_SIZE, t.phys % PAGE_SIZE;
    && frame in frames && offset < |frames[frame]| && frames[frame][offset] == EagerByte(disk, l, v)
  }

  lemma LoadedPageShows(disk: seq<Byte>, frames: map<nat, seq<Byte>>, l: Lazy, v: nat, page: (nat, nat))
    requires PageIsLoaded(disk, frames, l, page) && l.Contains(v) && l.Mapping(page).Contains(v)
    ensures ShowsEagerByte(disk, frames, l, v, TranslationIn(l.Mapping(page), v))
  {
    var offset := v - l.Mapping(page).virt;
    var first := Multiple(page.1, PAGE_SIZE);
    DivModUnique(page.1 + offset, first, offset, PAGE_SIZE);
  }

  /** Every mapped byte of a region is the byte that reading the region at once would give. */
  lemma PagingAgreesWithEagerReading(s: AddressSpace, l: Lazy, v: nat)
    requires s.Valid() && l in s.lazies && l.Contains(v) && v < VIRTUAL_END
    requires Walk(s.table.entries, v, 2).To?
    ensures ShowsEagerByte(s.disk, s.frames, l, v, Walk(s.table.entries, v, 2))
  {
    hide Walk, AddressSpace.Valid, PageIsLoaded, ShowsEagerByte;
    var q := MappedBy(s, v);
    var page := PageBehind(s, l, v, q);
    LoadedPageShows(s.disk, s.frames, l, v, page);
  }

  lemma MappedBy(s: AddressSpace, v: nat) returns (q: Region)
    requires s.Valid() && v < VIRTUAL_END && Walk(s.table.entries, v, 2).To?
    ensures q in s.table.live && q.Contains(v) && Walk(s.table.entries, v, 2) == TranslationIn(q, v)
  {
    hide Walk, Describes;
    WalkOfLive(s.table.entries, s.table.live, 0, 2, v);
    q :| q in s.table.live && q.Contains(v);
  }
}
