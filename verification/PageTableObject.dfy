/** Page tables as objects that are changed in place. */
module PageTableObjects {
  import opened Arithmetic
  import opened PageTables

  /** An entry as it is stored: a child table is an object of its own. */
  datatype Slot = Unused | Page(phys: nat, flags: PageFlags) | Child(table: PageTable)

  class PageTable {
    const slots: array<Slot>
    /** The whole tree from here on as a value. */
    ghost var entries: seq<Entry>
    ghost var Repr: set<object>
    /** What is mapped, for a root table. */
    ghost var live: set<Region>

    ghost predicate Shape()
      reads this, Repr
      decreases Repr, 1
    {
      && this in Repr && slots in Repr && slots.Length == |entries| == ENTRY_COUNT
      && (forall i: nat :: i < ENTRY_COUNT ==> SlotOk(i))
      && (forall i: nat, j: nat :: i < j < ENTRY_COUNT ==> ChildrenApart(i, j))
    }

    ghost predicate SlotOk(i: nat)
      requires this in Repr && slots in Repr && slots.Length == |entries| == ENTRY_COUNT && i < ENTRY_COUNT
      reads this, Repr
      decreases Repr, 0
    {
      match slots[i]
      case Unused => entries[i] == Invalid
      case Page(phys, flags) => entries[i] == Leaf(phys, flags)
      case Child(c) =>
        && c in Repr && c.Repr <= Repr && this !in c.Repr && (slots as object) !in c.Repr && c.Shape()
        && entries[i] == Indirect(c.entries)
    }

    ghost predicate ChildrenApart(i: nat, j: nat)
      requires this in Repr && slots in Repr && slots.Length == ENTRY_COUNT && i < ENTRY_COUNT && j < ENTRY_COUNT
      reads this, Repr
    {
      slots[i].Child? && slots[j].Child? && slots[i].table in Repr && slots[j].table in Repr ==>
        slots[i].table.Repr !! slots[j].table.Repr
    }

    ghost predicate Valid()
      reads this, Repr
    {
      Shape() && AllLegal(live) && Describes(entries, live, 0, 2)
    }

    constructor ()
      ensures Valid() && this in Repr && fresh(Repr) && live == {} && entries == EmptyTable()
    {
      slots := new Slot[ENTRY_COUNT](_ => Unused);
      entries, live := EmptyTable(), {};
      new;
      Repr := {this, slots};
      EmptyDescribes({}, 0, 2);
      forall k: nat, j: nat | k < j < ENTRY_COUNT ensures ChildrenApart(k, j) { }
    }

    /** Overwrites an entry by one without a child; a child that was there is dropped. */
    method SetEntry(i: nat, e: Slot, ghost v: Entry)
      requires Shape() && i < ENTRY_COUNT
      requires (e == Unused && v == Invalid) || (e.Page? && v == Leaf(e.phys, e.flags))
      modifies this`entries, slots
      ensures Shape() && Repr == old(Repr) && entries == old(entries)[i := v]
    {
      hide EmptyTable;
      slots[i] := e;
      entries := entries[i := v];
      forall k: nat | k < ENTRY_COUNT ensures SlotOk(k) {
        assert k != i ==> old(SlotOk(k));
      }
      forall k: nat, j: nat | k < j < ENTRY_COUNT ensures ChildrenApart(k, j) {
        assert old(ChildrenApart(k, j));
      }
    }

    /** A new child table in an entry that had none. */
    method NewChild(i: nat)
      requires Shape() && i < ENTRY_COUNT && slots[i].Unused?
      modifies this`entries, this`Repr, slots
      ensures Shape() && fresh(Repr - old(Repr)) && old(Repr) <= Repr && slots[i].Child?
      ensures entries == old(entries)[i := Indirect(EmptyTable())]
    {
      hide EmptyTable, Describes;
      var child := new PageTable();
      slots[i] := Child(child);
      entries := entries[i := Indirect(child.entries)];
      Repr := Repr + child.Repr;
      forall k: nat | k < ENTRY_COUNT ensures SlotOk(k) {
        assert k != i ==> old(SlotOk(k));
      }
      forall k: nat, j: nat | k < j < ENTRY_COUNT ensures ChildrenApart(k, j) {
        assert old(ChildrenApart(k, j)) && old(SlotOk(k)) && old(SlotOk(j));
      }
    }

    /** After a change inside the child at `i`, this table is in shape again. */
    ghost method ChildChanged(i: nat, child: PageTable, before: set<object>)
      requires this in Repr && slots in Repr && slots.Length == |entries| == ENTRY_COUNT && i < ENTRY_COUNT
      requires slots[i] == Child(child) && child.Shape() && before <= Repr && forall o <- child.Repr :: o in before || o !in Repr
      requires this !in child.Repr && (slots as object) !in child.Repr
      requires forall k: nat :: k < ENTRY_COUNT && k != i ==> SlotOk(k) && (slots[k].Child? ==> slots[k].table.Repr !! before)
      requires forall k: nat, j: nat :: k < j < ENTRY_COUNT && k != i && j != i ==> ChildrenApart(k, j)
      modifies this`entries, this`Repr
      ensures Shape() && Repr == old(Repr) + child.Repr && entries == old(entries)[i := Indirect(child.entries)]
    {
      entries := entries[i := Indirect(child.entries)];
      Repr := Repr + child.Repr;
      forall k: nat | k < ENTRY_COUNT ensures SlotOk(k) {
        assert k != i ==> old(SlotOk(k));
      }
      forall k: nat, j: nat | k < j < ENTRY_COUNT ensures ChildrenApart(k, j) {
        assert k != i && j != i ==> old(ChildrenApart(k, j));
        assert k != i ==> old(SlotOk(k));
        assert j != i ==> old(SlotOk(j));
      }
    }

    /** `map_impl` on the child table at `i`. */
    method MapChild(i: nat, virt: nat, phys: nat, size: nat, flags: PageFlags, level: Level,
                    ghost regions: set<Region>, ghost r: Region, ghost base: nat) returns (ok: bool)
      requires Shape() && i < ENTRY_COUNT && slots[i].Child?
      requires base % Span(level) == 0 && r.Legal() && AllLegal(regions) && entries[i].Indirect?
      requires Describes(entries[i].table, regions, base, level) && Clip(virt, phys, size, flags, r, base, level)
      requires size == 0 ==> r.size == 0
      modifies Repr
      ensures ok <==> AllApart(regions, r, base, base + Span(level))
      ensures ok ==> Shape() && fresh(Repr - old(Repr)) && entries[i].Indirect? && entries == old(entries)[i := entries[i]]
      ensures ok ==> Describes(entries[i].table, regions + {r}, base, level)
      decreases level, 2
    {
      hide AllApart, Describes, Span, Clip;
      var child := slots[i].table;
      assert SlotOk(i);
      ok := child.MapImpl(virt, phys, size, flags, level, regions, r, base);
      if ok {
        forall k: nat | k < ENTRY_COUNT && k != i
          ensures SlotOk(k) && slots[k] == old(slots[k])
          ensures slots[k].Child? ==> slots[k].table.Repr == old(slots[k].table.Repr) && slots[k].table.Repr !! old(child.Repr)
        {
          assert old(SlotOk(k)) && old(SlotOk(i));
          assert if k < i then old(ChildrenApart(k, i)) else old(ChildrenApart(i, k));
          if slots[k].Child? {
            var c := slots[k].table;
            assert old(c.Shape()) && c in old(c.Repr);
            assert c.Repr == old(c.Repr);
          }
        }
        forall k: nat, j: nat | k < j < ENTRY_COUNT && k != i && j != i ensures ChildrenApart(k, j) {
          assert old(ChildrenApart(k, j)) && old(SlotOk(k)) && old(SlotOk(j));
        }
        ChildChanged(i, child, old(child.Repr));
      }
    }

    method MapImpl(virt: nat, phys: nat, size: nat, flags: PageFlags, level: Level,
                   ghost regions: set<Region>, ghost r: Region, ghost base: nat) returns (ok: bool)
      requires Shape() && base % Span(level) == 0 && r.Legal() && AllLegal(regions)
      requires Describes(entries, regions, base, level) && Clip(virt, phys, size, flags, r, base, level)
      requires size == 0 ==> r.size == 0
      modifies Repr
      ensures ok <==> AllApart(regions, r, base, base + Span(level))
      ensures ok ==> Shape() && fresh(Repr - old(Repr)) && Describes(entries, regions + {r}, base, level)
      decreases level, 1
    {
      hide AllApart, Mixed, Describes, EntryDescribes, AlignBy, Window, LeafSize, Span, PieceOf, PageTable.Shape;
      ok := true;
      var (prefix, aligned, suffix) := AlignBy(Range(virt, virt + size), LeafSize(level));
      ghost var first, lo, hi := SplitRequest(virt, phys, size, flags, r, base, level);
      BeginChange(entries, regions, regions + {r}, r, base, first, level);
      ApartAtEnds(regions, r, base, first, level);
      ghost var end := base + Span(level);
      WindowEnds(base, level);
      WindowsOrdered(base, 0, first, level);
      WindowsOrdered(base, first, lo, level);
      WindowsOrdered(base, lo, hi, level);
      WindowsOrdered(base, hi, ENTRY_COUNT, level);
      ApartJoin(regions, r, base, Window(base, first, level), end);

      if !prefix.IsEmpty() {
        ok := MapBelow(prefix, phys + (prefix.start - virt), flags, level, regions, r, base, first);
        ApartJoin(regions, r, Window(base, first, level), Window(base, lo, level), end);
        if !ok { return; }
      }
      if !aligned.IsEmpty() {
        ok := MapAligned(aligned, phys + (aligned.start - virt), flags, level, regions, r, base, lo, hi);
        ApartJoin(regions, r, Window(base, lo, level), Window(base, hi, level), end);
        if !ok { return; }
      }
      if !suffix.IsEmpty() {
        ok := MapBelow(suffix, phys + (suffix.start - virt), flags, level, regions, r, base, hi);
        WindowsOrdered(base, hi, hi + 1, level);
        WindowsOrdered(base, hi + 1, ENTRY_COUNT, level);
        ApartJoin(regions, r, Window(base, hi, level), Window(base, hi + 1, level), end);
        if !ok { return; }
        EndChange(entries, regions, regions + {r}, r, base, hi + 1, level);
        ApartAtEnds(regions, r, base, hi + 1, level);
      } else {
        EndChange(entries, regions, regions + {r}, r, base, hi, level);
        ApartAtEnds(regions, r, base, hi, level);
      }
    }

    /** The middle part of `map_impl`: whole leaves, or smaller pages where the physical side is misaligned. */
    method MapAligned(aligned: Range, phys: nat, flags: PageFlags, level: Level,
                      ghost regions: set<Region>, ghost r: Region, ghost base: nat, ghost lo: nat, ghost hi: nat)
      returns (ok: bool)
      requires Shape() && base % Span(level) == 0 && r.Legal() && AllLegal(regions) && lo < hi <= ENTRY_COUNT
      requires Mixed(entries, regions, regions + {r}, base, level, lo)
      requires aligned == Range(Window(base, lo, level), Window(base, hi, level))
      requires r.virt <= aligned.start && aligned.end <= r.End()
      requires phys == r.phys + (aligned.start - r.virt) && flags == r.flags
      modifies Repr
      ensures ok <==> AllApart(regions, r, aligned.start, aligned.end)
      ensures ok ==> Shape() && fresh(Repr - old(Repr)) && Mixed(entries, regions, regions + {r}, base, level, hi)
      decreases level, 0, 1
    {
      hide AllApart, Mixed, Window, EntryDescribes, LeafSize, Span, PieceOf, VpnSegment, Region.LeafAt, PageTable.Shape;
      hide Region.Legal, AllLegal, Region.Intersects;
      ok := true;
      var leafSize := LeafSize(level);
      var v := aligned.start;
      ghost var k := lo;
      WindowShape(base, lo, level);
      ApartOutside(regions, r, aligned.start, aligned.start);
      if phys % leafSize != 0 {
        while v < aligned.end
          invariant lo <= k <= hi && v == Window(base, k, level) && Mixed(entries, regions, regions + {r}, base, level, k)
          invariant Shape() && fresh(Repr - old(Repr)) && AllApart(regions, r, aligned.start, v)
          decreases aligned.end - v
        {
          FilledWindow(r, phys, base, k, hi, aligned.start, level);
          ApartJoin(regions, r, aligned.start, v, v + leafSize);
          ApartJoin(regions, r, aligned.start, v + leafSize, aligned.end);
          ok := MapBelow(Range(v, v + leafSize), phys + (v - aligned.start), flags, level, regions, r, base, k);
          if !ok { return; }
          v, k := v + leafSize, k + 1;
        }
      } else {
        while v < aligned.end
          invariant lo <= k <= hi && v == Window(base, k, level) && Mixed(entries, regions, regions + {r}, base, level, k)
          invariant Shape() && fresh(Repr - old(Repr)) && AllApart(regions, r, aligned.start, v)
          decreases aligned.end - v
        {
          FilledWindow(r, phys, base, k, hi, aligned.start, level);
          ApartJoin(regions, r, aligned.start, v, v + leafSize);
          ApartJoin(regions, r, aligned.start, v + leafSize, aligned.end);
          ok := MapLeaf(v, phys + (v - aligned.start), flags, level, regions, r, base, k);
          if !ok { return; }
          v, k := v + leafSize, k + 1;
        }
      }
      WindowsOrdered(base, k, hi, level);
    }

    method MapLeaf(virt: nat, phys: nat, flags: PageFlags, level: Level,
                   ghost regions: set<Region>, ghost r: Region, ghost base: nat, ghost k: nat) returns (ok: bool)
      requires Shape() && base % Span(level) == 0 && k < ENTRY_COUNT && virt == Window(base, k, level)
      requires Mixed(entries, regions, regions + {r}, base, level, k)
      requires r.LeafAt(virt, level) && phys == r.phys + (virt - r.virt) && flags == r.flags
      modifies Repr
      ensures ok <==> AllApart(regions, r, virt, virt + LeafSize(level))
      ensures ok ==> Shape() && Repr == old(Repr) && Mixed(entries, regions, regions + {r}, base, level, k + 1)
    {
      hide AllApart, Mixed, EntryDescribes, LeafSize, Span, Window, VpnSegment, Region.LeafAt, PageTable.Shape;
      var i := VpnSegment(virt, level);
      LeafPlace(entries, virt, regions, r, base, k, level);
      EntryOf(k);
      ok := slots[i].Unused?;
      if ok {
        SetEntry(i, Page(phys, flags), Leaf(phys, flags));
      }
    }

    /** What an entry looks like from outside. */
    lemma EntryOf(i: nat)
      requires Shape() && i < ENTRY_COUNT
      ensures slots.Length == |entries| == ENTRY_COUNT && this in Repr && slots in Repr
      ensures match slots[i]
              case Unused => entries[i] == Invalid
              case Page(phys, flags) => entries[i] == Leaf(phys, flags)
              case Child(c) => entries[i] == Indirect(c.entries) && c.Shape() && c in Repr && c.Repr <= Repr
    {
      assert SlotOk(i);
    }

    /** `map_indirect` followed by `map_impl` on the table it returned. */
    method MapBelow(piece: Range, phys: nat, flags: PageFlags, level: Level,
                    ghost regions: set<Region>, ghost r: Region, ghost base: nat, ghost k: nat) returns (ok: bool)
      requires Shape() && base % Span(level) == 0 && r.Legal() && AllLegal(regions)
      requires Mixed(entries, regions, regions + {r}, base, level, k) && PieceOf(piece, phys, flags, r, base, k, level)
      modifies Repr
      ensures ok <==> AllApart(regions, r, Window(base, k, level), Window(base, k + 1, level))
      ensures ok ==> Shape() && fresh(Repr - old(Repr)) && Mixed(entries, regions, regions + {r}, base, level, k + 1)
      decreases level, 0, 0
    {
      hide AllApart, Mixed, Describes, EntryDescribes, LeafSize, Span, Window, VpnSegment, Region.LeafAt, PageTable.Shape, EmptyTable;
      ghost var w, before := Window(base, k, level), entries;
      var i := VpnSegment(piece.start, level);
      PiecePlace(entries, piece, phys, flags, regions, r, base, k, level);
      EntryOf(i);
      match slots[i] {
        case Unused => NewChild(i); EmptyDescribes(regions, w, level - 1);
        case Child(_) =>
        case Page(_, _) => LeafClashes(entries[i], regions, r, w, level); return false;
      }
      ok := MapChild(i, piece.start, phys, piece.end - piece.start, flags, level - 1, regions, r, w);
      if ok {
        IndirectEntry(before[i], entries[i].table, regions, r, w, level);
        MixedStep(before, entries, regions, regions + {r}, base, level, k);
      }
    }

    // ---- Unmapping ----

    /** `unmap_impl` on the child table at `i`. */
    method UnmapChild(i: nat, virt: nat, phys: nat, size: nat, level: Level,
                      ghost regions: set<Region>, ghost r: Region, ghost base: nat)
      requires Shape() && i < ENTRY_COUNT && slots[i].Child?
      requires base % Span(level) == 0 && r in regions && AllLegal(regions) && entries[i].Indirect?
      requires Describes(entries[i].table, regions, base, level) && Clip(virt, phys, size, r.flags, r, base, level)
      requires size == 0 ==> r.size == 0
      modifies Repr
      ensures Shape() && Repr == old(Repr) && slots[i].Child? && entries[i].Indirect? && entries == old(entries)[i := entries[i]]
      ensures Describes(entries[i].table, regions - {r}, base, level)
      decreases level, 2
    {
      hide Describes, Span, Clip;
      var child := slots[i].table;
      assert SlotOk(i);
      child.UnmapImpl(virt, phys, size, level, regions, r, base);
      forall k: nat | k < ENTRY_COUNT && k != i
        ensures SlotOk(k) && slots[k] == old(slots[k])
        ensures slots[k].Child? ==> slots[k].table.Repr == old(slots[k].table.Repr) && slots[k].table.Repr !! old(child.Repr)
      {
        assert old(SlotOk(k)) && old(SlotOk(i));
        assert if k < i then old(ChildrenApart(k, i)) else old(ChildrenApart(i, k));
        if slots[k].Child? {
          var c := slots[k].table;
          assert old(c.Shape()) && c in old(c.Repr);
          assert c.Repr == old(c.Repr);
        }
      }
      forall k: nat, j: nat | k < j < ENTRY_COUNT && k != i && j != i ensures ChildrenApart(k, j) {
        assert old(ChildrenApart(k, j)) && old(SlotOk(k)) && old(SlotOk(j));
      }
      ChildChanged(i, child, old(child.Repr));
    }

    method UnmapImpl(virt: nat, phys: nat, size: nat, level: Level,
                     ghost regions: set<Region>, ghost r: Region, ghost base: nat)
      requires Shape() && base % Span(level) == 0 && r in regions && AllLegal(regions)
      requires Describes(entries, regions, base, level) && Clip(virt, phys, size, r.flags, r, base, level)
      requires size == 0 ==> r.size == 0
      modifies Repr
      ensures Shape() && Repr == old(Repr) && Describes(entries, regions - {r}, base, level)
      decreases level, 1
    {
      hide Mixed, Describes, EntryDescribes, AlignBy, Window, LeafSize, Span, PieceOf, PageTable.Shape;
      var (prefix, aligned, suffix) := AlignBy(Range(virt, virt + size), LeafSize(level));
      ghost var first, lo, hi := SplitRequest(virt, phys, size, r.flags, r, base, level);
      BeginChange(entries, regions, regions - {r}, r, base, first, level);

      if !prefix.IsEmpty() {
        UnmapBelow(prefix, phys + (prefix.start - virt), level, regions, r, base, first);
      }
      if !aligned.IsEmpty() {
        UnmapAligned(aligned, phys + (aligned.start - virt), level, regions, r, base, lo, hi);
      }
      if !suffix.IsEmpty() {
        UnmapBelow(suffix, phys + (suffix.start - virt), level, regions, r, base, hi);
        EndChange(entries, regions, regions - {r}, r, base, hi + 1, level);
      } else {
        EndChange(entries, regions, regions - {r}, r, base, hi, level);
      }
    }

    /** The middle part of `unmap_impl`. */
    method UnmapAligned(aligned: Range, phys: nat, level: Level,
                        ghost regions: set<Region>, ghost r: Region, ghost base: nat, ghost lo: nat, ghost hi: nat)
      requires Shape() && base % Span(level) == 0 && r in regions && AllLegal(regions) && lo < hi <= ENTRY_COUNT
      requires Mixed(entries, regions, regions - {r}, base, level, lo)
      requires aligned == Range(Window(base, lo, level), Window(base, hi, level))
      requires r.virt <= aligned.start && aligned.end <= r.End() && phys == r.phys + (aligned.start - r.virt)
      modifies Repr
      ensures Shape() && Repr == old(Repr) && Mixed(entries, regions, regions - {r}, base, level, hi)
      decreases level, 0, 1
    {
      hide Mixed, Window, EntryDescribes, LeafSize, Span, PieceOf, VpnSegment, Region.LeafAt, PageTable.Shape;
      var leafSize := LeafSize(level);
      var v := aligned.start;
      ghost var k := lo;
      WindowShape(base, lo, level);
      if phys % leafSize != 0 {
        while v < aligned.end
          invariant lo <= k <= hi && v == Window(base, k, level) && Shape() && Repr == old(Repr)
          invariant Mixed(entries, regions, regions - {r}, base, level, k)
          decreases aligned.end - v
        {
          FilledWindow(r, phys, base, k, hi, aligned.start, level);
          UnmapBelow(Range(v, v + leafSize), phys + (v - aligned.start), level, regions, r, base, k);
          v, k := v + leafSize, k + 1;
        }
      } else {
        while v < aligned.end
          invariant lo <= k <= hi && v == Window(base, k, level) && Shape() && Repr == old(Repr)
          invariant Mixed(entries, regions, regions - {r}, base, level, k)
          decreases aligned.end - v
        {
          FilledWindow(r, phys, base, k, hi, aligned.start, level);
          UnmapLeaf(v, phys + (v - aligned.start), level, regions, r, base, k);
          v, k := v + leafSize, k + 1;
        }
      }
      WindowsOrdered(base, k, hi, level);
    }

    method UnmapLeaf(virt: nat, phys: nat, level: Level,
                     ghost regions: set<Region>, ghost r: Region, ghost base: nat, ghost k: nat)
      requires Shape() && base % Span(level) == 0 && k < ENTRY_COUNT && virt == Window(base, k, level) && r in regions
      requires Mixed(entries, regions, regions - {r}, base, level, k)
      requires r.LeafAt(virt, level) && phys == r.phys + (virt - r.virt)
      modifies Repr
      ensures Shape() && Repr == old(Repr) && Mixed(entries, regions, regions - {r}, base, level, k + 1)
    {
      hide Mixed, EntryDescribes, LeafSize, Span, Window, VpnSegment, Region.LeafAt, PageTable.Shape;
      var i := VpnSegment(virt, level);
      MappedLeaf(entries, virt, regions, r, base, k, level);
      EntryOf(i);
      assert slots[i].Page? && slots[i].phys == phys;
      SetEntry(i, Unused, Invalid);
    }

    /** `unwrap_indirect`, `unmap_impl` on the table it returned, then `check_unmap_indirect`. */
    method UnmapBelow(piece: Range, phys: nat, level: Level,
                      ghost regions: set<Region>, ghost r: Region, ghost base: nat, ghost k: nat)
      requires Shape() && base % Span(level) == 0 && r in regions && AllLegal(regions)
      requires Mixed(entries, regions, regions - {r}, base, level, k) && PieceOf(piece, phys, r.flags, r, base, k, level)
      modifies Repr
      ensures Shape() && Repr == old(Repr) && Mixed(entries, regions, regions - {r}, base, level, k + 1)
      decreases level, 0, 0
    {
      hide Mixed, Describes, EntryDescribes, LeafSize, Span, Window, VpnSegment, Region.LeafAt, PageTable.Shape;
      ghost var w, before := Window(base, k, level), entries;
      var i := VpnSegment(piece.start, level);
      OwnedPlace(entries, piece, phys, regions, r, base, k, level);
      EntryOf(i);
      assert slots[i].Child?;
      UnmapChild(i, piece.start, phys, piece.end - piece.start, level - 1, regions, r, w);
      ShrunkEntry(before[i], entries[i].table, regions, r, w, level);
      EntryOf(i);
      var empty := slots[i].table.IsCompletelyUnmapped();
      if empty {
        SetEntry(i, Unused, Invalid);
      }
      MixedStep(before, entries, regions, regions - {r}, base, level, k);
    }

    /** No entry is valid. */
    method IsCompletelyUnmapped() returns (empty: bool)
      requires Shape()
      ensures empty <==> IsEmptyTable(entries)
    {
      var i := 0;
      while i < ENTRY_COUNT
        invariant i <= ENTRY_COUNT && forall k: nat :: k < i ==> entries[k] == Invalid
      {
        assert SlotOk(i);
        if !slots[i].Unused? {
          assert entries[i] != Invalid;
          return false;
        }
        i := i + 1;
      }
      return true;
    }

    method IsMappedImpl(virt: nat, level: Level, ghost regions: set<Region>, ghost base: nat) returns (mapped: bool)
      requires Shape() && base % Span(level) == 0 && base <= virt < base + Span(level)
      requires Describes(entries, regions, base, level)
      ensures mapped <==> exists r <- regions :: r.Contains(virt)
      decreases level
    {
      hide PageTable.Shape, Span, LeafSize, Window, VpnSegment, Describes, EntryDescribes, Walk;
      var i := VpnSegment(virt, level);
      EntryHolding(entries, virt, level, regions, base);
      EntryOf(i);
      match slots[i] {
        case Unused => mapped := false;
        case Child(c) => mapped := c.IsMappedImpl(virt, level - 1, regions, Window(base, i, level));
        case Page(_, _) => mapped := true;
      }
    }

    // ---- A root table ----

    /** `ok` is false where the kernel stops on `already contains` or `unreachable!`. */
    method Map(virt: nat, phys: nat, size: nat, flags: PageFlags) returns (ok: bool)
      requires Valid() && Region(virt, phys, size, flags).Legal()
      modifies Repr
      ensures ok <==> forall q <- old(live) :: !Overlaps(q, Region(virt, phys, size, flags))
      ensures ok ==> Valid() && live == old(live) + {Region(virt, phys, size, flags)}
      ensures ok ==> this in Repr && fresh(Repr - old(Repr))
    {
      hide PageTable.Shape, Describes;
      ghost var r, regions := Region(virt, phys, size, flags), live;
      assert this in Repr by { InRepr(); }
      ok := MapImpl(virt, phys, size, flags, 2, regions, r, 0);
      assert AllApart(regions, r, 0, VIRTUAL_END) <==> forall q <- regions :: !Overlaps(q, r) by {
        forall q <- regions ensures Apart(q, r, 0, VIRTUAL_END) <==> !Overlaps(q, r) { }
      }
      SetLive(regions + {r}, ok);
      if ok {
        InRepr();
      }
    }

    method Unmap(virt: nat, phys: nat, size: nat, ghost flags: PageFlags)
      requires Valid() && Region(virt, phys, size, flags) in live
      modifies Repr
      ensures Valid() && live == old(live) - {Region(virt, phys, size, flags)} && this in Repr && Repr == old(Repr)
    {
      hide PageTable.Shape, Describes;
      ghost var r, regions := Region(virt, phys, size, flags), live;
      assert this in Repr by { InRepr(); }
      UnmapImpl(virt, phys, size, 2, regions, r, 0);
      SetLive(regions - {r}, true);
    }

    method IsMapped(virt: nat) returns (mapped: bool)
      requires Valid() && virt < VIRTUAL_END
      ensures mapped <==> exists r <- live :: r.Contains(virt)
    {
      hide PageTable.Shape, Describes;
      mapped := IsMappedImpl(virt, 2, live, 0);
    }

    ghost method SetLive(regions: set<Region>, known: bool)
      requires known ==> Shape() && AllLegal(regions) && Describes(entries, regions, 0, 2)
      modifies this`live
      ensures known ==> Valid() && live == regions
    {
      live := regions;
      if known {
        forall k: nat | k < ENTRY_COUNT ensures SlotOk(k) {
          assert old(SlotOk(k));
        }
        forall k: nat, j: nat | k < j < ENTRY_COUNT ensures ChildrenApart(k, j) {
          assert old(ChildrenApart(k, j));
        }
      }
    }

    lemma InRepr()
      requires Shape()
      ensures this in Repr
    {
    }
  }

  /** The entry that a leaf goes to: free exactly when nothing is mapped there. */
  lemma LeafPlace(t: seq<Entry>, virt: nat, regions: set<Region>, r: Region, base: nat, k: nat, level: Level)
    requires base % Span(level) == 0 && k < ENTRY_COUNT && virt == Window(base, k, level)
    requires Mixed(t, regions, regions + {r}, base, level, k) && r.LeafAt(virt, level)
    ensures |t| == ENTRY_COUNT && VpnSegment(virt, level) == k
    ensures t[k] == Invalid <==> AllApart(regions, r, virt, virt + LeafSize(level))
    ensures t[k] == Invalid ==>
              Mixed(t[k := Leaf(r.phys + (virt - r.virt), r.flags)], regions, regions + {r}, base, level, k + 1)
  {
    WindowShape(base, k, level);
    if t[k] == Invalid {
      assert OnlyOneIn(r, regions + {r}, virt, LeafSize(level));
      assert r in regions + {r};
    }
  }

  /** The entry that a piece goes below. */
  lemma PiecePlace(t: seq<Entry>, piece: Range, phys: nat, flags: PageFlags, regions: set<Region>, r: Region, base: nat, k: nat,
                   level: Level)
    requires base % Span(level) == 0 && Mixed(t, regions, regions + {r}, base, level, k)
    requires PieceOf(piece, phys, flags, r, base, k, level)
    ensures k < |t| == ENTRY_COUNT && level > 0 && VpnSegment(piece.start, level) == k
    ensures var w := Window(base, k, level);
            && w % Span(level - 1) == 0 && w + Span(level - 1) == w + LeafSize(level) == Window(base, k + 1, level)
            && EntryDescribes(t[k], regions, w, level) && r.Intersects(w, LeafSize(level)) && !r.LeafAt(w, level)
            && Clip(piece.start, phys, piece.end - piece.start, flags, r, w, level - 1) && piece.start < piece.end
            && (t[k].Indirect? ==> Describes(t[k].table, regions, w, level - 1))
  {
    WindowShape(base, k, level);
    SegmentOf(base, piece.start, k, level);
  }

  lemma MixedStep(t: seq<Entry>, u: seq<Entry>, before: set<Region>, after: set<Region>, base: nat, level: Level, k: nat)
    requires Mixed(t, before, after, base, level, k) && k < ENTRY_COUNT && |u| == ENTRY_COUNT && u == t[k := u[k]]
    requires EntryDescribes(u[k], after, Window(base, k, level), level)
    ensures Mixed(u, before, after, base, level, k + 1)
  {
    hide EntryDescribes;
  }

  /** The entry of a leaf of a live region is that leaf. */
  lemma MappedLeaf(t: seq<Entry>, virt: nat, regions: set<Region>, r: Region, base: nat, k: nat, level: Level)
    requires base % Span(level) == 0 && k < ENTRY_COUNT && virt == Window(base, k, level) && r in regions
    requires Mixed(t, regions, regions - {r}, base, level, k) && r.LeafAt(virt, level)
    ensures |t| == ENTRY_COUNT && VpnSegment(virt, level) == k && t[k].Leaf? && t[k].phys == r.phys + (virt - r.virt)
    ensures Mixed(t[k := Invalid], regions, regions - {r}, base, level, k + 1)
  {
    WindowShape(base, k, level);
  }

  /** A piece of a live region lies below a table. */
  lemma OwnedPlace(t: seq<Entry>, piece: Range, phys: nat, regions: set<Region>, r: Region, base: nat, k: nat, level: Level)
    requires base % Span(level) == 0 && Mixed(t, regions, regions - {r}, base, level, k) && r in regions
    requires PieceOf(piece, phys, r.flags, r, base, k, level)
    ensures k < |t| == ENTRY_COUNT && level > 0 && VpnSegment(piece.start, level) == k
    ensures var w := Window(base, k, level);
            && w % Span(level - 1) == 0 && w % LeafSize(level) == 0
            && EntryDescribes(t[k], regions, w, level) && t[k].Indirect? && Describes(t[k].table, regions, w, level - 1)
            && Clip(piece.start, phys, piece.end - piece.start, r.flags, r, w, level - 1) && piece.start < piece.end
  {
    WindowShape(base, k, level);
    SegmentOf(base, piece.start, k, level);
    OwnsIndirect(t[k], regions, r, Window(base, k, level), level);
  }

  /** What the entry of an address says about it. */
  lemma EntryHolding(t: seq<Entry>, virt: nat, level: Level, regions: set<Region>, base: nat)
    requires base % Span(level) == 0 && base <= virt < base + Span(level) && Describes(t, regions, base, level)
    ensures var i := VpnSegment(virt, level);
            && i < |t| == ENTRY_COUNT
            && (t[i].Invalid? ==> forall r <- regions :: !r.Contains(virt))
            && (t[i].Leaf? ==> exists r <- regions :: r.Contains(virt))
            && (t[i].Indirect? ==>
                  && level > 0 && var w := Window(base, i, level);
                  && w % Span(level - 1) == 0 && w <= virt < w + Span(level - 1)
                  && Describes(t[i].table, regions, w, level - 1))
  {
    WindowOf(base, virt, level);
    WalkOfLive(t, regions, base, level, virt);
    var i := VpnSegment(virt, level);
    WindowShape(base, i, level);
    assert EntryDescribes(t[i], regions, Window(base, i, level), level);
  }

  // ---- Runs ----

  datatype Op = MapOp(r: Region) | UnmapOp(r: Region)

  /** Each map stays clear of what is live, each unmap names a live region. */
  ghost predicate IsLegalRun(live: set<Region>, ops: seq<Op>)
    decreases |ops|
  {
    ops == [] ||
    match ops[0]
    case MapOp(r) => r.Legal() && (forall q <- live :: !Overlaps(q, r)) && IsLegalRun(live + {r}, ops[1..])
    case UnmapOp(r) => r in live && IsLegalRun(live - {r}, ops[1..])
  }

  ghost function LiveAfter(live: set<Region>, ops: seq<Op>): set<Region>
    decreases |ops|
  {
    if ops == [] then live
    else match ops[0]
      case MapOp(r) => LiveAfter(live + {r}, ops[1..])
      case UnmapOp(r) => LiveAfter(live - {r}, ops[1..])
  }

  /** In a legal run no assertion fires, and only the regions that survive it decide the table. */
  method Replay(table: PageTable, ops: seq<Op>)
    requires table.Valid() && IsLegalRun(table.live, ops)
    modifies table.Repr
    ensures table.Valid() && table.live == LiveAfter(old(table.live), ops)
    ensures forall t | Describes(t, table.live, 0, 2) :: t == table.entries
  {
    var i := 0;
    while i < |ops|
      invariant 0 <= i <= |ops| && table.Valid() && fresh(table.Repr - old(table.Repr)) && IsLegalRun(table.live, ops[i..])
      invariant LiveAfter(table.live, ops[i..]) == LiveAfter(old(table.live), ops)
    {
      assert ops[i..][0] == ops[i] && ops[i..][1..] == ops[i + 1..];
      var r := ops[i].r;
      match ops[i] {
        case MapOp(_) =>
          var ok := table.Map(r.virt, r.phys, r.size, r.flags);
          assert ok;
        case UnmapOp(_) =>
          table.Unmap(r.virt, r.phys, r.size, r.flags);
      }
      i := i + 1;
    }
    forall t | Describes(t, table.live, 0, 2) ensures t == table.entries {
      TableIsCanonical(t, table.entries, table.live, 0, 2);
    }
  }
}
