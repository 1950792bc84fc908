/** Reading files from a FAT volume: the allocation table, the layout of clusters and the walk along a chain. */
module Fat {
  import opened Arithmetic
  import opened Bytes
  import opened Options
  import opened Sequences

  const DISK_SECTOR_SIZE: nat := 512

  datatype FatType = Fat12 | Fat16 | Fat32

  /** The fields of the BIOS parameter block that say where things are. */
  datatype Bpb = Bpb(bytsPerSec: nat, secPerClus: nat, rsvdSecCnt: nat, numFats: nat, rootEntCnt: nat,
                     totSec16: nat, fatSz16: nat, totSec32: nat, fatSz32: nat)
  {
    function RootDirSectors(): nat
      requires bytsPerSec > 0
    {
      (rootEntCnt * 32 + bytsPerSec - 1) / bytsPerSec
    }

    /** What is left of the volume after the reserved sectors and the tables. */
    function AfterTables(): int {
      (if totSec16 != 0 then totSec16 else totSec32) - (rsvdSecCnt + numFats * (if fatSz16 != 0 then fatSz16 else fatSz32))
    }

    /** Adds the sectors of the root directory. */
    function DetermineType(): FatType
      requires bytsPerSec > 0 && secPerClus > 0 && AfterTables() >= 0
    {
      TypeOfCount((AfterTables() + RootDirSectors()) / secPerClus)
    }

    /** By section 3.5 of the FAT specification, which takes them away. */
    function StandardType(): FatType
      requires bytsPerSec > 0 && secPerClus > 0 && AfterTables() >= RootDirSectors()
    {
      TypeOfCount((AfterTables() - RootDirSectors()) / secPerClus)
    }
  }

  function TypeOfCount(count: nat): FatType {
    if count < 4085 then Fat12 else if count < 65525 then Fat16 else Fat32
  }

  /** The type is the one that the specification gives exactly if no limit lies in the range of sectors that the root directory
      is counted too much. */
  lemma TypeIsStandardIff(b: Bpb)
    requires b.bytsPerSec > 0 && b.secPerClus > 0 && b.AfterTables() >= b.RootDirSectors()
    ensures b.DetermineType() == b.StandardType() <==>
            && !(b.AfterTables() - b.RootDirSectors() < 4085 * b.secPerClus <= b.AfterTables() + b.RootDirSectors())
            && !(b.AfterTables() - b.RootDirSectors() < 65525 * b.secPerClus <= b.AfterTables() + b.RootDirSectors())
  {
    hide Bpb.AfterTables, Bpb.RootDirSectors;
    var less, more := b.AfterTables() - b.RootDirSectors(), b.AfterTables() + b.RootDirSectors();
    CountBelow(less, 4085, b.secPerClus);
    CountBelow(more, 4085, b.secPerClus);
    CountBelow(less, 65525, b.secPerClus);
    CountBelow(more, 65525, b.secPerClus);
  }

  lemma CountBelow(sectors: nat, limit: nat, size: nat)
    requires size > 0
    ensures sectors / size < limit <==> sectors < limit * size
  {
    var q, rest := Quotient(sectors, size);
    MulOrder(q, limit, size);
    MulOrder(limit, q, size);
    DivModUnique(sectors, q, rest, size);
  }

  /** A volume of 4084 clusters, which the specification makes FAT12, is taken for FAT16. */
  lemma MistakenType()
    ensures var b := Bpb(512, 1, 1, 2, 512, 4141, 12, 0, 0);
            b.AfterTables() - b.RootDirSectors() == 4084 && b.StandardType() == Fat12 && b.DetermineType() == Fat16
  {
  }

  /** Two bytes, the low one first. */
  function Word(low: Byte, high: Byte): nat {
    var l: nat, h: nat := low, high;
    l + 256 * h
  }

  datatype Next = Follow(cluster: nat) | End | Unimplemented

  /** A mounted volume: the mapped allocation table and the drive, which does not change. */
  datatype Volume = Volume(kind: FatType, bpb: Bpb, fat: seq<Byte>, disk: seq<Byte>)
  {
    function FatStart(): nat { bpb.rsvdSecCnt }

    function FatEnd(): nat { FatStart() + bpb.numFats * (if kind.Fat32? then bpb.fatSz32 else bpb.fatSz16) }

    function DataStart(): nat
      requires bpb.bytsPerSec > 0
    {
      FatEnd() + bpb.rootEntCnt * 32 / bpb.bytsPerSec
    }

    function TotalSectors(): nat {
      if kind.Fat32? || bpb.totSec16 == 0 then bpb.totSec32 else bpb.totSec16
    }

    /** The sizes that mounting checks; that the data region starts inside the volume and the drive is as long as the
        volume says is not checked but assumed. */
    predicate Legal() {
      && bpb.bytsPerSec in {512, 1024, 2048, 4096} && bpb.secPerClus > 0
      && DataStart() <= TotalSectors() && TotalSectors() * bpb.bytsPerSec <= |disk|
    }

    function CountOfClusters(): nat
      requires Legal()
    {
      (TotalSectors() - DataStart()) / bpb.secPerClus
    }

    function MaxCluster(): nat
      requires Legal()
    {
      CountOfClusters() + 1
    }

    predicate HasCluster(cluster: nat)
      requires Legal()
    {
      2 <= cluster <= MaxCluster()
    }

    /** Sectors of the drive in a sector of the volume. */
    function Ratio(): nat { bpb.bytsPerSec / DISK_SECTOR_SIZE }

    function SectorOf(cluster: nat, i: nat): nat
      requires Legal() && cluster >= 2
    {
      DataStart() + (cluster - 2) * bpb.secPerClus + i
    }

    function DriveSector(sector: nat, i: nat): nat { Ratio() * sector + i }

    /** `None` where an index is out of range. */
    function ReadFatEntry(cluster: nat): Option<nat> {
      match kind
      case Fat12 =>
        var at := cluster + cluster / 2;
        if at + 2 > |fat| then None else
        var value := Word(fat[at], fat[at + 1]);
        Some(if cluster % 2 == 0 then value % 0x1000 else value / 16)
      case Fat16 =>
        if 2 * cluster + 2 > |fat| then None else Some(Word(fat[2 * cluster], fat[2 * cluster + 1]))
      case Fat32 =>
        if 4 * cluster + 4 > |fat| then None else
        Some(Word(fat[4 * cluster], fat[4 * cluster + 1]) + 0x1_0000 * Word(fat[4 * cluster + 2], fat[4 * cluster + 3]))
    }

    /** The cluster after `cluster`. Free, reserved, bad and too large entries are not implemented. */
    function NextCluster(cluster: nat): Next
      requires Legal()
    {
      match ReadFatEntry(cluster)
      case None => Unimplemented
      case Some(entry) =>
        var next := entry % 0x1000_0000;
        if HasCluster(next) then Follow(next)
        else if EndsAt(next) then End
        else Unimplemented
    }

    predicate EndsAt(next: nat) {
      match kind
      case Fat12 => 0xFF8 <= next <= 0xFFF
      case Fat16 => 0xFFF8 <= next <= 0xFFFF
      case Fat32 => 0xFFF_FFF8 <= next <= 0xFFF_FFFF
    }

    /** `chain` is the whole chain from its first cluster on, up to an end-of-chain mark. Such a chain has no cycle. */
    predicate IsChain(chain: seq<nat>)
      requires Legal()
      decreases |chain|
    {
      && chain != [] && HasCluster(chain[0])
      && if |chain| == 1 then NextCluster(chain[0]).End?
         else NextCluster(chain[0]) == Follow(chain[1]) && IsChain(chain[1..])
    }
  }

  // ---- The allocation table ----

  type Entry12 = e: nat | e < 0x1000
  type Entry16 = e: nat | e < 0x1_0000
  type Entry32 = e: nat | e < 0x1_0000_0000

  function Byte0(e: nat): Byte { e % 0x100 }

  function Byte1(e: nat): Byte { e / 0x100 % 0x100 }

  function Byte2(e: nat): Byte { e / 0x1_0000 % 0x100 }

  function Byte3(e: nat): Byte { e / 0x100_0000 % 0x100 }

  /** Two entries of 12 bits to three bytes, low bits first. */
  function Pack12(entries: seq<Entry12>): seq<Byte>
    decreases |entries|
  {
    if entries == [] then []
    else if |entries| == 1 then [Byte0(entries[0]), Byte1(entries[0])]
    else Pair(entries[0], entries[1]) + Pack12(entries[2..])
  }

  function Pair(a: Entry12, b: Entry12): seq<Byte> {
    [Byte0(a), Byte1(a + 0x1000 * (b % 16)), Byte0(b / 16)]
  }

  function Pack16(entries: seq<Entry16>): seq<Byte> {
    if entries == [] then [] else [Byte0(entries[0]), Byte1(entries[0])] + Pack16(entries[1..])
  }

  function Pack32(entries: seq<Entry32>): seq<Byte> {
    if entries == [] then [] else
    [Byte0(entries[0]), Byte1(entries[0]), Byte2(entries[0]), Byte3(entries[0])] + Pack32(entries[1..])
  }

  lemma PairComesBack(a: Entry12, b: Entry12)
    ensures var p := Pair(a, b); Word(p[0], p[1]) % 0x1000 == a && Word(p[1], p[2]) / 16 == b
  {
    var high, low := Quotient(a, 256);
    var b1, b0 := Quotient(b, 16);
    DivModUnique(a, high, low, 256);
    DivModUnique(b, b1, b0, 16);
    DivModUnique(a + 0x1000 * b0, high + 16 * b0, low, 256);
    DivModUnique(high + 16 * b0, 0, high + 16 * b0, 256);
    DivModUnique(b1, 0, b1, 256);
    DivModUnique(low + 256 * (high + 16 * b0), b0, a, 0x1000);
    DivModUnique(high + 16 * b0 + 256 * b1, b, high, 16);
  }

  lemma WordComesBack(e: Entry16)
    ensures Word(Byte0(e), Byte1(e)) == e
  {
  }

  lemma LongComesBack(e: Entry32)
    ensures Word(Byte0(e), Byte1(e)) + 0x1_0000 * Word(Byte2(e), Byte3(e)) == e
  {
    var q1, b0 := Quotient(e, 0x100);
    var q2, b1 := Quotient(q1, 0x100);
    var q3, b2 := Quotient(q2, 0x100);
    DivModUnique(e, q1, b0, 0x100);
    DivModUnique(q1, q2, b1, 0x100);
    DivModUnique(q2, q3, b2, 0x100);
    DivModUnique(e, q2, b1 * 0x100 + b0, 0x1_0000);
    DivModUnique(e, q3, b2 * 0x1_0000 + b1 * 0x100 + b0, 0x100_0000);
    DivModUnique(q3, 0, q3, 0x100);
  }

  /** A table of 12-bit entries, packed, gives every entry back, whether it begins at a byte or in the middle of one. */
  lemma {:induction false} Fat12EntriesComeBack(v: Volume, entries: seq<Entry12>, n: nat)
    requires v.kind.Fat12? && v.fat == Pack12(entries) && n < |entries|
    ensures v.ReadFatEntry(n) == Some(entries[n])
    decreases n
  {
    hide Pair, Word, Byte0, Byte1;
    if n >= 2 {
      var rest := v.(fat := Pack12(entries[2..]));
      Fat12EntriesComeBack(rest, entries[2..], n - 2);
      assert n + n / 2 == 3 + (n - 2 + (n - 2) / 2);
      assert |Pair(entries[0], entries[1])| == 3 by { PairSize(entries[0], entries[1]); }
      assert v.fat[3..] == rest.fat;
    } else {
      FirstPair(v, entries, n);
    }
  }

  lemma PairSize(a: Entry12, b: Entry12)
    ensures |Pair(a, b)| == 3
  {
  }

  lemma FirstPair(v: Volume, entries: seq<Entry12>, n: nat)
    requires v.kind.Fat12? && v.fat == Pack12(entries) && n < |entries| && n < 2
    ensures v.ReadFatEntry(n) == Some(entries[n])
  {
    hide Pair, Byte0, Byte1, Word, Pack12, Volume.ReadFatEntry;
    Pack12Begins(entries);
    InFirstBytes(v, n);
    if |entries| == 1 {
      AloneComesBack(entries[0]);
    } else {
      PairComesBack(entries[0], entries[1]);
    }
  }

  lemma Pack12Begins(entries: seq<Entry12>)
    requires entries != []
    ensures var bytes := Pack12(entries);
            if |entries| == 1 then bytes == [Byte0(entries[0]), Byte1(entries[0])]
            else |bytes| >= 3 && |Pair(entries[0], entries[1])| == 3 && bytes[..3] == Pair(entries[0], entries[1])
                 && (forall i :: 0 <= i < 3 ==> bytes[i] == Pair(entries[0], entries[1])[i])
  {
    if |entries| > 1 {
      PairSize(entries[0], entries[1]);
      assert Pack12(entries) == Pair(entries[0], entries[1]) + Pack12(entries[2..]);
    }
  }

  lemma InFirstBytes(v: Volume, n: nat)
    requires v.kind.Fat12? && n < 2 && |v.fat| >= 2 + n
    ensures v.ReadFatEntry(n) == Some(if n == 0 then Word(v.fat[0], v.fat[1]) % 0x1000 else Word(v.fat[1], v.fat[2]) / 16)
  {
    hide Word;
  }

  lemma AloneComesBack(e: Entry12)
    ensures Word(Byte0(e), Byte1(e)) % 0x1000 == e
  {
    WordComesBack(e);
  }

  lemma {:induction false} Fat16EntriesComeBack(v: Volume, entries: seq<Entry16>, n: nat)
    requires v.kind.Fat16? && v.fat == Pack16(entries) && n < |entries|
    ensures v.ReadFatEntry(n) == Some(entries[n])
    decreases n
  {
    hide Byte0, Byte1, Word;
    WordComesBack(entries[0]);
    if n > 0 {
      Fat16EntriesComeBack(v.(fat := Pack16(entries[1..])), entries[1..], n - 1);
    }
  }

  lemma {:induction false} Fat32EntriesComeBack(v: Volume, entries: seq<Entry32>, n: nat)
    requires v.kind.Fat32? && v.fat == Pack32(entries) && n < |entries|
    ensures v.ReadFatEntry(n) == Some(entries[n])
    decreases n
  {
    hide Byte0, Byte1, Byte2, Byte3, Word;
    LongComesBack(entries[0]);
    if n > 0 {
      Fat32EntriesComeBack(v.(fat := Pack32(entries[1..])), entries[1..], n - 1);
    }
  }

  function EntryLimit(kind: FatType): nat {
    match kind
    case Fat12 => 0x1000
    case Fat16 => 0x1_0000
    case Fat32 => 0x1_0000_0000
  }

  ghost predicate Fits(kind: FatType, entries: seq<nat>) {
    forall i :: 0 <= i < |entries| ==> entries[i] < EntryLimit(kind)
  }

  ghost function Packed(kind: FatType, entries: seq<nat>): seq<Byte>
    requires Fits(kind, entries)
  {
    match kind
    case Fat12 => Pack12(entries)
    case Fat16 => Pack16(entries)
    case Fat32 => Pack32(entries)
  }

  /** The mapped table holds these entries, packed. It may end inside one. */
  ghost predicate IsTable(v: Volume, entries: seq<nat>) {
    Fits(v.kind, entries) && v.fat <= Packed(v.kind, entries)
  }

  /** The table holds all of entry `n`. */
  ghost predicate InTable(v: Volume, entries: seq<nat>, n: nat)
    requires IsTable(v, entries)
  {
    n < |entries| && |Packed(v.kind, entries[..n + 1])| <= |v.fat|
  }

  /** Reading gives every entry of the table, and finds the end of the table. */
  lemma EntryIsRead(v: Volume, entries: seq<nat>, n: nat)
    requires IsTable(v, entries)
    ensures v.ReadFatEntry(n) == if InTable(v, entries, n) then Some(entries[n]) else None
  {
    hide Volume.ReadFatEntry, Packed;
    var whole := v.(fat := Packed(v.kind, entries));
    PackedSize(v.kind, entries);
    CutTable(v, whole, n);
    if n < |entries| {
      PackedSize(v.kind, entries[..n + 1]);
      PackedComesBack(whole, entries, n);
    }
  }

  lemma PackedComesBack(v: Volume, entries: seq<nat>, n: nat)
    requires Fits(v.kind, entries) && v.fat == Packed(v.kind, entries) && n < |entries|
    ensures v.ReadFatEntry(n) == Some(entries[n])
  {
    hide Volume.ReadFatEntry, Pack12, Pack16, Pack32;
    match v.kind
    case Fat12 => Fat12EntriesComeBack(v, entries, n);
    case Fat16 => Fat16EntriesComeBack(v, entries, n);
    case Fat32 => Fat32EntriesComeBack(v, entries, n);
  }

  lemma CutTable(v: Volume, whole: Volume, n: nat)
    requires v == whole.(fat := v.fat) && v.fat <= whole.fat
    ensures v.ReadFatEntry(n) == if SizeOf(v.kind, n + 1) <= |v.fat| then whole.ReadFatEntry(n) else None
  {
    hide Word;
  }

  /** The bytes of a table of `n` entries. */
  function SizeOf(kind: FatType, n: nat): nat {
    match kind
    case Fat12 => n + (n + 1) / 2
    case Fat16 => 2 * n
    case Fat32 => 4 * n
  }

  lemma {:induction false} PackedSize(kind: FatType, entries: seq<nat>)
    requires Fits(kind, entries)
    ensures |Packed(kind, entries)| == SizeOf(kind, |entries|)
    decreases |entries|
  {
    hide Byte0, Byte1, Byte2, Byte3, Pair;
    if kind.Fat12? && |entries| > 1 {
      PairSize(entries[0], entries[1]);
      PackedSize(kind, entries[2..]);
    } else if entries != [] {
      PackedSize(kind, entries[1..]);
    }
  }

  /** Any bytes are a table of some entries. */
  lemma {:induction false} EveryTableHasEntries(v: Volume) returns (entries: seq<nat>)
    ensures IsTable(v, entries)
    decreases |v.fat|
  {
    hide Byte0, Byte1, Byte2, Byte3;
    var n := if v.kind.Fat12? then 3 else if v.kind.Fat16? then 2 else 4;
    if v.fat == [] {
      entries := [];
    } else {
      var padded := v.fat + seq(n, _ => 0);
      var rest := EveryTableHasEntries(v.(fat := if |v.fat| < n then [] else v.fat[n..]));
      var first := FirstEntries(v.kind, padded[..n]);
      PackedFirst(v.kind, padded[..n], rest);
      entries := first + rest;
    }
  }

  /** The entries in as many bytes as hold a whole number of them. */
  ghost function FirstEntries(kind: FatType, b: seq<Byte>): seq<nat>
    requires |b| == if kind.Fat12? then 3 else if kind.Fat16? then 2 else 4
  {
    match kind
    case Fat12 => [Word(b[0], b[1]) % 0x1000, Word(b[1], b[2]) / 16]
    case Fat16 => [Word(b[0], b[1])]
    case Fat32 => [Word(b[0], b[1]) + 0x1_0000 * Word(b[2], b[3])]
  }

  lemma PackedFirst(kind: FatType, b: seq<Byte>, rest: seq<nat>)
    requires |b| == (if kind.Fat12? then 3 else if kind.Fat16? then 2 else 4) && Fits(kind, rest)
    ensures Fits(kind, FirstEntries(kind, b) + rest)
    ensures Packed(kind, FirstEntries(kind, b) + rest) == b + Packed(kind, rest)
  {
    var entries := FirstEntries(kind, b) + rest;
    match kind
    case Fat12 =>
      PairIsOnto(b[0], b[1], b[2]);
      assert entries[2..] == rest;
    case Fat16 =>
      WordIsOnto(b[0], b[1]);
      assert entries[1..] == rest;
    case Fat32 =>
      LongIsOnto(b[0], b[1], b[2], b[3]);
      assert entries[1..] == rest;
  }

  lemma PairIsOnto(b0: Byte, b1: Byte, b2: Byte)
    ensures Word(b1, b2) / 16 < 0x1000
    ensures Pair(Word(b0, b1) % 0x1000, Word(b1, b2) / 16) == [b0, b1, b2]
  {
    var high, low := Quotient(b1, 16);
    DivModUnique(b0 + 256 * b1, high, b0 + 256 * low, 0x1000);
    DivModUnique(b1 + 256 * b2, high + 16 * b2, low, 16);
    DivModUnique(b0 + 256 * low, low, b0, 256);
    DivModUnique(high + 16 * b2, b2, high, 16);
    DivModUnique(b0 + 256 * low + 0x1000 * high, b1, b0, 256);
    DivModUnique(b1, 0, b1, 256);
    DivModUnique(b2, 0, b2, 256);
  }

  lemma WordIsOnto(b0: Byte, b1: Byte)
    ensures Word(b0, b1) < 0x1_0000 && Byte0(Word(b0, b1)) == b0 && Byte1(Word(b0, b1)) == b1
  {
    DivModUnique(b0 + 256 * b1, b1, b0, 256);
  }

  lemma LongIsOnto(b0: Byte, b1: Byte, b2: Byte, b3: Byte)
    ensures var e := Word(b0, b1) + 0x1_0000 * Word(b2, b3);
            e < 0x1_0000_0000 && Byte0(e) == b0 && Byte1(e) == b1 && Byte2(e) == b2 && Byte3(e) == b3
  {
    var e: nat := b0 + 256 * b1 + 0x1_0000 * b2 + 0x100_0000 * b3;
    DivModUnique(e, b1 + 0x100 * b2 + 0x1_0000 * b3, b0, 0x100);
    DivModUnique(b1 + 0x100 * b2 + 0x1_0000 * b3, b2 + 0x100 * b3, b1, 0x100);
    DivModUnique(e, b2 + 0x100 * b3, b0 + 256 * b1, 0x1_0000);
    DivModUnique(b2 + 0x100 * b3, b3, b2, 0x100);
    DivModUnique(e, b3, b0 + 256 * b1 + 0x1_0000 * b2, 0x100_0000);
    DivModUnique(b3, 0, b3, 0x100);
  }

  /** The clusters of a file as the table lists them: each entry gives the next cluster, and the last is an end mark. The
      upper four bits of a long entry do not count. */
  ghost predicate IsList(v: Volume, entries: seq<nat>, chain: seq<nat>)
    requires v.Legal() && IsTable(v, entries)
  {
    && chain != []
    && (forall k :: 0 <= k < |chain| ==> 2 <= chain[k] < 2 + v.CountOfClusters() && InTable(v, entries, chain[k]))
    && (forall k :: 0 <= k < |chain| - 1 ==> entries[chain[k]] % 0x1000_0000 == chain[k + 1])
    && var last := entries[chain[|chain| - 1]] % 0x1000_0000;
    && last >= 2 + v.CountOfClusters()
    && match v.kind
       case Fat12 => 0xFF8 <= last <= 0xFFF
       case Fat16 => 0xFFF8 <= last <= 0xFFFF
       case Fat32 => 0xFFF_FFF8 <= last <= 0xFFF_FFFF
  }

  /** The walk follows exactly what the table lists. */
  lemma {:induction false} ListIsChain(v: Volume, entries: seq<nat>, chain: seq<nat>)
    requires v.Legal() && IsTable(v, entries)
    ensures IsList(v, entries, chain) <==> v.IsChain(chain)
    decreases |chain|
  {
    hide Volume.Legal, IsTable, InTable, Volume.CountOfClusters, Volume.ReadFatEntry;
    if chain != [] {
      EntryIsRead(v, entries, chain[0]);
      if |chain| > 1 {
        ListIsChain(v, entries, chain[1..]);
        ListGoesOn(v, entries, chain);
      }
    }
  }

  lemma ListGoesOn(v: Volume, entries: seq<nat>, chain: seq<nat>)
    requires v.Legal() && IsTable(v, entries) && |chain| > 1
    ensures IsList(v, entries, chain) <==>
            && 2 <= chain[0] < 2 + v.CountOfClusters() && InTable(v, entries, chain[0])
            && entries[chain[0]] % 0x1000_0000 == chain[1] && IsList(v, entries, chain[1..])
  {
    hide Volume.Legal, IsTable, Packed, Volume.CountOfClusters;
    var rest := chain[1..];
    assert rest[|rest| - 1] == chain[|chain| - 1];
    if IsList(v, entries, rest) && 2 <= chain[0] < 2 + v.CountOfClusters() && InTable(v, entries, chain[0])
       && entries[chain[0]] % 0x1000_0000 == chain[1] {
      forall k | 0 <= k < |chain|
        ensures 2 <= chain[k] < 2 + v.CountOfClusters() && InTable(v, entries, chain[k])
      {
        if k > 0 { assert chain[k] == rest[k - 1]; }
      }
      forall k | 0 <= k < |chain| - 1 ensures entries[chain[k]] % 0x1000_0000 == chain[k + 1] {
        if k > 0 { assert chain[k] == rest[k - 1] && chain[k + 1] == rest[k]; }
      }
    }
    if IsList(v, entries, chain) {
      assert forall k :: 0 <= k < |rest| ==> rest[k] == chain[k + 1];
      forall k | 0 <= k < |rest| - 1 ensures entries[rest[k]] % 0x1000_0000 == rest[k + 1] {
        assert rest[k] == chain[k + 1] && rest[k + 1] == chain[k + 2];
      }
    }
  }

  /** From its first cluster on, the table lists one file. */
  lemma {:induction false} ListIsUnique(v: Volume, entries: seq<nat>, a: seq<nat>, b: seq<nat>)
    requires v.Legal() && IsTable(v, entries) && IsList(v, entries, a) && IsList(v, entries, b) && a[0] == b[0]
    ensures a == b
    decreases |a|
  {
    hide Volume.Legal, IsTable, Packed, Volume.CountOfClusters;
    if |a| > 1 { ListGoesOn(v, entries, a); }
    if |b| > 1 { ListGoesOn(v, entries, b); }
    if |a| > 1 && |b| > 1 { ListIsUnique(v, entries, a[1..], b[1..]); }
    assert a == [a[0]] + a[1..] && b == [b[0]] + b[1..];
  }

  // ---- Where clusters lie ----

  /** The bytes of a cluster lie together on the drive, from here on. */
  function ClusterOffset(v: Volume, cluster: nat): nat
    requires v.Legal() && cluster >= 2
  {
    v.SectorOf(cluster, 0) * v.bpb.bytsPerSec
  }

  function ClusterSize(v: Volume): nat {
    v.bpb.secPerClus * v.bpb.bytsPerSec
  }

  lemma ClusterInVolume(v: Volume, cluster: nat)
    requires v.Legal() && v.HasCluster(cluster)
    ensures v.SectorOf(cluster, 0) + v.bpb.secPerClus <= v.TotalSectors()
    ensures ClusterOffset(v, cluster) >= v.DataStart() * v.bpb.bytsPerSec
    ensures ClusterOffset(v, cluster) + ClusterSize(v) <= v.TotalSectors() * v.bpb.bytsPerSec <= |v.disk|
  {
    hide Volume.DataStart, Volume.TotalSectors, Volume.FatEnd;
    var n, rest := Quotient(v.TotalSectors() - v.DataStart(), v.bpb.secPerClus);
    DivModUnique(v.TotalSectors() - v.DataStart(), n, rest, v.bpb.secPerClus);
    MulOrder(cluster - 1, n, v.bpb.secPerClus);
    MulAdd(cluster - 2, 1, v.bpb.secPerClus);
    var first := v.SectorOf(cluster, 0);
    MulAdd(first, v.bpb.secPerClus, v.bpb.bytsPerSec);
    MulOrder(first + v.bpb.secPerClus, v.TotalSectors(), v.bpb.bytsPerSec);
    MulOrder(v.DataStart(), first, v.bpb.bytsPerSec);
  }

  /** The clusters lie one after the other, the first after the reserved sectors, the copies of the table and the root
      directory, whose entries of 32 bytes fill whole sectors. */
  lemma ClustersBegin(v: Volume, cluster: nat)
    requires v.Legal() && cluster >= 2 && v.bpb.rootEntCnt * 32 % v.bpb.bytsPerSec == 0
    ensures var b := v.bpb;
            ClusterOffset(v, cluster)
            == b.rsvdSecCnt * b.bytsPerSec + b.numFats * (if v.kind.Fat32? then b.fatSz32 else b.fatSz16) * b.bytsPerSec
               + b.rootEntCnt * 32 + (cluster - 2) * (b.secPerClus * b.bytsPerSec)
  {
    var b := v.bpb;
    var root := Multiple(b.rootEntCnt * 32, b.bytsPerSec);
    DivModUnique(b.rootEntCnt * 32, root, 0, b.bytsPerSec);
    var tables := b.numFats * (if v.kind.Fat32? then b.fatSz32 else b.fatSz16);
    MulAdd(b.rsvdSecCnt, tables, b.bytsPerSec);
    MulAdd(b.rsvdSecCnt + tables, root, b.bytsPerSec);
    MulAdd(b.rsvdSecCnt + tables + root, (cluster - 2) * b.secPerClus, b.bytsPerSec);
    MulAssociates(cluster - 2, b.secPerClus, b.bytsPerSec);
  }

  /** Different clusters share no byte. */
  lemma ClustersApart(v: Volume, a: nat, b: nat)
    requires v.Legal() && 2 <= a < b
    ensures ClusterOffset(v, a) + ClusterSize(v) <= ClusterOffset(v, b)
  {
    hide Volume.DataStart, Volume.TotalSectors, Volume.FatEnd;
    MulOrder(a - 2, b - 2, v.bpb.secPerClus);
    MulAdd(v.SectorOf(a, 0), v.bpb.secPerClus, v.bpb.bytsPerSec);
    MulOrder(v.SectorOf(a, 0) + v.bpb.secPerClus, v.SectorOf(b, 0), v.bpb.bytsPerSec);
  }

  /** A drive sector of a cluster's sectors lies inside the cluster, at its place. */
  lemma DriveSectorPlace(v: Volume, cluster: nat, i: nat, j: nat)
    requires v.Legal() && v.HasCluster(cluster) && i < v.bpb.secPerClus && j < v.Ratio()
    ensures v.DriveSector(v.SectorOf(cluster, i), j) * DISK_SECTOR_SIZE
            == ClusterOffset(v, cluster) + i * v.bpb.bytsPerSec + j * DISK_SECTOR_SIZE
    ensures i * v.bpb.bytsPerSec + (j + 1) * DISK_SECTOR_SIZE <= ClusterSize(v)
  {
    hide Volume.DataStart, Volume.TotalSectors, Volume.FatEnd;
    RatioIs(v);
    var first := v.SectorOf(cluster, 0);
    MulAdd(first, i, v.bpb.bytsPerSec);
    MulAssociates(DISK_SECTOR_SIZE, v.Ratio(), first + i);
    MulOrder(i, v.bpb.secPerClus, v.bpb.bytsPerSec);
  }

  lemma RatioIs(v: Volume)
    requires v.bpb.bytsPerSec in {512, 1024, 2048, 4096}
    ensures v.Ratio() * DISK_SECTOR_SIZE == v.bpb.bytsPerSec && v.Ratio() > 0
  {
  }

  // ---- The content of a chain ----

  ghost predicate InRange(v: Volume, chain: seq<nat>)
    requires v.Legal()
  {
    forall k :: 0 <= k < |chain| ==> v.HasCluster(chain[k])
  }

  function ClusterBytes(v: Volume, cluster: nat): seq<Byte>
    requires v.Legal() && v.HasCluster(cluster)
  {
    ClusterInVolume(v, cluster);
    v.disk[ClusterOffset(v, cluster)..ClusterOffset(v, cluster) + ClusterSize(v)]
  }

  ghost function Content(v: Volume, chain: seq<nat>): seq<Byte>
    requires v.Legal() && InRange(v, chain)
  {
    if chain == [] then [] else ClusterBytes(v, chain[0]) + Content(v, chain[1..])
  }

  /** What a file of `size` bytes holds: its clusters in order, cut off or filled up with zeros. A directory has no size. */
  ghost function FileBytes(content: seq<Byte>, size: Option<nat>): seq<Byte> {
    match size
    case None => content
    case Some(n) => if n <= |content| then content[..n] else content + seq(n - |content|, _ => 0)
  }

  lemma {:induction false} ChainInRange(v: Volume, chain: seq<nat>)
    requires v.Legal() && v.IsChain(chain)
    ensures chain != [] && InRange(v, chain)
    decreases |chain|
  {
    hide Volume.Legal, Volume.HasCluster, Volume.NextCluster;
    if |chain| > 1 {
      ChainInRange(v, chain[1..]);
      assert forall k :: 1 <= k < |chain| ==> chain[k] == chain[1..][k - 1];
    }
  }

  lemma {:induction false} ChainNext(v: Volume, chain: seq<nat>, k: nat)
    requires v.Legal() && v.IsChain(chain) && k < |chain|
    ensures v.NextCluster(chain[k]) == if k + 1 < |chain| then Follow(chain[k + 1]) else End
    decreases k
  {
    if k > 0 {
      ChainNext(v, chain[1..], k - 1);
    }
  }

  /** A chain that ends passes no cluster twice. */
  lemma {:induction false} ChainHasNoCycle(v: Volume, chain: seq<nat>, i: nat, j: nat)
    requires v.Legal() && v.IsChain(chain) && i < j < |chain|
    ensures chain[i] != chain[j]
    decreases |chain| - j
  {
    hide Volume.Legal, Volume.IsChain, Volume.NextCluster, Volume.HasCluster;
    ChainNext(v, chain, i);
    ChainNext(v, chain, j);
    if j + 1 < |chain| {
      ChainHasNoCycle(v, chain, i + 1, j + 1);
    }
  }

  /** `content` has `part` at offset `at`. */
  ghost predicate HoldsAt(content: seq<Byte>, at: int, part: seq<Byte>) {
    0 <= at <= at + |part| <= |content| && content[at..at + |part|] == part
  }

  /** Where the k-th cluster of a chain begins in its content. */
  function ClusterStart(v: Volume, k: nat): nat {
    k * ClusterSize(v)
  }

  lemma NextStart(v: Volume, k: nat)
    ensures ClusterStart(v, 0) == 0 && ClusterStart(v, k + 1) == ClusterStart(v, k) + ClusterSize(v)
  {
    MulAdd(k, 1, ClusterSize(v));
  }

  lemma {:induction false} ContentAt(v: Volume, chain: seq<nat>, k: nat)
    requires v.Legal() && InRange(v, chain) && k <= |chain|
    ensures k < |chain| ==> HoldsAt(Content(v, chain), ClusterStart(v, k), ClusterBytes(v, chain[k]))
    ensures |Content(v, chain)| == ClusterStart(v, |chain|) && ClusterStart(v, k) <= |Content(v, chain)|
    decreases |chain|
  {
    hide Volume.Legal, ClusterOffset, Volume.HasCluster, ClusterSize, ClusterStart, ClusterBytes, HoldsAt;
    NextStart(v, 0);
    if chain != [] {
      var head, rest := ClusterBytes(v, chain[0]), chain[1..];
      assert InRange(v, rest);
      ClusterBytesSize(v, chain[0]);
      NextStart(v, |rest|);
      if k == 0 {
        ContentAt(v, rest, 0);
        HoldsFirst(head, Content(v, rest));
      } else {
        ContentAt(v, rest, k - 1);
        NextStart(v, k - 1);
        if k < |chain| {
          HoldsLater(head, Content(v, rest), ClusterStart(v, k - 1), ClusterBytes(v, chain[k]));
        }
      }
    }
  }

  lemma HoldsFirst(head: seq<Byte>, rest: seq<Byte>)
    ensures HoldsAt(head + rest, 0, head)
  {
  }

  lemma HoldsLater(head: seq<Byte>, rest: seq<Byte>, at: int, part: seq<Byte>)
    requires HoldsAt(rest, at, part)
    ensures HoldsAt(head + rest, |head| + at, part)
  {
    AfterHead(head, rest, at, at + |part|);
  }

  lemma ClusterBytesSize(v: Volume, cluster: nat)
    requires v.Legal() && v.HasCluster(cluster)
    ensures |ClusterBytes(v, cluster)| == ClusterSize(v)
  {
    ClusterInVolume(v, cluster);
  }

  predicate OnDrive(v: Volume, sector: nat) {
    sector * DISK_SECTOR_SIZE + DISK_SECTOR_SIZE <= |v.disk|
  }

  /** One sector of the drive. */
  function ReadDrive(v: Volume, sector: nat): (bytes: seq<Byte>)
    requires OnDrive(v, sector)
    ensures |bytes| == DISK_SECTOR_SIZE
  {
    v.disk[sector * DISK_SECTOR_SIZE..sector * DISK_SECTOR_SIZE + DISK_SECTOR_SIZE]
  }

  /** How far the content has been read at drive sector `j` of sector `i` of the k-th cluster. */
  function Place(v: Volume, k: nat, i: nat, j: nat): nat {
    k * ClusterSize(v) + i * v.bpb.bytsPerSec + j * DISK_SECTOR_SIZE
  }

  lemma PlaceCarries(v: Volume, k: nat, i: nat, j: nat)
    requires v.Legal()
    ensures Place(v, k, i, j + 1) == Place(v, k, i, j) + DISK_SECTOR_SIZE
    ensures Place(v, k, i, v.Ratio()) == Place(v, k, i + 1, 0)
    ensures Place(v, k, v.bpb.secPerClus, 0) == Place(v, k + 1, 0, 0)
  {
    MulAdd(i, 1, v.bpb.bytsPerSec);
    MulAdd(k, 1, ClusterSize(v));
  }

  /** The drive sector read at step `i`, `j` of the k-th cluster continues the content there. */
  lemma SectorContinues(v: Volume, chain: seq<nat>, k: nat, i: nat, j: nat)
    requires v.Legal() && InRange(v, chain) && k < |chain| && i < v.bpb.secPerClus && j < v.Ratio()
    ensures chain[k] >= 2 && OnDrive(v, v.DriveSector(v.SectorOf(chain[k], i), j))
    ensures Place(v, k, i, j) + DISK_SECTOR_SIZE <= |Content(v, chain)|
    ensures Content(v, chain)[Place(v, k, i, j)..Place(v, k, i, j) + DISK_SECTOR_SIZE]
            == ReadDrive(v, v.DriveSector(v.SectorOf(chain[k], i), j))
  {
    hide Content, ClusterSize, Volume.Legal, Volume.SectorOf, Volume.DriveSector, Volume.Ratio, Volume.MaxCluster, ClusterOffset;
    var size, offset := ClusterSize(v), ClusterOffset(v, chain[k]);
    ContentAt(v, chain, k);
    MulAdd(k, 1, size);
    DriveSectorPlace(v, chain[k], i, j);
    ClusterInVolume(v, chain[k]);
    var within := i * v.bpb.bytsPerSec + j * DISK_SECTOR_SIZE;
    ClusterBytesSize(v, chain[k]);
    SubSlice(Content(v, chain), k * size, k * size + size, within, DISK_SECTOR_SIZE);
    SubSlice(v.disk, offset, offset + size, within, DISK_SECTOR_SIZE);
  }

  /** `read_file` along a whole chain: ends with exactly the bytes of the file, and after the first drive sector loads another
      only while bytes are missing. */
  method ReadFile(v: Volume, first: nat, size: Option<nat>, ghost entries: seq<nat>, ghost chain: seq<nat>)
    returns (data: seq<Byte>, ghost loaded: nat)
    requires v.Legal() && IsTable(v, entries) && IsList(v, entries, chain) && chain[0] == first
    ensures InRange(v, chain) && data == FileBytes(Content(v, chain), size)
    ensures |data| == if size.Some? then size.value else |Content(v, chain)|
    ensures forall i :: 0 <= i < |data| ==> data[i] == if i < |Content(v, chain)| then Content(v, chain)[i] else 0
    ensures size.Some? ==> loaded <= 1 || (loaded - 1) * DISK_SECTOR_SIZE < size.value
  {
    hide Content, ClusterSize, Volume.Legal, Volume.IsChain, Volume.NextCluster, Volume.HasCluster, InRange, Volume.Ratio;
    hide Volume.SectorOf, Volume.DriveSector, Place, ReadDrive, OnDrive, IsTable, IsList;
    ListIsChain(v, entries, chain);
    ChainInRange(v, chain);
    ghost var whole, k := Content(v, chain), 0;
    ChainStarts(v, chain);
    data, loaded := [], 0;
    var next := Some(first);
    label walk:
    while next.Some?
      invariant k <= |chain| && next == if k < |chain| then Some(chain[k]) else None
      invariant Place(v, k, 0, 0) <= |whole| && data == whole[..Place(v, k, 0, 0)]
      invariant |data| == loaded * DISK_SECTOR_SIZE && (loaded > 0 && size.Some? ==> |data| < size.value)
      decreases |chain| - k
    {
      var cluster := next.value;
      ChainNext(v, chain, k);
      var after := v.NextCluster(cluster);
      assert !after.Unimplemented?;
      next := if after.Follow? then Some(after.cluster) else None;
      for i := 0 to v.bpb.secPerClus
        invariant Place(v, k, i, 0) <= |whole| && data == whole[..Place(v, k, i, 0)]
        invariant |data| == loaded * DISK_SECTOR_SIZE && (loaded > 0 && size.Some? ==> |data| < size.value)
      {
        for j := 0 to v.Ratio()
          invariant Place(v, k, i, j) <= |whole| && data == whole[..Place(v, k, i, j)]
          invariant |data| == loaded * DISK_SECTOR_SIZE && (loaded > 0 && size.Some? ==> |data| < size.value)
        {
          SectorContinues(v, chain, k, i, j);
          PlaceCarries(v, k, i, j);
          data := data + ReadDrive(v, v.DriveSector(v.SectorOf(cluster, i), j));
          loaded := loaded + 1;
          if size.Some? && |data| >= size.value {
            break walk;
          }
        }
        PlaceCarries(v, k, i, 0);
      }
      PlaceCarries(v, k, 0, 0);
      k := k + 1;
    }
    ChainEnds(v, chain);
    if size.Some? {
      data := if |data| >= size.value then data[..size.value] else data + seq(size.value - |data|, _ => 0);
    }
  }

  lemma ChainStarts(v: Volume, chain: seq<nat>)
    ensures Place(v, 0, 0, 0) == 0
  {
  }

  lemma ChainEnds(v: Volume, chain: seq<nat>)
    requires v.Legal() && InRange(v, chain)
    ensures Place(v, |chain|, 0, 0) == |Content(v, chain)|
  {
    ContentAt(v, chain, |chain|);
  }
}
