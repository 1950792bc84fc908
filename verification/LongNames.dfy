/** Long file names, as the FAT specification spreads them over directory entries. */
module LongNames {
  import opened Arithmetic
  import opened Bytes
  import opened Options
  import opened Sequences

  type CodeUnit = u: nat | u < 0x1_0000

  const ENTRY_UNITS: nat := 13
  const MAX_ENTRIES: nat := 20
  const MAX_NAME: nat := 255
  const LAST_LONG_ENTRY: nat := 0x40
  const ATTR_LONG_NAME: nat := 0x0F
  const SPACE: CodeUnit := 0x20
  const PERIOD: CodeUnit := 0x2E
  const PLUS: CodeUnit := 0x2B
  const PADDING: CodeUnit := 0xFFFF

  datatype Long = Long(ord: Byte, name1: seq<CodeUnit>, attr: Byte, chksum: Byte, name2: seq<CodeUnit>, name3: seq<CodeUnit>)
  {
    predicate Shaped() { |name1| == 5 && |name2| == 6 && |name3| == 2 }

    function Units(): seq<CodeUnit> { name1 + name2 + name3 }
  }

  // ---- Characters ----

  predicate IsValidShortChar(u: nat) {
    || 0x41 <= u <= 0x5A || 0x30 <= u <= 0x39 || u >= 128
    || u in {0x24, 0x25, 0x27, 0x2D, 0x5F, 0x40, 0x7E, 0x60, 0x21, 0x28, 0x29, 0x7B, 0x7D, 0x5E, 0x23, 0x26, 0x20}
  }

  predicate IsValidLongChar(u: CodeUnit) {
    || u >= 128 || IsValidShortChar(u) || 0x61 <= u <= 0x7A
    || u in {0x2E, 0x2C, 0x3B, 0x3D, 0x5B, 0x5D}
  }

  /** Surrogates come in pairs, the high one first. */
  predicate IsUtf16(s: seq<CodeUnit>)
    decreases |s|
  {
    if s == [] then true
    else if 0xD800 <= s[0] < 0xDC00 then |s| >= 2 && 0xDC00 <= s[1] < 0xE000 && IsUtf16(s[2..])
    else !(0xDC00 <= s[0] < 0xE000) && IsUtf16(s[1..])
  }

  /** The characters the specification allows. The reader's own list lacks the plus sign. */
  predicate IsLegalChar(u: CodeUnit) { IsValidLongChar(u) || u == PLUS }

  /** The names that a long name may be, by the specification. */
  predicate IsLegalName(name: seq<CodeUnit>) {
    && 0 < |name| <= MAX_NAME && (forall u <- name :: IsLegalChar(u)) && IsUtf16(name)
    && name[0] != SPACE && name[|name| - 1] != SPACE && name[|name| - 1] != PERIOD
  }

  /** The characters of short names, and those that long names may have besides. */
  lemma CharactersAre(u: CodeUnit)
    ensures IsValidShortChar(u) <==> u >= 128 || var c := u as char; 'A' <= c <= 'Z' || '0' <= c <= '9' || c in "$%'-_@~`!(){}^#& "
    ensures IsLegalChar(u) <==> IsValidShortChar(u) || (u < 128 && var c := u as char; 'a' <= c <= 'z' || c in ".+,;=[]")
  {
  }

  type Scalar = c: nat | c < 0xD800 || 0xE000 <= c < 0x11_0000

  /** UTF-16: a character beyond the first 0x10000 takes two code units. */
  function EncodeUtf16(s: seq<Scalar>): seq<CodeUnit> {
    if s == [] then [] else UnitsOf(s[0]) + EncodeUtf16(s[1..])
  }

  function UnitsOf(c: Scalar): seq<CodeUnit> {
    if c < 0x1_0000 then [c] else [0xD800 + (c - 0x1_0000) / 0x400, 0xDC00 + (c - 0x1_0000) % 0x400]
  }

  /** Exactly the encoded strings have their surrogates in pairs. */
  lemma Utf16Iff(s: seq<CodeUnit>)
    ensures IsUtf16(s) <==> exists text :: EncodeUtf16(text) == s
  {
    if IsUtf16(s) { var text := DecodeUtf16(s); }
    if text :| EncodeUtf16(text) == s { EncodedIsUtf16(text); }
  }

  lemma {:induction false} DecodeUtf16(s: seq<CodeUnit>) returns (text: seq<Scalar>)
    requires IsUtf16(s)
    ensures EncodeUtf16(text) == s
    decreases |s|
  {
    if s == [] {
      text := [];
    } else {
      var n := if 0xD800 <= s[0] < 0xDC00 then 2 else 1;
      var high: nat, low: nat := s[0], if n == 1 then 0 else s[1];
      var c: Scalar := if n == 1 then high else 0x1_0000 + (high - 0xD800) * 0x400 + (low - 0xDC00);
      var rest := DecodeUtf16(s[n..]);
      text := [c] + rest;
      assert UnitsOf(c) == s[..n];
      assert text[1..] == rest;
    }
  }

  lemma {:induction false} EncodedIsUtf16(text: seq<Scalar>)
    ensures IsUtf16(EncodeUtf16(text))
    decreases |text|
  {
    if text != [] {
      var first, rest := UnitsOf(text[0]), EncodeUtf16(text[1..]);
      EncodedIsUtf16(text[1..]);
      assert (first + rest)[|first|..] == rest;
    }
  }

  // ---- Checksum of the short name ----

  function Rotated(sum: Byte): Byte {
    var s: nat := sum;
    (if s % 2 != 0 then 0x80 else 0) + s / 2
  }

  predicate AreBits(b: seq<nat>) { |b| == 8 && forall i :: 0 <= i < 8 ==> b[i] < 2 }

  /** The byte with these bits, the lowest first. */
  function ByteOf(b: seq<nat>): Byte
    requires AreBits(b)
  {
    b[0] + 2 * b[1] + 4 * b[2] + 8 * b[3] + 16 * b[4] + 32 * b[5] + 64 * b[6] + 128 * b[7]
  }

  /** Every bit moves one place down, and the lowest to the top. */
  lemma RotatesRight(b: seq<nat>)
    requires AreBits(b)
    ensures AreBits(b[1..] + [b[0]]) && Rotated(ByteOf(b)) == ByteOf(b[1..] + [b[0]])
  {
    var half := b[1] + 2 * b[2] + 4 * b[3] + 8 * b[4] + 16 * b[5] + 32 * b[6] + 64 * b[7];
    DivModUnique(ByteOf(b), half, b[0], 2);
  }

  function ChecksumStep(sum: Byte, byte: Byte): Byte {
    var s: nat, b: nat := Rotated(sum), byte;
    (s + b) % 0x100
  }

  function Checksum(name: seq<Byte>): Byte {
    if name == [] then 0 else ChecksumStep(Checksum(name[..|name| - 1]), name[|name| - 1])
  }

  /** Every byte is made of bits. */
  lemma EveryByteHasBits(byte: Byte) returns (b: seq<nat>)
    ensures AreBits(b) && ByteOf(b) == byte
  {
    var q1, b0 := Quotient(byte, 2);
    var q2, b1 := Quotient(q1, 2);
    var q3, b2 := Quotient(q2, 2);
    var q4, b3 := Quotient(q3, 2);
    var q5, b4 := Quotient(q4, 2);
    var q6, b5 := Quotient(q5, 2);
    var b7, b6 := Quotient(q6, 2);
    b := [b0, b1, b2, b3, b4, b5, b6, b7];
  }

  /** Every byte of the short name is added to the rotated sum. */
  lemma ChecksumGrows(name: seq<Byte>, byte: Byte) returns (b: seq<nat>)
    ensures Checksum([]) == 0
    ensures AreBits(b) && Checksum(name) == ByteOf(b) && AreBits(b[1..] + [b[0]])
    ensures Checksum(name + [byte]) as int == (ByteOf(b[1..] + [b[0]]) as int + byte as int) % 0x100
  {
    b := EveryByteHasBits(Checksum(name));
    RotatesRight(b);
    assert (name + [byte])[..|name|] == name;
  }

  method ComputeChecksum(name: array<Byte>) returns (sum: Byte)
    ensures sum == Checksum(name[..])
  {
    sum := 0;
    for i := 0 to name.Length
      invariant sum == Checksum(name[..i])
    {
      sum := ChecksumStep(sum, name[i]);
      assert name[..i + 1][..i] == name[..i];
    }
    assert name[..name.Length] == name[..];
  }

  lemma ChecksumStepInjective(s: Byte, t: Byte, b: Byte, c: Byte)
    ensures ChecksumStep(s, b) == ChecksumStep(t, b) ==> s == t
    ensures ChecksumStep(s, b) == ChecksumStep(s, c) ==> b == c
  {
    hide Rotated;
    SumInjective(Rotated(s), Rotated(t), b);
    SumInjective(b, c, Rotated(s));
    RotatedInjective(s, t);
  }

  lemma RotatedInjective(s: Byte, t: Byte)
    ensures Rotated(s) == Rotated(t) ==> s == t
  {
  }

  lemma SumInjective(x: nat, y: nat, b: nat)
    requires x < 0x100 && y < 0x100
    ensures (x + b) % 0x100 == (y + b) % 0x100 ==> x == y
  {
    if (x + b) % 0x100 == (y + b) % 0x100 {
      var p, q := (x + b) / 0x100, (y + b) / 0x100;
      assert x - y == (p - q) * 0x100;
    }
  }

  /** Changing one byte of a short name always changes its checksum. */
  lemma {:induction false} ChecksumSeesOneChange(name: seq<Byte>, i: nat, byte: Byte)
    requires i < |name| && byte != name[i]
    ensures Checksum(name[i := byte]) != Checksum(name)
    decreases |name|
  {
    var n := |name| - 1;
    if i == n {
      assert name[i := byte][..n] == name[..n];
      ChecksumStepInjective(Checksum(name[..n]), 0, byte, name[n]);
    } else {
      ChecksumSeesOneChange(name[..n], i, byte);
      assert name[i := byte][..n] == name[..n][i := byte];
      ChecksumStepInjective(Checksum(name[..n][i := byte]), Checksum(name[..n]), name[n], 0);
    }
  }

  // ---- Writing a name, as the specification says ----

  /** Filled up to whole entries: one terminator, then padding. A name that fills its entries has no terminator. */
  function Padded(name: seq<CodeUnit>): seq<CodeUnit> {
    if |name| % ENTRY_UNITS == 0 then name
    else name + [0] + seq(ENTRY_UNITS - 1 - |name| % ENTRY_UNITS, _ => PADDING)
  }

  /** The ordinal of part `i` of `count`, of which the last is marked. */
  function Ord(i: nat, count: nat): Byte
    requires i < MAX_ENTRIES
  {
    if i + 1 == count then i + 1 + LAST_LONG_ENTRY else i + 1
  }

  function EncodePart(part: seq<CodeUnit>, i: nat, count: nat, checksum: Byte): Long
    requires |part| == ENTRY_UNITS && i < MAX_ENTRIES
  {
    Long(Ord(i, count), part[..5], ATTR_LONG_NAME, checksum, part[5..11], part[11..])
  }

  /** The entries in the order they have on disk, the last part of the name first. */
  function EncodeParts(padded: seq<CodeUnit>, checksum: Byte): (longs: seq<Long>)
    requires |padded| % ENTRY_UNITS == 0 && |padded| <= ENTRY_UNITS * MAX_ENTRIES
    ensures |longs| * ENTRY_UNITS == |padded| && |longs| <= MAX_ENTRIES
  {
    var n := |padded| / ENTRY_UNITS;
    seq(n, j requires 0 <= j < n => EncodePart(padded[(n - 1 - j) * 13..(n - 1 - j) * 13 + 13], n - 1 - j, n, checksum))
  }

  function Encode(name: seq<CodeUnit>, checksum: Byte): (longs: seq<Long>)
    requires |name| <= MAX_NAME
    ensures |longs| * ENTRY_UNITS == |Padded(name)| && |longs| <= MAX_ENTRIES
  {
    EncodeParts(Padded(name), checksum)
  }

  // ---- Reading a name ----

  /** The number of entries, from the first of them on disk. `None` for a short entry; the source panics where `Some(None)`. */
  function TryAsFirstLong(long: Long): Option<Option<nat>> {
    if long.attr % 64 != ATTR_LONG_NAME then None
    else if long.ord / LAST_LONG_ENTRY % 2 == 0 then Some(None)
    else
      var count := long.ord - LAST_LONG_ENTRY;
      if 1 <= count <= MAX_ENTRIES then Some(Some(count)) else Some(None)
  }

  /** The parts of the name in their order. */
  function Assembled(longs: seq<Long>): seq<CodeUnit> {
    if longs == [] then [] else longs[|longs| - 1].Units() + Assembled(longs[..|longs| - 1])
  }

  predicate EntryMatches(longs: seq<Long>, i: nat, checksum: Byte)
    requires i < |longs| <= MAX_ENTRIES
  {
    var long := longs[|longs| - 1 - i];
    long.ord == Ord(i, |longs|) && long.chksum == checksum
  }

  ghost predicate Matches(longs: seq<Long>, checksum: Byte)
    requires |longs| <= MAX_ENTRIES
  {
    forall i: nat :: i < |longs| ==> EntryMatches(longs, i, checksum)
  }

  function StripLeading(name: seq<CodeUnit>): seq<CodeUnit> {
    if name != [] && name[0] == SPACE then StripLeading(name[1..]) else name
  }

  function StripTrailing(name: seq<CodeUnit>): seq<CodeUnit> {
    if name != [] && (name[|name| - 1] == SPACE || name[|name| - 1] == PERIOD) then StripTrailing(name[..|name| - 1]) else name
  }

  /** Where the first terminator is, or the length. */
  function TerminatorAt(name: seq<CodeUnit>): (i: nat)
    ensures i <= |name| && (forall j :: 0 <= j < i ==> name[j] != 0) && (i < |name| ==> name[i] == 0)
  {
    if name == [] || name[0] == 0 then 0 else 1 + TerminatorAt(name[1..])
  }

  /** `None` where an assertion of the source fails. */
  ghost function Postprocessed(name: seq<CodeUnit>): Option<seq<CodeUnit>> {
    var stripped := StripLeading(name);
    var end := TerminatorAt(stripped);
    if exists j :: end < j < |stripped| && stripped[j] != PADDING then None else
    var result := StripTrailing(stripped[..end]);
    if (forall u <- result :: IsValidLongChar(u)) && |result| <= MAX_NAME && IsUtf16(result) then Some(result) else None
  }

  ghost function Decode(longs: seq<Long>, checksum: Byte): Option<seq<CodeUnit>>
    requires |longs| <= MAX_ENTRIES
  {
    if Matches(longs, checksum) then Postprocessed(Assembled(longs)) else None
  }

  // ---- A name comes back ----

  lemma EncodeAt(name: seq<CodeUnit>, checksum: Byte, i: nat)
    requires |name| <= MAX_NAME && i < |Encode(name, checksum)|
    ensures var longs := Encode(name, checksum);
            && i * 13 + 13 <= |Padded(name)|
            && longs[|longs| - 1 - i] == EncodePart(Padded(name)[i * 13..i * 13 + 13], i, |longs|, checksum)
  {
    hide Padded;
  }

  ghost predicate PartAt(longs: seq<Long>, name: seq<CodeUnit>, i: nat) {
    i < |longs| && i * 13 + 13 <= |name| && longs[|longs| - 1 - i].Units() == name[i * 13..i * 13 + 13]
  }

  lemma PartMoves(longs: seq<Long>, name: seq<CodeUnit>, i: nat)
    requires longs != [] && PartAt(longs, name, i + 1)
    ensures |name| >= 13 && PartAt(longs[..|longs| - 1], name[13..], i)
  {
    hide Long.Units;
    SubSlice(name, 13, |name|, i * 13, 13);
  }

  lemma {:induction false} AssembledParts(longs: seq<Long>, name: seq<CodeUnit>)
    requires |name| == |longs| * 13 && forall i: nat :: i < |longs| ==> PartAt(longs, name, i)
    ensures Assembled(longs) == name
    decreases |longs|
  {
    hide Long.Units;
    if longs != [] {
      hide Assembled;
      var rest := longs[..|longs| - 1];
      forall i: nat | i < |rest| ensures PartAt(rest, name[13..], i) {
        assert PartAt(longs, name, i + 1);
        PartMoves(longs, name, i);
      }
      AssembledParts(rest, name[13..]);
      AssembledLast(longs);
      assert PartAt(longs, name, 0) && name[0 * 13..0 * 13 + 13] == name[..13];
      assert name == name[..13] + name[13..];
    }
  }

  lemma EncodedAssembles(name: seq<CodeUnit>, checksum: Byte)
    requires |name| <= MAX_NAME
    ensures Matches(Encode(name, checksum), checksum) && Assembled(Encode(name, checksum)) == Padded(name)
    ensures forall long <- Encode(name, checksum) :: long.Shaped()
  {
    hide Padded, Encode, Ord;
    var longs, padded := Encode(name, checksum), Padded(name);
    forall i: nat | i < |longs|
      ensures EntryMatches(longs, i, checksum) && longs[|longs| - 1 - i].Shaped() && PartAt(longs, padded, i)
    {
      EncodeAt(name, checksum, i);
      var part := padded[i * 13..i * 13 + 13];
      assert part == part[..5] + part[5..11] + part[11..];
    }
    AssembledParts(longs, padded);
    forall j | 0 <= j < |longs| ensures longs[j].Shaped() {
      var i: nat := |longs| - 1 - j;
      assert EntryMatches(longs, i, checksum);
    }
  }

  lemma PaddedComesBack(name: seq<CodeUnit>)
    requires IsLegalName(name)
    ensures Postprocessed(Padded(name)) == if PLUS in name then None else Some(name)
  {
    var padded := Padded(name);
    assert StripLeading(padded) == padded;
    var end := TerminatorAt(padded);
    forall j | 0 <= j < |name| ensures padded[j] != 0 {
      assert padded[j] == name[j] && name[j] in name;
    }
    assert |name| < |padded| ==> padded[|name|] == 0;
    assert padded[..end] == name;
    assert StripTrailing(name) == name;
    assert PLUS in name ==> !IsValidLongChar(PLUS);
  }

  /** A legal name, spread over its entries, is read back unchanged, whether or not it fills the last entry, exactly when
      it holds no plus sign; with one, reading fails. */
  lemma LongNameComesBackIff(name: seq<CodeUnit>, checksum: Byte)
    requires IsLegalName(name)
    ensures Decode(Encode(name, checksum), checksum) == if PLUS in name then None else Some(name)
  {
    hide Encode, Padded, Postprocessed, Matches, Assembled, IsLegalName;
    assert |name| <= MAX_NAME by { LegalLength(name); }
    EncodedAssembles(name, checksum);
    PaddedComesBack(name);
  }

  /** A legal name that is not read: "a+b". */
  lemma PlusIsNotRead(checksum: Byte)
    ensures IsLegalName([0x61, PLUS, 0x62]) && Decode(Encode([0x61, PLUS, 0x62], checksum), checksum) == None
  {
    var name: seq<CodeUnit> := [0x61, PLUS, 0x62];
    var tail: seq<CodeUnit> := [0x62];
    assert tail[1..] == [] && IsUtf16(tail);
    assert name[1..][1..] == tail && IsUtf16(name[1..]);
    assert IsUtf16(name);
    LongNameComesBackIff(name, checksum);
  }

  lemma LegalLength(name: seq<CodeUnit>)
    requires IsLegalName(name)
    ensures 0 < |name| <= MAX_NAME
  {
  }

  /** Whatever is on disk, a name that is read has only legal characters, is no longer than allowed and does not end with
      a space or a period. */
  lemma ReadNameIsClean(longs: seq<Long>, checksum: Byte)
    requires |longs| <= MAX_ENTRIES && Decode(longs, checksum).Some?
    ensures var name := Decode(longs, checksum).value;
            && |name| <= MAX_NAME && (forall u <- name :: IsValidLongChar(u)) && IsUtf16(name)
            && (name != [] ==> name[|name| - 1] != SPACE && name[|name| - 1] != PERIOD)
            && (name != [] ==> name[0] != SPACE)
  {
    var stripped := StripLeading(Assembled(longs));
    var cut := stripped[..TerminatorAt(stripped)];
    StripLeadingStarts(Assembled(longs));
    StripTrailingEnds(cut);
  }

  lemma StripLeadingStarts(name: seq<CodeUnit>)
    ensures var r := StripLeading(name); r != [] ==> r[0] != SPACE
  {
  }

  lemma {:induction false} StripTrailingEnds(name: seq<CodeUnit>)
    ensures var r := StripTrailing(name);
            r <= name && (r != [] ==> r[|r| - 1] != SPACE && r[|r| - 1] != PERIOD)
  {
    if name != [] && (name[|name| - 1] == SPACE || name[|name| - 1] == PERIOD) {
      StripTrailingEnds(name[..|name| - 1]);
    }
  }

  ghost predicate AreIn(units: seq<CodeUnit>, allowed: set<CodeUnit>) {
    forall u <- units :: u in allowed
  }

  /** The units are `name` with spaces before it, spaces and periods after it, and then a terminator and padding. */
  ghost predicate IsWritten(units: seq<CodeUnit>, lead: seq<CodeUnit>, name: seq<CodeUnit>, tail: seq<CodeUnit>,
                            rest: seq<CodeUnit>) {
    && units == lead + name + tail + rest && AreIn(lead, {0x20}) && AreIn(tail, {0x20, 0x2E})
    && (rest != [] ==> rest[0] == 0 && AreIn(rest[1..], {0xFFFF}))
  }

  /** Nothing is left to strip, and the name passes the checks. */
  predicate IsClean(name: seq<CodeUnit>) {
    && (forall u <- name :: IsValidLongChar(u)) && |name| <= 255 && IsUtf16(name)
    && (name != [] ==> name[0] != 0x20 && name[|name| - 1] != 0x20 && name[|name| - 1] != 0x2E)
  }

  /** Reading takes exactly what is written so. */
  lemma PostprocessedIff(units: seq<CodeUnit>, name: seq<CodeUnit>)
    ensures Postprocessed(units) == Some(name) <==> IsClean(name) && exists lead, tail, rest :: IsWritten(units, lead, name, tail, rest)
  {
    if Postprocessed(units) == Some(name) {
      PostprocessedIsWritten(units, name);
    }
    if IsClean(name) {
      if lead, tail, rest :| IsWritten(units, lead, name, tail, rest) {
        WrittenIsRead(units, lead, name, tail, rest);
      }
    }
  }

  lemma PostprocessedIsWritten(units: seq<CodeUnit>, name: seq<CodeUnit>)
    requires Postprocessed(units) == Some(name)
    ensures IsClean(name) && exists lead, tail, rest :: IsWritten(units, lead, name, tail, rest)
  {
    hide IsUtf16, IsValidLongChar, StripLeading, StripTrailing;
    var stripped := StripLeading(units);
    StripLeadingStarts(units);
    var lead := LeadingSpaces(units);
    var end := TerminatorAt(stripped);
    StripTrailingEnds(stripped[..end]);
    var tail := TrailingPart(stripped[..end]);
    var rest := stripped[end..];
    assert units == lead + name + tail + rest;
    if rest != [] {
      forall u <- rest[1..] ensures u == 0xFFFF {
        var j :| 0 <= j < |rest[1..]| && rest[1..][j] == u;
        assert stripped[end + 1 + j] == u;
      }
    }
    assert IsWritten(units, lead, name, tail, rest);
  }

  lemma {:induction false} LeadingSpaces(name: seq<CodeUnit>) returns (lead: seq<CodeUnit>)
    ensures name == lead + StripLeading(name) && AreIn(lead, {0x20})
    decreases |name|
  {
    if name != [] && name[0] == SPACE {
      var rest := LeadingSpaces(name[1..]);
      lead := [SPACE] + rest;
    } else {
      lead := [];
    }
  }

  lemma {:induction false} TrailingPart(name: seq<CodeUnit>) returns (tail: seq<CodeUnit>)
    ensures name == StripTrailing(name) + tail && AreIn(tail, {0x20, 0x2E})
    decreases |name|
  {
    var n := |name| - 1;
    if name != [] && (name[n] == SPACE || name[n] == PERIOD) {
      var rest := TrailingPart(name[..n]);
      tail := rest + [name[n]];
    } else {
      tail := [];
    }
  }

  lemma WrittenIsRead(units: seq<CodeUnit>, lead: seq<CodeUnit>, name: seq<CodeUnit>, tail: seq<CodeUnit>, rest: seq<CodeUnit>)
    requires IsClean(name) && IsWritten(units, lead, name, tail, rest)
    ensures Postprocessed(units) == Some(name)
  {
    hide IsUtf16, IsValidLongChar, StripLeading, StripTrailing, TerminatorAt;
    // Without a name, the spaces that the tail starts with are stripped with the lead.
    var spaces, last := [], tail;
    if name == [] {
      spaces := LeadingSpaces(tail);
      last := StripLeading(tail);
      StripLeadingStarts(tail);
    }
    assert tail == spaces + last && AreIn(spaces, {0x20});
    assert AreIn(last, {0x20, 0x2E}) by { assert forall u <- last :: u in tail; }
    var body := name + last;
    assert units == (lead + spaces) + (body + rest);
    StripsSpaces(lead + spaces, body + rest);
    NoZeroInside(name, last);
    EndsAtRest(body, rest);
    assert (body + rest)[..|body|] == body;
    PaddingFollows(body, rest);
    StripsEnd(name, last);
  }

  lemma PaddingFollows(body: seq<CodeUnit>, rest: seq<CodeUnit>)
    requires rest != [] ==> AreIn(rest[1..], {0xFFFF})
    ensures forall j :: |body| < j < |body + rest| ==> (body + rest)[j] == PADDING
  {
    forall j | |body| < j < |body + rest| ensures (body + rest)[j] == PADDING {
      assert (body + rest)[j] == rest[1..][j - |body| - 1] && rest[1..][j - |body| - 1] in rest[1..];
    }
  }

  lemma {:induction false} StripsSpaces(lead: seq<CodeUnit>, name: seq<CodeUnit>)
    requires AreIn(lead, {0x20}) && (name != [] ==> name[0] != SPACE)
    ensures StripLeading(lead + name) == name
    decreases |lead|
  {
    if lead == [] {
      assert lead + name == name;
    } else {
      assert lead[0] in lead;
      StripsSpaces(lead[1..], name);
      assert (lead + name)[1..] == lead[1..] + name;
    }
  }

  lemma NoZeroInside(name: seq<CodeUnit>, tail: seq<CodeUnit>)
    requires AreIn(tail, {0x20, 0x2E}) && forall u <- name :: IsValidLongChar(u)
    ensures 0 !in name + tail
  {
  }

  lemma {:induction false} EndsAtRest(body: seq<CodeUnit>, rest: seq<CodeUnit>)
    requires 0 !in body && (rest != [] ==> rest[0] == 0)
    ensures TerminatorAt(body + rest) == |body|
    decreases |body|
  {
    if body == [] {
      assert body + rest == rest;
    } else {
      EndsAtRest(body[1..], rest);
      assert (body + rest)[1..] == body[1..] + rest;
    }
  }

  lemma {:induction false} StripsEnd(name: seq<CodeUnit>, tail: seq<CodeUnit>)
    requires AreIn(tail, {0x20, 0x2E}) && (name != [] ==> name[|name| - 1] != SPACE && name[|name| - 1] != PERIOD)
    ensures StripTrailing(name + tail) == name
    decreases |tail|
  {
    if tail == [] {
      assert name + tail == name;
    } else {
      var n := |tail| - 1;
      StripsEnd(name, tail[..n]);
      assert (name + tail)[..|name + tail| - 1] == name + tail[..n] && tail[n] in tail;
    }
  }

  /** The first entry on disk says how many there are. */
  lemma FirstEntryCounts(name: seq<CodeUnit>, checksum: Byte)
    requires 0 < |name| <= MAX_NAME
    ensures |Encode(name, checksum)| > 0
    ensures TryAsFirstLong(Encode(name, checksum)[0]) == Some(Some(|Encode(name, checksum)|))
  {
    hide Encode;
    assert |Padded(name)| > 0;
    EncodeAt(name, checksum, |Encode(name, checksum)| - 1);
  }

  // ---- The loops ----

  lemma {:induction false} AssembledCons(long: Long, rest: seq<Long>)
    ensures Assembled([long] + rest) == Assembled(rest) + long.Units()
    decreases |rest|
  {
    hide Long.Units;
    var all := [long] + rest;
    AssembledLast(all);
    if rest == [] {
      assert all[..0] == [];
    } else {
      hide Assembled;
      var init := rest[..|rest| - 1];
      AssembledCons(long, init);
      AssembledLast(rest);
      assert all[..|all| - 1] == [long] + init;
      Regroup(rest[|rest| - 1].Units(), Assembled(init), long.Units());
    }
  }

  lemma AssembledLast(longs: seq<Long>)
    requires longs != []
    ensures Assembled(longs) == longs[|longs| - 1].Units() + Assembled(longs[..|longs| - 1])
  {
  }

  lemma AssembledGrows(longs: seq<Long>, i: nat)
    requires i < |longs|
    ensures Assembled(longs[|longs| - (i + 1)..]) == Assembled(longs[|longs| - i..]) + longs[|longs| - 1 - i].Units()
  {
    AssembledCons(longs[|longs| - 1 - i], longs[|longs| - i..]);
    assert longs[|longs| - (i + 1)..] == [longs[|longs| - 1 - i]] + longs[|longs| - i..];
  }

  /** One entry into its 13 places. */
  method CopyLongChunk(long: Long, buffer: array<CodeUnit>, at: nat)
    requires long.Shaped() && at + ENTRY_UNITS <= buffer.Length
    modifies buffer
    ensures buffer[..] == old(buffer[..at]) + long.Units() + old(buffer[at + ENTRY_UNITS..])
  {
    var units := long.name1 + long.name2 + long.name3;
    assert |units| == ENTRY_UNITS && units == long.Units();
    hide Long.Units, Long.Shaped;
    for i := 0 to |units|
      invariant buffer[..at] == old(buffer[..at]) && buffer[at..at + i] == units[..i]
      invariant buffer[at + i..] == old(buffer[at + i..])
    {
      buffer[at + i] := units[i];
    }
    assert buffer[..] == buffer[..at] + buffer[at..at + ENTRY_UNITS] + buffer[at + ENTRY_UNITS..];
  }

  /** The entries count down to 1, the first of them marked, and all carry the checksum of the short name. */
  lemma MatchesIff(longs: seq<Long>, checksum: Byte)
    requires |longs| <= MAX_ENTRIES
    ensures Matches(longs, checksum) <==>
            forall j :: 0 <= j < |longs| ==>
              longs[j].chksum == checksum && longs[j].ord as int == |longs| - j + if j == 0 then 0x40 else 0
  {
    if Matches(longs, checksum) {
      forall j | 0 <= j < |longs|
        ensures longs[j].chksum == checksum && longs[j].ord as int == |longs| - j + if j == 0 then 0x40 else 0
      {
        assert EntryMatches(longs, |longs| - 1 - j, checksum);
      }
    }
  }

  /** All entries, last first, each checked for its ordinal and the checksum. Fails where the source asserts. */
  method CopyLong(longs: seq<Long>, checksum: Byte, buffer: array<CodeUnit>) returns (ok: bool)
    requires |longs| <= MAX_ENTRIES && buffer.Length == ENTRY_UNITS * MAX_ENTRIES && forall long <- longs :: long.Shaped()
    modifies buffer
    ensures ok <==> Matches(longs, checksum)
    ensures ok <==> forall j :: 0 <= j < |longs| ==>
                      longs[j].chksum == checksum && longs[j].ord as int == |longs| - j + if j == 0 then 0x40 else 0
    ensures ok ==> |Assembled(longs)| == |longs| * ENTRY_UNITS
    ensures ok ==> buffer[..] == Assembled(longs) + old(buffer[..])[|longs| * ENTRY_UNITS..]
  {
    hide Ord, Assembled, EntryMatches, Long.Units, Long.Shaped;
    AssembledSize(longs[|longs|..]);
    MatchesIff(longs, checksum);
    for i := 0 to |longs|
      invariant forall k: nat :: k < i ==> EntryMatches(longs, k, checksum)
      invariant |Assembled(longs[|longs| - i..])| == i * ENTRY_UNITS
      invariant buffer[..] == Assembled(longs[|longs| - i..]) + old(buffer[..])[i * ENTRY_UNITS..]
    {
      var long := longs[|longs| - 1 - i];
      if !EntryMatches(longs, i, checksum) {
        return false;
      }
      AssembledGrows(longs, i);
      CopyLongChunk(long, buffer, i * ENTRY_UNITS);
    }
    assert longs[|longs| - |longs|..] == longs;
    return true;
  }

  /** The loops over the assembled name. `None` where the source asserts. */
  method PostprocessLongName(units: seq<CodeUnit>) returns (result: Option<seq<CodeUnit>>)
    ensures result == Postprocessed(units)
  {
    hide IsUtf16, IsValidLongChar;
    var name := units;
    while name != [] && name[0] == SPACE
      invariant StripLeading(name) == StripLeading(units)
      decreases |name|
    {
      name := name[1..];
    }
    ghost var stripped := name;
    var i := 0;
    while i < |name| && name[i] != 0
      invariant i <= |name| && forall j :: 0 <= j < i ==> name[j] != 0
    {
      i := i + 1;
    }
    assert i == TerminatorAt(stripped);
    var k := i + 1;
    while k < |name|
      invariant i < k && forall j :: i < j < k && j < |name| ==> name[j] == PADDING
    {
      if name[k] != PADDING {
        return None;
      }
      k := k + 1;
    }
    name := name[..i];
    ghost var cut := name;
    while name != [] && (name[|name| - 1] == SPACE || name[|name| - 1] == PERIOD)
      invariant StripTrailing(name) == StripTrailing(cut)
      decreases |name|
    {
      name := name[..|name| - 1];
    }
    for j := 0 to |name|
      invariant forall m :: 0 <= m < j ==> IsValidLongChar(name[m])
    {
      if !IsValidLongChar(name[j]) {
        return None;
      }
    }
    if |name| > MAX_NAME || !IsUtf16(name) {
      return None;
    }
    return Some(name);
  }

  /** One long name, from its entries on disk. */
  method ReadLongName(longs: seq<Long>, shortName: array<Byte>) returns (name: Option<seq<CodeUnit>>)
    requires |longs| <= MAX_ENTRIES && forall long <- longs :: long.Shaped()
    ensures name == Decode(longs, Checksum(shortName[..]))
    ensures forall n :: name == Some(n) <==>
                        && IsClean(n)
                        && (forall j :: 0 <= j < |longs| ==>
                              && longs[j].chksum == Checksum(shortName[..])
                              && longs[j].ord as int == |longs| - j + if j == 0 then 0x40 else 0)
                        && exists lead, tail, rest :: IsWritten(Assembled(longs), lead, n, tail, rest)
  {
    hide Matches, Postprocessed, IsClean, IsWritten, Assembled, Checksum;
    MatchesIff(longs, Checksum(shortName[..]));
    forall n { PostprocessedIff(Assembled(longs), n); }
    var checksum := ComputeChecksum(shortName);
    var buffer := new CodeUnit[ENTRY_UNITS * MAX_ENTRIES](_ => 0);
    var ok := CopyLong(longs, checksum, buffer);
    if !ok {
      return None;
    }
    assert buffer[..|longs| * ENTRY_UNITS] == Assembled(longs);
    name := PostprocessLongName(buffer[..|longs| * ENTRY_UNITS]);
  }

  lemma {:induction false} AssembledSize(longs: seq<Long>)
    requires forall long <- longs :: long.Shaped()
    ensures |Assembled(longs)| == |longs| * ENTRY_UNITS
    decreases |longs|
  {
    if longs != [] {
      assert longs[|longs| - 1] in longs;
      AssembledSize(longs[..|longs| - 1]);
    }
  }
}
