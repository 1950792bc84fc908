/** Page table entries as the 64-bit words that the hardware reads. */
module PageEntries {
  const PAGE_V: bv64 := 0x1
  const PAGE_R: bv64 := 0x2
  const PAGE_W: bv64 := 0x4
  const PAGE_X: bv64 := 0x8
  const PAGE_U: bv64 := 0x10

  /** Does not include the V flag. */
  datatype PageFlags = PageFlags(bits: bv64) {
    function User(): PageFlags { PageFlags(bits | PAGE_U) }

    predicate IsWritable() { bits & PAGE_W != 0 }
  }

  function Readonly(): PageFlags { PageFlags(PAGE_R) }

  function ReadWrite(): PageFlags { PageFlags(PAGE_R | PAGE_W) }

  function Executable(): PageFlags { PageFlags(PAGE_R | PAGE_X) }

  function ReadWriteExecute(): PageFlags { PageFlags(PAGE_R | PAGE_W | PAGE_X) }

  datatype Unpacked = Invalid | Indirect(table: bv64) | Leaf(flags: PageFlags, phys: bv64)

  // Division and multiplication by the page size are written as shifts by 12.

  function PackInvalid(): bv64 { 0 }

  function PackIndirect(table: bv64): bv64 { ((table >> 12) << 10) | PAGE_V }

  function PackLeaf(phys: bv64, flags: PageFlags): bv64 { ((phys >> 12) << 10) | PAGE_V | flags.bits }

  predicate IsValid(entry: bv64) { entry & PAGE_V != 0 }

  predicate IsIndirect(entry: bv64) { IsValid(entry) && entry & (PAGE_R | PAGE_W | PAGE_X) == 0 }

  function PhysicalPagePointer(entry: bv64): bv64 { (entry >> 10) << 12 }

  function Unpack(entry: bv64): Unpacked {
    if !IsValid(entry) then Invalid
    else if IsIndirect(entry) then Indirect(PhysicalPagePointer(entry))
    else Leaf(PageFlags(entry & 0xFE), PhysicalPagePointer(entry))
  }

  /** Flags that fit beside the V bit and make an entry a leaf. */
  predicate MakesLeaf(flags: PageFlags) {
    flags.bits & 0xFE == flags.bits && flags.bits & (PAGE_R | PAGE_W | PAGE_X) != 0
  }

  /** Page-aligned addresses of at most 56 bits, the widest that an entry can hold. */
  predicate IsPageAddress(phys: bv64) { phys & 0xFF00_0000_0000_0FFF == 0 }

  lemma LeafRoundTrip(phys: bv64, flags: PageFlags)
    requires IsPageAddress(phys) && MakesLeaf(flags)
    ensures Unpack(PackLeaf(phys, flags)) == Leaf(flags, phys)
    ensures PackLeaf(phys, flags) >> 54 == 0
  {
    PageNumberFits(phys, PAGE_V | flags.bits);
    LowBits(phys, flags.bits);
  }

  lemma LowBits(phys: bv64, bits: bv64)
    requires bits & 0xFE == bits
    ensures (((phys >> 12) << 10) | PAGE_V | bits) & 0xFE == bits
    ensures (((phys >> 12) << 10) | PAGE_V | bits) & PAGE_V != 0
    ensures (((phys >> 12) << 10) | PAGE_V | bits) & (PAGE_R | PAGE_W | PAGE_X) == bits & (PAGE_R | PAGE_W | PAGE_X)
  {
  }

  lemma IndirectRoundTrip(table: bv64)
    requires IsPageAddress(table)
    ensures Unpack(PackIndirect(table)) == Indirect(table) && Unpack(PackInvalid()) == Invalid
    ensures PackIndirect(table) >> 54 == 0
  {
    PageNumberFits(table, PAGE_V);
  }

  lemma PageNumberFits(phys: bv64, low: bv64)
    requires IsPageAddress(phys) && low & 0xFF == low
    ensures ((((phys >> 12) << 10) | low) >> 10) << 12 == phys
    ensures (((phys >> 12) << 10) | low) >> 54 == 0
  {
  }

  /** The bits that the hardware gives each permission, by section 12.3.1 of the RISC-V Privileged Architecture: read, write and
      execute follow the lowest bit, then user access. */
  lemma KernelFlagBits()
    ensures Readonly().bits == 0x02 && Readonly().User().bits == 0x12
    ensures ReadWrite().bits == 0x06 && ReadWrite().User().bits == 0x16
    ensures Executable().bits == 0x0A && Executable().User().bits == 0x1A
    ensures ReadWriteExecute().bits == 0x0E && ReadWriteExecute().User().bits == 0x1E
  {
  }

  /** Bit 0 makes an entry valid. */
  lemma FlagsOfLeaf(phys: bv64, flags: PageFlags)
    requires MakesLeaf(flags)
    ensures PackLeaf(phys, flags) & 0x3FF == flags.bits | 1
  {
    var page := phys >> 12;
    assert ((page << 10) | PAGE_V | flags.bits) & 0x3FF == flags.bits | 1;
  }

  /** The number of the page starts at bit 10. */
  lemma PageOfLeaf(phys: bv64, flags: PageFlags)
    requires IsPageAddress(phys) && MakesLeaf(flags)
    ensures PackLeaf(phys, flags) >> 10 == phys >> 12
  {
    LeafRoundTrip(phys, flags);
  }

  /** Every combination of flags that the kernel builds makes a leaf, and user access changes nothing else. */
  lemma KernelFlagsMakeLeaves(flags: PageFlags)
    requires flags in {Readonly(), ReadWrite(), Executable(), ReadWriteExecute()}
    ensures MakesLeaf(flags) && MakesLeaf(flags.User())
    ensures flags.User().IsWritable() <==> flags.IsWritable()
  {
  }
}
