/** Model of gdt.c: the five-entry Global Descriptor Table, the pointer
    handed to LGDT, `setGdtGate` and `initGdt`. */
module Gdt {
  import opened GdtLayout

  /** Number of entries of `gdt_entries`. */
  const EntryCount: nat := 5

  /** The descriptor `setGdtGate(num, base, limit, access, gran)` leaves in
      slot `num`. Reading it back gives the full base, the limit truncated to
      20 bits and the high nibble of `gran`: the limit's high nibble and the
      flags nibble share one byte without disturbing each other. */
  function Descriptor(base: bv32, limit: bv32, access: bv8, gran: bv8): (e: GdtEntry)
    ensures BaseOf(e) == base
    ensures LimitOf(e) == limit & 0xF_FFFF
    ensures GranularityOf(e) == gran & 0xF0
    ensures e.access == access
    ensures e.limit as bv32 == limit & 0xFFFF
  {
    GdtEntry(
      limit := (limit & 0xFFFF) as bv16,
      baseLow := (base & 0xFFFF) as bv16,
      baseMiddle := ((base >> 16) & 0xFF) as bv8,
      access := access,
      flags := ((limit >> 16) & 0x0F) as bv8 | (gran & 0xF0),
      baseHigh := ((base >> 24) & 0xFF) as bv8)
  }

  /** Conversely, every descriptor is what `setGdtGate` makes of the base,
      limit, access byte and flags byte read from it. */
  lemma DescriptorOfFields(e: GdtEntry)
    ensures Descriptor(BaseOf(e), LimitOf(e), e.access, e.flags) == e
  {
  }

  /** The kernel code gate of `initGdt`, field by field. */
  lemma KernelCodeDescriptor()
    ensures Descriptor(0, 0xFFFF_FFFF, 0x9A, 0xCF) == GdtEntry(0xFFFF, 0, 0, 0x9A, 0xCF, 0)
    ensures EntryBytes(Descriptor(0, 0xFFFF_FFFF, 0x9A, 0xCF)) == [0xFF, 0xFF, 0, 0, 0, 0x9A, 0xCF, 0]
  {
  }

  /** The table `initGdt` builds: the null descriptor, then flat 4 GiB
      segments for kernel code, kernel data, user code and user data. */
  function StandardTable(): (t: seq<GdtEntry>)
    ensures |t| == EntryCount
    ensures t[0] == NullEntry
    ensures forall k :: 1 <= k < |t| ==>
      && t[k].limit == 0xFFFF && t[k].flags == 0xCF
      && t[k].baseLow == 0 && t[k].baseMiddle == 0 && t[k].baseHigh == 0
      && BaseOf(t[k]) == 0 && LimitOf(t[k]) == 0xF_FFFF
    ensures t[1].access == 0x9A && t[2].access == 0x92
    ensures t[3].access == 0xFA && t[4].access == 0xF2
    ensures |TableBytes(t)| == 40
  {
    [ Descriptor(0, 0, 0, 0),
      Descriptor(0, 0xFFFF_FFFF, 0x9A, 0xCF),
      Descriptor(0, 0xFFFF_FFFF, 0x92, 0xCF),
      Descriptor(0, 0xFFFF_FFFF, 0xFA, 0xCF),
      Descriptor(0, 0xFFFF_FFFF, 0xF2, 0xCF) ]
  }

  /** One call of the external `gdt_flush`: the pointer it was handed and the
      table contents in memory at that moment. */
  datatype LoadEvent = LoadEvent(ptr: GdtPtr, table: seq<GdtEntry>)

  /** The globals `gdt_entries` and `gdt_ptr`, at the abstract address
      `address` of `gdt_entries`. The external `gdt_flush` is recorded as an
      event: `loads` lists its calls, oldest first. */
  class GdtTable {
    const entries: array<GdtEntry>
    const address: bv32
    var ptr: GdtPtr
    var loads: seq<LoadEvent>

    ghost predicate Valid()
      reads this
    {
      entries.Length == EntryCount
    }

    /** Static storage starts out zeroed. */
    constructor (address: bv32)
      ensures Valid() && fresh(entries) && this.address == address
      ensures forall k :: 0 <= k < entries.Length ==> entries[k] == NullEntry
      ensures ptr == GdtPtr(0, 0) && loads == []
    {
      entries := new GdtEntry[EntryCount](_ => NullEntry);
      this.address := address;
      ptr := GdtPtr(0, 0);
      loads := [];
    }

    /** setGdtGate: fills slot `num` field by field (the flags byte in two
        steps, as the source does) and leaves every other slot, the pointer
        and the load record alone. */
    method SetGdtGate(num: bv32, base: bv32, limit: bv32, access: bv8, gran: bv8)
      requires Valid() && (num as int) < EntryCount
      modifies entries
      ensures entries[num] == Descriptor(base, limit, access, gran)
      ensures forall k :: 0 <= k < entries.Length && k != num as int ==> entries[k] == old(entries[k])
    {
      var n := num as int;
      entries[n] := entries[n].(limit := (limit & 0xFFFF) as bv16);
      entries[n] := entries[n].(baseLow := (base & 0xFFFF) as bv16);
      entries[n] := entries[n].(baseMiddle := ((base >> 16) & 0xFF) as bv8);
      entries[n] := entries[n].(baseHigh := ((base >> 24) & 0xFF) as bv8);
      entries[n] := entries[n].(flags := ((limit >> 16) & 0x0F) as bv8);
      entries[n] := entries[n].(flags := entries[n].flags | (gran & 0xF0));
      entries[n] := entries[n].(access := access);
    }

    /** initGdt: points `gdt_ptr` at the table (its size in bytes minus one),
        fills the five slots and hands the pointer to `gdt_flush`. */
    method InitGdt()
      requires Valid()
      modifies this, entries
      ensures Valid()
      ensures entries[..] == StandardTable()
      ensures ptr == GdtPtr(39, address)
      ensures ptr.limit as int == |TableBytes(entries[..])| - 1
      ensures loads == old(loads) + [LoadEvent(ptr, StandardTable())]
    {
      ptr := ptr.(limit := (EntrySize * EntryCount - 1) as bv16);
      ptr := ptr.(base := address);

      SetGdtGate(0, 0, 0, 0, 0);
      SetGdtGate(1, 0, 0xFFFF_FFFF, 0x9A, 0xCF);
      SetGdtGate(2, 0, 0xFFFF_FFFF, 0x92, 0xCF);
      SetGdtGate(3, 0, 0xFFFF_FFFF, 0xFA, 0xCF);
      SetGdtGate(4, 0, 0xFFFF_FFFF, 0xF2, 0xCF);
      assert entries[..] == StandardTable();

      loads := loads + [LoadEvent(ptr, entries[..])];  // gdt_flush(&gdt_ptr)
    }
  }
}
