/** Model of gdt.h: the packed records of the Global Descriptor Table, their
    byte images (x86 is little-endian, and `__attribute__((packed))` removes
    all padding) and the meaning of their fields as laid down in section
    3.4.5 "Segment Descriptors" of the Intel SDM, Volume 3A. */
module GdtLayout {

  /** sizeof(struct gdt_entry_struct) */
  const EntrySize: nat := 8
  /** sizeof(struct gdt_ptr_struct) */
  const PtrSize: nat := 6

  /** struct gdt_entry_struct; each field's type bounds its range. */
  datatype GdtEntry = GdtEntry(
    limit: bv16,      // bits 0-15 of the segment limit
    baseLow: bv16,    // bits 0-15 of the base address
    baseMiddle: bv8,  // bits 16-23 of the base address
    access: bv8,      // access byte
    flags: bv8,       // low nibble: bits 16-19 of the limit; high nibble: flags
    baseHigh: bv8)    // bits 24-31 of the base address

  /** struct gdt_ptr_struct, the operand of LGDT. */
  datatype GdtPtr = GdtPtr(limit: bv16, base: bv32)

  const NullEntry := GdtEntry(0, 0, 0, 0, 0, 0)

  /** The 32-bit base address a descriptor describes. */
  function BaseOf(e: GdtEntry): bv32 {
    (e.baseHigh as bv32 << 24) | (e.baseMiddle as bv32 << 16) | e.baseLow as bv32
  }

  /** The 20-bit segment limit a descriptor describes. */
  function LimitOf(e: GdtEntry): bv32 {
    ((e.flags & 0x0F) as bv32 << 16) | e.limit as bv32
  }

  /** The granularity/size flags nibble of a descriptor. */
  function GranularityOf(e: GdtEntry): bv8 {
    e.flags & 0xF0
  }

  /** A 16-bit value read from two bytes, least significant first. */
  function Le16(b0: bv8, b1: bv8): bv16 {
    (b1 as bv16 << 8) | b0 as bv16
  }

  /** A 32-bit value read from four bytes, least significant first. */
  function Le32(b0: bv8, b1: bv8, b2: bv8, b3: bv8): bv32 {
    (b3 as bv32 << 24) | (b2 as bv32 << 16) | (b1 as bv32 << 8) | b0 as bv32
  }

  function Bytes16(x: bv16): (r: seq<bv8>)
    ensures |r| == 2 && Le16(r[0], r[1]) == x
  {
    [(x & 0xFF) as bv8, (x >> 8) as bv8]
  }

  function Bytes32(x: bv32): (r: seq<bv8>)
    ensures |r| == 4 && Le32(r[0], r[1], r[2], r[3]) == x
  {
    [(x & 0xFF) as bv8, ((x >> 8) & 0xFF) as bv8, ((x >> 16) & 0xFF) as bv8, (x >> 24) as bv8]
  }

  lemma Bytes16OfLe16(b0: bv8, b1: bv8)
    ensures Bytes16(Le16(b0, b1)) == [b0, b1]
  {
  }

  lemma Bytes32OfLe32(b0: bv8, b1: bv8, b2: bv8, b3: bv8)
    ensures Bytes32(Le32(b0, b1, b2, b3)) == [b0, b1, b2, b3]
  {
  }

  /** The memory image of one descriptor: limit at bytes 0-1, base_low at
      2-3, base_middle at 4, access at 5, flags at 6, base_high at 7. */
  function EntryBytes(e: GdtEntry): (r: seq<bv8>)
    ensures |r| == EntrySize
    ensures Le16(r[0], r[1]) == e.limit && Le16(r[2], r[3]) == e.baseLow
    ensures r[4] == e.baseMiddle && r[5] == e.access
    ensures r[6] == e.flags && r[7] == e.baseHigh
  {
    Bytes16(e.limit) + Bytes16(e.baseLow) + [e.baseMiddle, e.access, e.flags, e.baseHigh]
  }

  /** Reads a descriptor back from its memory image; every 8-byte image is
      the image of exactly the descriptor read from it. */
  function ParseEntry(b: seq<bv8>): (e: GdtEntry)
    requires |b| == EntrySize
    ensures EntryBytes(e) == b
  {
    var e := GdtEntry(Le16(b[0], b[1]), Le16(b[2], b[3]), b[4], b[5], b[6], b[7]);
    Bytes16OfLe16(b[0], b[1]);
    Bytes16OfLe16(b[2], b[3]);
    assert b == [b[0], b[1]] + [b[2], b[3]] + [b[4], b[5], b[6], b[7]];
    e
  }

  lemma ParseEntryBytes(e: GdtEntry)
    ensures ParseEntry(EntryBytes(e)) == e
  {
  }

  /** The memory image of the pointer: limit at bytes 0-1, base at 2-5. */
  function PtrBytes(p: GdtPtr): (r: seq<bv8>)
    ensures |r| == PtrSize
    ensures Le16(r[0], r[1]) == p.limit && Le32(r[2], r[3], r[4], r[5]) == p.base
  {
    Bytes16(p.limit) + Bytes32(p.base)
  }

  function ParsePtr(b: seq<bv8>): (p: GdtPtr)
    requires |b| == PtrSize
    ensures PtrBytes(p) == b
  {
    var p := GdtPtr(Le16(b[0], b[1]), Le32(b[2], b[3], b[4], b[5]));
    Bytes16OfLe16(b[0], b[1]);
    Bytes32OfLe32(b[2], b[3], b[4], b[5]);
    assert b == [b[0], b[1]] + [b[2], b[3], b[4], b[5]];
    p
  }

  lemma ParsePtrBytes(p: GdtPtr)
    ensures ParsePtr(PtrBytes(p)) == p
  {
  }

  /** The memory image of a table: the descriptors' images back to back. */
  function TableBytes(t: seq<GdtEntry>): (r: seq<bv8>)
    ensures |r| == EntrySize * |t|
  {
    if t == [] then [] else EntryBytes(t[0]) + TableBytes(t[1..])
  }

  /** Descriptor `k` occupies bytes 8*k up to 8*k+8 of the table's image. */
  lemma {:induction false} TableBytesAt(t: seq<GdtEntry>, k: nat)
    requires k < |t|
    ensures EntrySize * (k + 1) <= |TableBytes(t)|
    ensures TableBytes(t)[EntrySize * k .. EntrySize * (k + 1)] == EntryBytes(t[k])
  {
    if k > 0 {
      TableBytesAt(t[1..], k - 1);
      assert TableBytes(t) == EntryBytes(t[0]) + TableBytes(t[1..]);
    }
  }
}
