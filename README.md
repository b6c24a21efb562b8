# Early-boot x86 kernel core: text console, GDT encoder, memset

A Dafny model of the three sequential components at the bottom of a small
x86 kernel, with proofs of their properties:

- **Text console** (`vga.c`, module `Vga`). The driver's globals `line`,
  `column` and `currentColor`, and the memory-mapped 80x25 buffer of
  16-bit cells, are the fields of class `Console`. Its methods update the buffer in
  place: `Reset`, `ScrollUp`, `PutTab` and `Print` hold the source's loops,
  and `NewLine` and `PutChar` its straight-line code. `NewLine`, `PutChar`, `PutTab` and `Print` are proved
  against functions on `Screen` values (`AfterNewLine`, `AfterWrite`,
  `AfterPrint`). `ScrollUp` is proved against `Scrolled`, a function on the
  cell sequence. `Reset`'s ensures give the cleared grid directly. The lemmas about
  those functions cover the in-bounds invariant (`line < height`,
  `column <= width`), tab stops, scrolling, carriage return, the cell
  encoding `char | color`, plain text laid out across line wraps, and
  `print` over a concatenation.
- **GDT descriptor encoder** (`gdt.c` and `gdt.h`, modules `Gdt` and
  `GdtLayout`). The packed records `gdt_entry_struct` and
  `gdt_ptr_struct` are datatypes. Their 8-byte and 6-byte little-endian
  images have parsers, and round trips are proved in both directions.
  `Descriptor` is the entry `setGdtGate` produces. Its contract says that
  reading the entry back, as section 3.4.5 "Segment Descriptors" of the
  Intel SDM Volume 3A lays it out, gives the base, the 20-bit limit, the
  access byte and the flags nibble. Class `GdtTable` holds `gdt_entries[5]`
  and `gdt_ptr`. Its methods `SetGdtGate` and `InitGdt` write them field by
  field, as the source does.
- **memset** (`util.c`, module `Util`). A count-down loop over an
  `array<bv8>`, proved against `Filled`. The lemmas cover idempotence and
  the empty count.

Characters and bytes are `bv8`, cells `bv16`, GDT fields `bv8`/`bv16`/`bv32`.
So the widths of characters, cells and GDT fields are explicit, and their
shifts and masks mean what they mean in C. The console's `uint16_t`
counters are naturals, as "## Left out" says, and memset's `uint32_t` count
is the integer type `uint32`, bounded to the same range.

## Model

| member | source | states |
|---|---|---|
| `Util.Filled` | util.c:18-21 | positions `lo..hi-1` hold the fill value, every other position keeps its old value, and the length is unchanged |
| `Util.FilledEmpty` | util.c:18 | a fill of zero bytes leaves memory unchanged |
| `Util.FilledIdempotent` | util.c:13-21 | filling the same region twice with the same value is the same as filling it once |
| `Util.FilledExtend` | util.c:20 | writing the fill value just past the filled prefix extends the prefix by one (the loop's step) |
| `Util.Memset` | util.c:13-21 | given `count <= dest.Length`, the final contents are `Filled(old, 0, count, val)`: the first `count` bytes are `val` and no other byte changes. The body writes them in increasing address order, as the source's loop does |
| `GdtLayout.EntryBytes` | gdt.h:5-14 | a descriptor's image is exactly 8 bytes: limit little-endian at 0-1, base_low at 2-3, base_middle at 4, access at 5, flags at 6, base_high at 7 |
| `GdtLayout.ParseEntry` | gdt.h:5-14 | every 8-byte image is the image of the descriptor read from it (parse then serialise is the identity) |
| `GdtLayout.ParseEntryBytes` | gdt.h:5-14 | serialise then parse is the identity on descriptors |
| `GdtLayout.PtrBytes` | gdt.h:17-20 | the pointer's image is exactly 6 bytes: limit little-endian at 0-1, base little-endian at 2-5 |
| `GdtLayout.ParsePtr` | gdt.h:17-20 | every 6-byte image is the image of the pointer read from it |
| `GdtLayout.ParsePtrBytes` | gdt.h:17-20 | serialise then parse is the identity on pointers |
| `GdtLayout.TableBytes` | gdt.c:8 | an array of packed descriptors occupies exactly 8 bytes per entry |
| `GdtLayout.TableBytesAt` | gdt.c:8 | entry `k` occupies bytes `8k` to `8k+7` of the table's image |
| `GdtLayout.Bytes16OfLe16` | gdt.h:8 | two bytes read little-endian and written back give the same two bytes |
| `GdtLayout.Bytes32OfLe32` | gdt.h:19 | four bytes read little-endian and written back give the same four bytes |
| `Gdt.Descriptor` | gdt.c:39-55 | the entry's base fields recombine to `base`, its limit fields to `limit & 0xFFFFF`, its flags' high nibble is `gran & 0xF0`, its access byte is `access`, and its limit field is `limit & 0xFFFF`, so the two nibbles of `flags` do not interfere |
| `Gdt.DescriptorOfFields` | gdt.c:41-54 | every descriptor is what `setGdtGate` makes of its own decoded base, limit, access and flags (the encoding is onto) |
| `Gdt.KernelCodeDescriptor` | gdt.c:21 | `setGdtGate(1, 0, 0xFFFFFFFF, 0x9A, 0xCF)` gives limit `0xFFFF`, base fields 0, access `0x9A`, flags `0xCF`, and the bytes `FF FF 00 00 00 9A CF 00` |
| `Gdt.StandardTable` | gdt.c:20-32 | the table has 5 entries. Entry 0 is all zero. Entries 1-4 have base 0, limit field `0xFFFF`, flags `0xCF` (20-bit limit `0xFFFFF`) and access bytes `0x9A`, `0x92`, `0xFA`, `0xF2`. Its image is 40 bytes |
| `Gdt.GdtTable.constructor` | gdt.c:7-10 | the statically allocated table and pointer start out zeroed, and no load has happened |
| `Gdt.GdtTable.SetGdtGate` | gdt.c:39-55 | given `num < 5`, slot `num` becomes `Descriptor(base, limit, access, gran)`. Only that slot changes: no other slot, not `gdt_ptr`, nothing else |
| `Gdt.GdtTable.InitGdt` | gdt.c:13-36 | ends with `gdt_ptr == (39, table address)`, where 39 is the table's byte size minus one. The entries equal `StandardTable()`. `gdt_flush` is called once, with that pointer, and at that moment the table in memory is already the full standard table |
| `Vga.MakeColor` | vga.c:13 | `(fg << 8) OR (bg << 12)` for two nibbles leaves the character byte free and gives back both nibbles |
| `Vga.Cell` | vga.c:120 | for an ASCII character the low byte of the bitwise OR of `c` and `color` is `c` and the high byte is the colour. For a code of 0x80 or more (sign extension) the high byte is `0xFF` |
| `Vga.Scrolled` | vga.c:55-74 | new cell `k` is old cell `k + width` for every cell above the last row (row `y` moves to row `y-1`), and the last row is blank in the current colour |
| `Vga.AfterNewLine` | vga.c:38-52 | the in-bounds invariant is kept, the column becomes 0 and the colour is unchanged |
| `Vga.Wrap` | vga.c:95-98 | after the end-of-line wrap the column is strictly less than `width` and the invariant holds |
| `Vga.TabStop` | vga.c:101 | the column after a tab is a multiple of 4, strictly greater than the old column and at most 4 more. It is therefore the least multiple of 4 above the old column, a full 4 from column 0, and never past `width` |
| `Vga.AfterWrite` | vga.c:83-122 | every character keeps `line < height` and `column <= width`, so every cell written lies inside the grid. The colour is unchanged |
| `Vga.AfterPrint` | vga.c:80-124 | any sequence of characters keeps the in-bounds invariant and the colour |
| `Vga.StrLen` | vga.c:80 | the loop stops at the first NUL, and no earlier byte is NUL |
| `Vga.NewLineEffect` | vga.c:38-52 | newLine leaves column 0. Below the last line it moves down one line and leaves the grid alone. On the last line it stays there and scrolls the grid |
| `Vga.CarriageReturnEffect` | vga.c:89-91 | `'\r'` sets the column to 0 and keeps the line, the colour and the grid |
| `Vga.PrintableEffect` | vga.c:112-121 | an ordinary character first wraps with newLine when `column == width`. It then writes `c` OR `color` at `line*width+column` and moves the column on by one. No other cell changes beyond the wrap's |
| `Vga.TabEffect` | vga.c:93-110 | a tab wraps first when `column == width`. It then moves to the next tab stop (4 from column 0) and blanks exactly the cells it passes on the current row. The wrap is a newLine when `column == width` and nothing otherwise |
| `Vga.AfterPrintAppend` | vga.c:80-124 | printing `s1 + s2` is printing `s1` and then `s2` |
| `Vga.PlainTextEffect` | vga.c:112-121 | text with no control characters that fits on the line is laid out at the cursor. The cursor moves by its length, and no cell outside that span changes |
| `Vga.WrappedTextEffect` | vga.c:112-121 | text with no control characters that ends inside the grid is laid out at consecutive cells from the cursor, wrapping to the next line at the end of each line. The cursor's cell index advances by its length, and no cell outside that span changes |
| `Vga.TabScenario` | vga.c:80-124 | `"ab\tc"` from column 0 puts `a` at 0, `b` at 1, blanks at 2-3 and `c` at 4, and leaves the cursor at column 5 of the same line |
| `Vga.Console.constructor` | vga.c:4-16 | the driver starts at (0, 0) with `currentColor == defaultColor` over the given buffer |
| `Vga.Console.Reset` | vga.c:19-35 | cursor at (0, 0), `currentColor == defaultColor`, and all `width*height` cells are `' '` OR `defaultColor` |
| `Vga.Console.NewLine` | vga.c:38-52 | the new state is `AfterNewLine` of the old one |
| `Vga.Console.ScrollUp` | vga.c:55-74 | the buffer becomes `Scrolled(old buffer, currentColor)`. The cursor and the colour are unchanged |
| `Vga.Console.PutChar` | vga.c:83-122 | one pass through print's switch takes the state to `AfterWrite(old state, c)` |
| `Vga.Console.PutTab` | vga.c:93-110 | the tab case, including its `while (tabLen != 0)` loop, takes the state to `AfterWrite(old state, '\t')` |
| `Vga.Console.Print` | vga.c:77-125 | for a NUL-terminated string, the new state is `AfterPrint` of the old one over the bytes before the NUL |

## Left out

- The boot sequence in kernel.c, which only calls `Reset`, `print` and `initGdt`, is not modelled.
- `gdt_flush` is external assembly (`lgdt`). It is modelled only as an event
  appended to `GdtTable.loads`. The event carries the value of `gdt_ptr` at the call (the source passes its address, `&gdt_ptr`)
  and the table contents at the moment of the call.
- The Task State Segment, `tss_flush` and a sixth table entry are not in
  gdt.c/gdt.h, which describe a five-entry table. The model follows that code.
- Physical addresses are abstract. The buffer at 0xB8000 is the array
  `Console.vga`. The address of `gdt_entries` is the abstract `bv32`
  `GdtTable.address`.
- vga.h, which defines `width`, `height` and the `COLOR8_*` palette, is not
  part of this model. The model fixes 80x25, the standard text mode, and the
  proofs use `width % 4 == 0`. The two palette nibbles that make up
  `defaultColor` are parameters of the `Console` constructor.
- The hardware meaning of the access and flags bits (rings, granularity,
  code/data types) is out of scope: the model covers the encoding, not CPU
  behaviour.
- `line` and `column` are `uint16_t` in the source. They are unbounded
  naturals here, because the in-bounds invariant keeps `line < 25` and
  `column <= 80`, so 16-bit wrap-around cannot happen.
- Vga.Console.PutChar, Vga.Console.PutTab: the body of print's `switch` is a
  method of its own, and its tab case a method of its own. The source writes
  them inline in `print`'s loop. The two are split out to keep each proof
  small. The statements and their order are the source's.
- Vga.Console.constructor: the grid's contents before the first `Reset` are
  whatever the given buffer holds.
- Util.Memset: `dest` is modelled as an array starting at offset 0. Writing
  through a pointer into the middle of a larger object, or one with too few
  bytes (undefined behaviour in C), is not modelled.
- Vga.Cell, Vga.Promote: `char` is taken as signed, as in the i386 ABI. With
  an unsigned `char`, a code of 0x80 or more would keep the colour in the
  high byte instead of `0xFF`.
- Vga.WrappedTextEffect: text that runs past the last cell, and so scrolls,
  is not stated by one lemma. It follows by splitting the text with
  `AfterPrintAppend` and applying `NewLineEffect` at the scroll.
- `tabLen` in print's tab case is a `uint16_t` in the source and a natural
  here; it never exceeds 4.
