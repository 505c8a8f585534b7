/** Decomposition of 32-bit virtual addresses and packing of 32-bit opcodes
    (smsa_driver.c). A virtual address holds the drum in bits 16..19, the block
    in bits 8..15 and the offset in bits 0..7; an opcode holds the command in
    bits 26..31, the drum in bits 22..25 and the block in bits 0..7. */
module Addressing {
  import opened Smsa

  /** The value `get_opcode` returns for an argument out of range: -1 as uint32. */
  const BadOpcode: bv32 := 0xFFFF_FFFF

  /** Commands of the opcode's command field. */
  const MountCmd: int := 0
  const UnmountCmd: int := 1
  const SeekDrumCmd: int := 2
  const SeekBlockCmd: int := 3
  const ReadBlockCmd: int := 4
  const WriteBlockCmd: int := 5

  /** An int in 0..255 as a 32-bit word, counted up from 0 (which keeps the
      solver away from int-to-bit-vector casts). */
  function Widen(x: int): (w: bv32)
    requires 0 <= x < 256
    ensures w < 256 && w as int == x
    decreases x
  {
    if x == 0 then 0 else Succ(Widen(x - 1))
  }

  function Succ(w: bv32): (r: bv32)
    requires w < 255
    ensures r < 256 && r as int == w as int + 1
  {
    w + 1
  }

  /** A 32-bit word below 256 as an int. */
  function Narrow(y: bv32): (x: int)
    requires y < 256
    ensures 0 <= x < 256
  {
    y as int
  }

  /** Narrowing a widened value gives it back. */
  lemma NarrowWiden(x: int)
    requires 0 <= x < 256
    ensures Narrow(Widen(x)) == x
  {
  }

  /** Widening a narrowed word gives it back. */
  lemma WidenNarrow(y: bv32)
    requires y < 256
    ensures Widen(Narrow(y)) == y
  {
    var w := Widen(y as int);
    assert (w as int) as bv32 == w;
    assert (y as int) as bv32 == y;
  }

  /** `get_current_drum`: the address shifted right by 16, or -1 when that
      exceeds 15 (the `< 0` test of the source can never fire on an unsigned shift). */
  function CurrentDrum(addr: bv32): (d: int)
    ensures d == -1 <==> addr >= 0x10_0000
    ensures d != -1 ==> 0 <= d < DrumCount
  {
    var drum := addr >> 16;
    if drum > 15 then -1 else Narrow(drum)
  }

  /** `get_current_block`: bits 8..15; the range check can never fail. */
  function CurrentBlock(addr: bv32): (b: int)
    ensures 0 <= b < BlocksPerDrum
  {
    var block := (addr & 0xFF00) >> 8;
    if block > 255 then -1 else Narrow(block)
  }

  /** `get_current_offset`: bits 0..7; the range check can never fail. */
  function CurrentOffset(addr: bv32): (o: int)
    ensures 0 <= o < BlockSize
  {
    var offset := addr & 0xFF;
    if offset > 255 then -1 else Narrow(offset)
  }

  /** The virtual address `drum << 16 | block << 8 | offset`. */
  function ComposeAddress(drum: int, block: int, offset: int): (addr: bv32)
    requires InArray(drum, block) && 0 <= offset < BlockSize
    ensures addr < 0x10_0000
  {
    (Widen(drum) << 16) | (Widen(block) << 8) | Widen(offset)
  }

  lemma DrumBits(d: bv32, b: bv32, o: bv32)
    requires d < 16 && b < 256 && o < 256
    ensures ((d << 16) | (b << 8) | o) >> 16 == d
  {
  }

  lemma BlockBits(d: bv32, b: bv32, o: bv32)
    requires d < 16 && b < 256 && o < 256
    ensures (((d << 16) | (b << 8) | o) & 0xFF00) >> 8 == b
  {
  }

  lemma OffsetBits(d: bv32, b: bv32, o: bv32)
    requires d < 16 && b < 256 && o < 256
    ensures ((d << 16) | (b << 8) | o) & 0xFF == o
  {
  }

  lemma DrumOfAddress(drum: int, block: int, offset: int)
    requires InArray(drum, block) && 0 <= offset < BlockSize
    ensures CurrentDrum(ComposeAddress(drum, block, offset)) == drum
  {
    DrumBits(Widen(drum), Widen(block), Widen(offset));
    NarrowWiden(drum);
  }

  lemma BlockOfAddress(drum: int, block: int, offset: int)
    requires InArray(drum, block) && 0 <= offset < BlockSize
    ensures CurrentBlock(ComposeAddress(drum, block, offset)) == block
  {
    BlockBits(Widen(drum), Widen(block), Widen(offset));
    NarrowWiden(block);
  }

  lemma OffsetOfAddress(drum: int, block: int, offset: int)
    requires InArray(drum, block) && 0 <= offset < BlockSize
    ensures CurrentOffset(ComposeAddress(drum, block, offset)) == offset
  {
    OffsetBits(Widen(drum), Widen(block), Widen(offset));
    NarrowWiden(offset);
  }

  /** Decomposing a composed address gives its three fields back. */
  lemma AddressRoundTrip(drum: int, block: int, offset: int)
    requires InArray(drum, block) && 0 <= offset < BlockSize
    ensures CurrentDrum(ComposeAddress(drum, block, offset)) == drum
    ensures CurrentBlock(ComposeAddress(drum, block, offset)) == block
    ensures CurrentOffset(ComposeAddress(drum, block, offset)) == offset
  {
    DrumOfAddress(drum, block, offset);
    BlockOfAddress(drum, block, offset);
    OffsetOfAddress(drum, block, offset);
  }

  /** Every address the decomposition accepts is the composition of its fields. */
  lemma AddressDecomposes(addr: bv32)
    requires CurrentDrum(addr) != -1
    ensures ComposeAddress(CurrentDrum(addr), CurrentBlock(addr), CurrentOffset(addr)) == addr
  {
    WidenNarrow(addr >> 16);
    WidenNarrow((addr & 0xFF00) >> 8);
    WidenNarrow(addr & 0xFF);
  }

  /** `get_opcode`: packs `command << 26 | drum << 22 | block`, checking each
      argument in turn and yielding -1 (as uint32) on the first one out of range. */
  function GetOpcode(command: int, drum: int, block: int): (op: bv32)
    ensures !(0 <= command <= 9 && InArray(drum, block)) <==> op == BadOpcode
  {
    if command > 9 || command < 0 then BadOpcode
    else
      var c := Widen(command) << 26;
      if drum < 0 || drum > 15 then BadOpcode
      else
        var c' := c | (Widen(drum) << 22);
        if block < 0 || block > 255 then BadOpcode
        else c' | Widen(block)
  }

  /** The command field of an opcode (bits 26..31). */
  function Command(op: bv32): int {
    Narrow(op >> 26)
  }

  /** The drum field of an opcode (bits 22..25). */
  function OpDrum(op: bv32): int {
    Narrow((op >> 22) & 0xF)
  }

  /** The block field of an opcode (bits 0..7). */
  function OpBlock(op: bv32): int {
    Narrow(op & 0xFF)
  }

  lemma CommandField(c: bv32, d: bv32, b: bv32)
    requires c < 10 && d < 16 && b < 256
    ensures ((c << 26) | (d << 22) | b) >> 26 == c
  {
  }

  lemma DrumField(c: bv32, d: bv32, b: bv32)
    requires c < 10 && d < 16 && b < 256
    ensures (((c << 26) | (d << 22) | b) >> 22) & 0xF == d
  {
  }

  lemma BlockField(c: bv32, d: bv32, b: bv32)
    requires c < 10 && d < 16 && b < 256
    ensures ((c << 26) | (d << 22) | b) & 0xFF == b
  {
  }

  lemma CommandOf(command: int, drum: int, block: int)
    requires 0 <= command <= 9 && InArray(drum, block)
    ensures Command(GetOpcode(command, drum, block)) == command
  {
    CommandField(Widen(command), Widen(drum), Widen(block));
    NarrowWiden(command);
  }

  lemma DrumOf(command: int, drum: int, block: int)
    requires 0 <= command <= 9 && InArray(drum, block)
    ensures OpDrum(GetOpcode(command, drum, block)) == drum
  {
    DrumField(Widen(command), Widen(drum), Widen(block));
    NarrowWiden(drum);
  }

  lemma BlockOf(command: int, drum: int, block: int)
    requires 0 <= command <= 9 && InArray(drum, block)
    ensures OpBlock(GetOpcode(command, drum, block)) == block
  {
    BlockField(Widen(command), Widen(drum), Widen(block));
    NarrowWiden(block);
  }

  /** For arguments in range, the three fields can be read back from the opcode. */
  lemma OpcodeRoundTrip(command: int, drum: int, block: int)
    requires 0 <= command <= 9 && InArray(drum, block)
    ensures Command(GetOpcode(command, drum, block)) == command
    ensures OpDrum(GetOpcode(command, drum, block)) == drum
    ensures OpBlock(GetOpcode(command, drum, block)) == block
  {
    CommandOf(command, drum, block);
    DrumOf(command, drum, block);
    BlockOf(command, drum, block);
  }

  lemma UnusedField(c: bv32, d: bv32, b: bv32)
    requires c < 10 && d < 16 && b < 256
    ensures ((c << 26) | (d << 22) | b) & 0x003F_FF00 == 0
  {
  }

  /** Bits 8..21 of an in-range opcode are zero: together with the three
      field readers this fixes every bit of the word. */
  lemma OpcodeUnusedBits(command: int, drum: int, block: int)
    requires 0 <= command <= 9 && InArray(drum, block)
    ensures GetOpcode(command, drum, block) & 0x003F_FF00 == 0
  {
    UnusedField(Widen(command), Widen(drum), Widen(block));
  }

  /** Distinct in-range argument triples give distinct opcodes. */
  lemma OpcodeInjective(c1: int, d1: int, b1: int, c2: int, d2: int, b2: int)
    requires 0 <= c1 <= 9 && InArray(d1, b1)
    requires 0 <= c2 <= 9 && InArray(d2, b2)
    requires GetOpcode(c1, d1, b1) == GetOpcode(c2, d2, b2)
    ensures c1 == c2 && d1 == d2 && b1 == b2
  {
    OpcodeRoundTrip(c1, d1, b1);
    OpcodeRoundTrip(c2, d2, b2);
  }
}
