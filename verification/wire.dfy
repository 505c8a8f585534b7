/** The SMSA wire frame shared by both client files: an 8-byte header holding
    the total length (bytes 0..1), the opcode (bytes 2..5) and the return code
    (bytes 6..7), each in network (big-endian) byte order, optionally followed
    by a 256-byte block. */
module Wire {
  import opened Smsa

  const HeaderSize: nat := 8
  const FrameWithBlock: nat := HeaderSize + BlockSize

  /** A decoded header; the fields keep the source's widths (uint16, uint32, int16). */
  datatype Header = Header(len: bv16, op: bv32, ret: bv16)

  /** Two bytes, most significant first, as a 16-bit word (`ntohs`). */
  function FromBe16(hi: bv8, lo: bv8): bv16 {
    (hi as bv16 << 8) | lo as bv16
  }

  /** Four bytes, most significant first, as a 32-bit word (`ntohl`). */
  function FromBe32(b0: bv8, b1: bv8, b2: bv8, b3: bv8): bv32 {
    (b0 as bv32 << 24) | (b1 as bv32 << 16) | (b2 as bv32 << 8) | b3 as bv32
  }

  /** A 16-bit word in network byte order (`htons` then copy). */
  function Be16(v: bv16): (r: seq<bv8>)
    ensures |r| == 2 && FromBe16(r[0], r[1]) == v
  {
    [(v >> 8) as bv8, (v & 0xFF) as bv8]
  }

  /** A 32-bit word in network byte order (`htonl` then copy). */
  function Be32(v: bv32): (r: seq<bv8>)
    ensures |r| == 4 && FromBe32(r[0], r[1], r[2], r[3]) == v
  {
    [(v >> 24) as bv8, ((v >> 16) & 0xFF) as bv8, ((v >> 8) & 0xFF) as bv8, (v & 0xFF) as bv8]
  }

  /** Every two bytes are the network form of the word they decode to. */
  lemma Be16OfFromBe16(hi: bv8, lo: bv8)
    ensures Be16(FromBe16(hi, lo)) == [hi, lo]
  {
  }

  /** Every four bytes are the network form of the word they decode to. */
  lemma Be32OfFromBe32(b0: bv8, b1: bv8, b2: bv8, b3: bv8)
    ensures Be32(FromBe32(b0, b1, b2, b3)) == [b0, b1, b2, b3]
  {
  }

  /** The eight header bytes as `send_packet` lays them out. */
  function EncodeHeader(h: Header): (r: seq<bv8>)
    ensures |r| == HeaderSize
    ensures FromBe16(r[0], r[1]) == h.len && FromBe32(r[2], r[3], r[4], r[5]) == h.op && FromBe16(r[6], r[7]) == h.ret
  {
    Be16(h.len) + Be32(h.op) + Be16(h.ret)
  }

  /** The header fields `receive_packet` reads from the first eight bytes received. */
  function DecodeHeader(s: seq<bv8>): (h: Header)
    requires |s| >= HeaderSize
  {
    Header(FromBe16(s[0], s[1]), FromBe32(s[2], s[3], s[4], s[5]), FromBe16(s[6], s[7]))
  }

  /** Decoding an encoded header gives the header back. */
  lemma DecodeEncodeHeader(h: Header)
    ensures DecodeHeader(EncodeHeader(h)) == h
  {
  }

  /** Encoding a decoded header gives the eight bytes back. */
  lemma EncodeDecodeHeader(s: seq<bv8>)
    requires |s| == HeaderSize
    ensures EncodeHeader(DecodeHeader(s)) == s
  {
    Be16OfFromBe16(s[0], s[1]);
    Be32OfFromBe32(s[2], s[3], s[4], s[5]);
    Be16OfFromBe16(s[6], s[7]);
    assert s == [s[0], s[1]] + [s[2], s[3], s[4], s[5]] + [s[6], s[7]];
  }

  /** The request frame of `send_packet`: length 8, or 264 when a block goes
      with it; the opcode; return code 0; then the block, if any. */
  function Frame(op: bv32, block: Option<BlockData>): (r: seq<bv8>)
    ensures |r| == if block.Some? then FrameWithBlock else HeaderSize
    ensures DecodeHeader(r) == Header(if block.Some? then 264 else 8, op, 0)
    ensures block.Some? ==> r[HeaderSize..] == block.value
  {
    var len: bv16 := if block.Some? then 264 else 8;
    var hdr := EncodeHeader(Header(len, op, 0));
    if block.Some? then hdr + block.value else hdr
  }

  /** A 16-bit word read as an unsigned number. */
  function Unsigned16(v: bv16): (n: nat)
    ensures n < 0x1_0000
  {
    v as int
  }

  /** A 16-bit word read as a two's-complement `int16_t`. */
  function Signed16(v: bv16): (n: int)
    ensures -0x8000 <= n < 0x8000
    ensures n >= 0 <==> v < 0x8000
    ensures v == 0 ==> n == 0
    ensures n == -1 <==> v == 0xFFFF
  {
    var u := Unsigned16(v);
    if u >= 0x8000 then u - 0x1_0000 else u
  }

  /** The length field of a frame names the frame's own length. */
  lemma FrameLength(op: bv32, block: Option<BlockData>)
    ensures Unsigned16(DecodeHeader(Frame(op, block)).len) == |Frame(op, block)|
  {
  }
}
