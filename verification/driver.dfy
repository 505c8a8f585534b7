/** The virtual-address driver of smsa_driver.c: mount, unmount, and byte-range
    read and write over the 1 MiB space of 16 drums x 256 blocks x 256 bytes,
    going through the block cache. Inside read and write every remote call is
    taken to succeed (the source ignores their results): the remote array is a
    `Disk` value that the read-block and write-block opcodes address by their
    drum and block fields, and every request handed to the client is recorded. */
module Driver {
  import opened Smsa
  import opened Addressing
  import Cache
  import Client
  import Wire

  const ZeroBlock: BlockData := seq(256, _ => 0)

  /** The remote array: block `drum * 256 + block` of the sequence is that block. */
  type Disk = d: seq<BlockData> | |d| == TotalBlocks witness seq(4096, _ => ZeroBlock)

  /** Byte `a` of the flat 1 MiB space. */
  function Byte(disk: Disk, a: int): bv8
    requires 0 <= a < Capacity
  {
    disk[a / BlockSize][a % BlockSize]
  }

  lemma ByteInBlock(disk: Disk, i: int, j: int)
    requires 0 <= i < TotalBlocks && 0 <= j < BlockSize
    ensures 0 <= i * BlockSize + j < Capacity && Byte(disk, i * BlockSize + j) == disk[i][j]
  {
  }

  /** A command handed to `smsa_client_operation`, before packing: the client
      receives `Opcode(q)`. */
  datatype Request = Request(cmd: int, drum: int, block: int)

  function Opcode(q: Request): bv32 {
    GetOpcode(q.cmd, q.drum, q.block)
  }

  /** A request whose command, drum and block are all in range. */
  predicate Sendable(q: Request) {
    0 <= q.cmd <= 9 && InArray(q.drum, q.block)
  }

  /** A sendable request packs to an opcode other than `get_opcode`'s error
      value, and the opcode's fields give the request back. */
  lemma SendableOpcode(q: Request)
    requires Sendable(q)
    ensures Opcode(q) != BadOpcode
    ensures Command(Opcode(q)) == q.cmd && OpDrum(Opcode(q)) == q.drum && OpBlock(Opcode(q)) == q.block
  {
    OpcodeRoundTrip(q.cmd, q.drum, q.block);
  }

  /** `t` continues `t0` with sendable requests only. */
  predicate Extends(t0: seq<Request>, t: seq<Request>) {
    |t0| <= |t| && t[..|t0|] == t0 && forall i :: |t0| <= i < |t| ==> Sendable(t[i])
  }

  lemma ExtendsAppend(t: seq<Request>, ops: seq<Request>)
    requires forall i :: 0 <= i < |ops| ==> Sendable(ops[i])
    ensures Extends(t, t + ops)
  {
    assert (t + ops)[..|t|] == t;
  }

  lemma ExtendsTrans(t0: seq<Request>, t1: seq<Request>, t2: seq<Request>)
    requires Extends(t0, t1) && Extends(t1, t2)
    ensures Extends(t0, t2)
  {
    assert t2[..|t0|] == t2[..|t1|][..|t0|];
    forall i | |t0| <= i < |t2|
      ensures Sendable(t2[i])
    {
      if i < |t1| {
        assert t2[i] == t2[..|t1|][i];
      }
    }
  }

  /** A trace extension that starts with `t1` also extends `t1`. */
  lemma ExtendsThrough(t0: seq<Request>, t1: seq<Request>, t: seq<Request>)
    requires Extends(t0, t) && |t0| <= |t1| <= |t| && t[..|t1|] == t1
    ensures Extends(t1, t)
  {
  }

  /** The state the driver's globals and the remote server make up together:
      the client socket, the cache (None before mount and after unmount), the
      remote array, and the requests handed to `smsa_client_operation` so far. */
  datatype Session = Session(link: Client.Link, cache: Option<Cache.Cache>, disk: Disk, trace: seq<Request>)

  /** Every occupied cache line holds the current remote copy of its block. */
  predicate Coherent(slots: seq<Cache.Slot>, disk: Disk) {
    forall i :: 0 <= i < |slots| && slots[i].Full? ==>
      InArray(slots[i].drum, slots[i].block) && slots[i].line == disk[BlockIndex(slots[i].drum, slots[i].block)]
  }

  /** A non-empty, well-formed cache coherent with the array. */
  predicate CacheOk(c: Cache.Cache, disk: Disk) {
    |c.slots| > 0 && Cache.Wf(c.slots) && Coherent(c.slots, disk)
  }

  /** A mounted session whose cache is in order. */
  predicate Ready(s: Session) {
    s.cache.Some? && CacheOk(s.cache.value, s.disk)
  }

  /** The position in the flat space of byte `offset` of a block. */
  function Position(drum: int, block: int, offset: int): (a: nat)
    requires InArray(drum, block) && 0 <= offset < BlockSize
    ensures a < Capacity
  {
    BlockIndex(drum, block) * BlockSize + offset
  }

  /** The position in the flat space of the byte a decodable address names. */
  function Start(addr: bv32): (a: nat)
    requires CurrentDrum(addr) != -1
    ensures a < Capacity
  {
    Position(CurrentDrum(addr), CurrentBlock(addr), CurrentOffset(addr))
  }

  // ---------------------------------------------------------------------------
  // Cache steps shared by read and write

  lemma BlockIndexInjective(d1: int, b1: int, d2: int, b2: int)
    requires InArray(d1, b1) && InArray(d2, b2)
    ensures BlockIndex(d1, b1) == BlockIndex(d2, b2) <==> (d1 == d2 && b1 == b2)
  {
  }

  /** A lookup keeps coherence, and a hit returns the remote copy. */
  lemma LookupCoherent(c: Cache.Cache, disk: Disk, drum: int, block: int)
    requires Cache.Wf(c.slots) && Coherent(c.slots, disk) && InArray(drum, block)
    ensures var h := Cache.Lookup(c, drum, block);
            && Cache.Wf(h.cache.slots) && Coherent(h.cache.slots, disk)
            && |h.cache.slots| == |c.slots|
            && (h.line.Some? ==> h.line.value == disk[BlockIndex(drum, block)])
            && (h.line.None? ==> !Cache.Cached(h.cache.slots, drum, block))
  {
    var h := Cache.Lookup(c, drum, block);
    Cache.LookupKeepsWf(c, drum, block);
    forall i | 0 <= i < |h.cache.slots| && h.cache.slots[i].Full?
      ensures InArray(h.cache.slots[i].drum, h.cache.slots[i].block)
      ensures h.cache.slots[i].line == disk[BlockIndex(h.cache.slots[i].drum, h.cache.slots[i].block)]
    {
      assert Cache.SameEntry(c.slots[i], h.cache.slots[i]);
    }
  }

  /** Inserting the remote copy of an absent block keeps coherence. */
  lemma PutCoherent(c: Cache.Cache, disk: Disk, drum: int, block: int)
    requires Cache.Wf(c.slots) && Coherent(c.slots, disk) && |c.slots| > 0
    requires InArray(drum, block) && !Cache.Cached(c.slots, drum, block)
    ensures var r := Cache.Put(c, drum, block, disk[BlockIndex(drum, block)]);
            Cache.Wf(r.slots) && Coherent(r.slots, disk) && Cache.Cached(r.slots, drum, block)
            && |r.slots| == |c.slots|
  {
    Cache.PutKeepsWf(c, drum, block, disk[BlockIndex(drum, block)]);
  }

  /** Rewriting a cached block in the cache and on the array together keeps coherence. */
  lemma PatchCoherent(c: Cache.Cache, disk: Disk, drum: int, block: int, data: BlockData)
    requires Cache.Wf(c.slots) && Coherent(c.slots, disk)
    requires InArray(drum, block) && Cache.Cached(c.slots, drum, block)
    ensures var r := Cache.Patch(c, drum, block, data);
            Cache.Wf(r.slots) && Coherent(r.slots, disk[BlockIndex(drum, block) := data])
            && |r.slots| == |c.slots|
  {
    var r := Cache.Patch(c, drum, block, data);
    var disk' := disk[BlockIndex(drum, block) := data];
    Cache.PatchKeepsWf(c, drum, block, data);
    var i :| 0 <= i < |c.slots| && c.slots[i].Full? && Cache.Matches(c.slots[i], drum, block)
           && r.slots == c.slots[i := c.slots[i].(line := data)];
    forall j | 0 <= j < |r.slots| && r.slots[j].Full?
      ensures InArray(r.slots[j].drum, r.slots[j].block)
      ensures r.slots[j].line == disk'[BlockIndex(r.slots[j].drum, r.slots[j].block)]
    {
      if j != i {
        assert r.slots[j] == c.slots[j];
        BlockIndexInjective(drum, block, c.slots[j].drum, c.slots[j].block);
      }
    }
  }

  // ---------------------------------------------------------------------------
  // Reading

  /** What one block step of read or write leaves behind. */
  datatype Step = Step(cache: Cache.Cache, trace: seq<Request>, data: BlockData, missed: bool)

  /** The first block of `smsa_vread`: on a miss seek drum, seek block, read the
      block and cache it; on a hit only seek the drum. */
  function ReadFirst(c: Cache.Cache, disk: Disk, trace: seq<Request>, drum: int, block: int): (st: Step)
    requires CacheOk(c, disk) && InArray(drum, block)
    ensures CacheOk(st.cache, disk)
    ensures st.data == disk[BlockIndex(drum, block)]
    ensures Cache.Cached(st.cache.slots, drum, block) && |st.cache.slots| == |c.slots|
    ensures st.missed <==> !Cache.Cached(c.slots, drum, block)
    ensures st.trace == trace + if st.missed
                                then [Request(SeekDrumCmd, drum, block), Request(SeekBlockCmd, drum, block),
                                      Request(ReadBlockCmd, drum, block)]
                                else [Request(SeekDrumCmd, drum, block)]
    ensures Extends(trace, st.trace)
  {
    LookupCoherent(c, disk, drum, block);
    var h := Cache.Lookup(c, drum, block);
    match h.line
    case None =>
      var data := disk[BlockIndex(drum, block)];
      PutCoherent(h.cache, disk, drum, block);
      var ops := [Request(SeekDrumCmd, drum, block), Request(SeekBlockCmd, drum, block),
                  Request(ReadBlockCmd, drum, block)];
      ExtendsAppend(trace, ops);
      Step(Cache.Put(h.cache, drum, block, data), trace + ops, data, true)
    case Some(line) =>
      ExtendsAppend(trace, [Request(SeekDrumCmd, drum, block)]);
      Step(h.cache, trace + [Request(SeekDrumCmd, drum, block)], line, false)
  }

  /** A later block of `smsa_vread`: on a miss, seek the block only when the
      previous block was a hit or this is block 0, then read and cache it. */
  function ReadNext(c: Cache.Cache, disk: Disk, trace: seq<Request>, drum: int, block: int, prevMissed: bool): (st: Step)
    requires CacheOk(c, disk) && InArray(drum, block)
    ensures CacheOk(st.cache, disk)
    ensures st.data == disk[BlockIndex(drum, block)]
    ensures Cache.Cached(st.cache.slots, drum, block) && |st.cache.slots| == |c.slots|
    ensures st.missed <==> !Cache.Cached(c.slots, drum, block)
    ensures st.trace == trace + if st.missed
                                then (if !prevMissed || block == 0 then [Request(SeekBlockCmd, drum, block)] else [])
                                     + [Request(ReadBlockCmd, drum, block)]
                                else []
    ensures Extends(trace, st.trace)
  {
    LookupCoherent(c, disk, drum, block);
    var h := Cache.Lookup(c, drum, block);
    match h.line
    case None =>
      var data := disk[BlockIndex(drum, block)];
      PutCoherent(h.cache, disk, drum, block);
      var seek := if !prevMissed || block == 0 then [Request(SeekBlockCmd, drum, block)] else [];
      ExtendsAppend(trace, seek + [Request(ReadBlockCmd, drum, block)]);
      assert trace + seek + [Request(ReadBlockCmd, drum, block)] == trace + (seek + [Request(ReadBlockCmd, drum, block)]);
      Step(Cache.Put(h.cache, drum, block, data), trace + seek + [Request(ReadBlockCmd, drum, block)], data, true)
    case Some(line) =>
      ExtendsAppend(trace, []);
      assert trace + [] == trace;
      Step(h.cache, trace, line, false)
  }

  /** The bytes one copy loop moves out of a block: from `from` up to the block
      end or until `want` bytes are taken. */
  function Take(data: BlockData, from: nat, want: nat): (r: seq<bv8>)
    requires from <= BlockSize
    ensures |r| == Min(BlockSize - from, want)
    ensures forall j :: 0 <= j < |r| ==> r[j] == data[from + j]
  {
    data[from..from + Min(BlockSize - from, want)]
  }

  /** `buf` holds the bytes of the flat space from position `base` on. */
  predicate Holds(buf: seq<bv8>, disk: Disk, base: int) {
    0 <= base && base + |buf| <= Capacity && forall k :: 0 <= k < |buf| ==> buf[k] == Byte(disk, base + k)
  }

  /** The bytes taken out of a block's remote copy are that block's bytes. */
  lemma TakeHolds(disk: Disk, drum: int, block: int, from: nat, want: nat)
    requires InArray(drum, block) && from < BlockSize
    ensures Holds(Take(disk[BlockIndex(drum, block)], from, want), disk, Position(drum, block, from))
  {
    var t := Take(disk[BlockIndex(drum, block)], from, want);
    forall k | 0 <= k < |t|
      ensures t[k] == Byte(disk, Position(drum, block, from) + k)
    {
      ByteInBlock(disk, BlockIndex(drum, block), from + k);
    }
  }

  /** Adjacent runs of bytes join up. */
  lemma HoldsConcat(a: seq<bv8>, b: seq<bv8>, disk: Disk, base: int)
    requires Holds(a, disk, base) && Holds(b, disk, base + |a|)
    ensures Holds(a + b, disk, base)
  {
    forall k | 0 <= k < |a + b|
      ensures (a + b)[k] == Byte(disk, base + k)
    {
      if k >= |a| {
        assert (a + b)[k] == b[k - |a|];
      }
    }
  }

  /** What a read leaves behind: the cache, the trace, the result code and the bytes copied. */
  datatype ReadResult = ReadResult(cache: Cache.Cache, trace: seq<Request>, rc: int, buf: seq<bv8>)

  /** The main loop of `smsa_vread`, at block `block` of drum `drum` (256 meaning
      past the drum's end) with `buf` copied so far; `base` is the flat position
      of the first byte requested. Past a drum's end it moves to block 0 of the
      next drum with a drum seek, or fails after drum 15. */
  function ReadLoop(c: Cache.Cache, disk: Disk, trace: seq<Request>, drum: int, block: int, prevMissed: bool,
                    len: nat, buf: seq<bv8>, ghost base: nat): (r: ReadResult)
    requires CacheOk(c, disk)
    requires 0 <= drum < DrumCount && 1 <= block <= BlocksPerDrum
    requires |buf| <= len && Holds(buf, disk, base)
    requires |buf| < len ==> base + |buf| == (drum * BlocksPerDrum + block) * BlockSize
    decreases len - |buf|, 1
    ensures r.rc == 0 || r.rc == -1
    ensures r.rc == 0 <==> base + len <= Capacity
    ensures r.rc == 0 ==> |r.buf| == len
    ensures Holds(r.buf, disk, base)
    ensures CacheOk(r.cache, disk)
    ensures Extends(trace, r.trace)
    ensures |buf| < len && block == BlocksPerDrum && drum < DrumCount - 1 ==>
              Extends(trace + [Request(SeekDrumCmd, drum + 1, 0)], r.trace)
  {
    if |buf| >= len then ReadResult(c, trace, 0, buf)
    else if block == BlocksPerDrum && drum + 1 > 15 then ReadResult(c, trace, -1, buf)
    else if block == BlocksPerDrum then
      var seek := [Request(SeekDrumCmd, drum + 1, 0)];
      ExtendsAppend(trace, seek);
      var r := ReadOn(c, disk, trace + seek, drum + 1, 0, prevMissed, len, buf, base);
      ExtendsTrans(trace, trace + seek, r.trace);
      r
    else ReadOn(c, disk, trace, drum, block, prevMissed, len, buf, base)
  }

  /** One block of the read loop, then the rest of the loop. */
  function ReadOn(c: Cache.Cache, disk: Disk, trace: seq<Request>, drum: int, block: int, prevMissed: bool,
                  len: nat, buf: seq<bv8>, ghost base: nat): (r: ReadResult)
    requires CacheOk(c, disk) && InArray(drum, block)
    requires |buf| < len && Holds(buf, disk, base)
    requires base + |buf| == (drum * BlocksPerDrum + block) * BlockSize
    decreases len - |buf|, 0
    ensures r.rc == 0 || r.rc == -1
    ensures r.rc == 0 <==> base + len <= Capacity
    ensures r.rc == 0 ==> |r.buf| == len
    ensures Holds(r.buf, disk, base)
    ensures CacheOk(r.cache, disk)
    ensures Extends(trace, r.trace)
  {
    var st := ReadNext(c, disk, trace, drum, block, prevMissed);
    var chunk := Take(st.data, 0, len - |buf|);
    TakeHolds(disk, drum, block, 0, len - |buf|);
    HoldsConcat(buf, chunk, disk, base);
    var r := ReadLoop(st.cache, disk, st.trace, drum, block + 1, st.missed, len, buf + chunk, base);
    ExtendsTrans(trace, st.trace, r.trace);
    r
  }

  /** What a read or write returns: the session afterwards, -1 or 0, and (for a
      read) the bytes placed in the caller's buffer. */
  datatype Reply = Reply(session: Session, rc: int, buf: seq<bv8>)

  /** `smsa_vread` once the address is decoded: the first block from `offset`,
      then the main loop. */
  function ReadFrom(s: Session, drum: int, block: int, offset: int, len: nat): (r: Reply)
    requires Ready(s) && InArray(drum, block) && 0 <= offset < BlockSize
    ensures r.rc == 0 || r.rc == -1
    ensures r.rc == 0 <==> Position(drum, block, offset) + len <= Capacity
    ensures r.rc == 0 ==> |r.buf| == len
    ensures Holds(r.buf, s.disk, Position(drum, block, offset))
    ensures Ready(r.session) && r.session.disk == s.disk && r.session.link == s.link
    ensures Extends(s.trace, r.session.trace)
  {
    var st := ReadFirst(s.cache.value, s.disk, s.trace, drum, block);
    TakeHolds(s.disk, drum, block, offset, len);
    var r := ReadLoop(st.cache, s.disk, st.trace, drum, block + 1, st.missed, len, Take(st.data, offset, len),
                      Position(drum, block, offset));
    ExtendsTrans(s.trace, st.trace, r.trace);
    Reply(Session(s.link, Some(r.cache), s.disk, r.trace), r.rc, r.buf)
  }

  /** `smsa_vread`: the `len` bytes from the address on, block by block, through
      the cache. Fails with -1 on an undecodable address or when the range runs
      past drum 15; the array never changes and the cache stays coherent. */
  function VRead(s: Session, addr: bv32, len: nat): (r: Reply)
    requires Ready(s)
    ensures r.rc == 0 || r.rc == -1
    ensures CurrentDrum(addr) == -1 ==> r.rc == -1 && r.session == s
    ensures CurrentDrum(addr) != -1 ==> (r.rc == 0 <==> Start(addr) + len <= Capacity)
    ensures r.rc == 0 ==> |r.buf| == len
    ensures CurrentDrum(addr) != -1 ==> Holds(r.buf, s.disk, Start(addr))
    ensures Ready(r.session) && r.session.disk == s.disk && r.session.link == s.link
    ensures Extends(s.trace, r.session.trace)
  {
    var drum := CurrentDrum(addr);
    if drum == -1 then Reply(s, -1, [])
    else
      var block := CurrentBlock(addr);
      if block == -1 then Reply(s, -1, [])
      else
        var offset := CurrentOffset(addr);
        if offset == -1 then Reply(s, -1, [])
        else ReadFrom(s, drum, block, offset, len)
  }

  // ---------------------------------------------------------------------------
  // Writing

  /** A block with bytes `from ..` overwritten by `src`, as far as the block
      end or the end of `src` reaches; every other byte keeps its value. */
  function Splice(data: BlockData, from: nat, src: seq<bv8>): (r: BlockData)
    requires from <= BlockSize
    ensures forall j :: 0 <= j < BlockSize ==>
              r[j] == if from <= j < from + Min(BlockSize - from, |src|) then src[j - from] else data[j]
  {
    var n := Min(BlockSize - from, |src|);
    data[..from] + src[..n] + data[from + n..]
  }

  /** What a write step leaves behind: the cache, the array, the trace, and the bytes consumed. */
  datatype WriteStep = WriteStep(cache: Cache.Cache, disk: Disk, trace: seq<Request>, consumed: nat)

  /** The fetch half of one block of `smsa_vwrite`: with `seek` (the first
      block, or the first block of a new drum) seek drum and block; on a miss
      read the block, insert it and seek the block again. The block ends up
      cached and the step's data is its remote copy. */
  function WriteFetch(c: Cache.Cache, disk: Disk, trace: seq<Request>, drum: int, block: int, seek: bool): (st: Step)
    requires CacheOk(c, disk) && InArray(drum, block)
    ensures CacheOk(st.cache, disk) && Cache.Cached(st.cache.slots, drum, block)
    ensures |st.cache.slots| == |c.slots|
    ensures st.data == disk[BlockIndex(drum, block)]
    ensures st.missed <==> !Cache.Cached(c.slots, drum, block)
    ensures st.trace == trace + (if seek then [Request(SeekDrumCmd, drum, block), Request(SeekBlockCmd, drum, block)] else [])
                              + (if st.missed then [Request(ReadBlockCmd, drum, block), Request(SeekBlockCmd, drum, block)] else [])
    ensures Extends(trace, st.trace)
  {
    LookupCoherent(c, disk, drum, block);
    var h := Cache.Lookup(c, drum, block);
    var seekBlock := Request(SeekBlockCmd, drum, block);
    var pre := if seek then [Request(SeekDrumCmd, drum, block), seekBlock] else [];
    match h.line
    case None =>
      PutCoherent(h.cache, disk, drum, block);
      var fetched := disk[BlockIndex(drum, block)];
      var ops := pre + [Request(ReadBlockCmd, drum, block), seekBlock];
      ExtendsAppend(trace, ops);
      Step(Cache.Put(h.cache, drum, block, fetched), trace + ops, fetched, true)
    case Some(line) =>
      ExtendsAppend(trace, pre);
      Step(h.cache, trace + pre, line, false)
  }

  /** One block of `smsa_vwrite`: fetch it, overwrite its bytes from `from` on
      with `src` in the cached copy, and send it with write-block. */
  function WriteBlock(c: Cache.Cache, disk: Disk, trace: seq<Request>, drum: int, block: int,
                      from: nat, src: seq<bv8>, seek: bool): (w: WriteStep)
    requires CacheOk(c, disk) && InArray(drum, block)
    requires from < BlockSize
    ensures w.consumed == Min(BlockSize - from, |src|)
    ensures w.disk == disk[BlockIndex(drum, block) := Splice(disk[BlockIndex(drum, block)], from, src)]
    ensures CacheOk(w.cache, w.disk)
    ensures w.trace == WriteFetch(c, disk, trace, drum, block, seek).trace + [Request(WriteBlockCmd, drum, block)]
    ensures Extends(trace, w.trace)
  {
    var st := WriteFetch(c, disk, trace, drum, block, seek);
    var patched := Splice(st.data, from, src);
    PatchCoherent(st.cache, disk, drum, block, patched);
    var send := [Request(WriteBlockCmd, drum, block)];
    ExtendsAppend(st.trace, send);
    ExtendsTrans(trace, st.trace, st.trace + send);
    WriteStep(Cache.Patch(st.cache, drum, block, patched), disk[BlockIndex(drum, block) := patched],
              st.trace + send, Min(BlockSize - from, |src|))
  }

  /** Writing a spliced block changes exactly the spliced byte range of the flat space. */
  lemma SpliceBytes(disk: Disk, drum: int, block: int, from: nat, src: seq<bv8>)
    requires InArray(drum, block) && from < BlockSize
    ensures var disk' := disk[BlockIndex(drum, block) := Splice(disk[BlockIndex(drum, block)], from, src)];
            var lo := BlockIndex(drum, block) * BlockSize + from;
            forall a :: 0 <= a < Capacity ==>
              Byte(disk', a) == if lo <= a < lo + Min(BlockSize - from, |src|) then src[a - lo] else Byte(disk, a)
  {
  }

  /** `after` holds `data[a - base]` at every flat position `a` in `lo .. hi`
      and agrees with `before` everywhere else. */
  predicate Overwrites(after: Disk, before: Disk, data: seq<bv8>, base: int, lo: int, hi: int)
    requires base <= lo && hi <= base + |data|
  {
    forall a :: 0 <= a < Capacity ==> Byte(after, a) == if lo <= a < hi then data[a - base] else Byte(before, a)
  }

  /** Two adjacent overwrites make one. */
  lemma OverwritesCompose(d0: Disk, d1: Disk, d2: Disk, data: seq<bv8>, base: int, lo: int, mid: int, hi: int)
    requires base <= lo <= mid <= hi <= base + |data|
    requires Overwrites(d1, d0, data, base, lo, mid) && Overwrites(d2, d1, data, base, mid, hi)
    ensures Overwrites(d2, d0, data, base, lo, hi)
  {
    forall a | 0 <= a < Capacity
      ensures Byte(d2, a) == if lo <= a < hi then data[a - base] else Byte(d0, a)
    {
      assert Byte(d2, a) == if mid <= a < hi then data[a - base] else Byte(d1, a);
      assert Byte(d1, a) == if lo <= a < mid then data[a - base] else Byte(d0, a);
    }
  }

  /** An empty range overwrites nothing. */
  lemma OverwritesNothing(d: Disk, data: seq<bv8>, base: int, lo: int, hi: int)
    requires base <= lo && hi <= base + |data| && hi <= lo
    ensures Overwrites(d, d, data, base, lo, hi)
  {
  }

  /** Writing one spliced block is an overwrite of its byte range. */
  lemma WriteBlockOverwrites(disk: Disk, drum: int, block: int, from: nat, data: seq<bv8>, done: nat, base: int)
    requires InArray(drum, block) && from < BlockSize && done <= |data|
    requires base + done == BlockIndex(drum, block) * BlockSize + from
    ensures var disk' := disk[BlockIndex(drum, block) := Splice(disk[BlockIndex(drum, block)], from, data[done..])];
            Overwrites(disk', disk, data, base, base + done, base + done + Min(BlockSize - from, |data| - done))
  {
    SpliceBytes(disk, drum, block, from, data[done..]);
  }

  /** What a write leaves behind: the cache, the array, the trace and the result code. */
  datatype WriteResult = WriteResult(cache: Cache.Cache, disk: Disk, trace: seq<Request>, rc: int)

  /** The main loop of `smsa_vwrite`, at block `block` of drum `drum` (256 meaning
      past the drum's end) with `data[..done]` written; `base` is the flat
      position of the first byte written. Past a drum's end it moves to block 0
      of the next drum, seeking drum and block, or fails after drum 15. */
  function WriteLoop(c: Cache.Cache, disk: Disk, trace: seq<Request>, drum: int, block: int,
                     data: seq<bv8>, done: nat, ghost base: nat): (r: WriteResult)
    requires CacheOk(c, disk)
    requires 0 <= drum < DrumCount && 1 <= block <= BlocksPerDrum
    requires done <= |data| && base + done <= Capacity
    requires done < |data| ==> base + done == (drum * BlocksPerDrum + block) * BlockSize
    decreases |data| - done, 1
    ensures r.rc == 0 || r.rc == -1
    ensures r.rc == 0 <==> base + |data| <= Capacity
    ensures Overwrites(r.disk, disk, data, base, base + done, Min(base + |data|, Capacity))
    ensures CacheOk(r.cache, r.disk)
    ensures Extends(trace, r.trace)
    ensures done < |data| && block == BlocksPerDrum && drum < DrumCount - 1 ==>
              Extends(trace + [Request(SeekDrumCmd, drum + 1, 0), Request(SeekBlockCmd, drum + 1, 0)], r.trace)
  {
    if done >= |data| then
      OverwritesNothing(disk, data, base, base + done, Min(base + |data|, Capacity));
      WriteResult(c, disk, trace, 0)
    else if block == BlocksPerDrum && drum + 1 > 15 then
      OverwritesNothing(disk, data, base, base + done, Min(base + |data|, Capacity));
      WriteResult(c, disk, trace, -1)
    else if block == BlocksPerDrum then WriteOn(c, disk, trace, drum + 1, 0, true, data, done, base)
    else WriteOn(c, disk, trace, drum, block, false, data, done, base)
  }

  /** One block of the write loop (after the seeks when `seek` holds), then
      the rest of the loop. */
  function WriteOn(c: Cache.Cache, disk: Disk, trace: seq<Request>, drum: int, block: int, seek: bool,
                   data: seq<bv8>, done: nat, ghost base: nat): (r: WriteResult)
    requires CacheOk(c, disk) && InArray(drum, block)
    requires done < |data| && base + done == (drum * BlocksPerDrum + block) * BlockSize
    decreases |data| - done, 0
    ensures r.rc == 0 || r.rc == -1
    ensures r.rc == 0 <==> base + |data| <= Capacity
    ensures Overwrites(r.disk, disk, data, base, base + done, Min(base + |data|, Capacity))
    ensures CacheOk(r.cache, r.disk)
    ensures Extends(trace, r.trace)
    ensures seek ==> Extends(trace + [Request(SeekDrumCmd, drum, block), Request(SeekBlockCmd, drum, block)], r.trace)
  {
    var w := WriteBlock(c, disk, trace, drum, block, 0, data[done..], seek);
    WriteBlockOverwrites(disk, drum, block, 0, data, done, base);
    var r := WriteLoop(w.cache, w.disk, w.trace, drum, block + 1, data, done + w.consumed, base);
    OverwritesCompose(disk, w.disk, r.disk, data, base, base + done, base + done + w.consumed,
                      Min(base + |data|, Capacity));
    ExtendsTrans(trace, w.trace, r.trace);
    if !seek then r
    else
      var seeks := trace + [Request(SeekDrumCmd, drum, block), Request(SeekBlockCmd, drum, block)];
      assert r.trace[..|seeks|] == w.trace[..|seeks|] == seeks;
      ExtendsThrough(trace, seeks, r.trace);
      r
  }

  /** `smsa_vwrite` once the address is decoded: the first block from `offset`,
      then the main loop. */
  function WriteFrom(s: Session, drum: int, block: int, offset: int, data: seq<bv8>): (r: Reply)
    requires Ready(s) && InArray(drum, block) && 0 <= offset < BlockSize
    ensures r.rc == 0 || r.rc == -1
    ensures r.rc == 0 <==> Position(drum, block, offset) + |data| <= Capacity
    ensures Ready(r.session) && r.session.link == s.link
    ensures Extends(s.trace, r.session.trace)
  {
    var w := WriteBlock(s.cache.value, s.disk, s.trace, drum, block, offset, data, true);
    var r := WriteLoop(w.cache, w.disk, w.trace, drum, block + 1, data, w.consumed, Position(drum, block, offset));
    ExtendsTrans(s.trace, w.trace, r.trace);
    Reply(Session(s.link, Some(r.cache), r.disk, r.trace), r.rc, [])
  }

  /** The array after `WriteFrom` holds `data` from the start position on, as
      far as the array reaches, and is unchanged elsewhere. */
  lemma WriteFromOverwrites(s: Session, drum: int, block: int, offset: int, data: seq<bv8>)
    requires Ready(s) && InArray(drum, block) && 0 <= offset < BlockSize
    ensures var base := Position(drum, block, offset);
            Overwrites(WriteFrom(s, drum, block, offset, data).session.disk, s.disk, data, base, base,
                       Min(base + |data|, Capacity))
  {
    var base := Position(drum, block, offset);
    var w := WriteBlock(s.cache.value, s.disk, s.trace, drum, block, offset, data, true);
    WriteBlockOverwrites(s.disk, drum, block, offset, data, 0, base);
    assert data[0..] == data;
    var r := WriteLoop(w.cache, w.disk, w.trace, drum, block + 1, data, w.consumed, base);
    OverwritesCompose(s.disk, w.disk, r.disk, data, base, base, base + w.consumed, Min(base + |data|, Capacity));
  }

  /** `smsa_vwrite`: write `data` from the address on, block by block, through
      the cache and on to the array. Fails with -1 on an undecodable address or
      when the range runs past drum 15; blocks already written stay written. */
  function VWrite(s: Session, addr: bv32, data: seq<bv8>): (r: Reply)
    requires Ready(s)
    ensures r.rc == 0 || r.rc == -1
    ensures CurrentDrum(addr) == -1 ==> r.rc == -1 && r.session == s
    ensures CurrentDrum(addr) != -1 ==> (r.rc == 0 <==> Start(addr) + |data| <= Capacity)
    ensures Ready(r.session) && r.session.link == s.link
    ensures Extends(s.trace, r.session.trace)
  {
    var drum := CurrentDrum(addr);
    if drum == -1 then Reply(s, -1, [])
    else
      var block := CurrentBlock(addr);
      if block == -1 then Reply(s, -1, [])
      else
        var offset := CurrentOffset(addr);
        if offset == -1 then Reply(s, -1, [])
        else WriteFrom(s, drum, block, offset, data)
  }

  /** A write at a decodable address overwrites the range from the address to
      the end of the data or of the array, and nothing else. */
  lemma VWriteOverwrites(s: Session, addr: bv32, data: seq<bv8>)
    requires Ready(s) && CurrentDrum(addr) != -1
    ensures Overwrites(VWrite(s, addr, data).session.disk, s.disk, data, Start(addr), Start(addr),
                       Min(Start(addr) + |data|, Capacity))
  {
    var drum, block, offset := CurrentDrum(addr), CurrentBlock(addr), CurrentOffset(addr);
    WriteFromOverwrites(s, drum, block, offset, data);
    assert Start(addr) == Position(drum, block, offset);
    assert VWrite(s, addr, data).session.disk == WriteFrom(s, drum, block, offset, data).session.disk;
  }

  /** Bytes read from a range just overwritten are the bytes written. */
  lemma HoldsWritten(buf: seq<bv8>, after: Disk, before: Disk, data: seq<bv8>, base: int)
    requires 0 <= base && base + |data| <= Capacity && |buf| == |data|
    requires Overwrites(after, before, data, base, base, base + |data|)
    requires Holds(buf, after, base)
    ensures buf == data
  {
    forall k | 0 <= k < |data|
      ensures buf[k] == data[k]
    {
      assert buf[k] == Byte(after, base + k);
    }
  }

  /** Reading a range that holds `data` on the array returns `data`. */
  lemma ReadBack(w: Session, before: Disk, addr: bv32, data: seq<bv8>)
    requires Ready(w) && CurrentDrum(addr) != -1 && Start(addr) + |data| <= Capacity
    requires Overwrites(w.disk, before, data, Start(addr), Start(addr), Start(addr) + |data|)
    ensures VRead(w, addr, |data|).rc == 0 && VRead(w, addr, |data|).buf == data
  {
    HoldsWritten(VRead(w, addr, |data|).buf, w.disk, before, data, Start(addr));
  }

  /** Reading back a range just written returns the bytes written, across any
      block and drum boundaries inside the array. */
  lemma ReadAfterWrite(s: Session, addr: bv32, data: seq<bv8>)
    requires Ready(s)
    requires VWrite(s, addr, data).rc == 0
    ensures var w := VWrite(s, addr, data).session;
            VRead(w, addr, |data|).rc == 0 && VRead(w, addr, |data|).buf == data
  {
    VWriteOverwrites(s, addr, data);
    assert Min(Start(addr) + |data|, Capacity) == Start(addr) + |data|;
    ReadBack(VWrite(s, addr, data).session, s.disk, addr, data);
  }

  // ---------------------------------------------------------------------------
  // Mount and unmount

  /** The server took request `q` (sent with no block) and answered it with its
      own opcode and a return code other than -1. */
  predicate Answered(q: Request, peer: Client.Peer) {
    Client.Exchanged(Opcode(q), None, peer) && Wire.Signed16(Wire.DecodeHeader(peer.header).ret) != -1
  }

  /** `smsa_vmount`: send the mount opcode (which connects); on any result but
      -1, set up a cache of `lines` lines. */
  function VMount(s: Session, lines: nat, peer: Client.Peer): (r: Reply)
    ensures r.rc == 0 || r.rc == -1
    ensures r.session.disk == s.disk
    ensures r.session.trace == s.trace + [Request(MountCmd, 0, 0)]
    ensures r.rc == -1 ==> r.session.cache == s.cache
    ensures r.rc == 0 ==> r.session.cache == Some(Cache.Init(lines))
    ensures r.rc == 0 && lines > 0 ==> Ready(r.session)
    ensures r.rc == 0 <==> peer.connectResult != -1 && Answered(Request(MountCmd, 0, 0), peer)
    ensures r.session.link == Client.Link(peer.connectResult)
  {
    var q := Request(MountCmd, 0, 0);
    OpcodeRoundTrip(MountCmd, 0, 0);
    var out := Client.Operation(s.link, Opcode(q), None, peer);
    var s' := s.(link := out.link, trace := s.trace + [q]);
    if out.rc == -1 then Reply(s', -1, [])
    else Reply(s'.(cache := Some(Cache.Init(lines))), 0, [])
  }

  /** `smsa_vunmount`: close the cache, releasing every occupied line's buffer
      (none before a mount, when there is no cache), then send the unmount
      opcode (which disconnects). */
  method VUnmount(s: Session, peer: Client.Peer) returns (r: Reply, freed: seq<nat>)
    ensures r.session.cache.None? && r.session.disk == s.disk
    ensures r.session.trace == s.trace + [Request(UnmountCmd, 0, 0)]
    ensures s.cache.None? ==> freed == []
    ensures s.cache.Some? ==>
              forall i :: 0 <= i < |s.cache.value.slots| ==> (i in freed <==> s.cache.value.slots[i].Full?)
    ensures forall k :: 0 <= k < |freed| ==> s.cache.Some? && freed[k] < |s.cache.value.slots|
    ensures forall k, l :: 0 <= k < l < |freed| ==> freed[k] < freed[l]
    ensures r.rc == 0 || r.rc == -1
    ensures r.rc == 0 ==> r.session.link == Client.Disconnected
    ensures r.rc == 0 <==> Answered(Request(UnmountCmd, 0, 0), peer) && peer.closeResult != -1
    ensures r.session.link ==
              if Client.Exchanged(Opcode(Request(UnmountCmd, 0, 0)), None, peer) && peer.closeResult != -1
              then Client.Disconnected
              else s.link
  {
    freed := [];
    if s.cache.Some? {
      freed := Cache.Close(s.cache.value);
    }
    var q := Request(UnmountCmd, 0, 0);
    OpcodeRoundTrip(UnmountCmd, 0, 0);
    var out := Client.Operation(s.link, Opcode(q), None, peer);
    var s' := Session(out.link, None, s.disk, s.trace + [q]);
    if out.rc == -1 {
      r := Reply(s', -1, []);
    } else {
      r := Reply(s', 0, []);
    }
  }
}
