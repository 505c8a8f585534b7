/** The looping transfer routines of smsa_client_backup.c: `read_bytes`, which
    keeps reading until the requested count has arrived, the send loops of
    `send_packet`, and `receive_packet`. The socket is replaced by a transport
    that lists, call by call, what `read` or `write` returns. */
module BackupClient {
  import opened Smsa
  import opened Wire

  /** The bytes the peer has sent, how many of them have been consumed, and the
      results the next `read` calls report (a positive result is cut down to
      what was asked for and to what has arrived; with no results left, a call
      returns 0, end of stream). */
  datatype Inbound = Inbound(data: seq<bv8>, pos: nat, results: seq<int>)

  /** The bytes accepted so far, and the results the next `write` calls report
      (a positive result is cut down to what was offered). */
  datatype Outbound = Outbound(sent: seq<bv8>, results: seq<int>)

  /** What one `read` call returns, and the stream after it. */
  datatype Got = Got(n: int, next: Inbound)

  /** One `read(socket, &buf[got], want)` call. */
  function ReadCall(inb: Inbound, want: nat): (r: Got)
    requires inb.pos <= |inb.data|
    ensures r.n > 0 ==> r.n <= want && inb.pos + r.n <= |inb.data| && r.next.pos == inb.pos + r.n
    ensures r.next.data == inb.data && r.next.pos <= |r.next.data|
  {
    var offer := if |inb.results| == 0 then 0 else inb.results[0];
    var rest := if |inb.results| == 0 then [] else inb.results[1..];
    var n := if offer <= 0 then offer else Min(Min(offer, want), |inb.data| - inb.pos);
    Got(n, Inbound(inb.data, if n > 0 then inb.pos + n else inb.pos, rest))
  }

  /** Reference meaning of a successful drain: successive reads, each asked for
      what is still missing, all return a positive count until `len` bytes
      have arrived. */
  predicate Drains(inb: Inbound, len: nat)
    requires inb.pos <= |inb.data|
    decreases len
  {
    if len == 0 then true
    else
      var r := ReadCall(inb, len);
      r.n > 0 && Drains(r.next, len - r.n)
  }

  /** The stream after a successful drain of `len` bytes: exactly `len` more
      bytes consumed, the results of the reads that took them used up. */
  function Drained(inb: Inbound, len: nat): (r: Inbound)
    requires inb.pos <= |inb.data| && Drains(inb, len)
    decreases len
    ensures r.data == inb.data && r.pos == inb.pos + len
  {
    if len == 0 then inb
    else
      var r := ReadCall(inb, len);
      Drained(r.next, len - r.n)
  }

  /** `read_bytes`: read until exactly `len` bytes are in `buf`, or fail on the
      first read returning 0 or less. */
  method ReadBytes(inb: Inbound, len: nat) returns (rc: int, buf: seq<bv8>, rest: Inbound)
    requires inb.pos <= |inb.data|
    ensures rc == 0 || rc == -1
    ensures rc == 0 <==> Drains(inb, len)
    ensures rc == 0 ==> |buf| == len
    ensures rc == -1 ==> |buf| < len
    ensures rest.data == inb.data && rest.pos <= |rest.data| && rest.pos == inb.pos + |buf|
    ensures buf == inb.data[inb.pos..rest.pos]
    ensures rc == 0 ==> rest == Drained(inb, len)
  {
    var got := 0;
    rest := inb;
    while got < len
      invariant rest.data == inb.data && got <= len && rest.pos == inb.pos + got <= |inb.data|
      invariant Drains(inb, len) <==> Drains(rest, len - got)
      invariant Drains(inb, len) ==> Drained(inb, len) == Drained(rest, len - got)
      decreases len - got
    {
      var r := ReadCall(rest, len - got);
      if r.n <= 0 {
        rc := -1;
        buf := inb.data[inb.pos..rest.pos];
        return;
      }
      got := got + r.n;
      rest := r.next;
    }
    rc := 0;
    buf := inb.data[inb.pos..rest.pos];
  }

  /** One `write(socket, &frame[sent], want)` call: its result. */
  function WriteResult(out: Outbound, want: nat): (n: int)
    ensures n > 0 ==> n <= want
  {
    var offer := if |out.results| == 0 then 0 else out.results[0];
    if offer <= 0 then offer else Min(offer, want)
  }

  /** Reference meaning of a successful send: successive writes, each offered
      what is still unsent, all return a positive count until `want` bytes are
      out. */
  predicate Sends(results: seq<int>, want: nat)
    decreases want
  {
    if want == 0 then true
    else
      var n := WriteResult(Outbound([], results), want);
      n > 0 && Sends(if |results| == 0 then [] else results[1..], want - n)
  }

  /** The loop of `send_packet`: write `bytes[..count]` until the count is
      reached, failing on the first write returning 0 or less. */
  method WriteAll(bytes: seq<bv8>, count: nat, out: Outbound) returns (rc: int, out': Outbound)
    requires count <= |bytes|
    ensures rc == 0 || rc == -1
    ensures rc == 0 ==> out'.sent == out.sent + bytes[..count]
    ensures rc == -1 ==> exists k :: 0 <= k < count && out'.sent == out.sent + bytes[..k]
    ensures rc == 0 <==> Sends(out.results, count)
  {
    var sb := 0;
    out' := out;
    while sb < count
      invariant 0 <= sb <= count
      invariant out'.sent == out.sent + bytes[..sb]
      invariant Sends(out.results, count) <==> Sends(out'.results, count - sb)
      decreases count - sb
    {
      var n := WriteResult(out', count - sb);
      var rest := if |out'.results| == 0 then [] else out'.results[1..];
      if n <= 0 {
        rc := -1;
        out' := Outbound(out'.sent, rest);
        return;
      }
      assert bytes[..sb + n] == bytes[..sb] + bytes[sb..sb + n];
      out' := Outbound(out'.sent + bytes[sb..sb + n], rest);
      sb := sb + n;
    }
    rc := 0;
  }

  /** `send_packet` as written: the loops stop at 263 bytes (with a block) and
      7 bytes (without), one byte short of the 264- and 8-byte frame. */
  method SendPacket(op: bv32, block: Option<BlockData>, out: Outbound) returns (rc: int, out': Outbound)
    ensures rc == 0 || rc == -1
    ensures rc == 0 ==> out'.sent == out.sent + Frame(op, block)[..|Frame(op, block)| - 1]
    ensures rc == 0 <==> Sends(out.results, if block.Some? then 263 else 7)
  {
    var frame := Frame(op, block);
    var limit := if block.Some? then 263 else 7;
    rc, out' := WriteAll(frame, limit, out);
  }

  /** `send_packet` with the loop bound it evidently meant: the whole frame. */
  method SendFrame(op: bv32, block: Option<BlockData>, out: Outbound) returns (rc: int, out': Outbound)
    ensures rc == 0 || rc == -1
    ensures rc == 0 ==> out'.sent == out.sent + Frame(op, block)
    ensures rc == 0 <==> Sends(out.results, |Frame(op, block)|)
  {
    var frame := Frame(op, block);
    rc, out' := WriteAll(frame, |frame|, out);
    assert frame[..|frame|] == frame;
  }

  /** A short first write does not end the send: the loop offers the rest
      again, and a second write that takes it completes the 263 bytes. */
  lemma ShortWriteCompletes()
    ensures Sends([3, 1000], 263)
    ensures !Sends([3, 0, 1000], 263)
  {
    assert Sends([], 0);
    assert Sends([1000][1..], 0);
    assert Sends([3, 1000][1..], 260);
    assert !Sends([0, 1000], 260);
  }

  /** What a successful as-written send delivers is shorter than the length its
      own header announces; without a block the server does not even receive
      a whole header. */
  lemma SendPacketFallsShort(op: bv32, block: Option<BlockData>)
    ensures |Frame(op, block)| - 1 < Unsigned16(DecodeHeader(Frame(op, block)).len)
    ensures block.None? ==> |Frame(op, block)| - 1 < HeaderSize
  {
    FrameLength(op, block);
  }

  /** The second half of `receive_packet`: with `len` the length field, drain
      the `len - 8` payload bytes into the caller's block when it exceeds 8
      (`blkbytes` is that count, or 0). There is no NULL check: without a block
      (`hasBlock` false) the first `read` into it is refused as a bad address,
      `read_bytes` reports -1, and the model consumes nothing. */
  method ReceivePayload(inb: Inbound, len: int, hasBlock: bool)
    returns (rc: int, blkbytes: int, payload: seq<bv8>, rest: Inbound)
    requires inb.pos <= |inb.data|
    ensures rc == 0 || rc == -1
    ensures rc == -1 <==> len > HeaderSize && (!hasBlock || !Drains(inb, len - HeaderSize))
    ensures rc == 0 ==> blkbytes == (if len > HeaderSize then len - HeaderSize else 0)
    ensures rc == 0 ==>
              inb.pos + blkbytes <= |inb.data|
              && payload == inb.data[inb.pos..inb.pos + blkbytes] && rest.pos == inb.pos + blkbytes
    ensures rc == 0 && len > HeaderSize ==> rest == Drained(inb, len - HeaderSize)
  {
    blkbytes := 0;
    payload := [];
    rest := inb;
    rc := 0;
    if len > HeaderSize {
      if !hasBlock {
        rc := -1;
        return;
      }
      var more;
      more, payload, rest := ReadBytes(inb, len - HeaderSize);
      if more == -1 {
        rc := -1;
        return;
      }
      blkbytes := len - HeaderSize;
    }
  }

  /** The first half of `receive_packet`: drain the 8 header bytes and decode
      the length, opcode and return code from them. */
  method ReceiveHeader(inb: Inbound) returns (rc: int, hdr: Header, rest: Inbound)
    requires inb.pos <= |inb.data|
    ensures rc == 0 || rc == -1
    ensures rc == 0 <==> Drains(inb, HeaderSize)
    ensures rest.data == inb.data && rest.pos <= |rest.data|
    ensures rc == 0 ==>
              rest == Drained(inb, HeaderSize)
              && hdr == DecodeHeader(inb.data[inb.pos..inb.pos + HeaderSize])
  {
    var bytes;
    rc, bytes, rest := ReadBytes(inb, HeaderSize);
    hdr := if rc == 0 then DecodeHeader(bytes) else Header(0, 0, 0);
  }

  /** `receive_packet`: drain the 8 header bytes, decode the length, opcode and
      return code from them (`len` is the length field as a number), then drain
      the payload the length announces into the caller's block (`hasBlock`
      false for a NULL block). */
  method ReceivePacket(inb: Inbound, hasBlock: bool)
    returns (rc: int, hdr: Header, len: nat, blkbytes: int, payload: seq<bv8>, rest: Inbound)
    requires inb.pos <= |inb.data|
    ensures rc == 0 || rc == -1
    ensures rc == 0 || Drains(inb, HeaderSize) ==>
              inb.pos + HeaderSize <= |inb.data|
              && hdr == DecodeHeader(inb.data[inb.pos..inb.pos + HeaderSize])
              && len == Unsigned16(hdr.len)
    ensures rc == -1 <==>
              !Drains(inb, HeaderSize)
              || (len > HeaderSize && (!hasBlock || !Drains(Drained(inb, HeaderSize), len - HeaderSize)))
    ensures rc == -1 && Drains(inb, HeaderSize) ==> len > HeaderSize
    ensures Drains(inb, HeaderSize) && !hasBlock && len > HeaderSize ==> rc == -1
    ensures rc == 0 ==>
              blkbytes == (if len > HeaderSize then len - HeaderSize else 0)
              && inb.pos + HeaderSize + blkbytes <= |inb.data|
              && payload == inb.data[inb.pos + HeaderSize..inb.pos + HeaderSize + blkbytes]
              && rest.pos == inb.pos + HeaderSize + blkbytes
  {
    var got, afterHeader;
    got, hdr, afterHeader := ReceiveHeader(inb);
    len := Unsigned16(hdr.len);
    blkbytes := 0;
    payload := [];
    rest := afterHeader;
    if got == -1 {
      rc := -1;
      return;
    }
    rc, blkbytes, payload, rest := ReceivePayload(afterHeader, len, hasBlock);
  }
}
