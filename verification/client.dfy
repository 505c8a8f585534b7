/** The request/response client of smsa_client.c. The socket calls are not
    performed: a `Peer` value supplies, for one call, what `client_connect`,
    `write`, `read` and `close` return and which bytes the reads deliver. */
module Client {
  import opened Smsa
  import opened Addressing
  import opened Wire

  /** The eight bytes found in the header buffer after the header read. */
  type HeaderBytes = s: seq<bv8> | |s| == HeaderSize witness [0, 0, 0, 0, 0, 0, 0, 0]

  /** `server_socket`: the open connection's descriptor, or -1. */
  datatype Link = Link(socket: int)

  const Disconnected: Link := Link(-1)

  /** What the environment answers during one `smsa_client_operation`. */
  datatype Peer = Peer(
    connectResult: int,
    writeResult: int,
    headerResult: int,
    header: HeaderBytes,
    payloadResult: int,
    payload: BlockData,
    closeResult: int)

  /** The state after a call, its result, the frame handed to `write` (empty
      when the call stopped before sending) and the caller's block buffer. */
  datatype Outcome = Outcome(link: Link, rc: int, request: seq<bv8>, block: Option<BlockData>)

  /** `client_disconnect`: close the socket; only a successful close resets
      `server_socket` to -1. */
  function Disconnect(link: Link, closeResult: int): (r: (Link, int))
    ensures r.1 == 0 <==> closeResult != -1
    ensures r.1 == -1 <==> closeResult == -1
    ensures closeResult != -1 ==> r.0 == Disconnected
    ensures closeResult == -1 ==> r.0 == link
  {
    if closeResult == -1 then (link, -1)
    else (Disconnected, 0)
  }

  /** `receive_packet`: decode the header; when the announced length exceeds 8,
      read the block into the caller's buffer (with no buffer, the read into a
      NULL pointer fails). Returns success and the buffer afterwards. */
  function ReceivePacket(peer: Peer, block: Option<BlockData>): (r: (bool, Option<BlockData>))
    ensures r.0 <==>
              peer.headerResult != -1
              && (Unsigned16(DecodeHeader(peer.header).len) > HeaderSize ==> block.Some? && peer.payloadResult != -1)
    ensures r.0 && Unsigned16(DecodeHeader(peer.header).len) > HeaderSize ==> r.1 == Some(peer.payload)
    ensures Unsigned16(DecodeHeader(peer.header).len) <= HeaderSize ==> r.1 == block
  {
    if peer.headerResult == -1 then (false, block)
    else
      var h := DecodeHeader(peer.header);
      if Unsigned16(h.len) > HeaderSize then
        if block.None? || peer.payloadResult == -1 then (false, block)
        else (true, Some(peer.payload))
      else (true, block)
  }

  /** The send, the receive and the opcode check all went through. */
  predicate Exchanged(op: bv32, block: Option<BlockData>, peer: Peer) {
    && peer.writeResult != -1
    && ReceivePacket(peer, block).0
    && DecodeHeader(peer.header).op == op
  }

  /** `smsa_client_operation`: connect first on a mount, send the request,
      receive the reply, check the returned opcode, disconnect on an unmount,
      and return the server's return code. Only -1 results of the system calls
      count as failures, exactly as in the source. */
  function Operation(link: Link, op: bv32, block: Option<BlockData>, peer: Peer): (r: Outcome)
    ensures Command(op) == MountCmd && peer.connectResult == -1 ==>
              r.rc == -1 && r.link == Disconnected && r.request == []
    ensures Command(op) == MountCmd && peer.connectResult != -1 ==> r.request == Frame(op, block)
    ensures Command(op) != MountCmd ==> r.request == Frame(op, block)
    ensures r.request == [] || r.request == Frame(op, block)
    ensures r.request != [] && !Exchanged(op, block, peer) ==> r.rc == -1
    ensures r.request != [] && DecodeHeader(peer.header).op != op ==> r.rc == -1
    ensures r.request != [] && Exchanged(op, block, peer) && Command(op) != UnmountCmd ==>
              r.rc == Signed16(DecodeHeader(peer.header).ret)
              && r.link == (if Command(op) == MountCmd then Link(peer.connectResult) else link)
    ensures Exchanged(op, block, peer) && Command(op) == UnmountCmd ==>
              (peer.closeResult == -1 ==> r.rc == -1 && r.link == link)
              && (peer.closeResult != -1 ==> r.rc == Signed16(DecodeHeader(peer.header).ret) && r.link == Disconnected)
    ensures Command(op) != MountCmd && Command(op) != UnmountCmd ==> r.link == link
    ensures r.request == [] || peer.writeResult == -1 ==> r.block == block
    ensures Unsigned16(DecodeHeader(peer.header).len) <= HeaderSize ==> r.block == block
    ensures r.request != [] && peer.writeResult != -1 && ReceivePacket(peer, block).0 ==>
              Unsigned16(DecodeHeader(peer.header).len) > HeaderSize ==> r.block == Some(peer.payload)
  {
    var link' := if Command(op) == MountCmd then Link(peer.connectResult) else link;
    if Command(op) == MountCmd && link'.socket == -1 then Outcome(link', -1, [], block)
    else
      var request := Frame(op, block);
      if peer.writeResult == -1 then Outcome(link', -1, request, block)
      else
        var (received, block') := ReceivePacket(peer, block);
        if !received then Outcome(link', -1, request, block')
        else
          var reply := DecodeHeader(peer.header);
          if op != reply.op then Outcome(link', -1, request, block')
          else if Command(op) == UnmountCmd then
            var (link'', closed) := Disconnect(link', peer.closeResult);
            if closed == -1 then Outcome(link'', -1, request, block')
            else Outcome(link'', Signed16(reply.ret), request, block')
          else Outcome(link', Signed16(reply.ret), request, block')
  }

  /** A server that echoes the opcode with return code 0 makes a read-block
      call deliver the server's block into the caller's buffer and return 0. */
  lemma ReadBlockDelivers(link: Link, drum: int, block: int, buf: BlockData, peer: Peer)
    requires InArray(drum, block)
    requires peer.writeResult != -1 && peer.headerResult != -1 && peer.payloadResult != -1
    requires peer.header == EncodeHeader(Header(264, GetOpcode(ReadBlockCmd, drum, block), 0))
    ensures Operation(link, GetOpcode(ReadBlockCmd, drum, block), Some(buf), peer).rc == 0
    ensures Operation(link, GetOpcode(ReadBlockCmd, drum, block), Some(buf), peer).block == Some(peer.payload)
    ensures Operation(link, GetOpcode(ReadBlockCmd, drum, block), Some(buf), peer).link == link
  {
    OpcodeRoundTrip(ReadBlockCmd, drum, block);
    DecodeEncodeHeader(Header(264, GetOpcode(ReadBlockCmd, drum, block), 0));
  }
}
