# SMSA driver model

A Dafny model of the core of the SMSA (Simple Memory Storage Array) client
driver. The array has 16 drums of 256 blocks, and each block holds 256 bytes.
The driver presents the array as a flat 1 MiB byte space, addressed by 32-bit
virtual addresses. It reads and writes byte ranges of that space through an
LRU block cache, and each remote operation travels to the array server as an
8-byte big-endian header, optionally followed by a 256-byte block.

The model is split into modules:

- `Smsa` (smsa.dfy): the array's geometry, 256-byte blocks and `Option`.
- `Addressing` (addressing.dfy): the address split into drum, block and
  offset, and the packing of opcodes (`get_opcode`), with round-trip lemmas.
- `Cache` (cache.dfy): the cache lines as a sequence of slots. A logical clock
  stands in for `gettimeofday`. The module has lookup, insert, victim
  selection as written, in-place patching and close, and proves the invariant
  that occupied lines form a duplicate-free prefix.
- `Wire` (wire.dfy): the header codec and request frame shared by both client
  files, proved as a round trip in both directions.
- `Client` (client.dfy): `smsa_client_operation` of smsa_client.c. This
  covers connect on mount, send, receive, the opcode check, disconnect on
  unmount, and the socket-reset rule of `client_disconnect`. An explicit
  `Peer` value supplies what the socket calls return.
- `BackupClient` (backup_client.dfy): the drain and send loops of
  smsa_client_backup.c. They run against a transport given as the list of
  results that successive `read` and `write` calls report.
- `Driver` (driver.dfy): `smsa_vmount`, `smsa_vunmount`, `smsa_vread` and
  `smsa_vwrite`.
  - The remote array is a sequence of 4096 blocks. The read-block and
    write-block requests address it by their drum and block fields.
  - Every request handed to the client is recorded in a trace.
  - Two invariants are proved:
    - cache coherence: every occupied line equals the remote copy of its
      block;
    - every traced request is in range, so `get_opcode` never produces its
      error value.
  - The main theorem is `Driver.ReadAfterWrite`: reading a range just written
    returns the written bytes, across block and drum boundaries.

Inside `smsa_vread` and `smsa_vwrite` the source ignores the result of every
`smsa_client_operation` call. The model therefore takes those calls to
succeed, and the remote array simply answers them.

## Model

| member | source | states |
|---|---|---|
| Addressing.CurrentDrum | smsa_driver.c:273-281 | the result is -1 exactly when the address has a bit above bit 19 set; otherwise it is a drum number 0..15 |
| Addressing.CurrentBlock | smsa_driver.c:291-301 | the block field is always in 0..255, so the -1 error path can never be taken |
| Addressing.CurrentOffset | smsa_driver.c:311-320 | the offset field is always in 0..255, so the -1 error path can never be taken |
| Addressing.AddressRoundTrip | smsa_driver.c:273-320 | decomposing `drum<<16 \| block<<8 \| offset` gives back drum, block and offset for every in-range triple |
| Addressing.AddressDecomposes | smsa_driver.c:273-320 | every address with a valid drum is the composition of its three decoded fields, so decoding loses nothing |
| Addressing.GetOpcode | smsa_driver.c:333-353 | the opcode is the error value 0xFFFFFFFF exactly when the command, drum or block is out of range |
| Addressing.OpcodeUnusedBits | smsa_driver.c:333-353 | bits 8..21 of an in-range opcode are zero, so with the command, drum and block readers every bit of the word is fixed |
| Addressing.OpcodeRoundTrip | smsa_driver.c:333-353 | command, drum and block can be read back from the bit fields of an in-range opcode |
| Addressing.OpcodeInjective | smsa_driver.c:333-353 | distinct in-range argument triples give distinct opcodes |
| Cache.Init | smsa_cache.c:34-48 | the cache has exactly `lines` lines, all empty, holding no key, and satisfies the cache invariant |
| Cache.FindKey | smsa_cache.c:82-87 | the scan returns the first index whose key matches, and None only when no line from the start index on matches |
| Cache.Lookup | smsa_cache.c:80-89 | a hit returns the buffer of the first matching line and refreshes only that line's timestamp; a miss changes nothing; no key or buffer ever changes |
| Cache.FirstEmpty | smsa_cache.c:105-113 | the insert scan finds the lowest empty line, with every earlier line occupied |
| Cache.ScanVictim | smsa_cache.c:116-124 | the victim loop always ends on the last line, whatever the timestamps, because of the empty `if` body |
| Cache.Put | smsa_cache.c:101-135 | with an empty line, only the lowest empty line takes the new entry; with none, only the last line is replaced |
| Cache.Patch | smsa_driver.c:217-221 | writing through the cached buffer changes the buffer of the matching line and nothing else |
| Cache.Close | smsa_cache.c:58-69 | exactly the occupied lines are freed, each once, in line order |
| Cache.LookupKeepsWf | smsa_cache.c:80-89 | lookup preserves the invariant: occupied lines form a prefix, keys are in range and no key appears twice |
| Cache.PutKeepsWf | smsa_cache.c:101-135 | inserting an absent key preserves the invariant and leaves the key cached |
| Cache.PatchKeepsWf | smsa_driver.c:217-221 | patching a buffer preserves the invariant |
| Cache.PutThenLookup | smsa_cache.c:80-135 | looking up a key just inserted returns the inserted buffer |
| Cache.FullPutEvictsLast | smsa_cache.c:101-135 | in any full cache, inserting an absent block drops the block in the last line, whatever the timestamps say, and keeps every other block |
| Cache.RecentlyUsedIsEvicted | smsa_cache.c:116-133 | one concrete run on a full two-line cache (blocks (0,0), (0,1), then (0,2)): the line just used is evicted and the least recently used line survives; `Cache.FullPutEvictsLast` is the general statement |
| Wire.Be16 | smsa_client.c:149-156 | the two network-order bytes of a 16-bit field decode back to the field |
| Wire.Be32 | smsa_client.c:150-155 | the four network-order bytes of the opcode decode back to the opcode |
| Wire.EncodeHeader | smsa_client.c:148-156 | the header is 8 bytes, holding the length at bytes 0-1, the opcode at 2-5 and the return code at 6-7, all big-endian |
| Wire.DecodeEncodeHeader | smsa_client.c:196-202 | decoding an encoded header gives back length, opcode and return code |
| Wire.EncodeDecodeHeader | smsa_client.c:196-202 | encoding a decoded header gives back the eight bytes |
| Wire.Frame | smsa_client.c:137-165 | the frame is 8 bytes without a block and 264 with one; its header decodes to that length, the opcode and return code 0; bytes 8..263 are the block |
| Wire.FrameLength | smsa_client.c:142-146 | a frame's length field names the frame's own length |
| Wire.Signed16 | smsa_client.c:201-202 | the return code is read as an `int16_t` in -32768..32767: it is negative exactly when the top bit is set, 0xFFFF reads as -1 and only 0xFFFF does, and a zero field reads as 0 |
| Client.Disconnect | smsa_client.c:118-125 | the call succeeds exactly when `close` does not return -1, and only then is the socket reset to -1 |
| Client.ReceivePacket | smsa_client.c:186-212 | receiving succeeds exactly when the header read succeeds and, for a length over 8, the block read does too; the block is read only when the length exceeds 8 |
| Client.Operation | smsa_client.c:45-74 | a mount connects first and fails on a failed connect; an opcode mismatch or failed send or receive gives -1; an unmount disconnects after the exchange; otherwise the server's return code comes back; the caller's block is untouched unless a reply announcing a payload is received, and is then the received block |
| Client.ReadBlockDelivers | smsa_client.c:45-74 | against a server that echoes the opcode with return code 0, a read-block call returns 0 and delivers the server's block |
| BackupClient.ReadCall | smsa_client_backup.c:198 | one `read` delivers at most the count asked for, and only bytes that have arrived |
| BackupClient.ReadBytes | smsa_client_backup.c:191-207 | returns 0 exactly when successive reads deliver all `len` bytes, otherwise -1 on the first read returning 0 or less; the buffer holds the arrived bytes contiguously and in order, and a successful drain leaves the stream exactly `Drained` further on |
| BackupClient.ReceiveHeader | smsa_client_backup.c:167-177 | succeeds exactly when the eight header bytes drain; the header is then decoded from those bytes and the stream is left just past them |
| BackupClient.WriteAll | smsa_client_backup.c:141-158 | succeeds exactly when successive writes, each offered what is still unsent, all return a positive count until `count` bytes are out (`Sends`); a successful loop has sent exactly the first `count` bytes, a failed one a proper prefix of them |
| BackupClient.ShortWriteCompletes | smsa_client_backup.c:141-148 | a first write that takes only 3 bytes does not end the send: the next write completes the 263 bytes, while a 0 from that next write fails it |
| BackupClient.SendPacket | smsa_client_backup.c:116-161 | succeeds exactly when the writes get 263 bytes (with a block) or 7 (without) out, and then has transmitted the frame minus its last byte |
| BackupClient.SendPacketFallsShort | smsa_client_backup.c:141-158 | what a send delivers is shorter than the length its own header announces; without a block it is less than a whole 8-byte header |
| BackupClient.SendFrame | smsa_client_backup.c:116-161 | succeeds exactly when the writes get the whole 264- or 8-byte frame out, and then has transmitted exactly that frame |
| BackupClient.ReceivePayload | smsa_client_backup.c:179-186 | a length over 8 drains `len-8` payload bytes and sets `blkbytes` to that count, failing exactly when there is no block to drain into or the drain fails; otherwise `blkbytes` is 0 |
| BackupClient.ReceivePacket | smsa_client_backup.c:163-189 | fails exactly when the header does not drain, or a length over 8 is announced and there is no block or the `len-8` payload bytes do not drain from just after the header; the header fields are decoded from the first eight bytes; on success the payload is the next `blkbytes` bytes of the stream |
| Driver.SendableOpcode | smsa_driver.c:333-353 | a request with in-range fields packs to an opcode other than the error value, and the opcode gives the request back |
| Driver.LookupCoherent | smsa_driver.c:103-116 | a lookup keeps every line equal to the remote copy of its block, and a hit returns that remote copy |
| Driver.PutCoherent | smsa_driver.c:105-111 | caching the fetched remote copy of an absent block keeps coherence and leaves the block cached |
| Driver.PatchCoherent | smsa_driver.c:217-223 | patching the cached copy and writing the same block to the array keeps coherence |
| Driver.ReadFirst | smsa_driver.c:101-116 | the first block's data is its remote copy; coherence holds afterwards; the block is cached afterwards in a cache of the same size; it misses exactly when the block was not cached, and issues a drum seek, then on a miss a block seek and a block read |
| Driver.ReadNext | smsa_driver.c:142-154 | a later block's data is its remote copy; coherence holds afterwards; the block is cached afterwards in a cache of the same size; a hit issues nothing, a miss issues a block read, preceded by a block seek when the previous block hit or this is block 0 |
| Driver.TakeHolds | smsa_driver.c:118-124 | the bytes the copy loop takes from a block are the flat-space bytes from the block's position plus the offset |
| Driver.ReadLoop | smsa_driver.c:131-165 | the loop succeeds exactly when the range ends within drum 15; it then fills exactly `len` bytes, every byte copied is the array's byte at its position, and coherence and trace validity hold; past a drum's end its first request is a drum seek to block 0 of the next drum |
| Driver.ReadOn | smsa_driver.c:142-164 | one block of the loop followed by the rest keeps the guarantees of the loop |
| Driver.ReadFrom | smsa_driver.c:97-168 | the bytes read are the array's bytes from the start position on; -1 exactly when the range runs past the array; the array is not changed |
| Driver.VRead | smsa_driver.c:83-168 | an undecodable address fails with nothing changed; otherwise the read succeeds exactly when the range fits, fills `len` bytes with the array's bytes from the address on, and leaves the array, coherence and trace validity intact |
| Driver.WriteFetch | smsa_driver.c:199-215 | after the fetch the block is cached with its remote copy, the cache keeps its size and coherence holds; it issues a drum and block seek when asked to, then on a miss a block read and a block seek back |
| Driver.WriteBlock | smsa_driver.c:199-224 | one block write consumes `min(256-from, remaining)` bytes, replaces exactly that block of the array with the spliced copy, keeps coherence, and ends with one block-write request after the fetch's requests |
| Driver.WriteBlockOverwrites | smsa_driver.c:217-223 | writing a spliced block overwrites exactly its byte range of the flat space with the data bytes |
| Driver.WriteLoop | smsa_driver.c:229-259 | the loop succeeds exactly when the range ends within drum 15; it overwrites the flat space from the current position up to the end of the data or of the array, nothing else, and keeps coherence; past a drum's end its first requests are a drum seek and a block seek to block 0 of the next drum |
| Driver.WriteOn | smsa_driver.c:235-258 | one block of the loop followed by the rest keeps the guarantees of the loop; when asked to seek, the drum and block seeks come first |
| Driver.WriteFrom | smsa_driver.c:195-262 | the write succeeds exactly when the range fits in the array, and keeps coherence and trace validity |
| Driver.WriteFromOverwrites | smsa_driver.c:195-262 | the array afterwards holds the data from the start position on, as far as the array reaches, and is unchanged elsewhere; a failed write is not rolled back |
| Driver.VWrite | smsa_driver.c:180-262 | an undecodable address fails with nothing changed; otherwise -1 exactly when the range runs past drum 15; coherence and trace validity hold |
| Driver.VWriteOverwrites | smsa_driver.c:180-262 | a write at a decodable address overwrites exactly the range from the address to the end of the data or of the array |
| Driver.ReadAfterWrite | smsa_driver.c:83-262 | after a successful write, reading the same range returns exactly the bytes written |
| Driver.VMount | smsa_driver.c:35-48 | sends the mount request and returns 0 exactly when the connect succeeds and the server answers the mount with its opcode and a return code other than -1; the socket becomes the connect result; on 0 it sets up an empty cache of `lines` lines, which is ready for use when `lines > 0` |
| Driver.VUnmount | smsa_driver.c:58-71 | frees exactly the occupied lines' buffers, each index once and in order, and nothing before a mount; it drops the cache and sends the unmount request; returns 0 exactly when the server answers the unmount with a return code other than -1 and the close succeeds; the socket is reset exactly when the exchange and the close succeed |

## Left out

- Driver.VUnmount: a second unmount in the source walks the freed cache with a stale line count, which is undefined behaviour; the model treats it like an unmount before any mount and frees nothing.
- `load_workload_file` and `save_workload_file` are file I/O. They are already commented out of mount and unmount, so they are not modelled.
- `client_connect`: the socket, address and `connect` calls are replaced by the connect result that `Peer` supplies.
- `wait_read` and the debug `printf` calls do OS interaction or logging only, so they are left out.
- Allocation: `malloc` and `calloc` failures are not modelled. Buffers are values owned by lines, and a freed buffer is a line that loses its value.
- Remote cursor: the server's drum and block cursor is not tracked. Read-block and write-block act on the block their opcode names. Seeks appear only in the trace.
- Results of `smsa_client_operation` inside `smsa_vread` and `smsa_vwrite` are ignored by the source, and each call is taken to succeed.
- Partial transfers in the main client: a `read` or `write` there either returns -1 or moves the whole header or block. Its short counts are not modelled; the backup client's loops are where partial transfers are modelled.
- Backup `receive_packet`: a length field above 264 would overrun the caller's 256-byte block. The model drains the payload as a byte sequence and leaves the overrun out.
- Backup transport: once the list of `read` or `write` results runs out, a call is taken to return 0, which is end of stream.
- Backup `smsa_client_operation` (smsa_client_backup.c:50-86) dispatches exactly like the main client's `Client.Operation`, so it is not modelled twice.
- Cache.Put: requires at least one line. With zero lines the source writes line 0 of a zero-length allocation, which is undefined behaviour.
- Timestamps: `gettimeofday` becomes a logical clock, and `compareTimes` is called on every pass of the victim loop but its result is ignored. The stray `;` in the victim loop makes the comparison dead code, so the last line is always the victim rather than the least recently used one. The model keeps the code's behaviour.
- Integer widths: `len` is `uint32_t` in `smsa_vread` and `smsa_vwrite` and is modelled as a natural number. Any length that succeeds fits inside the 1 MiB space, so it is far below 2^32.

## Findings

| source | as written | input that shows it | evidently intended | confidence | as-written member | corrected member |
|---|---|---|---|---|---|---|
| smsa_client_backup.c:141-158 | the send loops stop at 263 bytes with a block and 7 without | any request; for a mount, the 8-byte frame is sent without byte 7, the low byte of the return code | loop until the whole 264- or 8-byte frame is sent | high, not executed | BackupClient.SendPacket, BackupClient.SendPacketFallsShort | BackupClient.SendFrame |
