/** The LRU block cache of smsa_cache.c: a fixed array of lines, each empty or
    holding a (drum, block) key, a 256-byte buffer and a last-use timestamp.
    `gettimeofday` is replaced by a logical clock that ticks on every reading. */
module Cache {
  import opened Smsa

  /** One cache line. An empty line is the source's line with drum -1, block -1
      and a NULL buffer; its timestamp is never consulted and is not kept. */
  datatype Slot = Empty | Full(drum: int, block: int, line: BlockData, used: nat)

  /** The cache array (`numLines` is its length) and the logical clock. */
  datatype Cache = Cache(slots: seq<Slot>, clock: nat)

  /** The key comparison of the lookup loop; an empty line carries the (-1, -1) sentinel. */
  predicate Matches(s: Slot, drum: int, block: int) {
    match s
    case Empty => drum == -1 && block == -1
    case Full(d, b, _, _) => d == drum && b == block
  }

  /** A line and its replacement agree on key and buffer (they may differ in timestamp). */
  predicate SameEntry(s: Slot, t: Slot) {
    match s
    case Empty => t.Empty?
    case Full(d, b, line, _) => t.Full? && t.drum == d && t.block == b && t.line == line
  }

  /** Some occupied line holds (drum, block). */
  predicate Cached(slots: seq<Slot>, drum: int, block: int) {
    exists i :: 0 <= i < |slots| && slots[i].Full? && Matches(slots[i], drum, block)
  }

  /** Some line is unoccupied. */
  predicate HasEmpty(slots: seq<Slot>) {
    exists i :: 0 <= i < |slots| && slots[i].Empty?
  }

  /** Invariant of every cache the driver builds: occupied lines form a prefix,
      every key names a real block, and no key is held twice. */
  predicate Wf(slots: seq<Slot>) {
    && (forall i, j :: 0 <= i < j < |slots| && slots[i].Empty? ==> slots[j].Empty?)
    && (forall i :: 0 <= i < |slots| && slots[i].Full? ==> InArray(slots[i].drum, slots[i].block))
    && (forall i, j :: 0 <= i < j < |slots| && slots[i].Full? && slots[j].Full? ==>
          !(slots[i].drum == slots[j].drum && slots[i].block == slots[j].block))
  }

  /** `smsa_init_cache`: `lines` lines, all empty. */
  function Init(lines: nat): (c: Cache)
    ensures |c.slots| == lines
    ensures !HasEmpty(c.slots) <==> lines == 0
    ensures forall drum, block :: !Cached(c.slots, drum, block)
    ensures Wf(c.slots)
  {
    var c := Cache(seq(lines, _ => Empty), 0);
    assert lines > 0 ==> c.slots[0].Empty?;
    c
  }

  /** The scan of `smsa_get_cache_line` from index `i`: the first matching line, if any. */
  function FindKey(slots: seq<Slot>, drum: int, block: int, i: nat): (r: Option<nat>)
    requires i <= |slots|
    decreases |slots| - i
    ensures r.Some? ==> i <= r.value < |slots| && Matches(slots[r.value], drum, block)
    ensures r.Some? ==> forall j :: i <= j < r.value ==> !Matches(slots[j], drum, block)
    ensures r.None? ==> forall j :: i <= j < |slots| ==> !Matches(slots[j], drum, block)
  {
    if i == |slots| then None
    else if Matches(slots[i], drum, block) then Some(i)
    else FindKey(slots, drum, block, i + 1)
  }

  /** Result of a lookup: the cache with its refreshed timestamp, and the buffer
      found (None for the source's NULL). */
  datatype Hit = Hit(cache: Cache, line: Option<BlockData>)

  /** `smsa_get_cache_line`: the buffer of the first line whose key matches; on a
      hit that line's timestamp, and nothing else, is refreshed. */
  function Lookup(c: Cache, drum: int, block: int): (r: Hit)
    ensures |r.cache.slots| == |c.slots|
    ensures forall j :: 0 <= j < |c.slots| ==> SameEntry(c.slots[j], r.cache.slots[j])
    ensures r.line.Some? ==>
              exists i :: 0 <= i < |c.slots| && c.slots[i].Full? && Matches(c.slots[i], drum, block)
                && (forall j :: 0 <= j < i ==> !Matches(c.slots[j], drum, block))
                && r.line.value == c.slots[i].line
                && r.cache.slots == c.slots[i := c.slots[i].(used := c.clock)]
    ensures r.line.None? ==> r.cache.slots == c.slots
    ensures r.line.None? && (InArray(drum, block) || !HasEmpty(c.slots)) ==> !Cached(c.slots, drum, block)
    ensures r.cache.clock >= c.clock
  {
    match FindKey(c.slots, drum, block, 0)
    case None => Hit(c, None)
    case Some(i) =>
      match c.slots[i]
      case Empty => Hit(Cache(c.slots, c.clock + 1), None)
      case Full(d, b, line, _) =>
        Hit(Cache(c.slots[i := Full(d, b, line, c.clock)], c.clock + 1), Some(line))
  }

  /** The first-empty scan of `smsa_put_cache_line`, from index `i`. */
  function FirstEmpty(slots: seq<Slot>, i: nat): (r: Option<nat>)
    requires i <= |slots|
    decreases |slots| - i
    ensures r.Some? ==> i <= r.value < |slots| && slots[r.value].Empty?
    ensures r.Some? ==> forall j :: i <= j < r.value ==> slots[j].Full?
    ensures r.None? ==> forall j :: i <= j < |slots| ==> slots[j].Full?
  {
    if i == |slots| then None
    else if slots[i].Empty? then Some(i)
    else FirstEmpty(slots, i + 1)
  }

  /** The victim loop of `smsa_put_cache_line`, resumed at index `i` with
      candidate `lru`. The stray `;` after `if (result > 0)` leaves the `if`
      empty, so `iLRU = i` runs on every pass whatever the timestamps say. */
  function ScanVictim(n: nat, lru: nat, i: nat): (v: nat)
    requires lru < n && 1 <= i
    decreases n - i
    ensures i < n ==> v == n - 1
    ensures i >= n ==> v == lru
  {
    if i < n then ScanVictim(n, i, i + 1) else lru
  }

  /** `smsa_put_cache_line`: fill the lowest empty line; with none, overwrite
      the victim, which is always the last line. The evicted buffer is released. */
  function Put(c: Cache, drum: int, block: int, buf: BlockData): (r: Cache)
    requires |c.slots| > 0
    ensures |r.slots| == |c.slots|
    ensures r.clock > c.clock
    ensures HasEmpty(c.slots) ==>
              exists i :: 0 <= i < |c.slots| && c.slots[i].Empty?
                && (forall j :: 0 <= j < i ==> c.slots[j].Full?)
                && r.slots == c.slots[i := Full(drum, block, buf, c.clock)]
    ensures !HasEmpty(c.slots) ==> r.slots == c.slots[|c.slots| - 1 := Full(drum, block, buf, c.clock)]
  {
    var entry := Full(drum, block, buf, c.clock);
    match FirstEmpty(c.slots, 0)
    case Some(i) => Cache(c.slots[i := entry], c.clock + 1)
    case None =>
      var victim := ScanVictim(|c.slots|, 0, 1);
      Cache(c.slots[victim := entry], c.clock + 1)
  }

  /** Writing through the buffer pointer that lookup or insert handed out: the
      first line holding (drum, block) now holds `data`; key and timestamp stay. */
  function Patch(c: Cache, drum: int, block: int, data: BlockData): (r: Cache)
    ensures r.clock == c.clock && |r.slots| == |c.slots|
    ensures forall j :: 0 <= j < |c.slots| && !Matches(c.slots[j], drum, block) ==> r.slots[j] == c.slots[j]
    ensures InArray(drum, block) && Cached(c.slots, drum, block) ==>
              exists i :: 0 <= i < |c.slots| && c.slots[i].Full? && Matches(c.slots[i], drum, block)
                && r.slots == c.slots[i := c.slots[i].(line := data)]
  {
    match FindKey(c.slots, drum, block, 0)
    case None => c
    case Some(i) =>
      if c.slots[i].Empty? then c
      else Cache(c.slots[i := c.slots[i].(line := data)], c.clock)
  }

  /** `smsa_close_cache`: releases the buffer of every occupied line, once each
      and in line order; the result lists the lines whose buffer was freed. */
  method Close(c: Cache) returns (freed: seq<nat>)
    ensures forall k :: 0 <= k < |freed| ==> freed[k] < |c.slots| && c.slots[freed[k]].Full?
    ensures forall k, l :: 0 <= k < l < |freed| ==> freed[k] < freed[l]
    ensures forall i :: 0 <= i < |c.slots| && c.slots[i].Full? ==> i in freed
  {
    freed := [];
    var i := 0;
    while i < |c.slots|
      invariant 0 <= i <= |c.slots|
      invariant forall k :: 0 <= k < |freed| ==> freed[k] < i && c.slots[freed[k]].Full?
      invariant forall k, l :: 0 <= k < l < |freed| ==> freed[k] < freed[l]
      invariant forall j :: 0 <= j < i && c.slots[j].Full? ==> j in freed
    {
      if c.slots[i].Full? {
        freed := freed + [i];
      }
      i := i + 1;
    }
  }

  /** Lookups keep the invariant. */
  lemma LookupKeepsWf(c: Cache, drum: int, block: int)
    requires Wf(c.slots)
    ensures Wf(Lookup(c, drum, block).cache.slots)
  {
    var r := Lookup(c, drum, block);
    forall i | 0 <= i < |c.slots|
      ensures r.cache.slots[i].Empty? <==> c.slots[i].Empty?
      ensures r.cache.slots[i].Full? ==> r.cache.slots[i].drum == c.slots[i].drum && r.cache.slots[i].block == c.slots[i].block
    {
      assert SameEntry(c.slots[i], r.cache.slots[i]);
    }
  }

  /** Inserting a key the cache does not hold keeps the invariant: the new line
      extends the occupied prefix or replaces the last line. */
  lemma PutKeepsWf(c: Cache, drum: int, block: int, buf: BlockData)
    requires Wf(c.slots) && |c.slots| > 0
    requires InArray(drum, block) && !Cached(c.slots, drum, block)
    ensures Wf(Put(c, drum, block, buf).slots)
    ensures Cached(Put(c, drum, block, buf).slots, drum, block)
  {
    var r := Put(c, drum, block, buf);
    var n := |c.slots|;
    if HasEmpty(c.slots) {
      var i :| 0 <= i < n && c.slots[i].Empty? && (forall j :: 0 <= j < i ==> c.slots[j].Full?)
             && r.slots == c.slots[i := Full(drum, block, buf, c.clock)];
      assert Matches(r.slots[i], drum, block);
    } else {
      assert Matches(r.slots[n - 1], drum, block);
    }
  }

  /** Patching a line's buffer keeps the invariant. */
  lemma PatchKeepsWf(c: Cache, drum: int, block: int, data: BlockData)
    requires Wf(c.slots)
    ensures Wf(Patch(c, drum, block, data).slots)
  {
  }

  /** Read-after-insert inside the cache: looking up a key just inserted
      returns the inserted buffer. */
  lemma {:induction false} PutThenLookup(c: Cache, drum: int, block: int, buf: BlockData)
    requires Wf(c.slots) && |c.slots| > 0
    requires InArray(drum, block) && !Cached(c.slots, drum, block)
    ensures Lookup(Put(c, drum, block, buf), drum, block).line == Some(buf)
  {
    var r := Put(c, drum, block, buf);
    PutKeepsWf(c, drum, block, buf);
    var h := Lookup(r, drum, block);
    assert h.line.Some?;
    var i :| 0 <= i < |r.slots| && r.slots[i].Full? && Matches(r.slots[i], drum, block)
           && h.line.value == r.slots[i].line;
    assert r.slots[i] == Full(drum, block, buf, c.clock);
  }

  /** With every line occupied, inserting an absent key always drops the key
      of the last line and keeps every other key, whatever the timestamps
      say: the least recently used line is not what gets evicted. */
  lemma FullPutEvictsLast(c: Cache, drum: int, block: int, buf: BlockData)
    requires Wf(c.slots) && |c.slots| > 0 && !HasEmpty(c.slots)
    requires InArray(drum, block) && !Cached(c.slots, drum, block)
    ensures var last := c.slots[|c.slots| - 1];
            !Cached(Put(c, drum, block, buf).slots, last.drum, last.block)
    ensures forall i :: 0 <= i < |c.slots| - 1 ==>
              Cached(Put(c, drum, block, buf).slots, c.slots[i].drum, c.slots[i].block)
  {
    var n := |c.slots|;
    var r := Put(c, drum, block, buf);
    var last := c.slots[n - 1];
    assert last.Full?;
    forall i | 0 <= i < n && r.slots[i].Full?
      ensures !Matches(r.slots[i], last.drum, last.block)
    {
      if i == n - 1 {
        assert !Matches(c.slots[n - 1], drum, block);
      } else {
        assert r.slots[i] == c.slots[i];
      }
    }
    forall i | 0 <= i < n - 1
      ensures Cached(r.slots, c.slots[i].drum, c.slots[i].block)
    {
      assert c.slots[i].Full?;
      assert r.slots[i] == c.slots[i];
      assert Matches(r.slots[i], c.slots[i].drum, c.slots[i].block);
    }
  }

  /** With every line occupied, the line just used is the one evicted: insert
      A and B into a two-line cache, look up B, insert C, and B is gone while A
      (the least recently used) stays. */
  lemma RecentlyUsedIsEvicted(a: BlockData, b: BlockData, x: BlockData)
    ensures var c1 := Put(Put(Init(2), 0, 0, a), 0, 1, b);
            var c2 := Put(Lookup(c1, 0, 1).cache, 0, 2, x);
            c2.slots[0].Full? && c2.slots[0].drum == 0 && c2.slots[0].block == 0
            && !Cached(c2.slots, 0, 1)
  {
    var c0 := Init(2);
    var c1a := Put(c0, 0, 0, a);
    assert c0.slots[0].Empty?;
    assert c1a.slots == [Full(0, 0, a, 0), Empty];
    var c1 := Put(c1a, 0, 1, b);
    assert c1a.slots[1].Empty?;
    assert c1.slots == [Full(0, 0, a, 0), Full(0, 1, b, 1)];
    var h := Lookup(c1, 0, 1);
    assert h.cache.slots == [Full(0, 0, a, 0), Full(0, 1, b, 2)];
    var c2 := Put(h.cache, 0, 2, x);
    assert c2.slots == [Full(0, 0, a, 0), Full(0, 2, x, 3)];
  }
}
