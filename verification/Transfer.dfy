/** Fetching a byte window of a file from 512-byte chunks over a network that may lose, repeat and
    reorder datagrams. */
module Transfer {
  import opened Wire

  const CHUNK := 512  // written out in products and quotients, which are then linear
  const HEADER := 12
  const MSG_DATA_PACKET := 5
  const MAX_RANGE := 8
  const MAX_RETRANS := 16
  const SPINS := 10000
  const MAX_IDLE := 3
  const MAX_ROUNDS := 50
  const STALL_LIMIT := 6
  const TWO32 := 0x1_0000_0000

  datatype Recv = Nothing | Datagram(bytes: Bytes)
  datatype Meta = NoMeta | Meta(size: U32, chunks: U32, digest: Bytes)

  // ----- The chunk source -----

  /** `get_chunk`: the last chunk may be shorter. */
  function Chunk(file: Bytes, idx: nat): (c: Bytes)
    requires idx < Chunks(|file|)
    ensures |c| == if 512 * idx + CHUNK < |file| then CHUNK else |file| - 512 * idx
  {
    file[512 * idx..if 512 * idx + CHUNK < |file| then 512 * idx + CHUNK else |file|]
  }

  function Chunks(size: nat): nat {
    (size + CHUNK - 1) / 512
  }

  /** `data_packet`. */
  function DataPacket(id: Byte, idx: U32, chunk: Bytes): (d: Bytes)
    requires |chunk| <= CHUNK
    ensures |d| == HEADER + |chunk|
  {
    [MSG_DATA_PACKET, id, 0, 0] + Be32(idx) + [|chunk| / 256, |chunk| % 256] + [0, 0] + chunk
  }

  /** The chunk index and the payload length that the header declares. */
  function IndexIn(d: Bytes): (idx: nat)
    requires |d| >= HEADER
    ensures idx < TWO32
  {
    Be(d[4], d[5], d[6], d[7])
  }

  function LengthIn(d: Bytes): (len: nat)
    requires |d| >= HEADER
    ensures len < 0x1_0000
  {
    Be(0, 0, d[8], d[9])
  }

  /** Where a chunk begins and ends in the file, in 32-bit arithmetic. */
  function StartOf(idx: nat): nat {
    Wrap(512 * idx)
  }

  function EndOf(idx: nat, len: nat): nat {
    Wrap(StartOf(idx) + len)
  }

  /** The value of a number in 32 bits. */
  function Wrap(x: nat): (r: nat)
    ensures r < TWO32
  {
    if x < TWO32 then x else Wrap(x - TWO32)
  }

  lemma Span(idx: nat, len: nat)
    requires 512 * idx + len < TWO32
    ensures StartOf(idx) == 512 * idx && EndOf(idx, len) == 512 * idx + len
  {
  }

  /** A datagram the client takes for data is one that was built for this file. */
  ghost predicate Honest(file: Bytes, r: Recv) {
    r.Datagram? && |r.bytes| >= HEADER && r.bytes[0] == MSG_DATA_PACKET ==>
      var idx := IndexIn(r.bytes);
      idx < Chunks(|file|) && r.bytes == DataPacket(r.bytes[1], idx, Chunk(file, idx))
  }

  lemma PacketFields(id: Byte, idx: U32, chunk: Bytes)
    requires |chunk| <= CHUNK
    ensures var d := DataPacket(id, idx, chunk);
            d[0] == MSG_DATA_PACKET && IndexIn(d) == idx && LengthIn(d) == |chunk| && d[HEADER..] == chunk
  {
    BeRound(idx);
    var d := DataPacket(id, idx, chunk);
    var b := Be32(idx);
    assert d[4] == b[0] && d[5] == b[1] && d[6] == b[2] && d[7] == b[3];
  }

  // ----- The client -----

  /** `transfer_ctx_t`: the window `[winOff, winOff + winLen)`, the chunks that meet it and a bitmap of
      those that have arrived; and what the socket calls still to come will answer. */
  class Context {
    const dst: array<Byte>
    const received: array<bool>
    const fileSize: U32
    const totalChunks: U32
    const winOff: U32
    const winLen: U32
    const first: nat
    const last: nat
    const n: nat
    var inbox: seq<Recv>
    var sends: seq<bool>
    /** The file being served, and whether everything that arrives was built for it. */
    ghost const file: Bytes
    ghost const genuine: bool

    ghost predicate Shape() {
      && 512 * first <= winOff < 512 * first + CHUNK
      && (Fits() ==> winOff + winLen <= 512 * last < winOff + winLen + CHUNK)
      && (!Fits() && winOff + winLen < TWO32 ==> last == 0)
      && n == (if first <= last then last - first else last - first + TWO32) == received.Length
      && winLen <= dst.Length && (dst as object) != received
      && (genuine ==> Fits() && fileSize == |file| && totalChunks == Chunks(|file|) && winOff + winLen <= |file|)
    }

    /** The end of the window, rounded up to a chunk, is a 32-bit number. */
    predicate Fits() {
      winOff + winLen + CHUNK - 1 < TWO32
    }

    /** The bytes of the buffer that may be written: the window, or nothing when its end wraps. */
    function Limit(): nat {
      if Fits() then winLen else 0
    }

    /** The bits of the chunks from `first` up to `last`; there are none when `last` has wrapped. */
    function Tracked(bits: seq<bool>): seq<bool> {
      if first <= last then bits else []
    }

    /** The bitmap slot that byte `j` of the window waits for. */
    function Slot(j: nat): int {
      (winOff + j) / 512 - first
    }

    ghost predicate RightAt(j: nat)
      reads dst, received
    {
      j < winLen && j < dst.Length && winOff + j < |file| && 0 <= Slot(j) < received.Length && received[Slot(j)] ==>
        dst[j] == file[winOff + j]
    }

    ghost predicate Valid()
      reads this, dst, received
    {
      Shape() && (genuine ==> (forall r | r in inbox :: Honest(file, r)) && forall j: nat :: RightAt(j))
    }

    function Start(p: Bytes): int
      requires |p| >= HEADER
    {
      StartOf(IndexIn(p))
    }

    function End(p: Bytes): int
      requires |p| >= HEADER
    {
      EndOf(IndexIn(p), LengthIn(p))
    }

    predicate Accepts(p: Bytes) {
      && |p| >= HEADER && p[0] == MSG_DATA_PACKET && IndexIn(p) < totalChunks && first <= IndexIn(p) < last
      && |p| >= HEADER + LengthIn(p) && End(p) <= fileSize
    }

    /** `process_data_packet`: -1 refused, 0 repeated, 1 new. Whatever the packet says, the only bytes
        written are those of the window that it covers. */
    method ProcessDataPacket(p: Bytes) returns (r: int)
      requires Shape()
      modifies dst, received
      ensures r == if !Accepts(p) then -1 else if old(received[IndexIn(p) - first]) then 0 else 1
      ensures r != 1 ==> dst[..] == old(dst[..]) && received[..] == old(received[..])
      ensures r == 1 ==> received[..] == old(received[..])[IndexIn(p) - first := true] && Stored(p, old(dst[..]))
    {
      var ok := Check(p);
      if !ok {
        return -1;
      }
      var slot := IndexIn(p) - first;
      if received[slot] {
        return 0;
      }
      Store(p, slot);
      r := 1;
    }

    ghost predicate Stored(p: Bytes, was: Bytes)
      requires |p| >= HEADER
      reads dst
    {
      forall j | 0 <= j < dst.Length && j < |was| ::
        dst[j] == if j < winLen && winOff + winLen < TWO32 && 0 <= winOff + j - Start(p) < |p| - HEADER && winOff + j < End(p)
                  then p[HEADER + winOff + j - Start(p)] else was[j]
    }

    method Store(p: Bytes, slot: nat)
      requires Shape() && Accepts(p) && slot == IndexIn(p) - first
      modifies dst, received
      ensures received[..] == old(received[..])[slot := true] && Stored(p, old(dst[..]))
    {
      EndBounds(p);
      CopyCovered(p, Start(p), End(p));
      received[slot] := true;
    }

    method Check(p: Bytes) returns (ok: bool)
      ensures ok == Accepts(p)
    {
      if |p| < HEADER || p[0] != MSG_DATA_PACKET {
        return false;
      }
      var idx, payload := IndexIn(p), LengthIn(p);
      if idx >= totalChunks || !(first <= idx < last) || |p| < HEADER + payload {
        return false;
      }
      ok := EndOf(idx, payload) <= fileSize;
    }

    lemma EndBounds(p: Bytes)
      requires |p| >= HEADER
      ensures 0 <= Start(p) && (End(p) <= Start(p) || End(p) <= Start(p) + LengthIn(p))
    {
    }

    /** Clips `[start, end)` to the window on both sides and copies what is left. */
    method CopyCovered(p: Bytes, start: int, end: int)
      requires winLen <= dst.Length && 0 <= start && (end <= start || end <= start + |p| - HEADER)
      modifies dst
      ensures forall j | 0 <= j < dst.Length ::
                dst[j] == if j < winLen && winOff + winLen < TWO32 && start <= winOff + j < end
                          then p[HEADER + winOff + j - start] else old(dst[j])
    {
      var winEnd := (winOff + winLen) % 0x1_0000_0000;
      var copyStart := if start > winOff then start else winOff;
      var copyEnd := if end < winEnd then end else winEnd;
      if copyStart < copyEnd {
        Copy(p, HEADER + copyStart - start, copyStart - winOff, copyEnd - copyStart);
      }
    }

    method Copy(p: Bytes, src: nat, to: nat, len: nat)
      requires src + len <= |p| && to + len <= dst.Length
      modifies dst
      ensures forall j | 0 <= j < dst.Length :: dst[j] == if to <= j < to + len then p[src + j - to] else old(dst[j])
    {
      for i := 0 to len
        invariant forall j | 0 <= j < dst.Length :: dst[j] == if to <= j < to + i then p[src + j - to] else old(dst[j])
      {
        dst[to + i] := p[src + i];
      }
    }

    /** A genuine packet spans exactly its chunk. */
    lemma GenuineSpan(p: Bytes)
      requires |p| >= HEADER && p[0] == MSG_DATA_PACKET && Honest(file, Datagram(p)) && |file| < TWO32
      ensures IndexIn(p) < Chunks(|file|) && p[HEADER..] == Chunk(file, IndexIn(p))
      ensures Start(p) == 512 * IndexIn(p) && End(p) == 512 * IndexIn(p) + |p| - HEADER
    {
      var idx := IndexIn(p);
      var chunk := Chunk(file, idx);
      PacketFields(p[1], idx, chunk);
      Span(idx, |chunk|);
    }

    /** It covers the file positions of its chunk, with the file's own contents. */
    lemma GenuineBytes(p: Bytes, x: nat)
      requires |p| >= HEADER && p[0] == MSG_DATA_PACKET && Honest(file, Datagram(p)) && |file| < TWO32 && x < |file|
      ensures 0 <= x - Start(p) < |p| - HEADER && x < End(p) <==> x / 512 == IndexIn(p)
      ensures 0 <= x - Start(p) < |p| - HEADER && x < End(p) ==> p[HEADER + x - Start(p)] == file[x]
    {
      GenuineSpan(p);
      ChunkByte(p[HEADER..], IndexIn(p), x);
      if 0 <= x - Start(p) < |p| - HEADER {
        assert p[HEADER + x - Start(p)] == p[HEADER..][x - Start(p)];
      }
    }

    lemma ChunkByte(chunk: Bytes, idx: nat, x: nat)
      requires idx < Chunks(|file|) && chunk == Chunk(file, idx) && x < |file|
      ensures 0 <= x - 512 * idx < |chunk| <==> x / 512 == idx
      ensures 0 <= x - 512 * idx < |chunk| ==> chunk[x - 512 * idx] == file[x]
    {
    }

    lemma SlotIn(j: nat)
      requires Shape() && Fits() && j < winLen
      ensures 0 <= Slot(j) < n
    {
    }

    /** The bitmap after a datagram has been processed. */
    function Marked(bits: seq<bool>, p: Bytes): (marked: seq<bool>)
      requires |bits| == n && (first <= last ==> n == last - first)
      ensures |marked| == n
    {
      if Accepts(p) then bits[IndexIn(p) - first := true] else bits
    }

    /** Processes a datagram; what has been received stays right, and the window is all that is written. */
    method Process(p: Bytes) returns (added: bool)
      requires Valid() && (genuine ==> Honest(file, Datagram(p)))
      modifies dst, received
      ensures Valid() && dst[Limit()..] == old(dst[Limit()..]) && received[..] == Marked(old(received[..]), p)
      ensures Trues(received[..]) == Trues(old(received[..])) + if added then 1 else 0
    {
      var verdict := ProcessDataPacket(p);
      added := verdict == 1;
      if added {
        AfterNew(p);
      } else {
        AfterOld(p);
        if Accepts(p) { SetAgain(old(received[..]), IndexIn(p) - first); }
      }
    }

    twostate lemma AfterNew(p: Bytes)
      requires Shape() && old(Valid()) && Accepts(p) && (genuine ==> Honest(file, Datagram(p)))
      requires !old(received[IndexIn(p) - first]) && inbox == old(inbox)
      requires received[..] == old(received[..])[IndexIn(p) - first := true] && Stored(p, old(dst[..]))
      ensures Valid() && dst[Limit()..] == old(dst[Limit()..]) && Trues(received[..]) == Trues(old(received[..])) + 1
    {
      TruesSet(old(received[..]), IndexIn(p) - first);
      StoredWithin(p);
      if genuine { StoredRight(p); }
    }

    twostate lemma AfterOld(p: Bytes)
      requires Shape() && old(Valid()) && inbox == old(inbox)
      requires received[..] == old(received[..]) && dst[..] == old(dst[..])
      ensures Valid() && dst[Limit()..] == old(dst[Limit()..])
    {
      if genuine { UnchangedRight(); }
      assert dst[Limit()..] == dst[..][Limit()..];
    }

    /** One receive: a timeout, or a datagram that is processed. */
    method Receive() returns (arrived: bool, added: bool)
      requires Valid()
      modifies this`inbox, dst, received
      ensures Valid() && dst[Limit()..] == old(dst[Limit()..])
      ensures arrived <==> old(inbox) != [] && old(inbox)[0].Datagram? && old(inbox)[0].bytes != []
      ensures inbox == if old(inbox) == [] then [] else old(inbox)[1..]
      ensures (added ==> arrived) && Trues(received[..]) == Trues(old(received[..])) + if added then 1 else 0
      ensures received[..] == if arrived then Marked(old(received[..]), old(inbox)[0].bytes) else old(received[..])
    {
      if |inbox| == 0 {
        return false, false;
      }
      var r := inbox[0];
      assert genuine ==> Honest(file, r);
      inbox := inbox[1..];
      if r.Nothing? || |r.bytes| == 0 {
        return false, false;
      }
      arrived := true;
      added := Process(r.bytes);
    }

    twostate lemma UnchangedRight()
      requires Shape() && old(forall j: nat :: RightAt(j)) && received[..] == old(received[..]) && dst[..] == old(dst[..])
      ensures forall j: nat :: RightAt(j)
    {
      forall j: nat ensures RightAt(j) {
        assert old(RightAt(j));
        if j < winLen && 0 <= Slot(j) < received.Length {
          assert dst[j] == dst[..][j] && received[Slot(j)] == received[..][Slot(j)];
        }
      }
    }

    twostate lemma StoredWithin(p: Bytes)
      requires Shape() && Accepts(p) && Stored(p, old(dst[..]))
      ensures dst[Limit()..] == old(dst[Limit()..])
    {
      // when only the rounding wraps, no chunk is taken; when the end itself does, nothing is copied
      forall j | Limit() <= j < dst.Length ensures dst[j] == old(dst[j]) {
        assert old(dst[..])[j] == old(dst[j]);
      }
    }

    twostate lemma StoredRight(p: Bytes)
      requires Shape() && genuine && Accepts(p) && Honest(file, Datagram(p))
      requires old(forall j: nat :: RightAt(j))
      requires received[..] == old(received[..])[IndexIn(p) - first := true] && Stored(p, old(dst[..]))
      ensures forall j: nat :: RightAt(j)
    {
      forall j: nat ensures RightAt(j) {
        assert old(RightAt(j));
        if j < winLen {
          SlotIn(j);
          GenuineBytes(p, winOff + j);
          assert received[Slot(j)] == received[..][Slot(j)] && old(dst[..])[j] == old(dst[j]);
        }
      }
    }

    // ----- Bookkeeping -----

    method AllReceived() returns (all: bool)
      requires Shape()
      ensures all <==> forall i | 0 <= i < n :: received[i]
    {
      for i := 0 to n
        invariant forall k | 0 <= k < i :: received[k]
      {
        if !received[i] {
          return false;
        }
      }
      all := true;
    }

    method CountReceived() returns (count: nat)
      requires Shape()
      ensures count == Trues(received[..])
    {
      count := 0;
      for i := 0 to n
        invariant count == Trues(received[..i])
      {
        assert received[..i + 1][..i] == received[..i];
        if received[i] {
          count := count + 1;
        }
      }
      assert received[..n] == received[..];
    }

    method CountMissing(start: nat, end: nat) returns (count: nat)
      requires Shape() && start <= end
      ensures count == |Missing(Tracked(received[..]), first, start, end)|
    {
      count := 0;
      for i := start to end
        invariant count == |Missing(Tracked(received[..]), first, start, i)|
      {
        if !(first <= i < last) {
          continue;
        }
        if !received[i - first] {
          count := count + 1;
        }
      }
    }

    /** The first `MAX_RETRANS` missing chunks of a range. */
    method GetMissing(start: nat, end: nat) returns (indices: seq<nat>)
      requires Shape() && start <= end
      ensures indices <= Missing(Tracked(received[..]), first, start, end) && |indices| <= MAX_RETRANS
      ensures |indices| < MAX_RETRANS ==> indices == Missing(Tracked(received[..]), first, start, end)
      ensures forall k | 0 <= k < |indices| :: first <= indices[k] < last
    {
      indices := [];
      var i := start;
      while i < end && |indices| < MAX_RETRANS
        invariant start <= i <= end && |indices| <= MAX_RETRANS
        invariant indices == Missing(Tracked(received[..]), first, start, i)
        invariant forall k | 0 <= k < |indices| :: first <= indices[k] < last
      {
        if first <= i < last && !received[i - first] {
          indices := indices + [i];
        }
        i := i + 1;
      }
      MissingPrefix(Tracked(received[..]), first, start, i, end);
    }

    method Send() returns (ok: bool)
      modifies this`sends
      ensures ok <==> old(sends) != [] && old(sends)[0]
      ensures sends == if old(sends) == [] then [] else old(sends)[1..]
    {
      if |sends| == 0 {
        return false;
      }
      ok, sends := sends[0], sends[1..];
    }

    // ----- Receive loops -----

    /** Chunks below `k` have arrived and no other; those from `k` on come next, each once and in order,
        and nothing else. */
    ghost predicate Lossless(bits: seq<bool>, from: seq<Recv>, k: nat) {
      && first <= k <= last == k + |from| && n == |bits| == last - first
      && (forall i | 0 <= i < n :: bits[i] <==> i < k - first)
      && forall i {:trigger NextIs(from, k, i)} | 0 <= i < |from| :: NextIs(from, k, i)
    }

    predicate NextIs(from: seq<Recv>, k: nat, i: nat)
      requires i < |from|
    {
      from[i].Datagram? && Accepts(from[i].bytes) && IndexIn(from[i].bytes) == k + i
    }

    lemma MissingFrom(bits: seq<bool>, from: seq<Recv>, k: nat, start: nat, end: nat)
      requires Lossless(bits, from, k) && first <= start <= k <= end <= last
      ensures Missing(Tracked(bits), first, start, end) == [] <==> k == end
    {
      var m := Missing(Tracked(bits), first, start, end);
      HeadIn(m);
      assert k < end ==> k in m;
    }

    lemma OneMore(bits: seq<bool>, from: seq<Recv>, k: nat)
      requires Lossless(bits, from, k) && k < last
      ensures from[0].Datagram? && from[0].bytes != [] && Lossless(Marked(bits, from[0].bytes), from[1..], k + 1)
    {
      var rest, next := from[1..], k + 1;
      assert NextIs(from, k, 0);
      forall i | 0 <= i < |rest| ensures NextIs(rest, next, i) {
        assert NextIs(from, k, i + 1);
      }
    }

    method RequestChunkRange(start: nat, count: nat) returns (newChunks: nat)
      requires Valid()
      modifies this, dst, received
      ensures Valid() && dst[Limit()..] == old(dst[Limit()..])
      ensures Trues(received[..]) == Trues(old(received[..])) + newChunks
      ensures sends == old(sends) || (old(sends) != [] && sends == old(sends)[1..])
      ensures old(Lossless(received[..], inbox, start) && InRange(start, count) && sends != [] && sends[0]) ==>
                Lossless(received[..], inbox, start + count)
    {
      if Lossless(received[..], inbox, start) && InRange(start, count) {
        MissingFrom(received[..], inbox, start, start, start + count);
      }
      var missing := CountMissing(start, start + count);
      if missing == 0 {
        return 0;
      }
      var sent := Send();
      if !sent {
        return 0;
      }
      newChunks := ReceiveRange(start, count);
    }

    /** A batch of the window. */
    predicate InRange(start: nat, count: nat) {
      first <= start && 1 <= count <= SPINS && start + count <= last
    }

    /** A receive in which, if nothing is lost, chunk `k` is due. */
    method ReceiveNext(ghost k: nat) returns (arrived: bool, added: bool)
      requires Valid()
      modifies this`inbox, dst, received
      ensures Valid() && dst[Limit()..] == old(dst[Limit()..])
      ensures (added ==> arrived) && Trues(received[..]) == Trues(old(received[..])) + if added then 1 else 0
      ensures old(Lossless(received[..], inbox, k)) && k < last ==> arrived && Lossless(received[..], inbox, k + 1)
    {
      if Lossless(received[..], inbox, k) && k < last {
        OneMore(received[..], inbox, k);
      }
      arrived, added := Receive();
    }

    /** One turn of the receive loop of a batch; `idle` counts the empty receives in a row. */
    method ReceiveTurn(start: nat, count: nat, idle: nat, ghost k: nat) returns (added: bool, still: nat, stop: bool)
      requires Valid()
      modifies this`inbox, dst, received
      ensures Valid() && dst[Limit()..] == old(dst[Limit()..])
      ensures Trues(received[..]) == Trues(old(received[..])) + if added then 1 else 0
      ensures old(Lossless(received[..], inbox, k)) && InRange(start, count) && start <= k < start + count ==>
                Lossless(received[..], inbox, k + 1) && (stop <==> k + 1 == start + count)
    {
      var arrived;
      arrived, added := ReceiveNext(k);
      ghost var bits := received[..];
      still := if arrived then 0 else idle + 1;
      if still >= MAX_IDLE {
        return added, still, true;
      }
      var missing := CountMissing(start, start + count);
      assert received[..] == bits;
      if Lossless(bits, inbox, k + 1) && InRange(start, count) && start <= k < start + count {
        MissingFrom(bits, inbox, k + 1, start, start + count);
      }
      stop := missing == 0;
    }

    method ReceiveRange(start: nat, count: nat) returns (newChunks: nat)
      requires Valid()
      modifies this`inbox, dst, received
      ensures Valid() && dst[Limit()..] == old(dst[Limit()..])
      ensures Trues(received[..]) == Trues(old(received[..])) + newChunks
      ensures old(Lossless(received[..], inbox, start)) && InRange(start, count) ==>
                Lossless(received[..], inbox, start + count)
    {
      newChunks := 0;
      ghost var lossless := Lossless(received[..], inbox, start) && InRange(start, count);
      var idle := 0;
      for spins := 0 to SPINS
        invariant Valid() && dst[Limit()..] == old(dst[Limit()..])
        invariant Trues(received[..]) == Trues(old(received[..])) + newChunks
        invariant lossless ==> spins < count && Lossless(received[..], inbox, start + spins)
      {
        var added, stop;
        added, idle, stop := ReceiveTurn(start, count, idle, start + spins);
        newChunks := newChunks + if added then 1 else 0;
        if stop {
          break;
        }
      }
    }

    /** One round of retransmission requests over the whole window, sixteen chunks at a time. */
    method HandleMissing() returns (recovered: nat)
      requires Valid()
      modifies this, dst, received
      ensures Valid() && dst[Limit()..] == old(dst[Limit()..])
      ensures Trues(received[..]) == Trues(old(received[..])) + recovered && (last < first ==> recovered == 0)
    {
      recovered := 0;
      var start := first;
      while start < last
        invariant Valid() && dst[Limit()..] == old(dst[Limit()..]) && first <= start
        invariant Trues(received[..]) == Trues(old(received[..])) + recovered && (last < first ==> recovered == 0)
        decreases last - start
      {
        var missing := GetMissing(start, start + MAX_RETRANS);
        if |missing| > 0 {
          var sent := Send();
          if sent {
            var got := Retransmitted(missing);
            recovered := recovered + got;
          }
        }
        start := start + MAX_RETRANS;
      }
    }

    method Retransmitted(missing: seq<nat>) returns (recovered: nat)
      requires Valid() && forall k | 0 <= k < |missing| :: first <= missing[k] < last
      modifies this, dst, received
      ensures Valid() && dst[Limit()..] == old(dst[Limit()..])
      ensures Trues(received[..]) == Trues(old(received[..])) + recovered
    {
      recovered := 0;
      var idle := 0;
      for spins := 0 to SPINS
        invariant Valid() && dst[Limit()..] == old(dst[Limit()..])
        invariant Trues(received[..]) == Trues(old(received[..])) + recovered
      {
        var arrived, added := Receive();
        if arrived {
          idle := 0;
          if added {
            recovered := recovered + 1;
          }
        } else {
          idle := idle + 1;
          if idle >= MAX_IDLE {
            break;
          }
        }
        var stillMissing := false;
        for i := 0 to |missing| {
          if !received[missing[i] - first] {
            stillMissing := true;
            break;
          }
        }
        if !stillMissing {
          break;
        }
      }
    }

    /** Steps 2 and 3 of `llm_fetch_window`: batches of requests, then retransmission rounds until
        nothing is missing or no progress is made. */
    method Transfer() returns (complete: bool)
      requires Valid()
      modifies this, dst, received
      ensures Valid() && dst[Limit()..] == old(dst[Limit()..])
      ensures complete <==> forall i | 0 <= i < n :: received[i]
      ensures old(Lossless(received[..], inbox, first) && EverySent(inbox, sends)) ==> complete
      ensures last < first && Trues(old(received[..])) == 0 ==> !complete
    {
      var start := first;
      ghost var lossless := Lossless(received[..], inbox, first) && EverySent(inbox, sends);
      while start < last
        invariant Valid() && dst[Limit()..] == old(dst[Limit()..])
        invariant start >= first
        invariant lossless ==> Lossless(received[..], inbox, if start < last then start else last)
        invariant lossless ==> EverySent(inbox, sends)
        invariant last < first ==> Trues(received[..]) == Trues(old(received[..]))
        decreases last - start
      {
        var count := if start + MAX_RANGE > last then last - start else MAX_RANGE;
        var _ := RequestChunkRange(start, count);
        start := start + MAX_RANGE;
      }
      var round, stalled := 0, 0;
      complete := AllReceived();
      while !complete && stalled < STALL_LIMIT && round < MAX_ROUNDS
        invariant Valid() && dst[Limit()..] == old(dst[Limit()..])
        invariant complete <==> forall i | 0 <= i < n :: received[i]
        invariant lossless ==> complete
        invariant last < first ==> Trues(received[..]) == Trues(old(received[..]))
        decreases MAX_ROUNDS - round
      {
        var before := CountReceived();
        var _ := HandleMissing();
        var after := CountReceived();
        stalled := if after > before then 0 else stalled + 1;
        round := round + 1;
        complete := AllReceived();
      }
      if last < first && complete {
        TruesPositive(received[..], 0);
      }
    }

    lemma InOrderIsLossless()
      requires Shape() && first <= last && |inbox| == n && forall i | 0 <= i < n :: !received[i]
      requires fileSize == |file| && totalChunks == Chunks(|file|) && forall r | r in inbox :: Honest(file, r)
      requires forall i | 0 <= i < |inbox| :: IsChunk(inbox[i], first + i)
      ensures Lossless(received[..], inbox, first)
    {
      forall i | 0 <= i < |inbox| ensures NextIs(inbox, first, i) {
        assert IsChunk(inbox[i], first + i) && Honest(file, inbox[i]);
        var p := inbox[i].bytes;
        GenuineSpan(p);
        PacketFields(p[1], IndexIn(p), Chunk(file, IndexIn(p)));
      }
    }

    /** Once every chunk of the window has arrived, the buffer is the window. */
    lemma CompleteWindow()
      requires Valid() && genuine && forall i | 0 <= i < n :: received[i]
      ensures dst[..winLen] == file[winOff..winOff + winLen]
    {
      forall j | 0 <= j < winLen ensures dst[j] == file[winOff + j] {
        SlotIn(j);
        assert RightAt(j);
      }
    }

    constructor (buffer: array<Byte>, meta: Meta, off: U32, len: U32, arrivals: seq<Recv>, answers: seq<bool>,
                 ghost served: Bytes, ghost honest: bool)
      requires meta.Meta? && len <= buffer.Length
      requires honest ==> Genuine(meta, arrivals, served) && off + len <= |served| && RoundsUp(off, len)
      ensures Valid() && fresh(received) && dst == buffer && winOff == off && winLen == len
      ensures file == served && genuine == honest && inbox == arrivals && sends == answers
      ensures fileSize == meta.size && totalChunks == meta.chunks && forall i | 0 <= i < n :: !received[i]
      ensures first == off / 512 && last == LastChunk(off, len) && Trues(received[..]) == 0
    {
      dst, fileSize, totalChunks, winOff, winLen := buffer, meta.size, meta.chunks, off, len;
      var from, past := off / 512, (off + len + CHUNK - 1) % 0x1_0000_0000 / 512;
      first, last := from, past;
      n := (past - from) % 0x1_0000_0000;
      received := new bool[(past - from) % 0x1_0000_0000](_ => false);
      inbox, sends, file, genuine := arrivals, answers, served, honest;
      new;
      NoTrues(received[..]);
    }
  }

  /** The metadata describes the file, and no data packet was built for another. */
  ghost predicate Genuine(meta: Meta, inbox: seq<Recv>, file: Bytes) {
    && meta.Meta? && meta.size == |file| && meta.chunks == Chunks(|file|)
    && forall r | r in inbox :: Honest(file, r)
  }

  /** The length asked for; zero means to the end of the file. */
  function Wanted(size: U32, off: U32, len: U32): U32 {
    if len == 0 then (size - off) % 0x1_0000_0000 else len
  }

  /** The window check, in 32-bit arithmetic. */
  predicate InsideCheck(size: U32, off: U32, len: U32) {
    off < size && (off + len) % 0x1_0000_0000 <= size
  }

  /** Every request is sent, and the chunks of an accepted window arrive once each, in order. */
  predicate SentInOrder(size: U32, off: U32, len: U32, inbox: seq<Recv>, sends: seq<bool>) {
    var l := Wanted(size, off, len);
    && InsideCheck(size, off, l) && off / 512 + |inbox| == LastChunk(off, l)
    && EverySent(inbox, sends) && forall i | 0 <= i < |inbox| :: IsChunk(inbox[i], off / 512 + i)
  }

  predicate EverySent(inbox: seq<Recv>, sends: seq<bool>) {
    |inbox| <= |sends| && forall i | 0 <= i < |sends| :: sends[i]
  }

  predicate IsChunk(r: Recv, idx: nat) {
    r.Datagram? && |r.bytes| >= HEADER && r.bytes[0] == MSG_DATA_PACKET && IndexIn(r.bytes) == idx
  }

  /** The end of the window can be rounded up to a chunk in 32 bits. */
  predicate RoundsUp(off: U32, len: U32) {
    off + len + CHUNK - 1 < TWO32
  }

  /** The chunk after the window's last one, in 32-bit arithmetic. */
  function LastChunk(off: U32, len: U32): nat {
    (off + len + CHUNK - 1) % 0x1_0000_0000 / 512
  }

  /** An accepted window whose end wraps onto its own first chunk, so that it has no chunks to wait for. */
  predicate Untracked(size: U32, off: U32, len: U32) {
    InsideCheck(size, off, len) && !RoundsUp(off, len) && LastChunk(off, len) == off / 512
  }

  /** How much of the buffer may be written: the window, or nothing when it is refused or its end wraps. */
  function Written(meta: Meta, off: U32, len: U32): nat {
    if meta.NoMeta? then 0
    else
      var l := Wanted(meta.size, off, len);
      if InsideCheck(meta.size, off, l) && RoundsUp(off, l) then l else 0
  }

  /** `llm_fetch_window`: a window whose end rounds up in 32 bits is fetched right or not at all. One that does
      not is never written: it fails if it ends before its first chunk, succeeds if it has no chunks to wait for,
      and otherwise succeeds when the one it waits for arrives. `alloc` and `bound` are what `malloc` and `bind` answer, `hash` is the digest. */
  method FetchWindow(meta: Meta, dst: array<Byte>, off: U32, len: U32, inbox: seq<Recv>, sends: seq<bool>,
                     alloc: bool, bound: bool, hash: Bytes -> Bytes, ghost file: Bytes) returns (ok: bool)
    requires meta.Meta? && InsideCheck(meta.size, off, Wanted(meta.size, off, len)) ==>
               Wanted(meta.size, off, len) <= dst.Length
    modifies dst
    ensures ok ==> meta.Meta? && InsideCheck(meta.size, off, Wanted(meta.size, off, len))
    ensures ok && RoundsUp(off, Wanted(meta.size, off, len)) && Genuine(meta, inbox, file) ==>
              var l := Wanted(meta.size, off, len); dst[..l] == file[off..off + l]
    ensures ok && off == 0 && Wanted(meta.size, off, len) == meta.size ==> hash(dst[..meta.size]) == meta.digest
    ensures Genuine(meta, inbox, file) && SentInOrder(meta.size, off, len, inbox, sends) ==>
              var l := Wanted(meta.size, off, len);
              alloc && bound && (if RoundsUp(off, l) then meta.digest == hash(file) else off != 0 || l != meta.size) ==> ok
    ensures meta.Meta? && LastChunk(off, Wanted(meta.size, off, len)) < off / 512 ==> !ok
    ensures meta.Meta? && Untracked(meta.size, off, Wanted(meta.size, off, len)) && alloc && bound ==>
              off != 0 || Wanted(meta.size, off, len) != meta.size ==> ok
    ensures var l := Written(meta, off, len); l <= dst.Length && dst[l..] == old(dst[l..])
  {
    if meta.NoMeta? {
      return false;
    }
    var l := Wanted(meta.size, off, len);
    if off >= meta.size || (off + l) % 0x1_0000_0000 > meta.size {
      return false;
    }
    if !alloc || !bound {
      return false;
    }
    var ctx := new Context(dst, meta, off, l, inbox, sends, file,
                           Genuine(meta, inbox, file) && RoundsUp(off, l));
    if Genuine(meta, inbox, file) && SentInOrder(meta.size, off, len, inbox, sends) {
      ctx.InOrderIsLossless();
    }
    ok := ctx.Transfer();
    if !ok {
      return;
    }
    if ctx.genuine {
      ctx.CompleteWindow();
    }
    assert ctx.genuine && off == 0 && l == meta.size ==> dst[..l] == file;
    if off == 0 && l == meta.size && hash(dst[..l]) != meta.digest {
      return false;
    }
  }

  /** The 32-bit check admits a window outside the file exactly when offset plus length wraps. */
  lemma InsideCheckExact(size: U32, off: U32, len: U32)
    ensures InsideCheck(size, off, len) && off + len < TWO32 <==> off < size && off + len <= size
    ensures InsideCheck(size, off, len) && off + len >= TWO32 <==> off < size && TWO32 <= off + len <= size + TWO32
  {
  }

  /** Such a window: one byte into any two-byte file, of length 2^32 - 1. It is reported as fetched. */
  lemma InsideCheckWraps()
    ensures InsideCheck(2, 1, TWO32 - 1) && Untracked(2, 1, TWO32 - 1)
  {
  }

  lemma SetAgain(r: seq<bool>, i: nat)
    requires i < |r| && r[i]
    ensures r[i := true] == r
  {
  }

  lemma HeadIn(s: seq<nat>)
    ensures s != [] ==> s[0] in s
  {
  }

  lemma {:induction false} TruesPositive(r: seq<bool>, i: nat)
    requires i < |r| && r[i]
    ensures Trues(r) > 0
    decreases |r|
  {
    if i < |r| - 1 { TruesPositive(r[..|r| - 1], i); }
  }

  lemma {:induction false} NoTrues(r: seq<bool>)
    requires forall i | 0 <= i < |r| :: !r[i]
    ensures Trues(r) == 0
    decreases |r|
  {
    if r != [] { NoTrues(r[..|r| - 1]); }
  }

  function Trues(r: seq<bool>): nat {
    if r == [] then 0 else Trues(r[..|r| - 1]) + if r[|r| - 1] then 1 else 0
  }

  lemma {:induction false} TruesSet(r: seq<bool>, i: nat)
    requires i < |r| && !r[i]
    ensures Trues(r[i := true]) == Trues(r) + 1
    decreases |r|
  {
    var n := |r| - 1;
    if i < n {
      TruesSet(r[..n], i);
      assert r[i := true][..n] == r[..n][i := true];
    } else {
      assert r[i := true][..n] == r[..n];
    }
  }

  /** The chunks of `[start, end)` that belong to the window and have not arrived, in order. */
  function Missing(r: seq<bool>, first: nat, start: nat, end: nat): (m: seq<nat>)
    requires start <= end
    ensures forall i :: i in m <==> start <= i < end && first <= i < first + |r| && !r[i - first]
    decreases end
  {
    if start == end then []
    else
      var m := Missing(r, first, start, end - 1);
      if first <= end - 1 < first + |r| && !r[end - 1 - first] then m + [end - 1] else m
  }

  lemma {:induction false} MissingPrefix(r: seq<bool>, first: nat, start: nat, mid: nat, end: nat)
    requires start <= mid <= end
    ensures Missing(r, first, start, mid) <= Missing(r, first, start, end)
    decreases end
  {
    if mid < end { MissingPrefix(r, first, start, mid, end - 1); }
  }
}
