/** How the master splits the layers over the ring, and why the split is invisible: workers
    running their shards in ring order compute what the single-node layer loop computes. */
module LayerSplit {
  import opened Llama

  // ----- The closed form used by discovery_assign_one -----

  /** Layers `[Start(k), Start(k + 1))` go to the k-th of `n` workers. */
  function Start(total: nat, n: nat, k: nat): nat
    requires 1 <= n
  {
    var per, rem := total / n, total % n;
    k * per + (if k < rem then k else rem)
  }

  function Count(total: nat, n: nat, k: nat): nat
    requires 1 <= n
  {
    total / n + (if k < total % n then 1 else 0)
  }

  lemma StartStep(total: nat, n: nat, k: nat)
    requires 1 <= n
    ensures Start(total, n, k + 1) == Start(total, n, k) + Count(total, n, k)
  {
    assert (k + 1) * (total / n) == k * (total / n) + total / n;
  }

  lemma StartEnds(total: nat, n: nat)
    requires 1 <= n
    ensures Start(total, n, 0) == 0 && Start(total, n, n) == total
  {
    assert total == n * (total / n) + total % n;
  }

  lemma {:induction false} StartMono(total: nat, n: nat, j: nat, k: nat)
    requires 1 <= n <= total && j <= k <= n
    ensures Start(total, n, j) + (k - j) <= Start(total, n, k) <= total
    decreases n - j, n - k
  {
    if j < k {
      StartMono(total, n, j + 1, k);
      StartStep(total, n, j);
      PerAtLeastOne(total, n);
    } else if k < n {
      StartMono(total, n, k, k + 1);
    } else {
      StartEnds(total, n);
    }
  }

  lemma PerAtLeastOne(total: nat, n: nat)
    requires 1 <= n <= total
    ensures total / n >= 1
  {
    assert total == n * (total / n) + total % n;
  }

  /** Boundaries of consecutive non-empty ranges that cover `[0, total)`. */
  ghost predicate IsCut(cut: seq<nat>, total: nat) {
    && |cut| >= 2 && cut[0] == 0 && cut[|cut| - 1] == total
    && forall j, k | 0 <= j < k < |cut| :: cut[j] < cut[k]
  }

  /** The boundaries of the even split. */
  function Cut(total: nat, n: nat): (cut: seq<nat>)
    requires 1 <= n
    ensures |cut| == n + 1 && forall k | 0 <= k <= n :: cut[k] == Start(total, n, k)
  {
    seq(n + 1, k requires 0 <= k => Start(total, n, k))
  }

  lemma CutIsCut(total: nat, n: nat)
    requires 1 <= n <= total
    ensures IsCut(Cut(total, n), total)
  {
    StartEnds(total, n);
    var cut := Cut(total, n);
    forall j, k | 0 <= j < k < |cut| ensures cut[j] < cut[k] {
      StartMono(total, n, j, k);
    }
  }

  /** Every layer has exactly one owner. */
  lemma OneOwner(cut: seq<nat>, total: nat, l: nat) returns (owner: nat)
    requires IsCut(cut, total) && l < total
    ensures owner + 1 < |cut| && cut[owner] <= l < cut[owner + 1]
    ensures forall k | 0 <= k < |cut| - 1 && cut[k] <= l < cut[k + 1] :: k == owner
  {
    owner := 0;
    while l >= cut[owner + 1]
      invariant owner < |cut| - 1 && cut[owner] <= l
      decreases |cut| - owner
    {
      owner := owner + 1;
    }
  }

  /** The even split: no range is empty and two sizes differ by at most one. */
  lemma EvenSizes(total: nat, n: nat, j: nat, k: nat)
    requires 1 <= n <= total && j < n && k < n
    ensures var cut := Cut(total, n);
            1 <= cut[k + 1] - cut[k] <= cut[j + 1] - cut[j] + 1
  {
    StartStep(total, n, j);
    StartStep(total, n, k);
    PerAtLeastOne(total, n);
  }

  datatype Range = Range(start: nat, end: nat)

  datatype AssignResult<T> = Refused | Assigned(value: T)

  /** `discovery_assign_one`: the range of the k-th of `n` ACTIVE workers, or a refusal. The layer
      count arrives as a 32-bit word and is compared as a signed one. */
  method AssignOne(total: nat, n: nat, k: int) returns (r: AssignResult<Range>)
    requires total < 0x1_0000_0000
    ensures r.Assigned? <==> 0 <= k < n && n <= total < 0x8000_0000
    ensures r.Assigned? ==> r.value == Range(Start(total, n, k), Start(total, n, k + 1))
    ensures r.Assigned? ==> r.value.start < r.value.end <= total
  {
    if k < 0 || k >= n {
      return Refused;
    }
    var signed := if total < 0x8000_0000 then total else total - 0x1_0000_0000;
    if signed < n {
      return Refused;
    }
    var per, rem := total / n, total % n;
    var start := k * per + (if k < rem then k else rem);
    var count := per + (if k < rem then 1 else 0);
    StartStep(total, n, k);
    PerAtLeastOne(total, n);
    StartMono(total, n, k + 1, n);
    r := Assigned(Range(start, start + count));
  }

  /** `discovery_assign_layers`: the loop that hands out consecutive ranges. */
  method AssignLayers(total: nat, n: nat) returns (r: AssignResult<seq<Range>>)
    requires total < 0x1_0000_0000
    ensures r.Assigned? <==> 1 <= n <= total < 0x8000_0000
    ensures r.Assigned? ==> |r.value| == n
    ensures r.Assigned? ==> forall k | 0 <= k < n ::
              r.value[k] == Range(Start(total, n, k), Start(total, n, k + 1))
  {
    if n <= 0 {
      return Refused;
    }
    var signed := if total < 0x8000_0000 then total else total - 0x1_0000_0000;
    if signed < n {
      return Refused;
    }
    var per, rem := total / n, total % n;
    var nextLayer := 0;
    var ranges := [];
    for k := 0 to n
      invariant |ranges| == k && nextLayer == Start(total, n, k)
      invariant forall j | 0 <= j < k :: ranges[j] == Range(Start(total, n, j), Start(total, n, j + 1))
    {
      var count := per + (if k < rem then 1 else 0);
      StartStep(total, n, k);
      ranges := ranges + [Range(nextLayer, nextLayer + count)];
      nextLayer := nextLayer + count;
    }
    r := Assigned(ranges);
  }

  // ----- The ring as a function of the shards -----

  /** Room for `cap` positions in every layer. */
  predicate Roomy(cache: Cache, cap: nat) {
    forall i | 0 <= i < |cache| :: cap <= |cache[i]|
  }

  predicate RoomyRing(shards: seq<Cache>, cap: nat) {
    forall k | 0 <= k < |shards| :: Roomy(shards[k], cap)
  }

  /** Worker `k` keeps the first `cap` positions of the layers between its two boundaries. */
  ghost predicate IsSharding(cut: seq<nat>, shards: seq<Cache>, full: Cache, cap: nat) {
    && IsCut(cut, |full|) && |shards| == |cut| - 1
    && Roomy(full, cap)
    && forall k | 0 <= k < |shards| :: IsWindow(shards[k], Part(cut, full, k), cap)
  }

  ghost function Part(cut: seq<nat>, full: Cache, k: nat): Cache
    requires IsCut(cut, |full|) && k < |cut| - 1
  {
    full[cut[k]..cut[k + 1]]
  }

  lemma ShardingIsRoomy(cut: seq<nat>, shards: seq<Cache>, full: Cache, cap: nat)
    requires IsSharding(cut, shards, full, cap)
    ensures RoomyRing(shards, cap)
  {
    forall k, i | 0 <= k < |shards| && 0 <= i < |shards[k]| ensures cap <= |shards[k][i]| {
      assert IsWindow(shards[k], Part(cut, full, k), cap);
    }
  }

  /** The activation after `shard_forward` on the first `k` workers of the ring. */
  ghost function RingAct(m: Model, cut: seq<nat>, shards: seq<Cache>, cap: nat, x: Vec, pos: nat, k: nat): Vec
    requires RoomyRing(shards, cap) && pos < cap && k <= |shards| < |cut|
  {
    if k == 0 then x
    else OutOf(m, cut[k - 1], shards[k - 1], RingAct(m, cut, shards, cap, x, pos, k - 1), pos)
  }

  ghost function RingCaches(m: Model, cut: seq<nat>, shards: seq<Cache>, cap: nat, x: Vec, pos: nat): (r: seq<Cache>)
    requires RoomyRing(shards, cap) && pos < cap && |shards| < |cut|
    ensures |r| == |shards| && RoomyRing(r, cap)
  {
    seq(|shards|, k requires 0 <= k < |shards| =>
      CacheOf(m, cut[k], shards[k], RingAct(m, cut, shards, cap, x, pos, k), pos))
  }

  /** One token through the first `k` workers is one token through the layers they own. */
  lemma {:induction false} RingPrefix(m: Model, cut: seq<nat>, shards: seq<Cache>, full: Cache, cap: nat,
                                      x: Vec, pos: nat, k: nat)
    requires IsSharding(cut, shards, full, cap) && RoomyRing(shards, cap) && pos < cap && k <= |shards|
    ensures cut[k] <= |full|
    ensures RingAct(m, cut, shards, cap, x, pos, k) == Through(m, 0, full, x, pos, cut[k])
    decreases k
  {
    if k > 0 {
      RingPrefix(m, cut, shards, full, cap, x, pos, k - 1);
      var y := RingAct(m, cut, shards, cap, x, pos, k - 1);
      WindowRun(m, cut[k - 1], shards[k - 1], Part(cut, full, k - 1), y, pos, cap);
      ThroughSlice(m, full, x, pos, cut[k - 1], cut[k]);
    }
  }

  /** Running layers `[s, e)` on what layers `[0, s)` produced. */
  lemma ThroughSlice(m: Model, full: Cache, x: Vec, pos: nat, s: nat, e: nat)
    requires HasPosition(full, pos) && s <= e <= |full|
    ensures HasPosition(full[s..e], pos)
    ensures Through(m, 0, full, x, pos, e) == OutOf(m, s, full[s..e], Through(m, 0, full, x, pos, s), pos)
    ensures CacheOf(m, 0, full, x, pos)[s..e] == CacheOf(m, s, full[s..e], Through(m, 0, full, x, pos, s), pos)
  {
    var y := Through(m, 0, full, x, pos, s);
    ThroughShift(m, full, x, pos, s, e, e - s);
    var lhs, rhs := CacheOf(m, 0, full, x, pos)[s..e], CacheOf(m, s, full[s..e], y, pos);
    forall i | 0 <= i < e - s ensures lhs[i] == rhs[i] {
      RowSlice(m, full, x, pos, s, e, i);
    }
  }

  lemma RowSlice(m: Model, full: Cache, x: Vec, pos: nat, s: nat, e: nat, i: nat)
    requires HasPosition(full, pos) && s <= e <= |full| && i < e - s
    ensures HasPosition(full[s..e], pos)
    ensures CacheOf(m, 0, full, x, pos)[s + i] == CacheOf(m, s, full[s..e], Through(m, 0, full, x, pos, s), pos)[i]
  {
    ThroughShift(m, full, x, pos, s, e, i);
    assert full[s..e][i] == full[s + i];
  }

  lemma {:induction false} ThroughShift(m: Model, full: Cache, x: Vec, pos: nat, s: nat, e: nat, k: nat)
    requires HasPosition(full, pos) && s <= e <= |full| && k <= e - s
    ensures HasPosition(full[s..e], pos)
    ensures Through(m, s, full[s..e], Through(m, 0, full, x, pos, s), pos, k) == Through(m, 0, full, x, pos, s + k)
    decreases k
  {
    if k > 0 {
      ThroughShift(m, full, x, pos, s, e, k - 1);
      assert full[s..e][k - 1] == full[s + k - 1];
    }
  }

  /** One token round the whole ring is one call of `forward`: same activation, and the shards
      hold the window of the updated single-node cache that belongs to their layers. */
  lemma RingToken(m: Model, cut: seq<nat>, shards: seq<Cache>, full: Cache, cap: nat, x: Vec, pos: nat)
    requires IsSharding(cut, shards, full, cap) && pos < cap
    ensures RoomyRing(shards, cap)
    ensures RingAct(m, cut, shards, cap, x, pos, |shards|) == OutOf(m, 0, full, x, pos)
    ensures IsSharding(cut, RingCaches(m, cut, shards, cap, x, pos), CacheOf(m, 0, full, x, pos), cap)
  {
    ShardingIsRoomy(cut, shards, full, cap);
    RingPrefix(m, cut, shards, full, cap, x, pos, |shards|);
    StaysRoomy(m, full, cap, x, pos);
    var shards', full' := RingCaches(m, cut, shards, cap, x, pos), CacheOf(m, 0, full, x, pos);
    forall k | 0 <= k < |shards| ensures IsWindow(shards'[k], Part(cut, full', k), cap) {
      PartAfter(m, cut, shards, full, cap, x, pos, k);
    }
  }

  lemma StaysRoomy(m: Model, full: Cache, cap: nat, x: Vec, pos: nat)
    requires Roomy(full, cap) && pos < cap
    ensures HasPosition(full, pos) && Roomy(CacheOf(m, 0, full, x, pos), cap)
  {
  }

  /** What worker `k` keeps after the token is its part of the whole cache after the token. */
  lemma PartAfter(m: Model, cut: seq<nat>, shards: seq<Cache>, full: Cache, cap: nat, x: Vec, pos: nat, k: nat)
    requires IsSharding(cut, shards, full, cap) && RoomyRing(shards, cap) && pos < cap && k < |shards|
    ensures IsWindow(RingCaches(m, cut, shards, cap, x, pos)[k], Part(cut, CacheOf(m, 0, full, x, pos), k), cap)
  {
    RingPrefix(m, cut, shards, full, cap, x, pos, k);
    ThroughSlice(m, full, x, pos, cut[k], cut[k + 1]);
    WindowRun(m, cut[k], shards[k], Part(cut, full, k), RingAct(m, cut, shards, cap, x, pos, k), pos, cap);
  }

  // ----- A whole token sequence -----

  ghost function FeedFull(m: Model, full: Cache, cap: nat, toks: seq<nat>, p: nat): (r: Cache)
    requires Roomy(full, cap) && p <= |toks| && p <= cap
    ensures |r| == |full| && Roomy(r, cap)
  {
    if p == 0 then full
    else CacheOf(m, 0, FeedFull(m, full, cap, toks, p - 1), m.embed(toks[p - 1]), p - 1)
  }

  /** The shards after the first `p` tokens have gone round the ring. */
  ghost function FeedRing(m: Model, cut: seq<nat>, shards: seq<Cache>, cap: nat, toks: seq<nat>, p: nat): (r: seq<Cache>)
    requires RoomyRing(shards, cap) && |shards| < |cut| && p <= |toks| && p <= cap
    ensures |r| == |shards| && RoomyRing(r, cap)
  {
    if p == 0 then shards
    else RingCaches(m, cut, FeedRing(m, cut, shards, cap, toks, p - 1), cap, m.embed(toks[p - 1]), p - 1)
  }

  lemma {:induction false} FeedSharding(m: Model, cut: seq<nat>, shards: seq<Cache>, full: Cache, cap: nat,
                                        toks: seq<nat>, p: nat)
    requires IsSharding(cut, shards, full, cap) && p <= |toks| && p <= cap
    ensures RoomyRing(shards, cap)
    ensures IsSharding(cut, FeedRing(m, cut, shards, cap, toks, p), FeedFull(m, full, cap, toks, p), cap)
    decreases p
  {
    ShardingIsRoomy(cut, shards, full, cap);
    if p > 0 {
      FeedSharding(m, cut, shards, full, cap, toks, p - 1);
      RingToken(m, cut, FeedRing(m, cut, shards, cap, toks, p - 1), FeedFull(m, full, cap, toks, p - 1), cap,
                m.embed(toks[p - 1]), p - 1);
    }
  }

  /** The same for shards over any cut of the layers. */
  lemma AnyCut(m: Model, cut: seq<nat>, shards: seq<Cache>, full: Cache, cap: nat, toks: seq<nat>, p: nat)
    requires IsSharding(cut, shards, full, cap) && p < |toks| && p < cap
    ensures RoomyRing(shards, cap)
    ensures RingAct(m, cut, FeedRing(m, cut, shards, cap, toks, p), cap, m.embed(toks[p]), p, |shards|) ==
            OutOf(m, 0, FeedFull(m, full, cap, toks, p), m.embed(toks[p]), p)
  {
    FeedSharding(m, cut, shards, full, cap, toks, p);
    RingToken(m, cut, FeedRing(m, cut, shards, cap, toks, p), FeedFull(m, full, cap, toks, p), cap, m.embed(toks[p]), p);
  }

  /** For every layer count, every worker count not above it and every token sequence, the ring
      over the even split produces at each position the activation the single-node loop produces. */
  lemma RingEqualsForward(m: Model, n: nat, cut: seq<nat>, shards: seq<Cache>, full: Cache, cap: nat,
                          toks: seq<nat>, p: nat)
    requires 1 <= n <= |full| && cut == Cut(|full|, n) && IsSharding(cut, shards, full, cap)
    requires p < |toks| && p < cap
    ensures RoomyRing(shards, cap) && |shards| == n
    ensures RingAct(m, cut, FeedRing(m, cut, shards, cap, toks, p), cap, m.embed(toks[p]), p, n) ==
            OutOf(m, 0, FeedFull(m, full, cap, toks, p), m.embed(toks[p]), p)
  {
    AnyCut(m, cut, shards, full, cap, toks, p);
  }
}
