/** The Kernighan-Ritchie allocator: a circular free list threaded through the block headers. */
module Allocator {

  const BASE := 0
  const NULL := -1
  const MIN_UNITS := 4096
  const UNIT := 16

  /** Addresses count units of one header; `base` lies below the heap. */
  datatype Header = Header(ptr: int, size: int)
  datatype Option = None | Some(value: int)

  type Memory = map<int, Header>

  // ----- What a well-kept heap is -----

  /** `b` is the free block after `a` in address order, or `base` after the last. */
  predicate IsSucc(free: set<int>, a: int, b: int) {
    && b in free
    && (|| (a < b && forall c | c in free :: !(a < c < b))
        || (b == BASE && forall c | c in free :: c <= a))
  }

  /** A free block's header; only a block in `loose` may end where the next one begins. */
  predicate Node(mem: Memory, free: set<int>, loose: set<int>, a: int) {
    && a in mem && (if a == BASE then mem[a].size == 0 else BASE < a && mem[a].size >= 1)
    && IsSucc(free, a, mem[a].ptr)
    && (a < mem[a].ptr ==> a + mem[a].size <= mem[a].ptr && (a !in loose ==> a + mem[a].size < mem[a].ptr))
  }

  /** One address-ordered cycle through `base`. */
  ghost predicate FreeList(mem: Memory, free: set<int>, loose: set<int>) {
    BASE in free && forall a {:trigger Node(mem, free, loose, a)} | a in free :: Node(mem, free, loose, a)
  }

  predicate Within(mem: Memory, a: int, u: int)
    requires a in mem
  {
    a <= u < a + mem[a].size
  }

  ghost predicate InMemory(mem: Memory, free: set<int>, live: map<int, int>) {
    && (forall a | a in free :: a in mem)
    && (forall a | a in live :: a in mem)
  }

  /** Every unit obtained from `sbrk` lies in exactly one block, free or live: the one `owner` names. */
  ghost predicate Owned(mem: Memory, free: set<int>, live: map<int, int>, owner: map<int, int>)
    requires InMemory(mem, free, live)
  {
    && (forall u | u in owner :: (owner[u] in free || owner[u] in live) && Within(mem, owner[u], u))
    && (forall a, u | a in free && Within(mem, a, u) :: u in owner && owner[u] == a)
    && (forall a, u | a in live && Within(mem, a, u) :: u in owner && owner[u] == a)
  }

  ghost predicate LiveBlocks(mem: Memory, free: set<int>, live: map<int, int>) {
    forall a | a in live :: a in mem && a > BASE && a !in free && live[a] == mem[a].size >= 1
  }

  ghost predicate Consistent(mem: Memory, free: set<int>, live: map<int, int>, owner: map<int, int>, loose: set<int>) {
    && FreeList(mem, free, loose) && InMemory(mem, free, live)
    && LiveBlocks(mem, free, live) && Owned(mem, free, live, owner)
  }

  /** Two different blocks share no unit. */
  lemma Apart(mem: Memory, free: set<int>, live: map<int, int>, owner: map<int, int>, loose: set<int>, a: int, b: int)
    requires Consistent(mem, free, live, owner, loose)
    requires a in free || a in live
    requires b in free || b in live
    requires a < b
    ensures a + mem[a].size <= b
  {
    assert a in free ==> Node(mem, free, loose, a);
    assert b in free ==> Node(mem, free, loose, b);
    assert Within(mem, b, b);
    assert !Within(mem, a, b);
  }

  lemma OwnsItself(mem: Memory, free: set<int>, live: map<int, int>, owner: map<int, int>, a: int)
    requires Consistent(mem, free, live, owner, {}) && a != BASE
    ensures a in free || a in live ==> a in owner && owner[a] == a
  {
    if a in free || a in live {
      assert a in free ==> Node(mem, free, {}, a);
      assert Within(mem, a, a);
    }
  }

  lemma InsideNoBlock(mem: Memory, free: set<int>, live: map<int, int>, owner: map<int, int>, p: int, t: int)
    requires Consistent(mem, free, live, owner, {}) && BASE < p && p in free && p < t && Within(mem, p, t)
    ensures t !in free && t !in live
  {
    OwnsItself(mem, free, live, owner, t);
  }

  // ----- Linking and merging -----

  /** `p` is the last free block below `bp`. */
  predicate Precedes(free: set<int>, p: int, bp: int) {
    p in free && p < bp && forall c | c in free :: c <= p || bp < c
  }

  function Link(mem: Memory, p: int, bp: int): Memory
    requires p in mem && bp in mem
  {
    mem[bp := Header(mem[p].ptr, mem[bp].size)][p := Header(bp, mem[p].size)]
  }

  lemma LinkList(mem: Memory, free: set<int>, p: int, bp: int)
    requires FreeList(mem, free, {}) && Precedes(free, p, bp) && p in mem && bp in mem && mem[bp].size >= 1
    requires p + mem[p].size <= bp && (mem[p].ptr != BASE ==> bp + mem[bp].size <= mem[p].ptr)
    ensures FreeList(Link(mem, p, bp), free + {bp}, {p, bp})
  {
    var mem', free' := Link(mem, p, bp), free + {bp};
    assert Node(mem, free, {}, BASE);
    assert Node(mem, free, {}, p);
    forall a | a in free' ensures Node(mem', free', {p, bp}, a) {
      assert a != bp ==> Node(mem, free, {}, a);
    }
  }

  lemma LinkConsistent(mem: Memory, free: set<int>, live: map<int, int>, owner: map<int, int>, p: int, bp: int)
    requires Consistent(mem, free, live, owner, {}) && bp in live && Precedes(free, p, bp)
    ensures Consistent(Link(mem, p, bp), free + {bp}, live - {bp}, owner, {p, bp})
  {
    Apart(mem, free, live, owner, {}, p, bp);
    assert Node(mem, free, {}, p);
    if mem[p].ptr != BASE { Apart(mem, free, live, owner, {}, bp, mem[p].ptr); }
    LinkList(mem, free, p, bp);
    LinkOwned(mem, free, live, owner, p, bp);
  }

  lemma LinkOwned(mem: Memory, free: set<int>, live: map<int, int>, owner: map<int, int>, p: int, bp: int)
    requires InMemory(mem, free, live) && Owned(mem, free, live, owner) && bp in live && p in free && p != bp
    ensures Owned(Link(mem, p, bp), free + {bp}, live - {bp}, owner)
  {
  }

  /** Block `a` swallows the free block that starts where it ends. */
  function Merge(mem: Memory, a: int): Memory
    requires a in mem && mem[a].ptr in mem
  {
    var b := mem[a].ptr;
    mem[a := Header(mem[b].ptr, mem[a].size + mem[b].size)]
  }

  predicate Touches(mem: Memory, free: set<int>, a: int) {
    a in free && a in mem && a < mem[a].ptr == a + mem[a].size && mem[a].ptr in mem
  }

  lemma MergeList(mem: Memory, free: set<int>, loose: set<int>, a: int)
    requires FreeList(mem, free, loose) && Touches(mem, free, a) && mem[a].ptr !in loose
    ensures FreeList(Merge(mem, a), free - {mem[a].ptr}, loose - {a})
  {
    var b := mem[a].ptr;
    var mem', free' := Merge(mem, a), free - {b};
    assert Node(mem, free, loose, a);
    assert Node(mem, free, loose, b);
    forall c | c in free' ensures Node(mem', free', loose - {a}, c) {
      assert Node(mem, free, loose, c);
    }
  }

  function MergeOwner(owner: map<int, int>, a: int, b: int): map<int, int> {
    map u | u in owner :: if owner[u] == b then a else owner[u]
  }

  lemma MergeConsistent(mem: Memory, free: set<int>, live: map<int, int>, owner: map<int, int>, loose: set<int>, a: int)
    requires Consistent(mem, free, live, owner, loose) && Touches(mem, free, a) && mem[a].ptr !in loose
    ensures Consistent(Merge(mem, a), free - {mem[a].ptr}, live, MergeOwner(owner, a, mem[a].ptr), loose - {a})
  {
    MergeList(mem, free, loose, a);
    assert Node(mem, free, loose, a);
    assert Node(mem, free, loose, mem[a].ptr);
    MergeOwned(mem, free, live, owner, a);
  }

  lemma MergeOwned(mem: Memory, free: set<int>, live: map<int, int>, owner: map<int, int>, a: int)
    requires InMemory(mem, free, live) && Owned(mem, free, live, owner) && Touches(mem, free, a)
    requires mem[a].ptr in free && a !in live && mem[a].ptr !in live
    requires mem[a].size >= 1 && mem[mem[a].ptr].size >= 1
    ensures Owned(Merge(mem, a), free - {mem[a].ptr}, live, MergeOwner(owner, a, mem[a].ptr))
  {
    var b := mem[a].ptr;
    var mem' := Merge(mem, a);
    assert forall u :: Within(mem', a, u) <==> Within(mem, a, u) || Within(mem, b, u);
  }

  /** The headers after `free` has linked `bp` in behind `p` and merged it with either neighbour. */
  function Spliced(mem: Memory, p: int, bp: int): (m: Memory)
    requires p in mem && bp in mem && mem[p].ptr in mem && p != bp
  {
    var q := mem[p].ptr;
    var mid := if bp + mem[bp].size == q then Header(mem[q].ptr, mem[bp].size + mem[q].size) else Header(q, mem[bp].size);
    var low := if p + mem[p].size == bp then Header(mid.ptr, mem[p].size + mid.size) else Header(bp, mem[p].size);
    mem[bp := mid][p := low]
  }

  /** Freeing keeps the heap consistent, moves no unit out of it and leaves room for the freed block. */
  lemma SpliceConsistent(mem: Memory, free: set<int>, live: map<int, int>, owner: map<int, int>, p: int, bp: int)
      returns (free': set<int>, owner': map<int, int>)
    requires Consistent(mem, free, live, owner, {}) && bp in live && Precedes(free, p, bp)
    ensures mem[p].ptr in mem
    ensures Consistent(Spliced(mem, p, bp), free', live - {bp}, owner', {})
    ensures p in free' && owner'.Keys == owner.Keys
    ensures Room(Spliced(mem, p, bp), free', live[bp])
  {
    assert Node(mem, free, {}, p);
    LinkConsistent(mem, free, live, owner, p, bp);
    var m1, live' := Link(mem, p, bp), live - {bp};
    var m2, m3;
    free', owner', m2 := MergeUp(m1, free + {bp}, live', owner, p, bp);
    free', owner', m3 := MergeDown(m2, free', live', owner', p, bp);
    assert m3 == Spliced(mem, p, bp);
  }

  /** The linked block swallows the one above it if they touch. */
  lemma MergeUp(mem: Memory, free: set<int>, live: map<int, int>, owner: map<int, int>, p: int, bp: int)
      returns (free': set<int>, owner': map<int, int>, mem': Memory)
    requires Consistent(mem, free, live, owner, {p, bp}) && p in free && bp in free && BASE <= p < bp && mem[p].ptr == bp
    ensures bp in mem && mem[bp].ptr in mem
    ensures mem' == if bp + mem[bp].size == mem[bp].ptr then Merge(mem, bp) else mem
    ensures Consistent(mem', free', live, owner', {p}) && p in free' && bp in free' && owner'.Keys == owner.Keys
    ensures mem'[p] == mem[p] && mem'[bp].size >= mem[bp].size
  {
    assert Node(mem, free, {p, bp}, bp);
    assert Node(mem, free, {p, bp}, p);
    assert Node(mem, free, {p, bp}, mem[bp].ptr);
    free', owner', mem' := free, owner, mem;
    if bp + mem[bp].size == mem[bp].ptr {
      MergeConsistent(mem, free, live, owner, {p, bp}, bp);
      owner', mem' := MergeOwner(owner, bp, mem[bp].ptr), Merge(mem, bp);
      free' := free - {mem[bp].ptr};
    } else {
      Tighten(mem, free, {p, bp}, bp);
    }
    assert {p, bp} - {bp} == {p};
  }

  /** The block below swallows the linked one if they touch. */
  lemma MergeDown(mem: Memory, free: set<int>, live: map<int, int>, owner: map<int, int>, p: int, bp: int)
      returns (free': set<int>, owner': map<int, int>, mem': Memory)
    requires Consistent(mem, free, live, owner, {p}) && p in free && bp in free && BASE <= p < bp && mem[p].ptr == bp
    ensures bp in mem && mem' == if p + mem[p].size == bp then Merge(mem, p) else mem
    ensures Consistent(mem', free', live, owner', {}) && p in free' && owner'.Keys == owner.Keys
    ensures Room(mem', free', mem[bp].size)
  {
    assert Node(mem, free, {p}, p);
    assert Node(mem, free, {p}, bp);
    free', owner', mem' := free, owner, mem;
    if p + mem[p].size == bp {
      MergeConsistent(mem, free, live, owner, {p}, p);
      owner', mem' := MergeOwner(owner, p, bp), Merge(mem, p);
      free' := free - {bp};
      assert mem'[p].size >= mem[bp].size;
    } else {
      Tighten(mem, free, {p}, p);
    }
    assert {p} - {p} == {};
  }

  lemma Tighten(mem: Memory, free: set<int>, loose: set<int>, a: int)
    requires FreeList(mem, free, loose) && a in free && a in mem && a + mem[a].size != mem[a].ptr
    ensures FreeList(mem, free, loose - {a})
  {
    forall c | c in free ensures Node(mem, free, loose - {a}, c) {
      assert Node(mem, free, loose, c);
    }
  }

  ghost predicate Room(mem: Memory, free: set<int>, n: int) {
    exists a :: a in free && a in mem && mem[a].size >= n
  }

  // ----- Taking a block -----

  /** `prev` no longer leads to `p`, which is handed out whole. */
  lemma UnlinkConsistent(mem: Memory, free: set<int>, live: map<int, int>, owner: map<int, int>, prev: int, p: int)
    requires Consistent(mem, free, live, owner, {}) && prev in free && p in free && p != BASE && mem[prev].ptr == p
    ensures Consistent(mem[prev := mem[prev].(ptr := mem[p].ptr)], free - {p}, live[p := mem[p].size], owner, {})
    ensures p !in live
  {
    assert Node(mem, free, {}, p);
    assert Node(mem, free, {}, prev);
    UnlinkList(mem, free, prev, p);
    SameSizesOwned(mem, mem[prev := mem[prev].(ptr := mem[p].ptr)], free, live, owner);
  }

  lemma UnlinkList(mem: Memory, free: set<int>, prev: int, p: int)
    requires FreeList(mem, free, {}) && prev in free && p in free && p != BASE
    requires prev in mem && p in mem && mem[prev].ptr == p
    ensures FreeList(mem[prev := mem[prev].(ptr := mem[p].ptr)], free - {p}, {})
  {
    var mem', free' := mem[prev := mem[prev].(ptr := mem[p].ptr)], free - {p};
    assert Node(mem, free, {}, prev) && Node(mem, free, {}, BASE) && Node(mem, free, {}, p);
    forall a | a in free' ensures Node(mem', free', {}, a) {
      assert Node(mem, free, {}, a);
    }
  }

  /** Ownership depends on the sizes alone. */
  lemma SameSizesOwned(mem: Memory, mem': Memory, free: set<int>, live: map<int, int>, owner: map<int, int>)
    requires InMemory(mem, free, live) && InMemory(mem', free, live) && Owned(mem, free, live, owner)
    requires forall a | a in free || a in live :: mem'[a].size == mem[a].size
    ensures Owned(mem', free, live, owner)
  {
    assert forall a, u | a in free || a in live :: Within(mem', a, u) <==> Within(mem, a, u);
  }

  /** The last `n` units of `p` become a block of their own. */
  function Carved(mem: Memory, p: int, n: int): Memory
    requires p in mem
  {
    var t := p + mem[p].size - n;
    mem[p := mem[p].(size := mem[p].size - n)][t := Header(if t in mem then mem[t].ptr else NULL, n)]
  }

  function CarvedOwner(owner: map<int, int>, t: int, n: int): map<int, int> {
    map u | u in owner :: if t <= u < t + n then t else owner[u]
  }

  lemma CarveConsistent(mem: Memory, free: set<int>, live: map<int, int>, owner: map<int, int>, p: int, n: int)
      returns (owner': map<int, int>)
    requires Consistent(mem, free, live, owner, {}) && p in free && 1 <= n < mem[p].size
    ensures var t := p + mem[p].size - n;
            t !in live && owner'.Keys == owner.Keys && Consistent(Carved(mem, p, n), free, live[t := n], owner', {})
  {
    var t := p + mem[p].size - n;
    owner' := CarvedOwner(owner, t, n);
    assert Node(mem, free, {}, p);
    InsideNoBlock(mem, free, live, owner, p, t);
    CarveList(mem, free, p, n);
    CarveOwned(mem, free, live, owner, p, n);
    CarveLive(mem, free, live, p, n);
  }

  lemma CarveLive(mem: Memory, free: set<int>, live: map<int, int>, p: int, n: int)
    requires LiveBlocks(mem, free, live) && BASE < p && p in free && p in mem && 1 <= n < mem[p].size
    requires p + mem[p].size - n !in free
    ensures LiveBlocks(Carved(mem, p, n), free, live[p + mem[p].size - n := n])
  {
  }

  lemma CarveList(mem: Memory, free: set<int>, p: int, n: int)
    requires FreeList(mem, free, {}) && p in free && p in mem && p != BASE && 1 <= n < mem[p].size
    requires p + mem[p].size - n !in free
    ensures FreeList(Carved(mem, p, n), free, {})
  {
    forall a | a in free ensures Node(Carved(mem, p, n), free, {}, a) {
      assert Node(mem, free, {}, a);
    }
  }

  lemma CarveOwned(mem: Memory, free: set<int>, live: map<int, int>, owner: map<int, int>, p: int, n: int)
    requires InMemory(mem, free, live) && Owned(mem, free, live, owner)
    requires p in free && p !in live && 1 <= n < mem[p].size
    requires p + mem[p].size - n !in free && p + mem[p].size - n !in live
    ensures var t := p + mem[p].size - n;
            Owned(Carved(mem, p, n), free, live[t := n], CarvedOwner(owner, t, n))
  {
    var t, mem', owner' := p + mem[p].size - n, Carved(mem, p, n), CarvedOwner(owner, p + mem[p].size - n, n);
    assert forall u :: Within(mem, p, u) <==> Within(mem', p, u) || Within(mem', t, u);
    forall a, u | a != p && (a in free || a in live) && Within(mem', a, u) ensures u in owner' && owner'[u] == a {
      assert Within(mem, a, u);
    }
  }

  function Range(at: int, n: int): (r: set<int>)
    ensures forall u :: u in r <==> at <= u < at + n
    decreases n
  {
    if n <= 0 then {} else Range(at, n - 1) + {at + n - 1}
  }

  function FreshOwner(at: int, n: int): map<int, int> {
    map u | u in Range(at, n) :: at
  }

  /** Fresh memory above the break, taken as one more live block. */
  lemma GrowConsistent(mem: Memory, free: set<int>, live: map<int, int>, owner: map<int, int>, at: int, n: int)
    requires Consistent(mem, free, live, owner, {}) && n >= 1 && at > BASE
    requires forall u | u in owner :: BASE < u < at
    ensures Consistent(mem[at := Header(NULL, n)], free, live[at := n], owner + FreshOwner(at, n), {})
    ensures at !in live
  {
    var mem' := mem[at := Header(NULL, n)];
    OwnsItself(mem, free, live, owner, at);
    forall a | a in free ensures Node(mem', free, {}, a) {
      assert Node(mem, free, {}, a);
    }
    GrowOwned(mem, free, live, owner, at, n);
  }

  lemma GrowOwned(mem: Memory, free: set<int>, live: map<int, int>, owner: map<int, int>, at: int, n: int)
    requires InMemory(mem, free, live) && Owned(mem, free, live, owner) && n >= 1
    requires at !in free && at !in live && forall u | u in owner :: u < at
    ensures Owned(mem[at := Header(NULL, n)], free, live[at := n], owner + FreshOwner(at, n))
  {
    var mem' := mem[at := Header(NULL, n)];
    assert forall a, u | a in free || a in live :: Within(mem', a, u) <==> Within(mem, a, u);
  }

  // ----- The program -----

  /** The free blocks from `p` round to `s`. */
  ghost function Ahead(free: set<int>, s: int, p: int): set<int> {
    if p <= s then set c | c in free && p <= c <= s else set c | c in free && (p <= c || c <= s)
  }

  /** The free blocks above `p`, up to `bp` when that is above too. */
  ghost function Above(free: set<int>, bp: int, p: int): set<int> {
    set c | c in free && p < c && (p < bp ==> c < bp)
  }

  /** From the block after `s` the search sees every free block. */
  lemma AheadAll(mem: Memory, free: set<int>, s: int)
    requires FreeList(mem, free, {}) && s in free && s in mem
    ensures forall c | c in free :: c in Ahead(free, s, mem[s].ptr)
  {
    assert Node(mem, free, {}, s);
    forall c | c in free ensures c in Ahead(free, s, mem[s].ptr) {
      assert Node(mem, free, {}, c);
    }
  }

  /** Each step of the search leaves exactly one block behind. */
  lemma AheadStep(mem: Memory, free: set<int>, s: int, p: int)
    requires FreeList(mem, free, {}) && s in free && p in free && p != s && p in mem
    ensures Ahead(free, s, mem[p].ptr) == Ahead(free, s, p) - {p} && p in Ahead(free, s, p)
  {
    assert Node(mem, free, {}, p);
    assert Node(mem, free, {}, s);
    forall c | c in free ensures c in Ahead(free, s, mem[p].ptr) <==> c in Ahead(free, s, p) && c != p {
      assert Node(mem, free, {}, c);
    }
  }

  class Heap {
    var mem: Memory
    var freep: int
    /** What the headers stand for: the free blocks, the blocks handed out and not yet freed with
        their sizes, the block each unit belongs to, and the end of the heap. */
    ghost var free: set<int>
    ghost var live: map<int, int>
    ghost var owner: map<int, int>
    ghost var brk: int

    ghost predicate Valid()
      reads this
    {
      && BASE < brk && (forall u | u in owner :: BASE < u < brk)
      && if freep == NULL then free == {} && live == map[] && owner == map[]
         else freep in free && Consistent(mem, free, live, owner, {})
    }

    constructor (start: int)
      requires BASE < start
      ensures Valid() && live == map[] && owner == map[] && brk == start
    {
      mem, freep, free, live, owner, brk := map[], NULL, {}, map[], map[], start;
    }

    /** The loop of `free`: the last free block below `bp`. */
    method Locate(bp: int) returns (p: int)
      requires freep in free && FreeList(mem, free, {}) && BASE < bp && bp !in free
      ensures Precedes(free, p, bp) && p in mem && mem[p].ptr in mem
    {
      p := freep;
      assert Node(mem, free, {}, p);
      assert Node(mem, free, {}, mem[p].ptr);
      while !(bp > p && bp < mem[p].ptr)
        invariant p in free && Node(mem, free, {}, p) && Node(mem, free, {}, mem[p].ptr)
        decreases p > bp, Above(free, bp, p)
      {
        if p >= mem[p].ptr && (bp > p || bp < mem[p].ptr) {
          break;
        }
        ghost var before := Above(free, bp, p);
        p := mem[p].ptr;
        assert p != BASE ==> p in before && p !in Above(free, bp, p) && Above(free, bp, p) <= before;
        assert Node(mem, free, {}, mem[p].ptr);
      }
    }

    /** The rest of `free`: links `bp` in after `p`, coalescing. */
    method Splice(p: int, bp: int)
      requires p in mem && bp in mem && mem[p].ptr in mem && p != bp && mem[bp].size >= 1
      modifies this`mem
      ensures mem == Spliced(old(mem), p, bp)
    {
      if bp + mem[bp].size == mem[p].ptr {
        mem := mem[bp := mem[bp].(size := mem[bp].size + mem[mem[p].ptr].size)];
        mem := mem[bp := mem[bp].(ptr := mem[mem[p].ptr].ptr)];
      } else {
        mem := mem[bp := mem[bp].(ptr := mem[p].ptr)];
      }
      if p + mem[p].size == bp {
        mem := mem[p := mem[p].(size := mem[p].size + mem[bp].size)];
        mem := mem[p := mem[p].(ptr := mem[bp].ptr)];
      } else {
        mem := mem[p := mem[p].(ptr := bp)];
      }
    }

    method Free(ap: int)
      requires Valid() && ap - 1 in live
      modifies this
      ensures Valid() && freep != NULL
      ensures live == old(live) - {ap - 1} && owner.Keys == old(owner.Keys) && brk == old(brk)
      ensures Room(mem, free, old(live)[ap - 1])
    {
      var bp := ap - 1;
      OwnsItself(mem, free, live, owner, bp);
      var p := Locate(bp);
      ghost var free', owner' := SpliceConsistent(mem, free, live, owner, p, bp);
      Splice(p, bp);
      freep := p;
      free, owner, live := free', owner', live - {bp};
    }

    /** The new memory as one block in use. */
    method Extend(at: int, n: int)
      requires Valid() && freep != NULL && n >= 1 && brk <= at
      modifies this
      ensures Valid() && freep != NULL && at !in old(live) && live == old(live)[at := n]
      ensures owner.Keys == old(owner.Keys) + Range(at, n)
    {
      GrowConsistent(mem, free, live, owner, at, n);
      mem := mem[at := Header(NULL, n)];
      live, owner, brk := live[at := n], owner + FreshOwner(at, n), at + n;
    }

    /** `at` is what `sbrk` answers: NULL, or fresh memory at or above the break. */
    method MoreCore(nu: int, at: int) returns (r: int)
      requires Valid() && freep != NULL && nu >= 1 && (at == NULL || brk <= at)
      modifies this
      ensures Valid() && freep != NULL && live == old(live)
      ensures at == NULL ==> r == NULL && mem == old(mem) && freep == old(freep) && free == old(free) && owner == old(owner)
      ensures at != NULL ==> r == freep && owner.Keys == old(owner.Keys) + Range(at, Units(nu)) && Room(mem, free, nu)
    {
      var n := if nu < MIN_UNITS then MIN_UNITS else nu;
      if at == NULL {
        return NULL;
      }
      Extend(at, n);
      Free(at + 1);
      r := freep;
    }

    method Carve(p: int, n: int) returns (t: int)
      requires p in mem
      modifies this`mem
      ensures mem == Carved(old(mem), p, n) && t == p + old(mem)[p].size - n
    {
      mem := mem[p := mem[p].(size := mem[p].size - n)];
      t := p + mem[p].size;
      mem := mem[t := Header(if t in mem then mem[t].ptr else NULL, n)];
    }

    /** Hands out `p`, whole or its last `n` units. */
    method Take(prevp: int, p: int, n: int) returns (t: int)
      requires Valid() && freep != NULL && prevp in free && p in free && mem[prevp].ptr == p && 1 <= n <= mem[p].size
      modifies this
      ensures Consistent(mem, free, live, owner, {}) && prevp in free && prevp != NULL && brk == old(brk)
      ensures t !in old(live) && live == old(live)[t := n] && owner.Keys == old(owner.Keys)
    {
      assert Node(mem, free, {}, p) && Node(mem, free, {}, prevp);
      if mem[p].size == n {
        Unlink(prevp, p);
        t := p;
      } else {
        t := CarveOff(p, n);
      }
    }

    method Unlink(prevp: int, p: int)
      requires Consistent(mem, free, live, owner, {}) && prevp in free && p in free && p != BASE && mem[prevp].ptr == p
      modifies this`mem, this`free, this`live
      ensures Consistent(mem, free, live, owner, {}) && free == old(free) - {p}
      ensures p !in old(live) && live == old(live)[p := old(mem)[p].size]
    {
      UnlinkConsistent(mem, free, live, owner, prevp, p);
      live := live[p := mem[p].size];
      mem := mem[prevp := mem[prevp].(ptr := mem[p].ptr)];
      free := free - {p};
    }

    method CarveOff(p: int, n: int) returns (t: int)
      requires Consistent(mem, free, live, owner, {}) && p in free && 1 <= n < mem[p].size
      modifies this`mem, this`live, this`owner
      ensures Consistent(mem, free, live, owner, {}) && owner.Keys == old(owner.Keys)
      ensures t !in old(live) && live == old(live)[t := n]
    {
      owner := CarveConsistent(mem, free, live, owner, p, n);
      t := Carve(p, n);
      live := live[t := n];
    }

    method Malloc(nbytes: nat, at: int) returns (r: Option)
      requires Valid() && (at == NULL || brk <= at)
      modifies this
      ensures Valid()
      ensures r.None? <==> !old(Room(mem, free, NUnits(nbytes))) && at == NULL
      ensures r.None? ==> live == old(live) && owner.Keys == old(owner.Keys)
      ensures r.Some? ==>
                && r.value - 1 !in old(live) && live == old(live)[r.value - 1 := NUnits(nbytes)]
                && owner.Keys == old(owner.Keys) +
                   (if old(Room(mem, free, NUnits(nbytes))) then {} else Range(at, Units(NUnits(nbytes))))
    {
      var nunits := (nbytes + UNIT - 1) / UNIT + 1;
      if freep == NULL {
        freep, free := BASE, {BASE};
        mem := mem[BASE := Header(BASE, 0)];
        assert Node(mem, free, {}, BASE);
      }
      r := Search(nunits, at);
    }

    /** One round of the loop of `malloc`, from the block after `freep`: the first block that fits,
        or `freep` again when none does. */
    method Scan(n: int) returns (prevp: int, p: int)
      requires FreeList(mem, free, {}) && freep in free && freep in mem
      ensures prevp in free && p in free && p in mem && prevp in mem && mem[prevp].ptr == p
      ensures mem[p].size >= n || (p == freep && !Room(mem, free, n))
    {
      prevp := freep;
      assert Node(mem, free, {}, prevp);
      p := mem[prevp].ptr;
      AheadAll(mem, free, freep);
      assert Node(mem, free, {}, p);
      while mem[p].size < n && p != freep
        invariant prevp in free && p in free && p in mem && prevp in mem && mem[prevp].ptr == p && Node(mem, free, {}, p)
        invariant Passed(mem, free, Ahead(free, freep, p), n)
        decreases Ahead(free, freep, p)
      {
        AheadStep(mem, free, freep, p);
        prevp := p;
        p := mem[p].ptr;
        assert Node(mem, free, {}, p);
      }
    }

    /** Rounds until a block fits. `at` is what `sbrk` would answer; it is asked at most once. */
    method Search(n: int, at: int) returns (r: Option)
      requires Valid() && freep != NULL && n >= 1 && (at == NULL || brk <= at)
      modifies this
      ensures Valid()
      ensures r.None? <==> !old(Room(mem, free, n)) && at == NULL
      ensures r.None? ==> live == old(live) && owner.Keys == old(owner.Keys)
      ensures r.Some? ==> r.value - 1 !in old(live) && live == old(live)[r.value - 1 := n]
      ensures r.Some? ==> owner.Keys == old(owner.Keys) + (if old(Room(mem, free, n)) then {} else Range(at, Units(n)))
    {
      ghost var grown := false;
      while true
        invariant Valid() && freep != NULL && live == old(live)
        invariant grown ==> at != NULL && Room(mem, free, n) && !old(Room(mem, free, n))
        invariant grown ==> owner.Keys == old(owner.Keys) + Range(at, Units(n))
        invariant !grown ==> mem == old(mem) && free == old(free) && owner == old(owner) && brk == old(brk)
        decreases !grown
      {
        var prevp, p := Scan(n);
        if mem[p].size >= n {
          var t := Take(prevp, p, n);
          freep := prevp;
          return Some(t + 1);
        }
        var core := MoreCore(n, at);
        if core == NULL {
          return None;
        }
        grown := true;
      }
    }
  }

  /** Every free block that is not still `ahead` is too small. */
  ghost predicate Passed(mem: Memory, free: set<int>, ahead: set<int>, n: int) {
    forall c | c in free && c !in ahead :: c in mem && mem[c].size < n
  }

  function NUnits(nbytes: nat): int {
    (nbytes + UNIT - 1) / UNIT + 1
  }

  function Units(nu: int): int {
    if nu < MIN_UNITS then MIN_UNITS else nu
  }

  lemma {:induction false} RangeSize(at: int, n: nat)
    ensures |Range(at, n)| == n
    decreases n
  {
    if n > 0 { RangeSize(at, n - 1); }
  }

  /** The units handed out hold the header and every byte asked for. */
  lemma RoomForBytes(nbytes: nat)
    ensures (NUnits(nbytes) - 2) * UNIT < nbytes <= (NUnits(nbytes) - 1) * UNIT
  {
  }

  // ----- What consistency means -----

  /** Following the links from `base` visits every free block once, upwards, and comes back to `base`;
      between two free blocks next to each other there is always something else. */
  lemma FreeCycle(mem: Memory, free: set<int>) returns (s: seq<int>)
    requires FreeList(mem, free, {})
    ensures IsCycle(mem, s) && forall a :: a in s <==> a in free
  {
    s := [BASE];
    assert Node(mem, free, {}, BASE);
    forall a | a in free ensures BASE <= a {
      assert Node(mem, free, {}, a);
    }
    var last := BASE;
    while mem[last].ptr != BASE
      invariant IsChain(mem, s) && last == s[|s| - 1] && Node(mem, free, {}, last)
      invariant forall a :: a in s <==> a in free && a <= last
      decreases Beyond(free, last)
    {
      var a := mem[last].ptr;
      assert Node(mem, free, {}, a);
      assert forall b | b in free :: !(last < b < a);
      assert Beyond(free, a) <= Beyond(free, last) && a in Beyond(free, last);
      ChainStep(mem, s, a);
      s, last := s + [a], a;
    }
    assert forall a | a in free :: a <= last;
  }

  /** An upward walk along the links, never stepping onto a block that touches the last. */
  predicate IsChain(mem: Memory, s: seq<int>) {
    && |s| > 0 && s[0] == BASE && (forall a | a in s :: a in mem)
    && (forall i | 0 <= i < |s| - 1 :: mem[s[i]].ptr == s[i + 1] && s[i] + mem[s[i]].size < s[i + 1])
  }

  predicate IsCycle(mem: Memory, s: seq<int>) {
    IsChain(mem, s) && s[|s| - 1] in mem && mem[s[|s| - 1]].ptr == s[0]
  }

  lemma ChainStep(mem: Memory, s: seq<int>, a: int)
    requires IsChain(mem, s) && s[|s| - 1] in mem && a in mem
    requires mem[s[|s| - 1]].ptr == a && s[|s| - 1] + mem[s[|s| - 1]].size < a
    ensures IsChain(mem, s + [a])
  {
  }

  ghost function Beyond(free: set<int>, a: int): set<int> {
    set b | b in free && b > a
  }

  /** The units in the blocks that start below `hi`. */
  function Total(mem: Memory, blocks: set<int>, hi: nat): int
    requires forall a | a in blocks :: a in mem
  {
    if hi == 0 then 0 else Total(mem, blocks, hi - 1) + if hi - 1 in blocks then mem[hi - 1].size else 0
  }

  ghost function OwnedBelow(owner: map<int, int>, hi: int): set<int> {
    set u | u in owner && owner[u] < hi
  }

  lemma {:induction false} Counted(mem: Memory, blocks: set<int>, owner: map<int, int>, hi: nat)
    requires forall a | a in blocks :: a in mem && mem[a].size >= 0
    requires forall u | u in owner :: owner[u] in blocks && owner[u] >= 0 && Within(mem, owner[u], u)
    requires forall a, u | a in blocks && Within(mem, a, u) :: u in owner && owner[u] == a
    ensures |OwnedBelow(owner, hi)| == Total(mem, blocks, hi)
  {
    if hi == 0 {
      assert forall u :: u !in OwnedBelow(owner, hi);
    } else {
      var a := hi - 1;
      Counted(mem, blocks, owner, a);
      if a in blocks {
        RangeSize(a, mem[a].size);
        UnitsOf(mem, blocks, owner, a);
        assert OwnedBelow(owner, hi) == OwnedBelow(owner, a) + Range(a, mem[a].size);
      } else {
        assert OwnedBelow(owner, hi) == OwnedBelow(owner, a);
      }
    }
  }

  lemma UnitsOf(mem: Memory, blocks: set<int>, owner: map<int, int>, a: int)
    requires a in blocks && forall b | b in blocks :: b in mem
    requires forall u | u in owner :: owner[u] in blocks && Within(mem, owner[u], u)
    requires forall b, u | b in blocks && Within(mem, b, u) :: u in owner && owner[u] == b
    ensures forall u :: u in Range(a, mem[a].size) <==> u in owner && owner[u] == a
  {
    forall u ensures u in Range(a, mem[a].size) <==> u in owner && owner[u] == a {
      assert u in Range(a, mem[a].size) ==> Within(mem, a, u);
    }
  }

  /** The free and live blocks together hold exactly as many units as `sbrk` has granted. */
  lemma UnitsConserved(mem: Memory, free: set<int>, live: map<int, int>, owner: map<int, int>, brk: nat)
    requires Consistent(mem, free, live, owner, {}) && forall u | u in owner :: BASE < u < brk
    ensures Total(mem, free + live.Keys, brk) == |owner|
  {
    var blocks := free + live.Keys;
    forall a | a in blocks ensures mem[a].size >= 0 && a >= 0 {
      assert a in free ==> Node(mem, free, {}, a);
    }
    Counted(mem, blocks, owner, brk);
    assert OwnedBelow(owner, brk) == owner.Keys;
  }
}
