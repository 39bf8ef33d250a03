/** The SHA-256 implementation: byte-wise context, 16-word schedule kept in place, rotating registers. */
module Sha256 {
  import opened Sha256Spec

  predicate StepAt<T(==)>(g: Alg<T>, w: seq<T>, t: nat)
    requires 16 <= t < |w|
  {
    w[t] == g.add(w[t - 16], g.add(g.add(w[t - 7], g.small0(w[t - 15])), g.small1(w[t - 2])))
  }

  /** The schedule, word by word, in the order the code adds. */
  ghost predicate Recurrence<T>(g: Alg<T>, block: Bytes, w: seq<T>) {
    && |w| == 64 == |block| && (forall t | 0 <= t < 16 :: w[t] == WordAt(g, block, 4 * t))
    && (forall t {:trigger StepAt(g, w, t)} | 16 <= t < 64 :: StepAt(g, w, t))
  }

  lemma ScheduleRecurrence<T(!new)>(g: Alg<T>, block: Bytes)
    requires Lawful(g) && |block| == 64
    ensures Recurrence(g, block, Schedule(g, block))
  {
    var w := Schedule(g, block);
    forall t | 16 <= t < 64 ensures StepAt(g, w, t) {
      Regroup(g, w[t - 16], w[t - 7], g.small0(w[t - 15]), g.small1(w[t - 2]));
    }
  }

  lemma Regroup<T(!new)>(g: Alg<T>, a: T, b: T, c: T, d: T)
    requires Lawful(g)
    ensures g.add(a, g.add(g.add(b, c), d)) == g.add(g.add(g.add(d, b), c), a)
  {
    assert CommAt(g, a, g.add(g.add(b, c), d));
    assert CommAt(g, g.add(b, c), d);
    assert AssocAt(g, d, b, c);
  }

  /** One round in the order the code adds: `temp` is T1. */
  lemma RoundStep<T(!new)>(g: Alg<T>, r: Regs<T>, k: T, w: T)
    requires Lawful(g)
    ensures var temp := g.add(g.add(g.add(r.h, g.add(g.big1(r.e), g.ch(r.e, r.f, r.g))), k), w);
            Round(g, r, k, w) == Regs(g.add(temp, g.add(g.big0(r.a), g.maj(r.a, r.b, r.c))), r.a, r.b, r.c,
                                      g.add(temp, r.d), r.e, r.f, r.g)
  {
    assert AssocAt(g, r.h, g.big1(r.e), g.ch(r.e, r.f, r.g));
    var temp := g.add(g.add(g.add(r.h, g.add(g.big1(r.e), g.ch(r.e, r.f, r.g))), k), w);
    assert CommAt(g, temp, r.d);
  }

  predicate RunsAt<T(==)>(f: (Regs<T>, nat) -> Regs<T>, p: Params<T>, w: seq<T>, r: Regs<T>, t: nat) {
    t < |p.k| && t < |w| ==> f(r, t) == Round(p.alg, r, p.k[t], w[t])
  }

  /** `f` is the round function of parameters `p` and schedule `w`. */
  ghost predicate Runs<T(!new)>(f: (Regs<T>, nat) -> Regs<T>, p: Params<T>, w: seq<T>) {
    forall r, t {:trigger RunsAt(f, p, w, r, t)} :: RunsAt(f, p, w, r, t)
  }

  lemma RoundFnRuns<T(!new)>(p: Params<T>, w: seq<T>)
    ensures Runs(RoundFn(p, w), p, w)
  {
    var f := RoundFn(p, w);
    forall r, t ensures RunsAt(f, p, w, r, t) {
    }
  }

  lemma NextRound<T(!new)>(f: (Regs<T>, nat) -> Regs<T>, p: Params<T>, w: seq<T>, r0: Regs<T>, t: nat)
    requires Runs(f, p, w) && t < |p.k| <= |w|
    ensures Iterate(f, r0, t + 1) == Round(p.alg, Iterate(f, r0, t), p.k[t], w[t])
  {
    assert RunsAt(f, p, w, Iterate(f, r0, t), t);
  }

  predicate ComputesAt<T(==)>(h: Machine<Regs<T>>, p: Params<T>, r: Regs<T>, block: Bytes)
    requires |p.k| == 64
  {
    |block| == 64 ==> h.compress(r, block) == Compress(p, r, block)
  }

  predicate OutputsAt<T(==)>(h: Machine<Regs<T>>, p: Params<T>, r: Regs<T>) {
    h.output(r) == Output(p.alg, r)
  }

  lemma ZerosToGo(blocks: nat, datalen: nat, z: nat)
    requires datalen < 64 && z < 64 && (64 * blocks + datalen + z) % 64 == 56
    ensures datalen + z == 56 || datalen + z == 120
  {
  }

  /** `h` is the iterated hash of parameters `p`. */
  ghost predicate Computes<T(!new)>(h: Machine<Regs<T>>, p: Params<T>) {
    && |p.k| == 64 && h.iv == p.iv
    && (forall r, block {:trigger ComputesAt(h, p, r, block)} :: ComputesAt(h, p, r, block))
    && (forall r {:trigger OutputsAt(h, p, r)} :: OutputsAt(h, p, r))
  }

  lemma MachineComputes<T(!new)>(p: Params<T>)
    requires |p.k| == 64
    ensures Computes(MachineOf(p), p)
  {
    var h := MachineOf(p);
    forall r, block ensures ComputesAt(h, p, r, block) {
    }
    forall r ensures OutputsAt(h, p, r) {
    }
  }

  lemma NextBits(n: nat)
    ensures ((8 * n) % TWO64 + 8) % TWO64 == (8 * (n + 1)) % TWO64
  {
  }

  class Context<T(0, !new)> {
    const p: Params<T>
    ghost const h: Machine<Regs<T>>
    const state: array<T>
    const data: array<bv8>
    var bitlen: nat
    var datalen: nat
    /** Every byte appended since initialisation, and how many whole blocks that makes. */
    ghost var fed: Bytes
    ghost var blocks: nat

    ghost predicate Shape() {
      state.Length == 8 && data.Length == 64 && |p.k| == 64 && Lawful(p.alg) && (state as object) != data
    }

    /** The chaining value covers the whole blocks fed so far; `data` holds the rest. */
    ghost predicate Valid()
      reads this, state, data
    {
      Buffered() && datalen < 64 && bitlen == (8 * |fed|) % TWO64
    }

    ghost predicate Buffered()
      reads this, state, data
    {
      && Shape() && Computes(h, p) && datalen <= 64 && |fed| == 64 * blocks + datalen
      && Vector() == Chain(h, fed, blocks) && data[..datalen] == fed[64 * blocks..]
    }

    function Step1(e: T, f: T, g: T): T {
      p.alg.add(p.alg.big1(e), p.alg.ch(e, f, g))
    }

    function Step2(a: T, b: T, c: T): T {
      p.alg.add(p.alg.big0(a), p.alg.maj(a, b, c))
    }

    /** From the 16 schedule words before `i` (anything, when `i` is 0) to the 16 from `i` on. */
    method UpdateM(m: array<T>, i: nat, block: Bytes, ghost w: seq<T>)
      requires Recurrence(p.alg, block, w) && m.Length == 16 && i + 16 <= 64
      requires i == 0 || (i >= 16 && forall x | 0 <= x < 16 :: m[x] == w[i - 16 + x])
      modifies m
      ensures forall x | 0 <= x < 16 :: m[x] == w[i + x]
    {
      var g := p.alg;
      for j := 0 to 16
        invariant forall x | 0 <= x < j :: m[x] == w[i + x]
        invariant i >= 16 ==> forall x | j <= x < 16 :: m[x] == w[i - 16 + x]
      {
        if i < 16 {
          m[j] := g.word(block[4 * j], block[4 * j + 1], block[4 * j + 2], block[4 * j + 3]);
        } else {
          assert StepAt(g, w, i + j);
          var next := NextWord(m, i, j, w);
          m[j] := next;
        }
      }
    }

    /** Word `i + j` of the schedule, from a window of which `j` words are already the new ones. */
    method NextWord(m: array<T>, i: nat, j: nat, ghost w: seq<T>) returns (next: T)
      requires m.Length == 16 && 16 <= i && i + 16 <= |w| && j < 16 && StepAt(p.alg, w, i + j)
      requires forall x | 0 <= x < 16 :: m[x] == if x < j then w[i + x] else w[i - 16 + x]
      ensures next == w[i + j]
    {
      var g := p.alg;
      var a, b := m[(j + 1) % 16], m[(j + 14) % 16];
      var s0, s1 := g.small0(a), g.small1(b);
      assert (j + 1) % 16 == if j < 15 then j + 1 else 0;
      assert (j + 14) % 16 == if j < 2 then j + 14 else j - 2;
      assert (j + 9) % 16 == if j < 7 then j + 9 else j - 7;
      next := g.add(m[j], g.add(g.add(m[(j + 9) % 16], s0), s1));
    }

    /** The eight registers, wherever the rotation has put them. */
    ghost function Read(lo: array<T>, hi: array<T>): Regs<T>
      requires lo.Length == 4 == hi.Length
      reads lo, hi
    {
      Regs(lo[0], lo[1], lo[2], lo[3], hi[0], hi[1], hi[2], hi[3])
    }

    /** Four rounds, after which each register is back in its own place; `r1` to `r4` are the states
        the standard goes through. */
    method FourRounds(lo: array<T>, hi: array<T>, k0: T, k1: T, k2: T, k3: T, m0: T, m1: T, m2: T, m3: T,
                      ghost r1: Regs<T>, ghost r2: Regs<T>, ghost r3: Regs<T>, ghost r4: Regs<T>)
      requires Lawful(p.alg) && lo.Length == 4 == hi.Length && lo != hi
      requires r1 == Round(p.alg, Read(lo, hi), k0, m0) && r2 == Round(p.alg, r1, k1, m1)
      requires r3 == Round(p.alg, r2, k2, m2) && r4 == Round(p.alg, r3, k3, m3)
      modifies lo, hi
      ensures Read(lo, hi) == r4
    {
      var g := p.alg;
      RoundStep(g, Read(lo, hi), k0, m0);
      var temp := g.add(g.add(g.add(hi[3], Step1(hi[0], hi[1], hi[2])), k0), m0);
      hi[3] := g.add(temp, lo[3]);
      lo[3] := g.add(temp, Step2(lo[0], lo[1], lo[2]));
      assert r1 == Regs(lo[3], lo[0], lo[1], lo[2], hi[3], hi[0], hi[1], hi[2]);

      RoundStep(g, r1, k1, m1);
      temp := g.add(g.add(g.add(hi[2], Step1(hi[3], hi[0], hi[1])), k1), m1);
      hi[2] := g.add(temp, lo[2]);
      lo[2] := g.add(temp, Step2(lo[3], lo[0], lo[1]));
      assert r2 == Regs(lo[2], lo[3], lo[0], lo[1], hi[2], hi[3], hi[0], hi[1]);

      RoundStep(g, r2, k2, m2);
      temp := g.add(g.add(g.add(hi[1], Step1(hi[2], hi[3], hi[0])), k2), m2);
      hi[1] := g.add(temp, lo[1]);
      lo[1] := g.add(temp, Step2(lo[2], lo[3], lo[0]));
      assert r3 == Regs(lo[1], lo[2], lo[3], lo[0], hi[1], hi[2], hi[3], hi[0]);

      RoundStep(g, r3, k3, m3);
      temp := g.add(g.add(g.add(hi[0], Step1(hi[1], hi[2], hi[3])), k3), m3);
      hi[0] := g.add(temp, lo[0]);
      lo[0] := g.add(temp, Step2(lo[1], lo[2], lo[3]));
    }

    ghost function Vector(): Regs<T>
      requires state.Length == 8
      reads state
    {
      Regs(state[0], state[1], state[2], state[3], state[4], state[5], state[6], state[7])
    }

    method FourAt(lo: array<T>, hi: array<T>, m: array<T>, i: nat, j: nat,
                  ghost f: (Regs<T>, nat) -> Regs<T>, ghost r0: Regs<T>, ghost w: seq<T>)
      requires Shape() && lo.Length == 4 == hi.Length && lo != hi && m.Length == 16
      requires |w| == 64 && i + 16 <= 64 && j + 4 <= 16 && (forall x | 0 <= x < 16 :: m[x] == w[i + x])
      requires Runs(f, p, w) && Read(lo, hi) == Iterate(f, r0, i + j)
      modifies lo, hi
      ensures Read(lo, hi) == Iterate(f, r0, i + j + 4)
    {
      ghost var t := i + j;
      var k0, k1, k2, k3 := p.k[i + j], p.k[i + j + 1], p.k[i + j + 2], p.k[i + j + 3];
      var m0, m1, m2, m3 := m[j], m[j + 1], m[j + 2], m[j + 3];
      ghost var r1, r2, r3, r4 := Iterate(f, r0, t + 1), Iterate(f, r0, t + 2), Iterate(f, r0, t + 3), Iterate(f, r0, t + 4);
      assert r1 == Round(p.alg, Read(lo, hi), k0, m0) by { NextRound(f, p, w, r0, t); }
      assert r2 == Round(p.alg, r1, k1, m1) by { NextRound(f, p, w, r0, t + 1); }
      assert r3 == Round(p.alg, r2, k2, m2) by { NextRound(f, p, w, r0, t + 2); }
      assert r4 == Round(p.alg, r3, k3, m3) by { NextRound(f, p, w, r0, t + 3); }
      FourRounds(lo, hi, k0, k1, k2, k3, m0, m1, m2, m3, r1, r2, r3, r4);
    }

    /** Sixteen rounds, four at a time, over the schedule words in `m`. */
    method SixteenRounds(lo: array<T>, hi: array<T>, m: array<T>, i: nat,
                         ghost f: (Regs<T>, nat) -> Regs<T>, ghost r0: Regs<T>, ghost w: seq<T>)
      requires Shape() && lo.Length == 4 == hi.Length && lo != hi && m.Length == 16 && m != lo && m != hi
      requires |w| == 64 && i + 16 <= 64 && (forall x | 0 <= x < 16 :: m[x] == w[i + x])
      requires Runs(f, p, w) && Read(lo, hi) == Iterate(f, r0, i)
      modifies lo, hi
      ensures Read(lo, hi) == Iterate(f, r0, i + 16)
    {
      var j := 0;
      while j < 16
        invariant j % 4 == 0 && j <= 16
        invariant Read(lo, hi) == Iterate(f, r0, i + j)
      {
        FourAt(lo, hi, m, i, j, f, r0, w);
        j := j + 4;
      }
    }

    /** All 64 rounds: four fillings of the 16-word schedule. */
    method AllRounds(lo: array<T>, hi: array<T>, block: Bytes, ghost f: (Regs<T>, nat) -> Regs<T>, ghost w: seq<T>)
      requires Shape() && lo.Length == 4 == hi.Length && lo != hi && Recurrence(p.alg, block, w) && Runs(f, p, w)
      modifies lo, hi
      ensures Read(lo, hi) == Iterate(f, old(Read(lo, hi)), |p.k|)
    {
      ghost var r0 := Read(lo, hi);
      var m := new T[16];
      var i := 0;
      while i < 64
        invariant i % 16 == 0 && i <= 64 && fresh(m)
        invariant i > 0 ==> forall x | 0 <= x < 16 :: m[x] == w[i - 16 + x]
        invariant Read(lo, hi) == Iterate(f, r0, i)
      {
        UpdateM(m, i, block, w);
        SixteenRounds(lo, hi, m, i, f, r0, w);
        i := i + 16;
      }
    }

    method AddBack(lo: array<T>, hi: array<T>)
      requires Shape() && lo.Length == 4 == hi.Length && lo != state && hi != state
      modifies state
      ensures Vector() == Plus(p.alg, old(Vector()), Read(lo, hi))
    {
      ghost var was := state[..];
      var g := p.alg;
      for i := 0 to 4
        invariant forall x | 0 <= x < 4 :: state[x] == if x < i then g.add(was[x], lo[x]) else was[x]
        invariant forall x | 4 <= x < 8 :: state[x] == if x < 4 + i then g.add(was[x], hi[x - 4]) else was[x]
      {
        state[i] := g.add(state[i], lo[i]);
        state[i + 4] := g.add(state[i + 4], hi[i]);
      }
    }

    method Load() returns (lo: array<T>, hi: array<T>)
      requires Shape()
      ensures fresh(lo) && fresh(hi) && lo != hi && lo.Length == 4 == hi.Length && Read(lo, hi) == Vector()
    {
      lo, hi := new T[4], new T[4];
      for i := 0 to 4
        invariant forall x | 0 <= x < i :: lo[x] == state[x] && hi[x] == state[x + 4]
      {
        lo[i], hi[i] := state[i], state[i + 4];
      }
    }

    method Block()
      requires Shape()
      modifies state
      ensures Vector() == Compress(p, old(Vector()), data[..])
    {
      var lo, hi := Load();
      ghost var w := Schedule(p.alg, data[..]);
      ScheduleRecurrence(p.alg, data[..]);
      RoundFnRuns(p, w);
      AllRounds(lo, hi, data[..], RoundFn(p, w), w);
      AddBack(lo, hi);
    }

    method Absorb()
      requires Shape() && Computes(h, p)
      modifies state
      ensures Vector() == h.compress(old(Vector()), data[..])
    {
      assert ComputesAt(h, p, Vector(), data[..]);
      Block();
    }

    /** The buffer is full: its block goes into the chaining value. */
    method Flush()
      requires Buffered() && datalen == 64
      modifies this`datalen, this`blocks, state
      ensures Buffered() && datalen == 0
    {
      assert data[..] == data[..64] == BlockAt(fed, blocks);
      Absorb();
      datalen, blocks := 0, blocks + 1;
    }

    method AppendByte(b: bv8)
      requires Valid()
      modifies this, state, data
      ensures Valid() && fed == old(fed) + [b]
      ensures datalen == if old(datalen) == 63 then 0 else old(datalen) + 1
    {
      ChainPrefix(h, fed, fed + [b], blocks);
      NextBits(|fed|);
      data[datalen] := b;
      datalen := datalen + 1;
      bitlen := (bitlen + 8) % TWO64;
      fed := fed + [b];
      if datalen == 64 {
        Flush();
      }
    }

    method Update(bytes: Bytes)
      requires Valid()
      modifies this, state, data
      ensures Valid() && fed == old(fed) + bytes
    {
      for i := 0 to |bytes|
        invariant Valid() && fed == old(fed) + bytes[..i]
      {
        AppendByte(bytes[i]);
        assert bytes[..i + 1] == bytes[..i] + [bytes[i]];
      }
      assert bytes[..|bytes|] == bytes;
    }

    method PadZeros(ghost z: nat)
      requires Valid() && z < 64 && (datalen + z == 56 || datalen + z == 120)
      modifies this, state, data
      ensures Valid() && fed == old(fed) + Zeros(z) && datalen == 56
    {
      ghost var c := 0;
      assert Zeros(0) == [];
      while datalen != 56
        invariant Valid() && fed == old(fed) + Zeros(c)
        invariant c <= z && (datalen + z - c == 56 || datalen + z - c == 120)
        decreases z - c
      {
        assert Zeros(c + 1) == Zeros(c) + [0];
        AppendByte(0);
        c := c + 1;
      }
    }

    method PadLength(nBits: nat)
      requires Valid() && datalen == 56
      modifies this, state, data
      ensures Valid() && fed == old(fed) + LengthField(nBits) && datalen == 0
    {
      ghost var field := LengthField(nBits);
      for i := 8 downto 0
        invariant Valid() && fed == old(fed) + field[..8 - i]
        invariant datalen == if i == 0 then 0 else 64 - i
      {
        assert field[..8 - i] == field[..7 - i] + [LengthByte(nBits, i)];
        AppendByte(LengthByte(nBits, i));
      }
      assert field[..8] == field;
    }

    /** Padding: the marker, zeros up to 56 modulo 64, the length in bits. */
    method Finalize()
      requires Valid()
      modifies this, state, data
      ensures Valid() && fed == Pad(old(fed)) && datalen == 0
    {
      var nBits := bitlen;
      AppendByte(0x80);
      ghost var z := ZeroCount(|old(fed)|);
      ZerosToGo(blocks, datalen, z);
      PadZeros(z);
      PadLength(nBits);
    }

    /** The chaining value as bytes, most significant first. */
    method Emit() returns (hash: Bytes)
      requires Shape()
      ensures hash == Output(p.alg, Vector())
    {
      hash := [];
      ghost var goal := Output(p.alg, Vector());
      for i := 0 to 8
        invariant hash == goal[..4 * i]
      {
        for j := 4 downto 0
          invariant hash == goal[..4 * i + 4 - j]
        {
          ghost var o := 4 * i + 3 - j;
          assert o / 4 == i && 3 - o % 4 == j && state[i] == Reg(Vector(), i);
          hash := hash + [p.alg.byte(state[i], j)];
        }
      }
    }

    method Final() returns (hash: Bytes)
      requires Valid()
      modifies this, state, data
      ensures hash == HashWith(h, old(fed))
    {
      Finalize();
      assert blocks == |fed| / 64;
      assert OutputsAt(h, p, Vector());
      hash := Emit();
    }

    method Init()
      requires Shape() && Computes(h, p)
      modifies this, state
      ensures Valid() && fed == []
    {
      datalen, bitlen, fed, blocks := 0, 0, [], 0;
      state[0], state[1], state[2], state[3] := p.iv.a, p.iv.b, p.iv.c, p.iv.d;
      state[4], state[5], state[6], state[7] := p.iv.e, p.iv.f, p.iv.g, p.iv.h;
    }

    constructor (params: Params<T>, ghost machine: Machine<Regs<T>>)
      requires Lawful(params.alg) && Computes(machine, params)
      ensures Valid() && fed == [] && p == params && h == machine && fresh(state) && fresh(data)
    {
      p, h := params, machine;
      state := new T[8];
      data := new bv8[64];
      new;
      Init();
    }
  }

  method HashAll<T(0, !new)>(p: Params<T>, ghost h: Machine<Regs<T>>, bytes: Bytes) returns (hash: Bytes)
    requires Lawful(p.alg) && Computes(h, p)
    ensures hash == HashWith(h, bytes)
  {
    var ctx := new Context(p, h);
    ctx.Update(bytes);
    assert ctx.fed == bytes;
    hash := ctx.Final();
  }

  /** One pass of HMAC: the padded key and then the text, as two updates. */
  method Keyed<T(0, !new)>(p: Params<T>, ghost h: Machine<Regs<T>>, pad: Bytes, text: Bytes) returns (hash: Bytes)
    requires Lawful(p.alg) && Computes(h, p)
    ensures hash == HashWith(h, pad + text)
  {
    var c := new Context(p, h);
    c.Update(pad);
    c.Update(text);
    assert c.fed == pad + text;
    hash := c.Final();
  }

  /** The key, hashed first if it is longer than a block, then filled up to one. */
  method PrepareKey<T(0, !new)>(p: Params<T>, ghost h: Machine<Regs<T>>, key: Bytes) returns (k: Bytes)
    requires Lawful(p.alg) && Computes(h, p)
    ensures k == KeyBlock(h, key)
  {
    k := key;
    if |key| > 64 {
      k := HashAll(p, h, key);
    }
    k := k + Zeros(if |k| < 64 then 64 - |k| else 0);
  }

  method HmacAll<T(0, !new)>(p: Params<T>, ghost h: Machine<Regs<T>>, key: Bytes, msg: Bytes) returns (out: Bytes)
    requires Lawful(p.alg) && Computes(h, p)
    ensures out == HmacWith(h, key, msg)
  {
    var k := PrepareKey(p, h, key);
    var inner := Keyed(p, h, Xor(k, 0x36), msg);
    out := Keyed(p, h, Xor(k, 0x5c), inner);
  }

  lemma FipsUsable()
    ensures Lawful(Fips().alg) && |Fips().k| == 64 && Computes(MachineOf(Fips()), Fips())
  {
    WordsLawful();
    MachineComputes(Fips());
  }

  /** `sha256_hash` with the words and constants of the standard. */
  method Hash(bytes: Bytes) returns (hash: Bytes)
    ensures hash == Sha256Spec.Sha256(bytes)
  {
    FipsUsable();
    hash := HashAll(Fips(), MachineOf(Fips()), bytes);
  }

  method Hmac(key: Bytes, msg: Bytes) returns (out: Bytes)
    ensures out == HmacSha256(key, msg)
  {
    FipsUsable();
    out := HmacAll(Fips(), MachineOf(Fips()), key, msg);
  }
}
