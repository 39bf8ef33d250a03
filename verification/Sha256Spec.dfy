/** SHA-256 as sections 4.1.2, 4.2.2, 5 and 6.2 of FIPS 180-4 define it, and HMAC as section 2 of
    RFC 2104 does, over byte strings. */
module Sha256Spec {

  type Bytes = seq<bv8>

  /** A 32-bit word is its value; bitwise operations go through bit vectors. */
  type U32 = x: int | 0 <= x < 0x1_0000_0000

  const K: seq<U32> := [
    0x428a2f98, 0x71374491, 0xb5c0fbcf, 0xe9b5dba5, 0x3956c25b, 0x59f111f1, 0x923f82a4, 0xab1c5ed5,
    0xd807aa98, 0x12835b01, 0x243185be, 0x550c7dc3, 0x72be5d74, 0x80deb1fe, 0x9bdc06a7, 0xc19bf174,
    0xe49b69c1, 0xefbe4786, 0x0fc19dc6, 0x240ca1cc, 0x2de92c6f, 0x4a7484aa, 0x5cb0a9dc, 0x76f988da,
    0x983e5152, 0xa831c66d, 0xb00327c8, 0xbf597fc7, 0xc6e00bf3, 0xd5a79147, 0x06ca6351, 0x14292967,
    0x27b70a85, 0x2e1b2138, 0x4d2c6dfc, 0x53380d13, 0x650a7354, 0x766a0abb, 0x81c2c92e, 0x92722c85,
    0xa2bfe8a1, 0xa81a664b, 0xc24b8b70, 0xc76c51a3, 0xd192e819, 0xd6990624, 0xf40e3585, 0x106aa070,
    0x19a4c116, 0x1e376c08, 0x2748774c, 0x34b0bcb5, 0x391c0cb3, 0x4ed8aa4a, 0x5b9cca4f, 0x682e6ff3,
    0x748f82ee, 0x78a5636f, 0x84c87814, 0x8cc70208, 0x90befffa, 0xa4506ceb, 0xbef9a3f7, 0xc67178f2]

  /** A word type with the functions section 4.1.2 defines on it. */
  datatype Alg<!T> = Alg(
    add: (T, T) -> T, small0: T -> T, small1: T -> T, big0: T -> T, big1: T -> T,
    ch: (T, T, T) -> T, maj: (T, T, T) -> T, word: (bv8, bv8, bv8, bv8) -> T, byte: (T, nat) -> bv8)

  /** The working variables a..h, and the chaining value H0..H7. */
  datatype Regs<T> = Regs(a: T, b: T, c: T, d: T, e: T, f: T, g: T, h: T)

  /** What the standard leaves open: the words, the 64 constants and the initial value. */
  datatype Params<!T> = Params(alg: Alg<T>, k: seq<T>, iv: Regs<T>)

  // ----- The 32-bit words of the standard -----

  function Rotr(x: bv32, n: nat): bv32
    requires n <= 32
  {
    (x >> n) | (x << (32 - n))
  }

  function Add(x: U32, y: U32): U32 {
    (x + y) % 0x1_0000_0000
  }

  function Small0(w: U32): U32 {
    var x := w as bv32;
    (Rotr(x, 7) ^ Rotr(x, 18) ^ (x >> 3)) as int
  }

  function Small1(w: U32): U32 {
    var x := w as bv32;
    (Rotr(x, 17) ^ Rotr(x, 19) ^ (x >> 10)) as int
  }

  function Big0(w: U32): U32 {
    var x := w as bv32;
    (Rotr(x, 2) ^ Rotr(x, 13) ^ Rotr(x, 22)) as int
  }

  function Big1(w: U32): U32 {
    var x := w as bv32;
    (Rotr(x, 6) ^ Rotr(x, 11) ^ Rotr(x, 25)) as int
  }

  function Ch(u: U32, v: U32, w: U32): U32 {
    var x, y, z := u as bv32, v as bv32, w as bv32;
    ((x & y) ^ (!x & z)) as int
  }

  function Maj(u: U32, v: U32, w: U32): U32 {
    var x, y, z := u as bv32, v as bv32, w as bv32;
    ((x & y) ^ (x & z) ^ (y & z)) as int
  }

  function Word(b0: bv8, b1: bv8, b2: bv8, b3: bv8): U32 {
    ((b0 as bv32 << 24) | (b1 as bv32 << 16) | (b2 as bv32 << 8) | b3 as bv32) as int
  }

  /** Byte `j` of a word, counted from the least significant. */
  function Byte(w: U32, j: nat): bv8 {
    ((w as bv32 >> (if j < 4 then 8 * j else 24)) & 0xff) as bv8
  }

  function Words(): Alg<U32> {
    Alg(Add, Small0, Small1, Big0, Big1, Ch, Maj, Word, Byte)
  }

  function Fips(): Params<U32> {
    Params(Words(), K,
           Regs(0x6a09e667, 0xbb67ae85, 0x3c6ef372, 0xa54ff53a, 0x510e527f, 0x9b05688c, 0x1f83d9ab, 0x5be0cd19))
  }

  // ----- Section 6.2.2 -----

  function WordAt<T>(g: Alg<T>, s: Bytes, o: nat): T
    requires o + 4 <= |s|
  {
    g.word(s[o], s[o + 1], s[o + 2], s[o + 3])
  }

  /** Word `t` of the message schedule of a block. */
  function W<T>(g: Alg<T>, block: Bytes, t: nat): T
    requires |block| == 64
    decreases t
  {
    if t < 16 then WordAt(g, block, 4 * t)
    else g.add(g.add(g.add(g.small1(W(g, block, t - 2)), W(g, block, t - 7)), g.small0(W(g, block, t - 15))),
               W(g, block, t - 16))
  }

  function Schedule<T>(g: Alg<T>, block: Bytes): (w: seq<T>)
    requires |block| == 64
    ensures |w| == 64 && forall t | 0 <= t < 64 :: w[t] == W(g, block, t)
  {
    seq(64, t requires 0 <= t < 64 => W(g, block, t))
  }

  function Round<T>(g: Alg<T>, r: Regs<T>, k: T, w: T): Regs<T> {
    var t1 := g.add(g.add(g.add(g.add(r.h, g.big1(r.e)), g.ch(r.e, r.f, r.g)), k), w);
    var t2 := g.add(g.big0(r.a), g.maj(r.a, r.b, r.c));
    Regs(g.add(t1, t2), r.a, r.b, r.c, g.add(r.d, t1), r.e, r.f, r.g)
  }

  function Iterate<R>(f: (R, nat) -> R, r: R, t: nat): R {
    if t == 0 then r else f(Iterate(f, r, t - 1), t - 1)
  }

  /** Round `t` with its constant and its schedule word. */
  function RoundFn<T>(p: Params<T>, w: seq<T>): (Regs<T>, nat) -> Regs<T> {
    (r: Regs<T>, t: nat) => if t < |p.k| && t < |w| then Round(p.alg, r, p.k[t], w[t]) else r
  }

  function Plus<T>(g: Alg<T>, x: Regs<T>, y: Regs<T>): Regs<T> {
    Regs(g.add(x.a, y.a), g.add(x.b, y.b), g.add(x.c, y.c), g.add(x.d, y.d),
         g.add(x.e, y.e), g.add(x.f, y.f), g.add(x.g, y.g), g.add(x.h, y.h))
  }

  function Compress<T>(p: Params<T>, r: Regs<T>, block: Bytes): Regs<T>
    requires |p.k| == 64 == |block|
  {
    Plus(p.alg, r, Iterate(RoundFn(p, Schedule(p.alg, block)), r, |p.k|))
  }

  function BlockAt(s: Bytes, i: nat): (block: Bytes)
    requires 64 * (i + 1) <= |s|
    ensures |block| == 64
  {
    s[64 * i..64 * (i + 1)]
  }

  /** An iterated hash: how a block updates the chaining value, where it starts and how it is read out. */
  datatype Machine<!R> = Machine(compress: (R, Bytes) -> R, iv: R, output: R -> Bytes)

  function Compressor<T>(p: Params<T>): (Regs<T>, Bytes) -> Regs<T>
    requires |p.k| == 64
  {
    (r, block) => if |block| == 64 then Compress(p, r, block) else r
  }

  function MachineOf<T>(p: Params<T>): Machine<Regs<T>>
    requires |p.k| == 64
  {
    Machine(Compressor(p), p.iv, r => Output(p.alg, r))
  }

  /** The chaining value after the first `n` blocks of `s`. */
  function Chain<R>(m: Machine<R>, s: Bytes, n: nat): R
    requires 64 * n <= |s|
  {
    if n == 0 then m.iv else m.compress(Chain(m, s, n - 1), BlockAt(s, n - 1))
  }

  // ----- Padding -----

  const TWO64 := 0x1_0000_0000_0000_0000

  function Zeros(n: nat): (z: Bytes)
    ensures |z| == n && forall i | 0 <= i < n :: z[i] == 0
  {
    seq(n, _ => 0)
  }

  function Pow256(i: nat): (p: nat)
    ensures p > 0
  {
    if i == 0 then 1 else 256 * Pow256(i - 1)
  }

  function LengthByte(bits: nat, i: nat): bv8 {
    ((bits / Pow256(i)) % 256) as bv8
  }

  /** The 64-bit big-endian length field. */
  function LengthField(bits: nat): (f: Bytes)
    ensures |f| == 8
  {
    seq(8, i requires 0 <= i < 8 => LengthByte(bits, 7 - i))
  }

  /** How many zero bytes bring the 0x80-terminated message to 56 modulo 64. */
  function ZeroCount(n: nat): (z: nat)
    ensures z < 64 && (n + 1 + z) % 64 == 56
  {
    (119 - n % 64) % 64
  }

  function Pad(m: Bytes): (p: Bytes)
    ensures |p| % 64 == 0
  {
    EightMore(|m| + 1 + ZeroCount(|m|));
    m + [0x80] + Zeros(ZeroCount(|m|)) + LengthField((8 * |m|) % TWO64)
  }

  lemma EightMore(n: nat)
    requires n % 64 == 56
    ensures (n + 8) % 64 == 0
  {
  }

  // ----- Digest -----

  function Reg<T>(r: Regs<T>, i: nat): T
    requires i < 8
  {
    if i == 0 then r.a else if i == 1 then r.b else if i == 2 then r.c else if i == 3 then r.d
    else if i == 4 then r.e else if i == 5 then r.f else if i == 6 then r.g else r.h
  }

  /** The words of `r` as bytes, most significant first. */
  function Output<T>(g: Alg<T>, r: Regs<T>): (d: Bytes)
    ensures |d| == 32
  {
    seq(32, i requires 0 <= i < 32 => g.byte(Reg(r, i / 4), 3 - i % 4))
  }

  function HashWith<R>(h: Machine<R>, m: Bytes): Bytes {
    h.output(Chain(h, Pad(m), |Pad(m)| / 64))
  }

  /** The SHA-256 digest. */
  function Sha256(m: Bytes): Bytes {
    HashWith(MachineOf(Fips()), m)
  }

  // ----- Section 2 of RFC 2104 -----

  function Xor(s: Bytes, x: bv8): (r: Bytes)
    ensures |r| == |s|
  {
    seq(|s|, i requires 0 <= i < |s| => s[i] ^ x)
  }

  /** The key as one 64-byte block, hashed first if longer. */
  function KeyBlock<R>(h: Machine<R>, key: Bytes): Bytes {
    var k := if |key| > 64 then HashWith(h, key) else key;
    k + Zeros(if |k| < 64 then 64 - |k| else 0)
  }

  function HmacWith<R>(h: Machine<R>, key: Bytes, text: Bytes): Bytes {
    var block := KeyBlock(h, key);
    HashWith(h, Xor(block, 0x5c) + HashWith(h, Xor(block, 0x36) + text))
  }

  function HmacSha256(key: Bytes, text: Bytes): Bytes {
    HmacWith(MachineOf(Fips()), key, text)
  }

  // ----- Facts about the definitions -----

  /** Blocks that a prefix already contains are hashed the same whatever follows. */
  lemma {:induction false} ChainPrefix<R>(m: Machine<R>, s: Bytes, s': Bytes, n: nat)
    requires 64 * n <= |s| && s <= s'
    ensures Chain(m, s, n) == Chain(m, s', n)
  {
    if n > 0 {
      ChainPrefix(m, s, s', n - 1);
      BlockPrefix(s, s', n - 1);
    }
  }

  lemma BlockPrefix(s: Bytes, s': Bytes, i: nat)
    requires 64 * (i + 1) <= |s| && s <= s'
    ensures BlockAt(s, i) == BlockAt(s', i)
  {
  }

  // ----- Addition modulo 2^32 may be regrouped -----

  predicate CommAt<T(==)>(g: Alg<T>, x: T, y: T) {
    g.add(x, y) == g.add(y, x)
  }

  predicate AssocAt<T(==)>(g: Alg<T>, x: T, y: T, z: T) {
    g.add(g.add(x, y), z) == g.add(x, g.add(y, z))
  }

  ghost predicate Lawful<T(!new)>(g: Alg<T>) {
    && (forall x, y {:trigger CommAt(g, x, y)} :: CommAt(g, x, y))
    && (forall x, y, z {:trigger AssocAt(g, x, y, z)} :: AssocAt(g, x, y, z))
  }

  lemma WordsLawful()
    ensures Lawful(Words())
  {
    var g := Words();
    forall x, y ensures CommAt(g, x, y) {
      assert g.add(x, y) == Add(x, y) && g.add(y, x) == Add(y, x);
    }
    forall x, y, z ensures AssocAt(g, x, y, z) {
      assert g.add(g.add(x, y), z) == Add(Add(x, y), z);
      assert g.add(x, g.add(y, z)) == Add(x, Add(y, z));
      AddAssoc(x, y, z);
    }
  }

  lemma AddAssoc(x: U32, y: U32, z: U32)
    ensures Add(Add(x, y), z) == Add(x, Add(y, z))
  {
    AddIs(x, y);
    AddIs(y, z);
    AddIs(Add(x, y), z);
    AddIs(x, Add(y, z));
  }

  lemma AddIs(x: U32, y: U32)
    ensures Add(x, y) == if x + y < 0x1_0000_0000 then x + y else x + y - 0x1_0000_0000
  {
  }
}
