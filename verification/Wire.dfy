/** 32-bit words in big-endian order: section 4.2 of RFC 4506. */
module Wire {

  type Byte = x: int | 0 <= x < 256
  type U32 = x: int | 0 <= x < 0x1_0000_0000
  type Bytes = seq<Byte>

  function Be32(x: U32): (b: Bytes)
    ensures |b| == 4
  {
    [x / 0x100_0000 % 256, x / 0x1_0000 % 256, x / 0x100 % 256, x % 256]
  }

  function Be(b0: int, b1: int, b2: int, b3: int): int {
    b0 * 0x100_0000 + b1 * 0x1_0000 + b2 * 0x100 + b3
  }

  lemma BeRound(x: U32)
    ensures Be(x / 0x100_0000 % 256, x / 0x1_0000 % 256, x / 0x100 % 256, x % 256) == x
  {
    Quotients(x);
    var y := x / 0x100;
    var z := y / 0x100;
    FourDigits(x, y, x % 0x100, z, y % 0x100, z / 0x100, z % 0x100);
  }

  lemma FourDigits(x: U32, y: nat, d0: nat, z: nat, d1: nat, u: nat, d2: nat)
    requires x == y * 0x100 + d0 && y == z * 0x100 + d1 && z == u * 0x100 + d2
    ensures Be(u, d2, d1, d0) == x && u < 0x100 && u % 0x100 == u
  {
  }

  /** Dividing by a power of 256 is dividing by 256 again and again. */
  lemma Quotients(x: nat)
    ensures x / 0x1_0000 == x / 0x100 / 0x100 && x / 0x100_0000 == x / 0x100 / 0x100 / 0x100
  {
    var y := x / 0x100;
    var z := y / 0x100;
    Divides2(x, z, (y % 0x100) * 0x100 + x % 0x100);
    Divides3(x, z / 0x100, (z % 0x100) * 0x1_0000 + (y % 0x100) * 0x100 + x % 0x100);
  }

  lemma Divides2(x: nat, q: nat, r: nat)
    requires x == q * 0x1_0000 + r && r < 0x1_0000
    ensures x / 0x1_0000 == q
  {
  }

  lemma Divides3(x: nat, q: nat, r: nat)
    requires x == q * 0x100_0000 + r && r < 0x100_0000
    ensures x / 0x100_0000 == q
  {
  }

  lemma BytesRound(b0: Byte, b1: Byte, b2: Byte, b3: Byte)
    ensures 0 <= Be(b0, b1, b2, b3) < 0x1_0000_0000 && Be32(Be(b0, b1, b2, b3)) == [b0, b1, b2, b3]
  {
    var x, y, z := Be(b0, b1, b2, b3), Be(0, b0, b1, b2), Be(0, 0, b0, b1);
    Shift(y, b3);
    Shift(z, b2);
    Shift(b0, b1);
    assert x == y * 256 + b3 && y == z * 256 + b2 && z == b0 * 256 + b1;
    assert x / 0x100 == y && y / 0x100 == z && z / 0x100 == b0;
    Quotients(x);
    assert x / 0x1_0000 == z && x / 0x100_0000 == b0;
  }

  lemma Shift(q: int, r: Byte)
    ensures (q * 256 + r) / 256 == q && (q * 256 + r) % 256 == r
  {
  }

  /** The word at byte offset `o`. */
  function WordAt(s: Bytes, o: nat): (w: U32)
    requires o + 4 <= |s|
  {
    Be(s[o], s[o + 1], s[o + 2], s[o + 3])
  }

  /** Words one after the other. */
  function Words(ws: seq<U32>): (s: Bytes)
    ensures |s| == 4 * |ws|
  {
    if ws == [] then [] else Words(ws[..|ws| - 1]) + Be32(ws[|ws| - 1])
  }

  lemma {:induction false} WordsPlus(a: seq<U32>, b: seq<U32>)
    ensures Words(a + b) == Words(a) + Words(b)
  {
    if b == [] {
      assert a + b == a;
    } else {
      var b' := b[..|b| - 1];
      assert (a + b)[..|a + b| - 1] == a + b';
      WordsPlus(a, b');
    }
  }

  lemma WordAtBe32(a: Bytes, x: U32, b: Bytes)
    ensures WordAt(a + Be32(x) + b, |a|) == x
  {
    BeRound(x);
    var s, e := a + Be32(x) + b, Be32(x);
    assert s[|a|] == e[0] && s[|a| + 1] == e[1] && s[|a| + 2] == e[2] && s[|a| + 3] == e[3];
  }

  /** Reading back word `k`. */
  lemma {:induction false} WordOf(ws: seq<U32>, rest: Bytes, k: nat)
    requires k < |ws|
    ensures WordAt(Words(ws) + rest, 4 * k) == ws[k]
    decreases |ws|
  {
    var n := |ws| - 1;
    var front, last := ws[..n], Be32(ws[n]);
    assert Words(ws) + rest == Words(front) + (last + rest) == Words(front) + last + rest;
    if k == n {
      WordAtBe32(Words(front), ws[n], rest);
    } else {
      WordOf(front, last + rest, k);
    }
  }

  /** Any four-byte groups are the encoding of the words read from them. */
  lemma {:induction false} WordsBack(s: Bytes, ws: seq<U32>)
    requires |s| == 4 * |ws| && forall k | 0 <= k < |ws| :: WordAt(s, 4 * k) == ws[k]
    ensures Words(ws) == s
    decreases |ws|
  {
    if ws != [] {
      var n := |ws| - 1;
      var s' := s[..4 * n];
      forall k | 0 <= k < n ensures WordAt(s', 4 * k) == ws[..n][k] {
        assert WordAt(s, 4 * k) == ws[k];
      }
      WordsBack(s', ws[..n]);
      BytesRound(s[4 * n], s[4 * n + 1], s[4 * n + 2], s[4 * n + 3]);
      assert WordAt(s, 4 * n) == ws[n];
      assert s == s' + [s[4 * n], s[4 * n + 1], s[4 * n + 2], s[4 * n + 3]];
    }
  }

  /** All whole words of a byte string. */
  function AllWords(s: Bytes): (ws: seq<U32>)
    ensures |ws| == |s| / 4
  {
    seq(|s| / 4, k requires 0 <= k < |s| / 4 => WordAt(s, 4 * k))
  }

  lemma AllWordsOf(ws: seq<U32>, rest: Bytes)
    ensures |AllWords(Words(ws) + rest)| >= |ws| && AllWords(Words(ws) + rest)[..|ws|] == ws
  {
    forall k | 0 <= k < |ws| ensures AllWords(Words(ws) + rest)[k] == ws[k] {
      WordOf(ws, rest, k);
    }
  }

  /** The first `n` words of a byte string encode its first bytes. */
  lemma WordsOfAll(s: Bytes, n: nat)
    requires 4 * n <= |s|
    ensures |AllWords(s)| >= n && Words(AllWords(s)[..n]) == s[..4 * n]
  {
    var ws := AllWords(s)[..n];
    forall k | 0 <= k < n ensures WordAt(s[..4 * n], 4 * k) == ws[k] {
      assert ws[k] == AllWords(s)[k];
    }
    WordsBack(s[..4 * n], ws);
  }
}
