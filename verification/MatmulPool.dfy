/** Matrix times vector, split over a pool of worker threads that share two flags each with the caller;
    arithmetic is exact. */
module MatmulPool {

  const ALIGN := 16
  const SMALL := 128

  /** The plain sum of the first `n` products, the matrix row beginning at `off`. */
  function Dot(w: seq<real>, off: nat, x: seq<real>, n: nat): real
    requires off + n <= |w| && n <= |x|
  {
    if n == 0 then 0.0 else Dot(w, off, x, n - 1) + w[off + n - 1] * x[n - 1]
  }

  /** `dot_product_unrolled`: eight running sums and a tail. */
  method DotUnrolled(w: seq<real>, off: nat, x: seq<real>, n: nat) returns (sum: real)
    requires off + n <= |w| && n <= |x|
    ensures sum == Dot(w, off, x, n)
  {
    var s0, s1, s2, s3, s4, s5, s6, s7 := 0.0, 0.0, 0.0, 0.0, 0.0, 0.0, 0.0, 0.0;
    var j, n8 := 0, n - n % 8;
    while j < n8
      invariant j <= n8 && j % 8 == 0
      invariant s0 + s1 + s2 + s3 + s4 + s5 + s6 + s7 == Dot(w, off, x, j)
    {
      s0, s1, s2, s3, s4, s5, s6, s7 := AddEight(w, off, x, j, s0, s1, s2, s3, s4, s5, s6, s7);
      j := j + 8;
    }
    var tail := AddTail(w, off, x, j, n);
    sum := (s0 + s1 + s2 + s3) + (s4 + s5 + s6 + s7) + tail;
  }

  /** One turn of the unrolled loop. */
  method AddEight(w: seq<real>, off: nat, x: seq<real>, j: nat,
                  s0: real, s1: real, s2: real, s3: real, s4: real, s5: real, s6: real, s7: real)
      returns (t0: real, t1: real, t2: real, t3: real, t4: real, t5: real, t6: real, t7: real)
    requires off + j + 8 <= |w| && j + 8 <= |x|
    ensures t0 + t1 + t2 + t3 + t4 + t5 + t6 + t7
            == s0 + s1 + s2 + s3 + s4 + s5 + s6 + s7 + Dot(w, off, x, j + 8) - Dot(w, off, x, j)
  {
    EightMore(w, off, x, j);
    t0, t1 := s0 + w[off + j] * x[j], s1 + w[off + j + 1] * x[j + 1];
    t2, t3 := s2 + w[off + j + 2] * x[j + 2], s3 + w[off + j + 3] * x[j + 3];
    t4, t5 := s4 + w[off + j + 4] * x[j + 4], s5 + w[off + j + 5] * x[j + 5];
    t6, t7 := s6 + w[off + j + 6] * x[j + 6], s7 + w[off + j + 7] * x[j + 7];
  }

  method AddTail(w: seq<real>, off: nat, x: seq<real>, from: nat, n: nat) returns (tail: real)
    requires off + n <= |w| && from <= n <= |x|
    ensures tail == Dot(w, off, x, n) - Dot(w, off, x, from)
  {
    tail := 0.0;
    for j := from to n
      invariant tail == Dot(w, off, x, j) - Dot(w, off, x, from)
    {
      tail := tail + w[off + j] * x[j];
    }
  }

  lemma EightMore(w: seq<real>, off: nat, x: seq<real>, j: nat)
    requires off + j + 8 <= |w| && j + 8 <= |x|
    ensures Dot(w, off, x, j + 8) == Dot(w, off, x, j) + w[off + j] * x[j] + w[off + j + 1] * x[j + 1] + w[off + j + 2] * x[j + 2]
              + w[off + j + 3] * x[j + 3] + w[off + j + 4] * x[j + 4] + w[off + j + 5] * x[j + 5]
              + w[off + j + 6] * x[j + 6] + w[off + j + 7] * x[j + 7]
  {
    assert Dot(w, off, x, j + 2) == Dot(w, off, x, j) + w[off + j] * x[j] + w[off + j + 1] * x[j + 1];
    assert Dot(w, off, x, j + 4) == Dot(w, off, x, j + 2) + w[off + j + 2] * x[j + 2] + w[off + j + 3] * x[j + 3];
    assert Dot(w, off, x, j + 6) == Dot(w, off, x, j + 4) + w[off + j + 4] * x[j + 4] + w[off + j + 5] * x[j + 5];
  }

  // ----- The row split -----

  /** Rows per thread: the fair share, rounded up to a multiple of 16. */
  function RowsPer(d: nat, threads: nat): (r: nat)
    requires threads > 0
    ensures d > 0 ==> r > 0
  {
    ((d + threads - 1) / threads + ALIGN - 1) / ALIGN * ALIGN
  }

  function ActiveThreads(d: nat, threads: nat): nat
    requires d > 0 && threads > 0
  {
    var r := RowsPer(d, threads);
    var active := (d + r - 1) / r;
    if active > threads then threads else active
  }

  function StartRow(d: nat, threads: nat, t: nat): nat
    requires threads > 0
  {
    t * RowsPer(d, threads)
  }

  function EndRow(d: nat, threads: nat, t: nat): nat
    requires threads > 0
  {
    var end := StartRow(d, threads, t) + RowsPer(d, threads);
    if end > d then d else end
  }

  function OwnerOf(d: nat, threads: nat, i: nat): nat
    requires d > 0 && threads > 0
  {
    i / RowsPer(d, threads)
  }

  lemma CeilCovers(a: nat, b: nat)
    requires b > 0
    ensures (a + b - 1) / b * b >= a
    ensures a > 0 ==> ((a + b - 1) / b - 1) * b < a
  {
    var q := (a + b - 1) / b;
    assert a + b - 1 == b * q + (a + b - 1) % b;
    assert (q - 1) * b == q * b - b;
  }

  lemma CeilLeast(a: nat, b: nat, q: nat)
    requires b > 0 && q * b >= a
    ensures (a + b - 1) / b <= q
  {
    var c := (a + b - 1) / b;
    if c > q {
      CeilCovers(a, b);
      Scale(q, c - 1, b);
    }
  }

  lemma Scale(a: nat, b: nat, k: nat)
    requires a <= b
    ensures a * k <= b * k
  {
    assert (b - a) * k == b * k - a * k;
  }

  /** The thread limit never cuts rows off: the last active thread ends at `d`. */
  lemma SplitCovers(d: nat, threads: nat)
    requires d > 0 && threads > 0
    ensures var r, active := RowsPer(d, threads), ActiveThreads(d, threads);
            active == (d + r - 1) / r && 0 < active && (active - 1) * r < d <= active * r
  {
    var r, fair := RowsPer(d, threads), (d + threads - 1) / threads;
    CeilCovers(d, threads);
    CeilCovers(fair, ALIGN);
    Scale(fair, r, threads);
    assert threads * r == r * threads;
    CeilLeast(d, r, threads);
    CeilCovers(d, r);
  }

  lemma InSlice(i: nat, r: nat, t: nat)
    requires r > 0
    ensures t * r <= i < t * r + r <==> t == i / r
  {
    var q := i / r;
    assert i == r * q + i % r && q * r == r * q;
    if t < q {
      Scale(t + 1, q, r);
      assert (t + 1) * r == t * r + r;
    }
    if t > q {
      Scale(q + 1, t, r);
      assert (q + 1) * r == q * r + r;
    }
  }

  lemma QuotientBelow(i: nat, r: nat, a: nat)
    requires r > 0 && i < a * r
    ensures i / r < a
  {
    InSlice(i, r, i / r);
    if i / r >= a {
      Scale(a, i / r, r);
    }
  }

  /** Row `i` belongs to exactly one active thread. */
  lemma RowOwner(d: nat, threads: nat, i: nat, t: nat)
    requires i < d && threads > 0
    ensures OwnerOf(d, threads, i) < ActiveThreads(d, threads)
    ensures StartRow(d, threads, t) <= i < EndRow(d, threads, t) <==> t == OwnerOf(d, threads, i)
  {
    var r, active := RowsPer(d, threads), ActiveThreads(d, threads);
    SplitCovers(d, threads);
    QuotientBelow(i, r, active);
    InSlice(i, r, t);
  }
}
