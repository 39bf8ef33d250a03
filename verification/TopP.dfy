/** Top-p sampling in exact arithmetic. */
module TopP {

  datatype Entry = Entry(prob: real, index: nat)
  datatype Option<T> = None | Some(value: T)

  // ----- Lists of candidates -----

  /** Every index with its probability. */
  function All(p: seq<real>): (s: seq<Entry>)
    ensures |s| == |p| && forall i | 0 <= i < |p| :: s[i] == Entry(p[i], i)
  {
    seq(|p|, i requires 0 <= i < |p| => Entry(p[i], i))
  }

  /** The entries that reach the cutoff, in order. */
  function Keep(s: seq<Entry>, cutoff: real): (k: seq<Entry>)
    ensures |k| <= |s| && forall i | 0 <= i < |k| :: k[i].prob >= cutoff
  {
    if s == [] then []
    else
      var k, last := Keep(s[..|s| - 1], cutoff), s[|s| - 1];
      if last.prob >= cutoff then k + [last] else k
  }

  predicate Descending(s: seq<Entry>) {
    forall i, j | 0 <= i < j < |s| :: s[i].prob >= s[j].prob
  }

  predicate IsSorting(sorted: seq<Entry>, s: seq<Entry>) {
    Descending(sorted) && multiset(sorted) == multiset(s)
  }

  /** The mass of the first `k`. */
  function Mass(s: seq<Entry>, k: nat): real
    requires k <= |s|
  {
    if k == 0 then 0.0 else Mass(s, k - 1) + s[k - 1].prob
  }

  /** Position `c` is the first at which the mass exceeds `topp`, or the last one if none is. */
  predicate IsCut(s: seq<Entry>, topp: real, c: nat) {
    c < |s| && (forall j | 0 <= j <= c :: Mass(s, j) <= topp) && (Mass(s, c + 1) > topp || c == |s| - 1)
  }

  // ----- Permutations -----

  lemma {:induction false} KeepCount(s: seq<Entry>, cutoff: real, x: Entry)
    ensures multiset(Keep(s, cutoff))[x] == if x.prob >= cutoff then multiset(s)[x] else 0
  {
    if s != [] {
      KeepCount(s[..|s| - 1], cutoff, x);
      assert s == s[..|s| - 1] + [s[|s| - 1]];
    }
  }

  lemma KeepPermutes(s: seq<Entry>, s': seq<Entry>, cutoff: real)
    requires multiset(s) == multiset(s')
    ensures multiset(Keep(s, cutoff)) == multiset(Keep(s', cutoff))
  {
    forall x ensures multiset(Keep(s, cutoff))[x] == multiset(Keep(s', cutoff))[x] {
      KeepCount(s, cutoff, x);
      KeepCount(s', cutoff, x);
    }
  }

  lemma {:induction false} KeepAll(s: seq<Entry>, cutoff: real)
    requires forall i | 0 <= i < |s| :: s[i].prob >= cutoff
    ensures Keep(s, cutoff) == s
  {
    if s != [] {
      KeepAll(s[..|s| - 1], cutoff);
      assert s == s[..|s| - 1] + [s[|s| - 1]];
    }
  }

  /** In a descending list, what reaches the cutoff is a prefix. */
  lemma {:induction false} KeepPrefix(s: seq<Entry>, cutoff: real)
    requires Descending(s)
    ensures Keep(s, cutoff) == s[..|Keep(s, cutoff)|]
    ensures |Keep(s, cutoff)| < |s| ==> s[|Keep(s, cutoff)|].prob < cutoff
  {
    if s != [] {
      if s[|s| - 1].prob >= cutoff {
        forall i | 0 <= i < |s| ensures s[i].prob >= cutoff {
        }
        KeepAll(s, cutoff);
      } else {
        var rest := s[..|s| - 1];
        KeepPrefix(rest, cutoff);
        DropLast(s, cutoff, |Keep(rest, cutoff)|);
      }
    }
  }

  lemma DropLast(s: seq<Entry>, cutoff: real, k: nat)
    requires s != [] && s[|s| - 1].prob < cutoff && k == |Keep(s[..|s| - 1], cutoff)|
    ensures Keep(s, cutoff) == Keep(s[..|s| - 1], cutoff) && k < |s|
    ensures s[..|s| - 1][..k] == s[..k] && (k < |s| - 1 ==> s[..|s| - 1][k] == s[k])
  {
  }

  function Swap(s: seq<Entry>, i: nat, j: nat): (t: seq<Entry>)
    requires i < |s| && j < |s|
  {
    s[i := s[j]][j := s[i]]
  }

  lemma SwapPermutes(s: seq<Entry>, i: nat)
    requires i < |s|
    ensures multiset(Swap(s, i, |s| - 1)[..|s| - 1]) == multiset(s) - multiset{s[i]}
  {
    var n := |s| - 1;
    var t := Swap(s, i, n);
    assert t == t[..n] + [s[i]];
    assert multiset(t) == multiset(s);
  }

  lemma {:induction false} MassSame(s: seq<Entry>, t: seq<Entry>, k: nat)
    requires k <= |s| && k <= |t| && forall i | 0 <= i < k :: s[i].prob == t[i].prob
    ensures Mass(s, k) == Mass(t, k)
  {
    if k > 0 { MassSame(s, t, k - 1); }
  }

  /** Bringing the last entry of `s` to the end of `t` leaves permutations of each other before it. */
  lemma MoveToEnd(s: seq<Entry>, t: seq<Entry>) returns (j: nat)
    requires multiset(s) == multiset(t) && s != []
    ensures |s| == |t| && j < |t| && t[j] == s[|s| - 1]
    ensures multiset(s[..|s| - 1]) == multiset(Swap(t, j, |t| - 1)[..|t| - 1])
  {
    assert |multiset(s)| == |s| && |multiset(t)| == |t|;
    var n := |s| - 1;
    assert s[n] in multiset(t);
    j :| 0 <= j < |t| && t[j] == s[n];
    SwapPermutes(t, j);
    assert s == s[..n] + [s[n]];
  }

  lemma SwapMass(t: seq<Entry>, j: nat)
    requires j < |t|
    ensures Mass(t, |t|) == Mass(Swap(t, j, |t| - 1)[..|t| - 1], |t| - 1) + t[j].prob
  {
    RestMass(t, j, Swap(t, j, |t| - 1)[..|t| - 1], |t| - 1);
  }

  /** `rest` is `t` without its last entry, which has taken the place of entry `j`. */
  lemma {:induction false} RestMass(t: seq<Entry>, j: nat, rest: seq<Entry>, k: nat)
    requires j <= |rest| == |t| - 1 && k <= |rest|
    requires forall i | 0 <= i < |rest| :: rest[i] == if i == j then t[|rest|] else t[i]
    ensures Mass(rest, k) == Mass(t, k) + if j < k then t[|rest|].prob - t[j].prob else 0.0
    decreases k
  {
    if k > 0 { RestMass(t, j, rest, k - 1); }
  }

  /** The whole mass does not depend on the order. */
  lemma {:induction false} MassPermutes(s: seq<Entry>, t: seq<Entry>)
    requires multiset(s) == multiset(t)
    ensures |s| == |t| && Mass(s, |s|) == Mass(t, |t|)
    decreases |s|
  {
    if s == [] {
      assert |multiset(t)| == |t|;
    } else {
      var n := |s| - 1;
      var j := MoveToEnd(s, t);
      MassPermutes(s[..n], Swap(t, j, n)[..n]);
      MassSame(s, s[..n], n);
      SwapMass(t, j);
    }
  }

  lemma SwapKeepsOrder(t: seq<Entry>, j: nat)
    requires Descending(t) && j < |t| && t[j].prob == t[|t| - 1].prob
    ensures Descending(Swap(t, j, |t| - 1)[..|t| - 1])
    ensures forall k | 0 <= k < |t| - 1 :: Swap(t, j, |t| - 1)[..|t| - 1][k].prob == t[k].prob
  {
  }

  lemma LastIsLeast(s: seq<Entry>, t: seq<Entry>, j: nat)
    requires Descending(s) && Descending(t) && multiset(s) == multiset(t) && |s| == |t| && j < |t| && t[j] == s[|s| - 1]
    ensures t[j].prob == t[|t| - 1].prob
  {
    assert t[|t| - 1] in multiset(s);
    var i :| 0 <= i < |s| && s[i] == t[|t| - 1];
  }

  /** Two descending arrangements of the same entries show the same probabilities. */
  lemma {:induction false} SortedAgree(s: seq<Entry>, t: seq<Entry>)
    requires Descending(s) && Descending(t) && multiset(s) == multiset(t)
    ensures |s| == |t| && forall i | 0 <= i < |s| :: s[i].prob == t[i].prob
    decreases |s|
  {
    if s == [] {
      assert |multiset(t)| == |t|;
    } else {
      var n := |s| - 1;
      var j := MoveToEnd(s, t);
      LastIsLeast(s, t, j);
      SwapKeepsOrder(t, j);
      SortedAgree(s[..n], Swap(t, j, n)[..n]);
    }
  }

  // ----- Cropping -----

  ghost predicate IsDistribution(p: seq<real>) {
    (forall i | 0 <= i < |p| :: p[i] >= 0.0) && Mass(All(p), |p|) == 1.0
  }

  function Cutoff(n: nat, topp: real): real
    requires n >= 2
  {
    (1.0 - topp) / (n - 1) as real
  }

  /** The sum of `k` copies. */
  function Copies(k: nat, v: real): real {
    if k == 0 then 0.0 else Copies(k - 1, v) + v
  }

  lemma {:induction false} CopiesTimes(k: nat, v: real)
    ensures Copies(k, v) == k as real * v
  {
    if k > 0 {
      CopiesTimes(k - 1, v);
      assert k as real * v == (k - 1) as real * v + v;
    }
  }

  lemma {:induction false} CopiesLess(k: nat, v: real, w: real)
    requires v < w && k > 0
    ensures Copies(k, v) < Copies(k, w)
  {
    if k > 1 { CopiesLess(k - 1, v, w); }
  }

  lemma {:induction false} CopiesFewer(k: nat, m: nat, v: real)
    requires k <= m && v >= 0.0
    ensures Copies(k, v) <= Copies(m, v)
    decreases m - k
  {
    if k < m { CopiesFewer(k, m - 1, v); }
  }

  lemma DivideBack(a: real, b: real)
    requires b > 0.0
    ensures b * (a / b) == a
  {
  }

  /** What the cutoff is for: `n - 1` entries at the cutoff weigh exactly what `topp` leaves. */
  lemma CutoffCopies(n: nat, topp: real)
    requires n >= 2
    ensures Copies(n - 1, Cutoff(n, topp)) == 1.0 - topp
  {
    var c := Cutoff(n, topp);
    DivideBack(1.0 - topp, (n - 1) as real);
    CopiesTimes(n - 1, c);
  }

  lemma {:induction false} TailBound(s: seq<Entry>, k: nat, m: nat, v: real)
    requires k <= m <= |s| && forall i | k <= i < |s| :: s[i].prob <= v
    ensures Mass(s, m) - Mass(s, k) <= Copies(m - k, v)
    decreases m - k
  {
    if k < m { TailBound(s, k, m - 1, v); }
  }

  lemma {:induction false} MassMonotone(s: seq<Entry>, k: nat, m: nat)
    requires k <= m <= |s| && forall i | 0 <= i < |s| :: s[i].prob >= 0.0
    ensures Mass(s, k) <= Mass(s, m)
    decreases m - k
  {
    if k < m { MassMonotone(s, k, m - 1); }
  }

  /** The entry at the cut reaches the cutoff, so cropping does not touch what lies up to it. */
  lemma CutIsKept(s: seq<Entry>, topp: real, c: nat)
    requires |s| >= 2 && Descending(s) && Mass(s, |s|) == 1.0 && (forall i | 0 <= i < |s| :: s[i].prob >= 0.0)
    requires topp < 1.0 && 1.0 <= topp * |s| as real && IsCut(s, topp, c)
    ensures s[c].prob >= Cutoff(|s|, topp)
  {
    var n, v := |s|, s[c].prob;
    TailBound(s, c, n, v);
    if c == 0 {
      CopiesTimes(n, topp);
      FairShare(n, topp, v);
    } else {
      CopiesFewer(n - c, n - 1, v);
      Reaches(n, topp, v);
    }
  }

  lemma Reaches(n: nat, topp: real, v: real)
    requires n >= 2 && Copies(n - 1, v) >= 1.0 - topp
    ensures v >= Cutoff(n, topp)
  {
    var c := Cutoff(n, topp);
    CutoffCopies(n, topp);
    if v < c { CopiesLess(n - 1, v, c); }
  }

  /** The largest of `n` entries weighs at least 1/n, and so does `topp`. */
  lemma FairShare(n: nat, topp: real, v: real)
    requires n >= 2 && 1.0 <= Copies(n, v) && 1.0 <= Copies(n, topp)
    ensures v >= Cutoff(n, topp)
  {
    if topp <= v {
      Reaches(n, topp, topp);
    } else {
      Reaches(n, topp, v);
    }
  }

  lemma {:induction false} SortedNonNegative(p: seq<real>, full: seq<Entry>, i: nat)
    requires IsDistribution(p) && multiset(full) == multiset(All(p)) && i < |full|
    ensures full[i].prob >= 0.0
  {
    assert full[i] in multiset(All(p));
    var j :| 0 <= j < |p| && All(p)[j] == full[i];
  }

  /** Dropping the entries below the cutoff before sorting changes neither the cut nor the mass up to it. */
  lemma CropHarmless(p: seq<real>, topp: real, full: seq<Entry>, kept: seq<Entry>, c: nat)
    requires |p| >= 2 && IsDistribution(p) && topp < 1.0 && 1.0 <= topp * |p| as real
    requires IsSorting(full, All(p)) && IsSorting(kept, Keep(All(p), Cutoff(|p|, topp))) && IsCut(full, topp, c)
    ensures SameCut(full, kept, topp, c)
  {
    var cutoff := Cutoff(|p|, topp);
    MassPermutes(full, All(p));
    forall i | 0 <= i < |full| ensures full[i].prob >= 0.0 {
      SortedNonNegative(p, full, i);
    }
    CutIsKept(full, topp, c);
    KeepPermutes(full, All(p), cutoff);
    KeptPrefix(full, kept, cutoff, c);
    forall k | 0 <= k <= c + 1 ensures Mass(kept, k) == Mass(full, k) {
      MassSame(kept, full, k);
    }
  }

  lemma KeptPrefix(full: seq<Entry>, kept: seq<Entry>, cutoff: real, c: nat)
    requires Descending(full) && Descending(kept) && multiset(kept) == multiset(Keep(full, cutoff))
    requires c < |full| && full[c].prob >= cutoff
    ensures c < |kept| <= |full| && forall i | 0 <= i < |kept| :: kept[i].prob == full[i].prob
  {
    KeepPrefix(full, cutoff);
    SortedAgree(kept, full[..|Keep(full, cutoff)|]);
  }

  /** The cropped list is cut at the same place, with the same probabilities and mass, above `topp`. */
  predicate SameCut(full: seq<Entry>, kept: seq<Entry>, topp: real, c: nat) {
    && c < |full| && c < |kept| && IsCut(kept, topp, c)
    && (forall i | 0 <= i <= c :: kept[i].prob == full[i].prob)
    && Mass(kept, c + 1) == Mass(full, c + 1) > topp
  }

  /** The entries that are sorted. With one entry the cutoff is a division by zero, an infinity that no
      probability reaches. */
  function Candidates(p: seq<real>, topp: real): seq<Entry> {
    if |p| < 2 then [] else Keep(All(p), Cutoff(|p|, topp))
  }

  /** Cropping never matters for this distribution. */
  ghost predicate Harmless(p: seq<real>, topp: real) {
    forall full, kept, c |
      IsSorting(full, All(p)) && IsSorting(kept, Candidates(p, topp)) && IsCut(full, topp, c) ::
      SameCut(full, kept, topp, c)
  }

  lemma {:induction false} FindsCut(s: seq<Entry>, topp: real, k: nat) returns (c: nat)
    requires k < |s| && forall j | 0 <= j <= k :: Mass(s, j) <= topp
    ensures IsCut(s, topp, c)
    decreases |s| - k
  {
    if k == |s| - 1 || Mass(s, k + 1) > topp {
      c := k;
    } else {
      c := FindsCut(s, topp, k + 1);
    }
  }

  lemma CutUnique(s: seq<Entry>, topp: real, c: nat, d: nat)
    requires IsCut(s, topp, c) && IsCut(s, topp, d)
    ensures c == d
  {
  }

  /** Under the crop condition the whole list has a cut, and what is left of it is cut at the same place. */
  lemma SampledCut(p: seq<real>, topp: real, full: seq<Entry>, kept: seq<Entry>) returns (c: nat)
    requires IsDistribution(p) && 0.0 <= topp < 1.0 && 1.0 <= topp * |p| as real
    requires IsSorting(full, All(p)) && IsSorting(kept, Candidates(p, topp))
    ensures IsCut(full, topp, c) && SameCut(full, kept, topp, c)
  {
    assert |p| >= 2;
    assert |multiset(full)| == |full| && |multiset(All(p))| == |p|;
    c := FindsCut(full, topp, 0);
    CropHarmless(p, topp, full, kept, c);
  }

  function Uniform(n: nat): (p: seq<real>)
    requires n > 0
    ensures |p| == n && forall i | 0 <= i < n :: p[i] == 1.0 / n as real
  {
    seq(n, _ => 1.0 / n as real)
  }

  lemma {:induction false} UniformMass(n: nat, k: nat)
    requires 0 < n && k <= n
    ensures Mass(All(Uniform(n)), k) == Copies(k, 1.0 / n as real)
  {
    if k > 0 { UniformMass(n, k - 1); }
  }

  /** Below one over `n` the uniform distribution loses every entry. */
  lemma UniformCropped(n: nat, topp: real)
    requires n >= 1 && 0.0 <= topp && topp * n as real < 1.0
    ensures IsDistribution(Uniform(n)) && Candidates(Uniform(n), topp) == [] && !Harmless(Uniform(n), topp)
  {
    var p, u := Uniform(n), 1.0 / n as real;
    var all := All(p);
    UniformShare(n, topp, u);
    UniformMass(n, n);
    UniformMass(n, 1);
    if n >= 2 {
      UniformBelow(n, topp, u);
      KeepNone(all, Cutoff(n, topp));
    }
    assert IsCut(all, topp, 0);
    assert IsSorting(all, all) && IsSorting([], Candidates(p, topp)) && !SameCut(all, [], topp, 0);
  }

  lemma UniformShare(n: nat, topp: real, u: real)
    requires n >= 1 && topp * n as real < 1.0 && u == 1.0 / n as real
    ensures Copies(n, u) == 1.0 && topp < u
  {
    DivideBack(1.0, n as real);
    CopiesTimes(n, u);
    CopiesTimes(n, topp);
    if u < topp { CopiesLess(n, u, topp); }
  }

  lemma UniformBelow(n: nat, topp: real, u: real)
    requires n >= 2 && Copies(n, u) == 1.0 && topp < u
    ensures u < Cutoff(n, topp)
  {
    var c := Cutoff(n, topp);
    CutoffCopies(n, topp);
    if c < u { CopiesLess(n - 1, c, u); }
  }

  lemma {:induction false} CutoffPositive(n: nat, topp: real)
    requires n >= 2 && topp < 1.0
    ensures Cutoff(n, topp) > 0.0
  {
    CutoffCopies(n, topp);
    if Cutoff(n, topp) <= 0.0 { CopiesNegative(n - 1, Cutoff(n, topp)); }
  }

  lemma {:induction false} CopiesNegative(k: nat, v: real)
    requires v <= 0.0
    ensures Copies(k, v) <= 0.0
  {
    if k > 0 { CopiesNegative(k - 1, v); }
  }

  lemma {:induction false} KeepNone(s: seq<Entry>, cutoff: real)
    requires forall i | 0 <= i < |s| :: s[i].prob < cutoff
    ensures Keep(s, cutoff) == []
  {
    if s != [] { KeepNone(s[..|s| - 1], cutoff); }
  }

  /** Cropping is harmless for every distribution over `n` indices exactly when `topp` is at least 1/n. */
  lemma CropHarmlessIff(n: nat, topp: real)
    requires n >= 1 && 0.0 <= topp < 1.0
    ensures (forall p: seq<real> | |p| == n && IsDistribution(p) :: Harmless(p, topp)) <==> 1.0 <= topp * n as real
  {
    if 1.0 <= topp * n as real {
      assert n >= 2;
      forall p: seq<real>, full, kept, c | |p| == n && IsDistribution(p) && IsSorting(full, All(p))
                                           && IsSorting(kept, Candidates(p, topp)) && IsCut(full, topp, c)
        ensures SameCut(full, kept, topp, c)
      {
        CropHarmless(p, topp, full, kept, c);
      }
    } else {
      UniformCropped(n, topp);
    }
  }

  // ----- The program -----

  /** What is asked of `qsort`: a descending arrangement. */
  ghost predicate Sorts(sort: seq<Entry> -> seq<Entry>) {
    forall s :: IsSorting(sort(s), s)
  }

  /** `sample_topp`. None stands for the read before the list when nothing is left of it. Otherwise the
      result is entry `at` of the sorted candidates, inside the cut: the one that `draw`, the `coin`'s share
      of the mass up to the cut, falls on. */
  method SampleTopP(p: seq<real>, topp: real, coin: real, sort: seq<Entry> -> seq<Entry>)
      returns (r: Option<nat>, at: nat, last: nat, cumulative: real, draw: real)
    requires 0.0 <= topp < 1.0 && 0.0 <= coin < 1.0 && Sorts(sort)
    ensures var s := sort(Candidates(p, topp));
            && (s == [] ==> r == None)
            && (s != [] ==>
              && r.Some? && IsCut(s, topp, last) && at <= last && r.value == s[at].index
              && cumulative == Mass(s, last + 1) && draw == coin * cumulative && Mass(s, at) <= draw < Mass(s, at + 1))
    ensures IsDistribution(p) && 1.0 <= topp * |p| as real ==>
              var full := sort(All(p));
              r.Some? && last < |full| && IsCut(full, topp, last) && cumulative == Mass(full, last + 1) > topp
  {
    var candidates := [];
    if |p| != 1 {
      var cutoff := (1.0 - topp) / (|p| - 1) as real;
      candidates := Collect(p, cutoff);
    }
    var kept := sort(candidates);
    assert IsSorting(kept, candidates);
    CandidatesPositive(p, topp, kept);
    r, at, last, cumulative, draw := SampleSorted(kept, topp, coin);
    if IsDistribution(p) && 1.0 <= topp * |p| as real {
      var c := SampledCut(p, topp, sort(All(p)), kept);
      CutUnique(kept, topp, last, c);
    }
  }

  lemma CandidatesPositive(p: seq<real>, topp: real, kept: seq<Entry>)
    requires topp < 1.0 && IsSorting(kept, Candidates(p, topp))
    ensures forall i | 0 <= i < |kept| :: kept[i].prob > 0.0
  {
    if |p| >= 2 {
      CutoffPositive(|p|, topp);
      ProbsPositive(Candidates(p, topp), kept, Cutoff(|p|, topp));
    } else {
      assert |multiset(kept)| == |kept| == 0;
    }
  }

  /** The part of `sample_topp` after the sort. */
  method SampleSorted(s: seq<Entry>, topp: real, coin: real)
      returns (r: Option<nat>, at: nat, last: nat, cumulative: real, draw: real)
    requires 0.0 <= topp && 0.0 <= coin < 1.0 && forall i | 0 <= i < |s| :: s[i].prob > 0.0
    ensures s == [] ==> r == None
    ensures s != [] ==> r.Some? && IsCut(s, topp, last) && at <= last && r.value == s[at].index
    ensures s != [] ==> cumulative == Mass(s, last + 1) && draw == coin * cumulative && Mass(s, at) <= draw < Mass(s, at + 1)
  {
    at, last, cumulative, draw := 0, 0, 0.0, 0.0;
    if |s| == 0 {
      r := None;
    } else {
      last, cumulative := FindCut(s, topp);
      at, draw := DrawAt(s, last, coin, cumulative);
      r := Some(s[at].index);
    }
  }

  method DrawAt(s: seq<Entry>, last: nat, coin: real, cumulative: real) returns (at: nat, draw: real)
    requires last < |s| && 0.0 <= coin < 1.0 && cumulative == Mass(s, last + 1) > 0.0
    ensures at <= last && draw == coin * cumulative && Mass(s, at) <= draw < Mass(s, at + 1)
  {
    draw := Portion(coin, cumulative);
    at := Draw(s, last, draw);
  }

  method Portion(coin: real, cumulative: real) returns (r: real)
    requires 0.0 <= coin < 1.0 && cumulative > 0.0
    ensures r == coin * cumulative && 0.0 <= r < cumulative
  {
    r := coin * cumulative;
    assert (1.0 - coin) * cumulative > 0.0;
  }

  method Collect(p: seq<real>, cutoff: real) returns (kept: seq<Entry>)
    ensures kept == Keep(All(p), cutoff)
  {
    kept := [];
    for i := 0 to |p|
      invariant kept == Keep(All(p)[..i], cutoff)
    {
      assert All(p)[..i + 1][..i] == All(p)[..i];
      if p[i] >= cutoff {
        kept := kept + [Entry(p[i], i)];
      }
    }
    assert All(p)[..|p|] == All(p);
  }

  method FindCut(s: seq<Entry>, topp: real) returns (last: nat, cumulative: real)
    requires s != [] && 0.0 <= topp && forall i | 0 <= i < |s| :: s[i].prob > 0.0
    ensures IsCut(s, topp, last) && cumulative == Mass(s, last + 1) > 0.0
  {
    cumulative, last := 0.0, |s| - 1;
    for i := 0 to |s|
      invariant cumulative == Mass(s, i) && last == |s| - 1 && forall j | 0 <= j <= i :: Mass(s, j) <= topp
    {
      cumulative := cumulative + s[i].prob;
      if cumulative > topp {
        last := i;
        return;
      }
    }
    assert Mass(s, |s| - 1) >= 0.0 by { MassMonotone(s, 0, |s| - 1); }
  }

  /** Inverts the cumulative distribution. */
  method Draw(s: seq<Entry>, last: nat, r: real) returns (at: nat)
    requires last < |s| && 0.0 <= r < Mass(s, last + 1)
    ensures at <= last && Mass(s, at) <= r < Mass(s, at + 1)
  {
    var cdf := 0.0;
    for i := 0 to last + 1
      invariant cdf == Mass(s, i) <= r
    {
      cdf := cdf + s[i].prob;
      if r < cdf {
        return i;
      }
    }
    at := last;
  }

  lemma ProbsPositive(s: seq<Entry>, sorted: seq<Entry>, cutoff: real)
    requires IsSorting(sorted, s) && cutoff > 0.0 && forall i | 0 <= i < |s| :: s[i].prob >= cutoff
    ensures forall i | 0 <= i < |sorted| :: sorted[i].prob > 0.0
  {
    forall i | 0 <= i < |sorted| ensures sorted[i].prob > 0.0 {
      assert sorted[i] in multiset(s);
      var j :| 0 <= j < |s| && s[j] == sorted[i];
    }
  }
}
