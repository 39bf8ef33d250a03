/** The Internet checksum, and the frames the multicast switch builds and takes apart. */
module Checksum {
  import opened Wire

  const ONES := 0xffff
  const UDP := 17
  const HEADERS := 42
  const RFTP_PORT := 9999
  const IPV4_HI := 8

  // ----- Section 1 of RFC 1071 -----

  /** Adjacent bytes as 16-bit words, the last one padded with zero. */
  function Sum16(s: Bytes): nat {
    if s == [] then 0 else if |s| == 1 then s[0] * 256 else Pair(s[0], s[1]) + Sum16(s[2..])
  }

  function Pair(hi: int, lo: int): int {
    hi * 256 + lo
  }

  /** One's complement addition: the carry goes round. */
  function OnesAdd(a: nat, b: nat): nat
    requires a <= ONES && b <= ONES
  {
    if a + b > ONES then a + b - ONES else a + b
  }

  /** The one's complement sum, word by word. */
  function OnesSum(s: Bytes): (r: nat)
    ensures r <= ONES
  {
    if s == [] then 0
    else if |s| == 1 then (var b: int := s[0]; b * 256)
    else (var w := Pair(s[0], s[1]); OnesAdd(w, OnesSum(s[2..])))
  }

  function Fold(total: nat): nat {
    total % 0x1_0000 + total / 0x1_0000
  }

  /** The value of a plain sum as a one's complement sum: zero only if nothing was added. */
  predicate Represents(r: nat, total: nat) {
    r <= ONES && r % ONES == total % ONES && (r == 0 <==> total == 0)
  }

  lemma RepresentsUnique(r: nat, r': nat, total: nat)
    requires Represents(r, total) && Represents(r', total)
    ensures r == r'
  {
  }

  lemma {:induction false} OnesSumRepresents(s: Bytes)
    ensures Represents(OnesSum(s), Sum16(s))
    decreases |s|
  {
    if |s| >= 2 {
      OnesSumRepresents(s[2..]);
      AddRepresents(Pair(s[0], s[1]), OnesSum(s[2..]), Sum16(s[2..]));
    }
  }

  lemma AddRepresents(w: nat, r: nat, total: nat)
    requires w <= ONES && Represents(r, total)
    ensures Represents(OnesAdd(w, r), w + total)
  {
    ModAdd(w, r, total);
  }

  lemma ModAdd(w: nat, r: nat, total: nat)
    requires r % ONES == total % ONES
    ensures (w + r) % ONES == (w + total) % ONES
  {
    assert (w + r) % ONES == (w + r % ONES) % ONES && (w + total) % ONES == (w + total % ONES) % ONES;
  }

  lemma FoldKeeps(total: nat)
    ensures Fold(total) % ONES == total % ONES && (Fold(total) == 0 <==> total == 0)
  {
    var hi, lo := total / 0x1_0000, total % 0x1_0000;
    assert total == hi * ONES + (hi + lo);
    Multiples(hi, hi + lo);
  }

  lemma {:induction false} Multiples(k: nat, r: nat)
    ensures (k * ONES + r) % ONES == r % ONES
  {
    if k > 0 {
      Multiples(k - 1, r);
      assert k * ONES + r == ((k - 1) * ONES + r) + ONES;
    }
  }

  /** Two folds are enough below 2^32 + 0xffff. */
  lemma TwoFolds(total: nat)
    requires total < 0x1_0000_FFFF
    ensures Represents(Fold(Fold(total)), total)
  {
    FoldKeeps(total);
    FoldKeeps(Fold(total));
  }

  /** And not at that total: the second fold carries once more. */
  lemma TwoFoldsTight()
    ensures Fold(Fold(0x1_0000_FFFF)) > ONES
  {
  }

  // ----- The code -----

  /** The complement of the folded sum. */
  function Value(s: Bytes): nat {
    ONES - Fold(Fold(Sum16(s))) % 0x1_0000
  }

  /** `inet_checksum`. */
  method InetChecksum(data: Bytes) returns (c: nat)
    ensures c == Value(data)
    ensures Sum16(data) < 0x1_0000_FFFF ==> c == ONES - OnesSum(data)
  {
    if Sum16(data) < 0x1_0000_FFFF {
      ValueIsOnes(data);
    }
    var s := data;
    if |data| % 2 == 1 {
      PadSum(data);
      s := data + [0];
    }
    var total := SumWords(s);
    total := total % 0x1_0000 + total / 0x1_0000;
    total := total % 0x1_0000 + total / 0x1_0000;
    c := ONES - total % 0x1_0000;
  }

  method SumWords(s: Bytes) returns (total: nat)
    requires |s| % 2 == 0
    ensures total == Sum16(s)
  {
    total := 0;
    var i := 0;
    while i < |s|
      invariant 0 <= i <= |s| && i % 2 == 0 && total + Sum16(s[i..]) == Sum16(s)
    {
      assert s[i..][2..] == s[i + 2..];
      total := total + Pair(s[i], s[i + 1]);
      i := i + 2;
    }
  }

  lemma {:induction false} PadSum(s: Bytes)
    requires |s| % 2 == 1
    ensures Sum16(s + [0]) == Sum16(s)
    decreases |s|
  {
    if |s| > 1 {
      assert (s + [0])[2..] == s[2..] + [0];
      PadSum(s[2..]);
    }
  }

  lemma {:induction false} SumPlus(a: Bytes, b: Bytes)
    requires |a| % 2 == 0
    ensures Sum16(a + b) == Sum16(a) + Sum16(b)
    decreases |a|
  {
    if a == [] {
      assert a + b == b;
    } else {
      assert (a + b)[2..] == a[2..] + b;
      SumPlus(a[2..], b);
    }
  }

  lemma {:induction false} SumBound(s: Bytes)
    ensures Sum16(s) <= ONES * ((|s| + 1) / 2)
    decreases |s|
  {
    if |s| >= 2 { SumBound(s[2..]); }
  }

  function Be16(x: nat): (b: Bytes)
    requires x <= ONES
    ensures |b| == 2
  {
    [x / 256, x % 256]
  }

  /** Putting a checksum into a zeroed field adds it to the sum. */
  lemma FieldSum(a: Bytes, b: Bytes, ck: nat)
    requires |a| % 2 == 0 && ck <= ONES
    ensures Sum16(a + Be16(ck) + b) == Sum16(a + [0, 0] + b) + ck
  {
    FieldSplit(a, Be16(ck), b);
    FieldSplit(a, [0, 0], b);
    OneWord(Be16(ck));
    OneWord([0, 0]);
  }

  lemma OneWord(f: Bytes)
    requires |f| == 2
    ensures Sum16(f) == Pair(f[0], f[1])
  {
    assert f[2..] == [];
  }

  lemma FieldSplit(a: Bytes, f: Bytes, b: Bytes)
    requires |a| % 2 == 0 && |f| == 2
    ensures Sum16(a + f + b) == Sum16(a) + Sum16(f) + Sum16(b)
  {
    SumPlus(a, f);
    SumPlus(a + f, b);
  }

  /** A sum completed with its complement is all ones; a zero complement may be replaced by all ones. */
  lemma Completes(total: nat, r: nat, ck: nat)
    requires Represents(r, total) && (ck == ONES - r || (ck == ONES && r == ONES))
    ensures Represents(ONES, total + ck)
  {
    ModAdd(ck, r, total);
  }

  lemma ValueIs(s: Bytes)
    requires Sum16(s) < 0x1_0000_FFFF
    ensures var r := Fold(Fold(Sum16(s))); Represents(r, Sum16(s)) && Value(s) == ONES - r
  {
    TwoFolds(Sum16(s));
    SmallMod(Fold(Fold(Sum16(s))));
  }

  /** What the loop and the two folds compute is the one's complement of the one's complement sum. */
  lemma ValueIsOnes(s: Bytes)
    requires Sum16(s) < 0x1_0000_FFFF
    ensures Value(s) == ONES - OnesSum(s)
  {
    ValueIs(s);
    OnesSumRepresents(s);
    RepresentsUnique(Fold(Fold(Sum16(s))), OnesSum(s), Sum16(s));
  }

  lemma SmallMod(r: nat)
    requires r <= ONES
    ensures r % 0x1_0000 == r
  {
  }

  /** `ck` may be sent as the checksum of `s`. */
  predicate IsChecksum(s: Bytes, ck: nat) {
    ck == Value(s) || (ck == ONES && Value(s) == 0)
  }

  lemma Complement(s: Bytes, ck: nat)
    requires Sum16(s) < 0x1_0000_FFFF && IsChecksum(s, ck)
    ensures Represents(ONES, Sum16(s) + ck)
  {
    ValueIs(s);
    Completes(Sum16(s), ONES - Value(s), ck);
  }

  lemma Completed(zeroed: Bytes, full: Bytes, ck: nat)
    requires |zeroed| <= 0x2_0000 && IsChecksum(zeroed, ck) && Sum16(full) == Sum16(zeroed) + ck
    ensures OnesSum(full) == ONES
  {
    SumBound(zeroed);
    Complement(zeroed, ck);
    OnesSumRepresents(full);
    RepresentsUnique(ONES, OnesSum(full), Sum16(full));
  }

  /** Bytes with their checksum in place sum to all ones. */
  lemma AllOnes(a: Bytes, b: Bytes, ck: nat)
    requires |a| % 2 == 0 && |a| + 2 + |b| <= 0x2_0000 && ck <= ONES && IsChecksum(a + [0, 0] + b, ck)
    ensures OnesSum(a + Be16(ck) + b) == ONES
  {
    FieldSum(a, b, ck);
    Completed(a + [0, 0] + b, a + Be16(ck) + b, ck);
  }

  // ----- Frames -----

  function IpHeader(len: nat, ck: nat, src: Bytes, dst: Bytes): Bytes
    requires len <= ONES && ck <= ONES
  {
    ([0x45, 0] + Be16(len) + [0, 0, 0, 0, 64, UDP]) + Be16(ck) + (src + dst)
  }

  function PseudoHeader(src: Bytes, dst: Bytes, len: nat): Bytes
    requires len <= ONES
  {
    src + dst + ([0, UDP] + Be16(len))
  }

  function Segment(sport: nat, dport: nat, len: nat, ck: nat, payload: Bytes): Bytes
    requires sport <= ONES && dport <= ONES && len <= ONES && ck <= ONES
  {
    (Be16(sport) + Be16(dport) + Be16(len)) + Be16(ck) + payload
  }

  predicate Fits(payload: Bytes) {
    |payload| + 28 <= ONES
  }

  function UdpChecksum(src: Bytes, dst: Bytes, sport: nat, dport: nat, payload: Bytes): (ck: nat)
    requires sport <= ONES && dport <= ONES && Fits(payload)
    ensures ck <= ONES
  {
    var len := |payload| + 8;
    var v := Value(PseudoHeader(src, dst, len) + Segment(sport, dport, len, 0, payload));
    if v == 0 then ONES else v
  }

  function IpChecksum(len: nat, src: Bytes, dst: Bytes): (ck: nat)
    requires len <= ONES
    ensures ck <= ONES
  {
    Value(IpHeader(len, 0, src, dst))
  }

  /** `build_frame`: Ethernet II, IPv4 without options, UDP. */
  function BuildFrame(dstMac: Bytes, srcMac: Bytes, src: Bytes, dst: Bytes, sport: nat, dport: nat, payload: Bytes): Bytes
    requires sport <= ONES && dport <= ONES && Fits(payload)
  {
    var len := |payload| + 8;
    dstMac + srcMac + [IPV4_HI, 0] + IpHeader(len + 20, IpChecksum(len + 20, src, dst), src, dst)
      + Segment(sport, dport, len, UdpChecksum(src, dst, sport, dport, payload), payload)
  }

  /** The IPv4 header of a built frame sums to all ones: section 3.1 of RFC 791. */
  lemma IpHeaderSums(src: Bytes, dst: Bytes, len: nat)
    requires len <= ONES && |src| == |dst| == 4
    ensures OnesSum(IpHeader(len, IpChecksum(len, src, dst), src, dst)) == ONES
  {
    var a, b := [0x45, 0] + Be16(len) + [0, 0, 0, 0, 64, UDP], src + dst;
    assert Be16(0) == [0, 0];
    AllOnes(a, b, IpChecksum(len, src, dst));
  }

  /** The UDP segment with its pseudo header sums to all ones (RFC 768), also when the computed checksum is
      zero and is sent as all ones. */
  lemma UdpSums(src: Bytes, dst: Bytes, sport: nat, dport: nat, payload: Bytes)
    requires sport <= ONES && dport <= ONES && Fits(payload) && |src| == |dst| == 4
    ensures var len := |payload| + 8;
            var ck := UdpChecksum(src, dst, sport, dport, payload);
            ck != 0 && OnesSum(PseudoHeader(src, dst, len) + Segment(sport, dport, len, ck, payload)) == ONES
  {
    var len := |payload| + 8;
    var ck := UdpChecksum(src, dst, sport, dport, payload);
    var a := PseudoHeader(src, dst, len) + (Be16(sport) + Be16(dport) + Be16(len));
    assert Be16(0) == [0, 0];
    assert PseudoHeader(src, dst, len) + Segment(sport, dport, len, 0, payload) == a + [0, 0] + payload;
    assert PseudoHeader(src, dst, len) + Segment(sport, dport, len, ck, payload) == a + Be16(ck) + payload;
    AllOnes(a, payload, ck);
  }

  // ----- The fixed-offset parser -----

  datatype Option<T> = None | Some(value: T)
  datatype Datagram = Datagram(srcMac: Bytes, src: Bytes, sport: nat, payload: Bytes)

  /** The IPv4 branch of `handle`: what a frame for the weight server carries. Slices stop at the end of
      the frame, as Python's do. */
  function Parse(raw: Bytes, mac: Bytes, ip: Bytes): Option<Datagram> {
    if |raw| < HEADERS || raw[6..12] == mac || raw[12..14] != [IPV4_HI, 0] || raw[..6] != mac then None
    else if raw[23] != UDP || raw[30..34] != ip || Pair(raw[36], raw[37]) != RFTP_PORT then None
    else
      var len := Pair(raw[38], raw[39]) - 8;
      var end := if len < 0 then HEADERS else if HEADERS + len > |raw| then |raw| else HEADERS + len;
      Some(Datagram(raw[6..12], raw[26..30], Pair(raw[34], raw[35]), raw[HEADERS..end]))
  }

  /** Parsing a frame built for the weight server recovers sender, port and payload. */
  lemma ParseRecovers(mac: Bytes, srcMac: Bytes, src: Bytes, ip: Bytes, sport: nat, payload: Bytes)
    requires |mac| == |srcMac| == 6 && mac != srcMac && |src| == |ip| == 4 && sport <= ONES && Fits(payload)
    ensures Parse(BuildFrame(mac, srcMac, src, ip, sport, RFTP_PORT, payload), mac, ip) ==
            Some(Datagram(srcMac, src, sport, payload))
  {
    var len := |payload| + 8;
    var ih := IpHeader(len + 20, IpChecksum(len + 20, src, ip), src, ip);
    var seg := Segment(sport, RFTP_PORT, len, UdpChecksum(src, ip, sport, RFTP_PORT, payload), payload);
    FrameLayout(mac, srcMac, ih, seg);
    IpLayout(len + 20, IpChecksum(len + 20, src, ip), src, ip);
    SegmentLayout(sport, RFTP_PORT, len, UdpChecksum(src, ip, sport, RFTP_PORT, payload), payload);
    var raw := mac + srcMac + [IPV4_HI, 0] + ih + seg;
    assert raw == BuildFrame(mac, srcMac, src, ip, sport, RFTP_PORT, payload);
    ParsesTo(raw, mac, ip, srcMac, src, sport, payload, ih, seg);
  }

  lemma ParsesTo(raw: Bytes, mac: Bytes, ip: Bytes, srcMac: Bytes, src: Bytes, sport: nat, payload: Bytes,
                 ih: Bytes, seg: Bytes)
    requires |raw| == 42 + |payload| && mac != srcMac && |ih| == 20 && |seg| == 8 + |payload|
    requires raw[..6] == mac && raw[6..12] == srcMac && raw[12..14] == [IPV4_HI, 0]
    requires raw[14..34] == ih && raw[34..] == seg
    requires raw[23] == UDP && ih[12..16] == src && ih[16..20] == ip && seg[8..] == payload
    requires Pair(raw[34], raw[35]) == sport && Pair(raw[36], raw[37]) == RFTP_PORT
    requires Pair(raw[38], raw[39]) == |payload| + 8
    ensures Parse(raw, mac, ip) == Some(Datagram(srcMac, src, sport, payload))
  {
    assert raw[HEADERS..|raw|] == raw[34..][8..] == payload;
    assert raw[26..30] == raw[14..34][12..16] && raw[30..34] == raw[14..34][16..20];
  }

  lemma FrameLayout(mac: Bytes, srcMac: Bytes, ih: Bytes, seg: Bytes)
    requires |mac| == |srcMac| == 6 && |ih| == 20 && |seg| >= 8
    ensures var raw := mac + srcMac + [IPV4_HI, 0] + ih + seg;
            && |raw| == 34 + |seg| && raw[..6] == mac && raw[6..12] == srcMac && raw[12..14] == [IPV4_HI, 0]
            && raw[14..34] == ih && raw[34..] == seg
            && raw[23] == ih[9] && raw[34] == seg[0] && raw[35] == seg[1] && raw[36] == seg[2] && raw[37] == seg[3]
            && raw[38] == seg[4] && raw[39] == seg[5]
  {
  }

  lemma IpLayout(len: nat, ck: nat, src: Bytes, dst: Bytes)
    requires len <= ONES && ck <= ONES && |src| == |dst| == 4
    ensures var ih := IpHeader(len, ck, src, dst); |ih| == 20 && ih[9] == UDP && ih[12..16] == src && ih[16..20] == dst
  {
  }

  lemma SegmentLayout(sport: nat, dport: nat, len: nat, ck: nat, payload: Bytes)
    requires sport <= ONES && dport <= ONES && len <= ONES && ck <= ONES
    ensures var seg := Segment(sport, dport, len, ck, payload);
            && |seg| == 8 + |payload| && seg[8..] == payload
            && Pair(seg[0], seg[1]) == sport && Pair(seg[2], seg[3]) == dport && Pair(seg[4], seg[5]) == len
  {
  }
}
