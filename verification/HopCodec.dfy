/** The activation hop inside an RPC call: seven header words and the activation, as 32-bit words. */
module HopCodec {
  import opened Wire
  import Rpc

  const HEADER_WORDS := 7
  const MAX_FLOATS := 1024

  datatype Hop = Hop(session: U32, number: U32, pos: U32, hop: U32, nFloats: U32, flags: U32, computeUs: U32)
  datatype Option<T> = None | Some(value: T)
  datatype Pair = Pair(h: Hop, x: seq<U32>)

  function Fields(h: Hop): (ws: seq<U32>)
    ensures |ws| == HEADER_WORDS
  {
    [h.session, h.number, h.pos, h.hop, h.nFloats, h.flags, h.computeUs]
  }

  function HopOf(ws: seq<U32>): Hop
    requires |ws| >= HEADER_WORDS
  {
    Hop(ws[0], ws[1], ws[2], ws[3], ws[4], ws[5], ws[6])
  }

  /** The payload of a hop: floats travel as their bit patterns. */
  function HopWire(h: Hop, x: seq<U32>): Bytes {
    Words(Fields(h) + x)
  }

  /** The length, shape and session checks; zero stands for a dimension or session not known yet. */
  predicate Acceptable(len: nat, h: Hop, dim: int, session: U32) {
    && 0 < h.nFloats <= MAX_FLOATS && len == 4 * HEADER_WORDS + 4 * h.nFloats
    && (dim > 0 ==> h.nFloats == dim) && (session != 0 ==> h.session == session)
  }

  function DecodeHop(s: Bytes, dim: int, session: U32): Option<Pair> {
    var ws := AllWords(s);
    if |s| < 4 * HEADER_WORDS || !Acceptable(|s|, HopOf(ws), dim, session) then None
    else Some(Pair(HopOf(ws), ws[HEADER_WORDS..HEADER_WORDS + HopOf(ws).nFloats]))
  }

  /** `infer_send_hop`, up to the call: the words go into the message's payload one by one. */
  method FillHop(h: Hop, x: seq<U32>, payload: array<Byte>) returns (len: nat)
    requires |x| == h.nFloats && payload.Length == Rpc.PAYLOAD_MAX && |HopWire(h, x)| <= payload.Length
    modifies payload
    ensures len == |HopWire(h, x)| && payload[..len] == HopWire(h, x)
  {
    PutAll(payload, 0, Fields(h), []);
    assert [] + Fields(h) == Fields(h);
    PutAll(payload, HEADER_WORDS, x, Fields(h));
    len := HEADER_WORDS * 4 + h.nFloats * 4;
  }

  method PutAll(payload: array<Byte>, from: nat, ws: seq<U32>, ghost done: seq<U32>)
    requires |done| == from && 4 * (from + |ws|) <= payload.Length && payload[..4 * from] == Words(done)
    modifies payload
    ensures payload[..4 * (from + |ws|)] == Words(done + ws)
  {
    ghost var said := done;
    for i := 0 to |ws|
      invariant said == done + ws[..i] && payload[..4 * (from + i)] == Words(said)
    {
      PutWord(payload, 4 * (from + i), ws[i]);
      assert (said + [ws[i]])[..|said|] == said;
      said := said + [ws[i]];
    }
    assert ws[..|ws|] == ws;
  }

  /** `xdr_put_u32`. */
  method PutWord(p: array<Byte>, o: nat, v: U32)
    requires o + 4 <= p.Length
    modifies p
    ensures p[..o + 4] == old(p[..o]) + Be32(v)
  {
    p[o], p[o + 1] := v / 0x100_0000 % 256, v / 0x1_0000 % 256;
    p[o + 2], p[o + 3] := v / 0x100 % 256, v % 256;
  }

  /** `infer_decode_hop`. */
  method ReadHop(s: Bytes, dim: int, session: U32) returns (r: Option<Pair>)
    ensures r == DecodeHop(s, dim, session)
  {
    if |s| < HEADER_WORDS * 4 {
      return None;
    }
    var words := ReadWords(s, 0, HEADER_WORDS);
    var h := HopOf(words);
    if h.nFloats == 0 || h.nFloats > MAX_FLOATS {
      return None;
    }
    if |s| != HEADER_WORDS * 4 + h.nFloats * 4 {
      return None;
    }
    if dim > 0 && h.nFloats != dim {
      return None;
    }
    if session != 0 && h.session != session {
      return None;
    }
    var x := ReadWords(s, HEADER_WORDS, h.nFloats);
    r := Some(Pair(h, x));
  }

  method ReadWords(s: Bytes, from: nat, n: nat) returns (ws: seq<U32>)
    requires 4 * (from + n) <= |s|
    ensures ws == AllWords(s)[from..from + n]
  {
    ws := [];
    for i := 0 to n
      invariant ws == AllWords(s)[from..from + i]
    {
      ws := ws + [WordAt(s, 4 * (from + i))];
    }
  }

  /** Decoding inverts sending exactly when the checks let the hop through. */
  lemma HopRoundTrip(h: Hop, x: seq<U32>, dim: int, session: U32)
    requires |x| == h.nFloats
    ensures DecodeHop(HopWire(h, x), dim, session) == Some(Pair(h, x)) <==>
            0 < h.nFloats <= MAX_FLOATS && (dim > 0 ==> h.nFloats == dim) && (session != 0 ==> h.session == session)
  {
    HopWords(h, x);
    var s := HopWire(h, x);
    var ws := AllWords(s);
    assert ws == Fields(h) + x && HopOf(ws) == h && |s| == 4 * HEADER_WORDS + 4 * |x|;
    assert ws[HEADER_WORDS..HEADER_WORDS + |x|] == x;
  }

  lemma HopWords(h: Hop, x: seq<U32>)
    ensures AllWords(HopWire(h, x)) == Fields(h) + x && HopOf(Fields(h) + x) == h
  {
    var all, s := Fields(h) + x, HopWire(h, x);
    AllWordsOf(all, []);
    assert s + [] == s;
    assert AllWords(s)[..|all|] == AllWords(s);
  }

  /** Only exact encodings are accepted. */
  lemma HopExact(s: Bytes, dim: int, session: U32, p: Pair)
    requires DecodeHop(s, dim, session) == Some(p)
    ensures |p.x| == p.h.nFloats && s == HopWire(p.h, p.x)
  {
    var ws := AllWords(s);
    var n := HEADER_WORDS + p.h.nFloats;
    WordsOfAll(s, n);
    assert ws[..n] == Fields(p.h) + p.x && s[..4 * n] == s;
  }

  /** A hop fits an RPC payload up to 1017 floats, seven short of the limit the receiver applies. */
  lemma HopFits(h: Hop, x: seq<U32>)
    ensures |HopWire(h, x)| <= Rpc.PAYLOAD_MAX <==> |x| <= 1017
  {
  }

  /** Sent in a call and decoded twice, the hop is the hop that was sent. */
  lemma HopOverRpc(xid: U32, prog: U32, vers: U32, proc: U32, h: Hop, x: seq<U32>, dim: int, session: U32)
    requires |x| == h.nFloats && 0 < |x| <= 1017 && (dim > 0 ==> |x| == dim) && (session != 0 ==> h.session == session)
    ensures var call := Rpc.Call(xid, prog, vers, proc, Rpc.NO_AUTH, Rpc.NO_AUTH, HopWire(h, x));
            && Rpc.Decode(Rpc.CallWire(call)) == Rpc.Ok(call)
            && DecodeHop(call.payload, dim, session) == Some(Pair(h, x))
  {
    HopFits(h, x);
    Rpc.CallRoundTrip(Rpc.Call(xid, prog, vers, proc, Rpc.NO_AUTH, Rpc.NO_AUTH, HopWire(h, x)));
    HopRoundTrip(h, x, dim, session);
  }
}
