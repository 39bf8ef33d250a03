/** The ONC RPC message layer over an in-memory XDR stream: section 9 of RFC 5531. */
module Rpc {
  import opened Wire

  const RPC_VERSION := 2
  const MSG_CALL := 0
  const MSG_REPLY := 1
  const MSG_ACCEPTED := 0
  const SUCCESS := 0
  const PROG_MISMATCH := 2
  const RPC_MISMATCH := 0
  const AUTH_NONE := 0
  const AUTH_BODY_MAX := 400
  const PAYLOAD_MAX := 4096
  const ERR_ENCODE := -3

  datatype Msg =
    | Call(xid: U32, prog: U32, vers: U32, proc: U32, cred: Auth, verf: Auth, payload: Bytes)
    | Accepted(xid: U32, verf: Auth, stat: U32, mismatch: seq<U32>, payload: Bytes)
    | Denied(xid: U32, replyStat: U32, rejectStat: U32, info: seq<U32>, payload: Bytes)

  /** `opaque_auth_t`. */
  datatype Auth = Auth(flavor: U32, len: U32, body: Bytes)

  const NO_AUTH := Auth(AUTH_NONE, 0, [])

  /** Overrun: a body that does not fit the field it is copied into; no further behaviour is modelled. */
  datatype Result<T> = Ok(value: T) | Err | Overrun

  // ----- The stream -----

  /** `xdrmem_private` over the first `size` bytes of a buffer. */
  class Xdr {
    const buf: array<Byte>
    const size: nat
    var pos: nat

    ghost predicate Valid()
      reads this
    {
      pos <= size <= buf.Length
    }

    constructor (b: array<Byte>, n: nat)
      requires n <= b.Length
      ensures Valid() && buf == b && size == n && pos == 0
    {
      buf, size, pos := b, n, 0;
    }

    method PutWord(x: U32) returns (ok: bool)
      requires Valid()
      modifies this`pos, buf
      ensures Valid() && (ok <==> old(pos) + 4 <= size)
      ensures ok ==> pos == old(pos) + 4 && buf[..pos] == old(buf[..pos]) + Be32(x)
      ensures !ok ==> pos == old(pos) && buf[..] == old(buf[..])
    {
      if pos + 4 > size {
        return false;
      }
      buf[pos] := x / 0x100_0000 % 256;
      buf[pos + 1] := x / 0x1_0000 % 256;
      buf[pos + 2] := x / 0x100 % 256;
      buf[pos + 3] := x % 256;
      pos := pos + 4;
      ok := true;
    }

    method GetWord() returns (ok: bool, x: U32)
      requires Valid()
      modifies this`pos
      ensures Valid() && (ok <==> old(pos) + 4 <= size)
      ensures ok ==> pos == old(pos) + 4 && x == WordAt(buf[..size], old(pos))
      ensures !ok ==> pos == old(pos)
    {
      if pos + 4 > size {
        return false, 0;
      }
      ok, x := true, Be(buf[pos], buf[pos + 1], buf[pos + 2], buf[pos + 3]);
      pos := pos + 4;
    }

    method PutBytes(s: Bytes) returns (ok: bool)
      requires Valid()
      modifies this`pos, buf
      ensures Valid() && (ok <==> old(pos) + |s| <= size)
      ensures ok ==> pos == old(pos) + |s| && buf[..pos] == old(buf[..pos]) + s
    {
      if pos + |s| > size {
        return false;
      }
      for i := 0 to |s|
        invariant pos == old(pos) && buf[..pos + i] == old(buf[..pos]) + s[..i]
      {
        buf[pos + i] := s[i];
      }
      pos := pos + |s|;
      ok := true;
    }

    method GetBytes(len: nat) returns (ok: bool, s: Bytes)
      requires Valid()
      modifies this`pos
      ensures Valid() && (ok <==> old(pos) + len <= size)
      ensures ok ==> pos == old(pos) + len && s == buf[old(pos)..old(pos) + len]
    {
      if pos + len > size {
        return false, [];
      }
      ok, s := true, buf[pos..pos + len];
      pos := pos + len;
    }

    /** Consecutive `xdr_u_int` calls, stopping at the first that does not fit. */
    method PutWords(ws: seq<U32>) returns (ok: bool)
      requires Valid() && pos == 0
      modifies this`pos, buf
      ensures Valid() && (ok <==> 4 * |ws| <= size)
      ensures ok ==> pos == 4 * |ws| && buf[..pos] == Words(ws)
    {
      for k := 0 to |ws|
        invariant Valid() && pos == 4 * k && buf[..pos] == Words(ws[..k])
      {
        ok := PutWord(ws[k]);
        if !ok {
          return;
        }
        assert ws[..k + 1][..k] == ws[..k];
      }
      assert ws[..|ws|] == ws;
      ok := true;
    }
  }

  /** The stream is at byte `o` of the datagram `s`. */
  ghost predicate At(xdrs: Xdr, s: Bytes, o: nat)
    reads xdrs, xdrs.buf
  {
    xdrs.Valid() && xdrs.buf[..xdrs.size] == s && xdrs.pos == o
  }

  method Next(xdrs: Xdr, ghost s: Bytes, ghost o: nat) returns (ok: bool, x: U32)
    requires At(xdrs, s, o)
    modifies xdrs`pos
    ensures ok <==> o + 4 <= |s|
    ensures ok ==> At(xdrs, s, o + 4) && x == WordAt(s, o)
  {
    ok, x := xdrs.GetWord();
  }

  // ----- Encoding -----

  function CallWords(m: Msg): seq<U32>
    requires m.Call?
  {
    [m.xid, MSG_CALL, RPC_VERSION, m.prog, m.vers, m.proc, AUTH_NONE, 0, AUTH_NONE, 0]
  }

  function CallWire(m: Msg): Bytes
    requires m.Call?
  {
    Words(CallWords(m)) + m.payload
  }

  function ReplyWords(xid: U32, stat: U32): seq<U32> {
    [xid, MSG_REPLY, MSG_ACCEPTED, AUTH_NONE, 0, stat]
  }

  function ReplyWire(xid: U32, stat: U32, payload: Bytes): Bytes {
    Words(ReplyWords(xid, stat)) + if stat == SUCCESS then payload else []
  }

  /** `rpc_encode_call`: the number of bytes written, or an error. */
  method EncodeCall(buf: array<Byte>, size: nat, rpcvers: U32, m: Msg) returns (n: int)
    requires m.Call? && size <= buf.Length
    modifies buf
    ensures n == if rpcvers == RPC_VERSION && |m.payload| <= PAYLOAD_MAX && |CallWire(m)| <= size
                 then |CallWire(m)| else ERR_ENCODE
    ensures n >= 0 ==> buf[..n] == CallWire(m)
  {
    if rpcvers != RPC_VERSION {
      return ERR_ENCODE;
    }
    if |m.payload| > PAYLOAD_MAX {
      return ERR_ENCODE;
    }
    var xdrs := new Xdr(buf, size);
    var ok := xdrs.PutWords([m.xid, MSG_CALL, rpcvers, m.prog, m.vers, m.proc, AUTH_NONE, 0, AUTH_NONE, 0]);
    if !ok {
      return ERR_ENCODE;
    }
    if |m.payload| > 0 {
      ok := xdrs.PutBytes(m.payload);
      if !ok {
        return ERR_ENCODE;
      }
    }
    n := xdrs.pos;
  }

  /** `rpc_encode_reply`. */
  method EncodeReply(buf: array<Byte>, size: nat, xid: U32, stat: U32, payload: Bytes) returns (n: int)
    requires size <= buf.Length
    modifies buf
    ensures n == if |payload| <= PAYLOAD_MAX && |ReplyWire(xid, stat, payload)| <= size
                 then |ReplyWire(xid, stat, payload)| else ERR_ENCODE
    ensures n >= 0 ==> buf[..n] == ReplyWire(xid, stat, payload)
  {
    if |payload| > PAYLOAD_MAX {
      return ERR_ENCODE;
    }
    var xdrs := new Xdr(buf, size);
    var ok := xdrs.PutWords([xid, MSG_REPLY, MSG_ACCEPTED, AUTH_NONE, 0, stat]);
    if !ok {
      return ERR_ENCODE;
    }
    if stat == SUCCESS && |payload| > 0 {
      ok := xdrs.PutBytes(payload);
      if !ok {
        return ERR_ENCODE;
      }
    }
    n := xdrs.pos;
  }

  // ----- Decoding -----

  /** An authentication field and where the next one begins. */
  datatype Field = Field(auth: Auth, end: nat)

  /** The authentication field at `o`. After the length of a body that is not empty the code reads a second
      word, which then counts the bytes of the body. */
  function AuthAt(s: Bytes, o: nat): Result<Field> {
    if o + 8 > |s| || WordAt(s, o + 4) > AUTH_BODY_MAX then Err
    else if WordAt(s, o + 4) == 0 then Ok(Field(Auth(WordAt(s, o), 0, []), o + 8))
    else if o + 12 > |s| || o + 12 + WordAt(s, o + 8) > |s| then Err
    else if WordAt(s, o + 8) > AUTH_BODY_MAX then Overrun
    else
      var end := o + 12 + WordAt(s, o + 8);
      Ok(Field(Auth(WordAt(s, o), WordAt(s, o + 4), s[o + 12..end]), end))
  }

  /** What follows the header. */
  function Rest(s: Bytes, o: nat): Result<Bytes> {
    if o > |s| || |s| - o > PAYLOAD_MAX then Err else Ok(s[o..])
  }

  function DecodeCall(s: Bytes): Result<Msg> {
    if |s| < 24 || WordAt(s, 8) != RPC_VERSION then Err
    else
      match AuthAt(s, 24)
      case Err => Err
      case Overrun => Overrun
      case Ok(cred) =>
        match AuthAt(s, cred.end)
        case Err => Err
        case Overrun => Overrun
        case Ok(verf) =>
          match Rest(s, verf.end)
          case Ok(payload) => Ok(Call(WordAt(s, 0), WordAt(s, 12), WordAt(s, 16), WordAt(s, 20), cred.auth, verf.auth, payload))
          case _ => Err
  }

  function DecodeAccepted(s: Bytes): Result<Msg>
    requires |s| >= 12
  {
    match AuthAt(s, 12)
    case Err => Err
    case Overrun => Overrun
    case Ok(verf) =>
      var o := verf.end;
      if o + 4 > |s| || (WordAt(s, o) == PROG_MISMATCH && o + 12 > |s|) then Err
      else
        var mismatch := if WordAt(s, o) == PROG_MISMATCH then [WordAt(s, o + 4), WordAt(s, o + 8)] else [];
        match Rest(s, if WordAt(s, o) == PROG_MISMATCH then o + 12 else o + 4)
        case Ok(payload) => Ok(Accepted(WordAt(s, 0), verf.auth, WordAt(s, o), mismatch, payload))
        case _ => Err
  }

  function DecodeDenied(s: Bytes): Result<Msg>
    requires |s| >= 12
  {
    if |s| < 20 || (WordAt(s, 12) == RPC_MISMATCH && |s| < 24) then Err
    else
      var info := if WordAt(s, 12) == RPC_MISMATCH then [WordAt(s, 16), WordAt(s, 20)] else [WordAt(s, 16)];
      match Rest(s, if WordAt(s, 12) == RPC_MISMATCH then 24 else 20)
      case Ok(payload) => Ok(Denied(WordAt(s, 0), WordAt(s, 8), WordAt(s, 12), info, payload))
      case _ => Err
  }

  /** What a datagram says. */
  function Decode(s: Bytes): Result<Msg> {
    if |s| < 8 then Err
    else if WordAt(s, 4) == MSG_CALL then DecodeCall(s)
    else if WordAt(s, 4) != MSG_REPLY || |s| < 12 then Err
    else if WordAt(s, 8) == MSG_ACCEPTED then DecodeAccepted(s)
    else DecodeDenied(s)
  }

  /** The header of a call whose authentication fields are empty. */
  function PlainWords(m: Msg): (ws: seq<U32>)
    requires m.Call?
    ensures |ws| == 10
  {
    [m.xid, MSG_CALL, RPC_VERSION, m.prog, m.vers, m.proc, m.cred.flavor, 0, m.verf.flavor, 0]
  }

  predicate IsPlain(s: Bytes, m: Msg)
    requires m.Call?
  {
    && |s| >= 40 && WordAt(s, 0) == m.xid && WordAt(s, 4) == MSG_CALL && WordAt(s, 8) == RPC_VERSION
    && WordAt(s, 12) == m.prog && WordAt(s, 16) == m.vers && WordAt(s, 20) == m.proc
    && WordAt(s, 24) == m.cred.flavor && WordAt(s, 28) == 0 && WordAt(s, 32) == m.verf.flavor && WordAt(s, 36) == 0
  }

  lemma PlainHeader(s: Bytes, m: Msg)
    requires m.Call? && |s| >= 40
    ensures IsPlain(s, m) <==> AllWords(s)[..10] == PlainWords(m)
  {
    var ws := AllWords(s)[..10];
    assert ws[0] == WordAt(s, 0) && ws[1] == WordAt(s, 4) && ws[2] == WordAt(s, 8) && ws[3] == WordAt(s, 12);
    assert ws[4] == WordAt(s, 16) && ws[5] == WordAt(s, 20) && ws[6] == WordAt(s, 24) && ws[7] == WordAt(s, 28);
    assert ws[8] == WordAt(s, 32) && ws[9] == WordAt(s, 36);
  }

  predicate IsEmpty(a: Auth) {
    a.len == 0 && a.body == []
  }

  lemma PlainDecodes(s: Bytes, m: Msg)
    requires m.Call? && IsEmpty(m.cred) && IsEmpty(m.verf) && |m.payload| <= PAYLOAD_MAX && IsPlain(s, m) && s[40..] == m.payload
    ensures Decode(s) == Ok(m)
  {
    assert AuthAt(s, 24) == Ok(Field(m.cred, 32)) && AuthAt(s, 32) == Ok(Field(m.verf, 40));
  }

  lemma WireIsPlain(m: Msg)
    requires m.Call?
    ensures var s := Words(PlainWords(m)) + m.payload; IsPlain(s, m) && s[40..] == m.payload
  {
    AllWordsOf(PlainWords(m), m.payload);
    PlainHeader(Words(PlainWords(m)) + m.payload, m);
  }

  /** Decoding an encoded call without credentials gives the call back; the version is the fixed one. */
  lemma CallRoundTrip(m: Msg)
    requires m.Call? && m.cred == m.verf == NO_AUTH && |m.payload| <= PAYLOAD_MAX
    ensures Decode(CallWire(m)) == Ok(m)
  {
    WireIsPlain(m);
    PlainDecodes(CallWire(m), m);
  }

  /** An accepted reply comes back, with its payload if it is SUCCESS and with none otherwise, exactly when
      it is not PROG_MISMATCH: that one is encoded without the version range the decoder then asks for. */
  lemma ReplyRoundTrip(xid: U32, stat: U32, payload: Bytes)
    requires |payload| <= PAYLOAD_MAX
    ensures Decode(ReplyWire(xid, stat, payload)) ==
            Ok(Accepted(xid, NO_AUTH, stat, [], if stat == SUCCESS then payload else []))
            <==> stat != PROG_MISMATCH
    ensures stat == PROG_MISMATCH ==> Decode(ReplyWire(xid, stat, payload)) == Err
  {
    var rest := if stat == SUCCESS then payload else [];
    ReplyHeader(xid, stat, rest);
    ReplyDecodes(ReplyWire(xid, stat, payload), xid, stat, rest);
  }

  predicate IsReply(s: Bytes, xid: U32, stat: U32) {
    && |s| >= 24 && WordAt(s, 0) == xid && WordAt(s, 4) == MSG_REPLY && WordAt(s, 8) == MSG_ACCEPTED
    && WordAt(s, 12) == AUTH_NONE && WordAt(s, 16) == 0 && WordAt(s, 20) == stat
  }

  lemma ReplyHeader(xid: U32, stat: U32, rest: Bytes)
    ensures IsReply(Words(ReplyWords(xid, stat)) + rest, xid, stat)
  {
    var h, s := ReplyWords(xid, stat), Words(ReplyWords(xid, stat)) + rest;
    AllWordsOf(h, rest);
    var ws := AllWords(s)[..6];
    assert ws[0] == WordAt(s, 0) && ws[1] == WordAt(s, 4) && ws[2] == WordAt(s, 8);
    assert ws[3] == WordAt(s, 12) && ws[4] == WordAt(s, 16) && ws[5] == WordAt(s, 20);
  }

  lemma ReplyDecodes(s: Bytes, xid: U32, stat: U32, rest: Bytes)
    requires |rest| <= PAYLOAD_MAX && |s| == 24 + |rest| && (stat == PROG_MISMATCH ==> rest == [])
    requires IsReply(s, xid, stat) && s[24..] == rest
    ensures Decode(s) == if stat == PROG_MISMATCH then Err else Ok(Accepted(xid, NO_AUTH, stat, [], rest))
  {
    assert AuthAt(s, 12) == Ok(Field(NO_AUTH, 20));
  }

  /** Only the encoding of a call decodes to it. */
  lemma CallExact(s: Bytes, m: Msg)
    requires Decode(s) == Ok(m) && m.Call? && m.cred == m.verf == NO_AUTH
    ensures s == CallWire(m)
  {
    CallDecoded(s, m);
    PlainHeader(s, m);
    HeaderBack(s, CallWords(m));
  }

  lemma HeaderBack(s: Bytes, ws: seq<U32>)
    requires |ws| == 10 && |s| >= 40 && AllWords(s)[..10] == ws
    ensures s == Words(ws) + s[40..]
  {
    WordsOfAll(s, 10);
    assert s == s[..40] + s[40..];
  }

  lemma CallDecoded(s: Bytes, m: Msg)
    requires Decode(s) == Ok(m) && m.Call? && m.cred == m.verf == NO_AUTH
    ensures IsPlain(s, m) && s[40..] == m.payload
  {
    var cred := AuthAt(s, 24).value;
    var verf := AuthAt(s, cred.end).value;
    assert cred.auth == verf.auth == NO_AUTH && cred.end == 32 && verf.end == 40;
  }

  // ----- Authentication fields with a body -----

  /** A length rounded up to a word. */
  function Padded(n: nat): nat {
    (n + 3) / 4 * 4
  }

  /** Section 8.2 of RFC 5531: the length counts the bytes that follow it, filled up to a word. */
  function StandardAuthAt(s: Bytes, o: nat): Result<Field> {
    if o + 8 > |s| || WordAt(s, o + 4) > AUTH_BODY_MAX || o + 8 + Padded(WordAt(s, o + 4)) > |s| then Err
    else Ok(Field(Auth(WordAt(s, o), WordAt(s, o + 4), s[o + 8..o + 8 + WordAt(s, o + 4)]), o + 8 + Padded(WordAt(s, o + 4))))
  }

  lemma PaddedBound(n: nat)
    ensures n <= Padded(n) < n + 4
  {
  }

  /** The code reads a field that the standard allows as the standard does if and only if its body is empty. */
  lemma AuthStandardIff(s: Bytes, o: nat)
    requires StandardAuthAt(s, o).Ok?
    ensures AuthAt(s, o) == StandardAuthAt(s, o) <==> WordAt(s, o + 4) == 0
  {
    var mine, theirs := AuthAt(s, o), StandardAuthAt(s, o);
    if WordAt(s, o + 4) == 0 {
      assert s[o + 8..o + 8] == [];
    } else if mine.Ok? {
      PaddedBound(|theirs.value.auth.body|);
      assert mine.value.end == o + 12 + |mine.value.auth.body| && theirs.value.end == o + 8 + Padded(|theirs.value.auth.body|);
    }
  }

  /** An authentication field as the standard writes it. */
  function AuthWire(a: Auth): Bytes {
    Words([a.flavor, a.len]) + a.body + seq(Padded(|a.body|) - |a.body|, _ => 0)
  }

  predicate IsStandard(a: Auth) {
    a.len == |a.body| <= AUTH_BODY_MAX
  }

  /** The call as the standard writes it, with its credentials. */
  function StandardWire(m: Msg): Bytes
    requires m.Call?
  {
    Words([m.xid, MSG_CALL, RPC_VERSION, m.prog, m.vers, m.proc]) + AuthWire(m.cred) + AuthWire(m.verf) + m.payload
  }

  /** The bytes that the code takes for a field. */
  function Taken(a: Auth): nat {
    if a.len == 0 then 8 else 12 + |a.body|
  }

  lemma CallTakes(s: Bytes, m: Msg)
    requires Decode(s) == Ok(m) && m.Call?
    ensures |s| == 24 + Taken(m.cred) + Taken(m.verf) + |m.payload|
  {
    var cred := AuthAt(s, 24).value;
    var verf := AuthAt(s, cred.end).value;
    assert cred.end == 24 + Taken(m.cred) && verf.end == cred.end + Taken(m.verf);
  }

  lemma EmptyWire(m: Msg)
    requires m.Call? && IsEmpty(m.cred) && IsEmpty(m.verf)
    ensures StandardWire(m) == Words(PlainWords(m)) + m.payload
  {
    var h, c, v := [m.xid, MSG_CALL, RPC_VERSION, m.prog, m.vers, m.proc], [m.cred.flavor, 0], [m.verf.flavor, 0];
    assert AuthWire(m.cred) == Words(c) && AuthWire(m.verf) == Words(v);
    WordsPlus(h, c);
    WordsPlus(h + c, v);
    assert h + c + v == PlainWords(m);
  }

  /** A call in the standard's form, whatever its credentials, is decoded to itself if and only if both its
      authentication bodies are empty. */
  lemma StandardCallIff(m: Msg)
    requires m.Call? && IsStandard(m.cred) && IsStandard(m.verf) && |m.payload| <= PAYLOAD_MAX
    ensures Decode(StandardWire(m)) == Ok(m) <==> m.cred.body == [] && m.verf.body == []
  {
    var s := StandardWire(m);
    if m.cred.body == [] && m.verf.body == [] {
      EmptyWire(m);
      WireIsPlain(m);
      PlainDecodes(s, m);
    } else if Decode(s) == Ok(m) {
      CallTakes(s, m);
      assert false;
    }
  }

  /** `rpc_decode_msg`. */
  method DecodeMsg(buf: array<Byte>, size: nat) returns (r: Result<Msg>)
    requires size <= buf.Length
    ensures r == Decode(buf[..size])
  {
    ghost var s := buf[..size];
    var xdrs := new Xdr(buf, size);
    var ok, xid := Next(xdrs, s, 0);
    if !ok {
      return Err;
    }
    var mtype;
    ok, mtype := Next(xdrs, s, 4);
    if !ok {
      return Err;
    }
    if mtype == MSG_CALL {
      r := CallBody(xdrs, xid, s);
    } else if mtype == MSG_REPLY {
      r := ReplyBody(xdrs, xid, s);
    } else {
      r := Err;
    }
  }

  method GetAuth(xdrs: Xdr, ghost s: Bytes, ghost o: nat) returns (r: Result<Field>)
    requires At(xdrs, s, o)
    modifies xdrs`pos
    ensures r == AuthAt(s, o)
    ensures r.Ok? ==> At(xdrs, s, r.value.end)
  {
    var ok, flavor := Next(xdrs, s, o);
    if !ok { return Err; }
    var len, body: Bytes;
    ok, len := Next(xdrs, s, o + 4);
    if !ok || len > AUTH_BODY_MAX {
      return Err;
    }
    body := [];
    if len > 0 {
      var count;
      ok, count := Next(xdrs, s, o + 8);
      if !ok { return Err; }
      ok, body := xdrs.GetBytes(count);
      if !ok { return Err; }
      assert body == s[o + 12..o + 12 + count];
      if count > AUTH_BODY_MAX {
        return Overrun;
      }
    }
    r := Ok(Field(Auth(flavor, len, body), xdrs.pos));
  }

  method GetRest(xdrs: Xdr, ghost s: Bytes, ghost o: nat) returns (r: Result<Bytes>)
    requires At(xdrs, s, o)
    modifies xdrs`pos
    ensures r == Rest(s, o)
  {
    var remaining := xdrs.size - xdrs.pos;
    if remaining > PAYLOAD_MAX {
      return Err;
    }
    var _, payload := xdrs.GetBytes(remaining);
    assert payload == s[o..];
    r := Ok(payload);
  }

  method CallBody(xdrs: Xdr, xid: U32, ghost s: Bytes) returns (r: Result<Msg>)
    requires At(xdrs, s, 8) && |s| >= 8 && xid == WordAt(s, 0)
    modifies xdrs`pos
    ensures r == DecodeCall(s)
  {
    var rpcvers, prog, vers, proc, ok;
    ok, rpcvers := Next(xdrs, s, 8);
    if !ok { return Err; }
    ok, prog := Next(xdrs, s, 12);
    if !ok { return Err; }
    ok, vers := Next(xdrs, s, 16);
    if !ok { return Err; }
    ok, proc := Next(xdrs, s, 20);
    if !ok { return Err; }
    if rpcvers != RPC_VERSION {
      return Err;
    }
    var cred := GetAuth(xdrs, s, 24);
    if !cred.Ok? {
      return if cred == Err then Err else Overrun;
    }
    var verf := GetAuth(xdrs, s, cred.value.end);
    if !verf.Ok? {
      return if verf == Err then Err else Overrun;
    }
    var rest := GetRest(xdrs, s, verf.value.end);
    if !rest.Ok? {
      return Err;
    }
    r := Ok(Call(xid, prog, vers, proc, cred.value.auth, verf.value.auth, rest.value));
  }

  method ReplyBody(xdrs: Xdr, xid: U32, ghost s: Bytes) returns (r: Result<Msg>)
    requires At(xdrs, s, 8) && |s| >= 8 && xid == WordAt(s, 0)
    modifies xdrs`pos
    ensures r == if |s| < 12 then Err else if WordAt(s, 8) == MSG_ACCEPTED then DecodeAccepted(s) else DecodeDenied(s)
  {
    var ok, stat := Next(xdrs, s, 8);
    if !ok { return Err; }
    if stat == MSG_ACCEPTED {
      r := AcceptedBody(xdrs, xid, s);
    } else {
      r := DeniedBody(xdrs, xid, stat, s);
    }
  }

  method AcceptedBody(xdrs: Xdr, xid: U32, ghost s: Bytes) returns (r: Result<Msg>)
    requires At(xdrs, s, 12) && |s| >= 12 && xid == WordAt(s, 0)
    modifies xdrs`pos
    ensures r == DecodeAccepted(s)
  {
    var verf := GetAuth(xdrs, s, 12);
    if !verf.Ok? {
      return if verf == Err then Err else Overrun;
    }
    ghost var o := verf.value.end;
    var ok, stat := Next(xdrs, s, o);
    if !ok { return Err; }
    var mismatch, rest: Result<Bytes> := [], Err;
    if stat == PROG_MISMATCH {
      var low, high;
      ok, low := Next(xdrs, s, o + 4);
      if !ok { return Err; }
      ok, high := Next(xdrs, s, o + 8);
      if !ok { return Err; }
      mismatch := [low, high];
      rest := GetRest(xdrs, s, o + 12);
    } else {
      rest := GetRest(xdrs, s, o + 4);
    }
    if !rest.Ok? {
      return Err;
    }
    r := Ok(Accepted(xid, verf.value.auth, stat, mismatch, rest.value));
  }

  method DeniedBody(xdrs: Xdr, xid: U32, stat: U32, ghost s: Bytes) returns (r: Result<Msg>)
    requires At(xdrs, s, 12) && |s| >= 12 && xid == WordAt(s, 0) && stat == WordAt(s, 8)
    modifies xdrs`pos
    ensures r == DecodeDenied(s)
  {
    var ok, reject := Next(xdrs, s, 12);
    if !ok { return Err; }
    var first, info, rest;
    ok, first := Next(xdrs, s, 16);
    if !ok { return Err; }
    if reject == RPC_MISMATCH {
      var high;
      ok, high := Next(xdrs, s, 20);
      if !ok { return Err; }
      info := [first, high];
      rest := GetRest(xdrs, s, 24);
    } else {
      info := [first];
      rest := GetRest(xdrs, s, 20);
    }
    if !rest.Ok? {
      return Err;
    }
    r := Ok(Denied(xid, stat, reject, info, rest.value));
  }
}
