/** WebSocket framing: cwebsocket builds frames, cwsconnection reads them (RFC 6455, sections 5.2 and 5.3). */
module WebSocket {
  import opened Bytes

  const OP_TEXT: nat := 1
  const OP_BINARY: nat := 2
  const OP_CLOSE: nat := 8
  const OP_PING: nat := 9
  const OP_PONG: nat := 10

  const CLOSE_UNSUPPORTED_DATA: nat := 1003
  const CLOSE_MESSAGE_TOO_BIG: nat := 1009
  const EMSGSIZE: int := 90
  const ENODATA: int := 61

  // ---------- masking ----------

  function Pow2(n: nat): (p: nat)
    ensures p > 0
  {
    if n == 0 then 1 else 2 * Pow2(n - 1)
  }

  /** The low n bits of a ^ b. */
  function XorBits(a: nat, b: nat, n: nat): (r: nat)
    ensures r < Pow2(n)
  {
    if n == 0 then 0 else (a % 2 + b % 2) % 2 + 2 * XorBits(a / 2, b / 2, n - 1)
  }

  lemma LowBit(bit: nat, high: nat)
    requires bit < 2
    ensures (bit + 2 * high) % 2 == bit && (bit + 2 * high) / 2 == high
  {
  }

  lemma BitTwice(x: nat, y: nat)
    requires x < 2 && y < 2
    ensures ((x + y) % 2 + y) % 2 == x
  {
  }

  lemma {:induction false} XorBitsTwice(a: nat, b: nat, n: nat)
    requires a < Pow2(n)
    ensures XorBits(XorBits(a, b, n), b, n) == a
  {
    if n > 0 {
      var bit, high := (a % 2 + b % 2) % 2, XorBits(a / 2, b / 2, n - 1);
      var x := XorBits(a, b, n);
      assert x == bit + 2 * high;
      LowBit(bit, high);
      XorBitsTwice(a / 2, b / 2, n - 1);
      assert XorBits(x, b, n) == (bit + b % 2) % 2 + 2 * (a / 2);
      BitTwice(a % 2, b % 2);
    }
  }

  /** Whether bit i of a is set. */
  predicate Bit(a: nat, i: nat) {
    if i == 0 then a % 2 == 1 else Bit(a / 2, i - 1)
  }

  /** Bit i of the result is set exactly when bit i of one operand is set, and of the other is not. */
  lemma {:induction false} XorBitsDiffer(a: nat, b: nat, n: nat, i: nat)
    requires i < n
    ensures Bit(XorBits(a, b, n), i) <==> (Bit(a, i) != Bit(b, i))
    decreases n
  {
    LowBit((a % 2 + b % 2) % 2, XorBits(a / 2, b / 2, n - 1));
    if i > 0 {
      XorBitsDiffer(a / 2, b / 2, n - 1, i - 1);
    }
  }

  lemma {:induction false} XorBitsCommute(a: nat, b: nat, n: nat)
    ensures XorBits(a, b, n) == XorBits(b, a, n)
    decreases n
  {
    if n > 0 {
      XorBitsCommute(a / 2, b / 2, n - 1);
    }
  }

  function Xor(a: byte, b: byte): byte {
    assert Pow2(8) == 256 by { assert Pow2(4) == 16; assert Pow2(6) == 64; }
    XorBits(a, b, 8)
  }

  type Key = k: seq<byte> | |k| == 4 witness [0, 0, 0, 0]

  function Masked(s: seq<byte>, key: Key): (r: seq<byte>)
    ensures |r| == |s|
  {
    seq(|s|, i requires 0 <= i < |s| => Xor(s[i], key[i % 4]))
  }

  lemma MaskedTwice(s: seq<byte>, key: Key)
    ensures Masked(Masked(s, key), key) == s
  {
    assert Pow2(8) == 256 by { assert Pow2(4) == 16; assert Pow2(6) == 64; }
    forall i | 0 <= i < |s| ensures Masked(Masked(s, key), key)[i] == s[i] {
      XorBitsTwice(s[i], key[i % 4], 8);
    }
  }

  /** Every bit of a masked byte is the bit of the byte, flipped where the key byte in turn has its bit set. */
  lemma MaskedBits(s: seq<byte>, key: Key, j: nat, i: nat)
    requires j < |s| && i < 8
    ensures Bit(Masked(s, key)[j], i) <==> (Bit(s[j], i) != Bit(key[j % 4], i))
  {
    XorBitsDiffer(s[j], key[j % 4], 8, i);
  }

  /** Unmasked with another key, a byte comes out different wherever the key bytes differ. */
  lemma WrongKeyShows(s: seq<byte>, key: Key, other: Key, j: nat)
    requires j < |s| && key[j % 4] != other[j % 4]
    ensures Masked(Masked(s, key), other)[j] != s[j]
  {
    assert Pow2(8) == 256 by { assert Pow2(4) == 16; assert Pow2(6) == 64; }
    var a: nat, k: nat, o: nat := s[j], key[j % 4], other[j % 4];
    var m := XorBits(a, k, 8);
    XorBitsCommute(a, k, 8);
    XorBitsTwice(k, a, 8);
    XorBitsTwice(o, m, 8);
    XorBitsCommute(o, m, 8);
    XorBitsCommute(k, a, 8);
    XorBitsCommute(a, m, 8);
    assert XorBits(m, a, 8) == k;
    assert XorBits(XorBits(m, o, 8), m, 8) == o;
  }

  /** cwebsocket::Mask on the part of a buffer that starts at from. */
  method Mask(data: array<byte>, from: nat, key: Key)
    requires from <= data.Length
    modifies data
    ensures data[..] == old(data[..from]) + Masked(old(data[from..]), key)
  {
    var length := data.Length - from;
    ghost var plain := data[from..];
    var n := 0;
    while n < length
      invariant n <= length
      invariant data[..from] == old(data[..from])
      invariant forall i :: from <= i < from + n ==> data[i] == Xor(old(data[i]), key[(i - from) % 4])
      invariant forall i :: from + n <= i < data.Length ==> data[i] == old(data[i])
    {
      data[from + n] := Xor(data[from + n], key[n % 4]);
      n := n + 1;
    }
    assert data[from..] == Masked(plain, key);
    assert data[..] == data[..from] + data[from..];
  }

  // ---------- building frames ----------

  datatype Frame = Frame(opcode: nat, message: seq<byte>, masked: bool, key: Key)

  /** frame_t, with fin set and the reserved bits clear. */
  function Header(opcode: nat, len: nat, masked: bool): (s: seq<byte>)
    ensures |s| == 2
  {
    [128 + opcode % 16, (if masked then 128 else 0) + len % 128]
  }

  /** The length fields of the small, medium and large frames. */
  function LengthBytes(opcode: nat, n: nat, masked: bool): seq<byte> {
    if n < 126 then Header(opcode, n, masked)
    else if n < 65536 then Header(opcode, 126, masked) + BeBytes(n, 2)
    else Header(opcode, 127, masked) + BeBytes(n, 8)
  }

  /** An empty message is never masked. */
  function UsesKey(f: Frame): bool {
    f.masked && f.message != []
  }

  function FrameBytes(f: Frame): seq<byte> {
    if UsesKey(f)
    then LengthBytes(f.opcode, |f.message|, true) + (f.key + Masked(f.message, f.key))
    else LengthBytes(f.opcode, |f.message|, false) + f.message
  }

  method MakeUnFrame(header: seq<byte>, message: seq<byte>) returns (payload: array<byte>)
    ensures fresh(payload) && payload[..] == header + message
  {
    payload := new byte[|header| + |message|](i requires 0 <= i < |header| + |message| => (header + message)[i]);
  }

  method MakeFrame(header: seq<byte>, message: seq<byte>, key: Key) returns (payload: array<byte>)
    ensures fresh(payload) && payload[..] == header + (key + Masked(message, key))
  {
    payload := MakeUnFrame(header + key, message);
    assert payload[..][|header| + 4..] == message;
    Mask(payload, |header| + 4, key);
  }

  /** cwebsocket::Make; the key is the one RandMask draws. */
  method Make(opcode: nat, message: seq<byte>, masked: bool, key: Key) returns (packet: array<byte>)
    ensures packet[..] == FrameBytes(Frame(opcode, message, masked, key))
  {
    if |message| < 126 {
      if !masked || message == [] {
        packet := MakeUnFrame(Header(opcode, |message|, false), message);
      } else {
        packet := MakeFrame(Header(opcode, |message|, true), message, key);
      }
    } else if |message| < 65536 {
      if !masked {
        packet := MakeUnFrame(Header(opcode, 126, false) + BeBytes(|message|, 2), message);
      } else {
        packet := MakeFrame(Header(opcode, 126, true) + BeBytes(|message|, 2), message, key);
      }
    } else {
      if !masked {
        packet := MakeUnFrame(Header(opcode, 127, false) + BeBytes(|message|, 8), message);
      } else {
        packet := MakeFrame(Header(opcode, 127, true) + BeBytes(|message|, 8), message, key);
      }
    }
  }

  // ---------- reading frames ----------

  /** Why reading stops, or the frame and what follows it on the stream. */
  datatype Decoded =
    | Whole(opcode: nat, payload: seq<byte>, rest: seq<byte>)
    | TooBig(rest: seq<byte>)
    | NoHeader
    | NoPayload(opcode: nat, length: nat)   // the header is complete, the payload is not

  function Decode(stream: seq<byte>, max: nat): Decoded {
    if |stream| < 2 then NoHeader
    else
      var len := stream[1] % 128;
      var extra: nat := if len < 126 then 0 else if len == 126 then 2 else 8;
      if |stream| < 2 + extra then NoHeader
      else
        var length := if extra == 0 then len as nat else BeValue(stream[2..2 + extra]);
        DecodePayload(stream[0] % 16, length, stream[1] >= 128, stream[2 + extra..], max)
  }

  function DecodePayload(opcode: nat, length: nat, masked: bool, stream: seq<byte>, max: nat): Decoded {
    if masked && |stream| < 4 then NoHeader
    else
      var data := if masked then stream[4..] else stream;
      if length > 0 && length >= max then TooBig(data)
      else if |data| < length then NoPayload(opcode, length)
      else Whole(opcode, if masked then Masked(data[..length], stream[..4]) else data[..length], data[length..])
  }

  datatype Event =
    | Message(opcode: nat, payload: seq<byte>)
    | Ping
    | PongSent
    | PeerClosed
    | CloseSent(code: nat)
    | ErrorReported(error: int)

  /** What a complete frame triggers, and the result of WsReadMessage. */
  function Reaction(opcode: nat, payload: seq<byte>): (seq<Event>, int) {
    if opcode == OP_TEXT || opcode == OP_BINARY then ([Message(opcode, payload)], 0)
    else if opcode == OP_PING then ([Ping, PongSent], 0)
    else if opcode == OP_CLOSE then ([PeerClosed], 0)
    else ([CloseSent(CLOSE_UNSUPPORTED_DATA), ErrorReported(-ENODATA)], -ENODATA)
  }

  /**
   How a connection reacts to what was on its stream. The result of the payload's WsRecv
   is not looked at, so an incomplete payload is delivered as a buffer of any content.
   */
  ghost predicate Reacted(d: Decoded, before: seq<Event>, after: seq<Event>, left: seq<byte>,
                          res: int, recvError: int)
  {
    match d
    case Whole(opcode, payload, rest) =>
      var (reaction, result) := Reaction(opcode, payload);
      left == rest && after == before + reaction && res == result
    case TooBig(rest) =>
      && left == rest && res == -EMSGSIZE
      && after == before + [CloseSent(CLOSE_MESSAGE_TOO_BIG), ErrorReported(-EMSGSIZE)]
    case NoHeader =>
      after == before + [ErrorReported(recvError)] && res == recvError
    case NoPayload(opcode, length) =>
      exists garbage: seq<byte> ::
        |garbage| == length && (after, res) == (before + Reaction(opcode, garbage).0, Reaction(opcode, garbage).1)
  }

  class WsConnection {
    var stream: seq<byte>     // what the socket still has to deliver
    var events: seq<Event>    // the handlers called and the frames sent
    const recvError: int      // what WsRecv reports when the bytes do not come

    constructor (stream: seq<byte>, recvError: int)
      requires recvError != 0
      ensures this.stream == stream && events == [] && this.recvError == recvError
    {
      this.stream, events, this.recvError := stream, [], recvError;
    }

    method WsRecv(n: nat) returns (res: int, data: seq<byte>)
      requires recvError != 0
      modifies this`stream
      ensures if n <= |old(stream)|
              then res == 0 && data == old(stream)[..n] && stream == old(stream)[n..]
              else res == recvError
    {
      if |stream| < n {
        return recvError, [];
      }
      data := stream[..n];
      stream := stream[n..];
      res := 0;
    }

    method WsReadMessage(maxMessageLength: nat) returns (res: int)
      requires recvError != 0
      modifies this
      ensures Reacted(Decode(old(stream), maxMessageLength),
                      old(events), events, stream, res, recvError)
    {
      var packet;
      res, packet := WsRecv(2);
      if res != 0 {
        events := events + [ErrorReported(res)];
        return;
      }
      var length: nat := packet[1] % 128;
      var nlength := length;
      var extra;
      ghost var s := old(stream);
      if length == 126 {
        res, extra := WsRecv(2);
        assert res == 0 ==> extra == s[2..4] && stream == s[4..];
        if res != 0 {
          events := events + [ErrorReported(res)];
          return;
        }
        nlength := BeValue(extra);
      } else if length == 127 {
        res, extra := WsRecv(8);
        assert res == 0 ==> extra == s[2..10] && stream == s[10..];
        if res != 0 {
          events := events + [ErrorReported(res)];
          return;
        }
        nlength := BeValue(extra);
      }
      assert Decode(s, maxMessageLength)
             == DecodePayload(packet[0] % 16, nlength, packet[1] >= 128, stream, maxMessageLength);
      res := ReadPayload(packet[0] % 16, nlength, packet[1] >= 128, maxMessageLength);
    }

    method ReadPayload(opcode: nat, nlength: nat, masked: bool, maxMessageLength: nat) returns (res: int)
      requires recvError != 0
      modifies this
      ensures Reacted(DecodePayload(opcode, nlength, masked, old(stream), maxMessageLength),
                      old(events), events, stream, res, recvError)
    {
      var key: seq<byte> := [0, 0, 0, 0];
      if masked {
        res, key := WsRecv(4);
        if res != 0 {
          events := events + [ErrorReported(res)];
          return;
        }
      }
      if nlength > 0 && nlength >= maxMessageLength {
        events := events + [CloseSent(CLOSE_MESSAGE_TOO_BIG), ErrorReported(-EMSGSIZE)];
        return -EMSGSIZE;
      }
      ghost var plain := stream;
      var message := new byte[nlength];
      if nlength > 0 {
        var received;
        res, received := WsRecv(nlength);
        if res == 0 {
          forall i | 0 <= i < nlength { message[i] := received[i]; }
          assert message[..] == received == plain[..nlength];
          if masked {
            assert message[..0] == [] && message[0..] == received;
            Mask(message, 0, key);
            assert message[..] == Masked(received, key);
          }
        }
      }
      ghost var buffer := message[..];
      var (reaction, result) := Reaction(opcode, message[..]);
      events := events + reaction;
      res := result;
      assert |buffer| == nlength && events == old(events) + Reaction(opcode, buffer).0;
      assert res == Reaction(opcode, buffer).1;
    }
  }

  // ---------- reading back what was built ----------

  predicate Wellformed(f: Frame) {
    f.opcode < 16 && |f.message| < 0x1_0000_0000_0000_0000
  }

  predicate Accepted(f: Frame, max: nat) {
    f.message == [] || |f.message| < max
  }

  lemma HeaderFields(opcode: nat, len: nat, masked: bool)
    requires opcode < 16 && len < 128
    ensures var h := Header(opcode, len, masked);
            h[0] % 16 == opcode && h[1] % 128 == len && (h[1] >= 128 <==> masked)
  {
  }

  lemma DecodeExtended(opcode: nat, n: nat, masked: bool, k: nat, rest: seq<byte>, max: nat)
    requires opcode < 16 && n < Pow256(k) && (k == 2 || k == 8)
    ensures Decode(Header(opcode, if k == 2 then 126 else 127, masked) + BeBytes(n, k) + rest, max)
            == DecodePayload(opcode, n, masked, rest, max)
  {
    var h := Header(opcode, if k == 2 then 126 else 127, masked);
    var s := h + BeBytes(n, k) + rest;
    HeaderFields(opcode, if k == 2 then 126 else 127, masked);
    BeRoundTrip(n, k);
    assert s[0] == h[0] && s[1] == h[1];
    assert s[2..2 + k] == BeBytes(n, k) && s[2 + k..] == rest;
  }

  /** The three length forms are told apart and read back. */
  lemma DecodeLength(f: Frame, masked: bool, rest: seq<byte>, max: nat)
    requires Wellformed(f)
    ensures Decode(LengthBytes(f.opcode, |f.message|, masked) + rest, max)
            == DecodePayload(f.opcode, |f.message|, masked, rest, max)
  {
    var n := |f.message|;
    Pow256Values();
    if n < 126 {
      var h := Header(f.opcode, n, masked);
      HeaderFields(f.opcode, n, masked);
      assert (h + rest)[0] == h[0] && (h + rest)[1] == h[1] && (h + rest)[2..] == rest;
    } else if n < 65536 {
      DecodeExtended(f.opcode, n, masked, 2, rest, max);
    } else {
      DecodeExtended(f.opcode, n, masked, 8, rest, max);
    }
  }

  /** One read of a built frame takes exactly that frame and yields its opcode and message, or refuses its size. */
  lemma DecodeFrame(f: Frame, rest: seq<byte>, max: nat)
    requires Wellformed(f)
    ensures Accepted(f, max) ==> Decode(FrameBytes(f) + rest, max) == Whole(f.opcode, f.message, rest)
    ensures !Accepted(f, max) ==> Decode(FrameBytes(f) + rest, max).TooBig?
  {
    var h := LengthBytes(f.opcode, |f.message|, UsesKey(f));
    if UsesKey(f) {
      var body := f.key + Masked(f.message, f.key) + rest;
      assert FrameBytes(f) + rest == h + body;
      assert body[..4] == f.key && body[4..] == Masked(f.message, f.key) + rest;
      assert body[4..][..|f.message|] == Masked(f.message, f.key);
      assert body[4..][|f.message|..] == rest;
      MaskedTwice(f.message, f.key);
      DecodeLength(f, true, body, max);
    } else {
      var body := f.message + rest;
      assert FrameBytes(f) + rest == h + body;
      assert body[..|f.message|] == f.message && body[|f.message|..] == rest;
      DecodeLength(f, false, body, max);
    }
  }

  lemma WholeIsShorter(stream: seq<byte>, max: nat)
    ensures Decode(stream, max).Whole? ==> |Decode(stream, max).rest| < |stream|
  {
  }

  /** Reading until something other than a whole frame comes. */
  function DecodeAll(stream: seq<byte>, max: nat): (seq<(nat, seq<byte>)>, seq<byte>)
    decreases |stream|
  {
    WholeIsShorter(stream, max);
    match Decode(stream, max)
    case Whole(opcode, payload, rest) =>
      var (messages, left) := DecodeAll(rest, max);
      ([(opcode, payload)] + messages, left)
    case _ => ([], stream)
  }

  function Concat(frames: seq<Frame>): seq<byte> {
    if frames == [] then [] else FrameBytes(frames[0]) + Concat(frames[1..])
  }

  function Contents(frames: seq<Frame>): seq<(nat, seq<byte>)> {
    if frames == [] then [] else [(frames[0].opcode, frames[0].message)] + Contents(frames[1..])
  }

  lemma DecodeAllStep(f: Frame, tail: seq<byte>, max: nat)
    requires Wellformed(f)
    ensures var (messages, left) := DecodeAll(tail, max);
            DecodeAll(FrameBytes(f) + tail, max)
            == if Accepted(f, max) then ([(f.opcode, f.message)] + messages, left)
               else ([], FrameBytes(f) + tail)
  {
    DecodeFrame(f, tail, max);
  }

  /** Any mix of frames is read back in order, nothing left, exactly when none reaches the size limit. */
  lemma {:induction false} DecodeConcatIff(frames: seq<Frame>, max: nat)
    requires forall f <- frames :: Wellformed(f)
    ensures DecodeAll(Concat(frames), max) == (Contents(frames), [])
            <==> forall f <- frames :: Accepted(f, max)
    decreases |frames|
  {
    if frames != [] {
      var f, rest := frames[0], frames[1..];
      assert frames == [f] + rest && f in frames;
      DecodeAllStep(f, Concat(rest), max);
      DecodeConcatIff(rest, max);
      if Accepted(f, max) {
        var (messages, left) := DecodeAll(Concat(rest), max);
        assert ([(f.opcode, f.message)] + messages)[1..] == messages;
        assert Contents(frames)[1..] == Contents(rest);
      }
    }
  }

  // ---------- as the standard lays it out ----------

  /** The bytes before the payload: two, the extended length, and the key. */
  function HeaderSize(length: byte): nat {
    2 + (if length % 128 < 126 then 0 else if length % 128 == 126 then 2 else 8) + if length >= 128 then 4 else 0
  }

  /** The length that the header states. */
  function StatedLength(s: seq<byte>): nat
    requires |s| >= 2 && |s| >= HeaderSize(s[1])
  {
    if s[1] % 128 < 126 then s[1] % 128 else if s[1] % 128 == 126 then BeValue(s[2..4]) else BeValue(s[2..10])
  }

  /** Any bytes: what is missing, what is refused, and exactly what is taken. */
  lemma DecodeDecides(s: seq<byte>, max: nat)
    ensures Decode(s, max).NoHeader? <==> |s| < 2 || |s| < HeaderSize(s[1])
    ensures |s| >= 2 && |s| >= HeaderSize(s[1]) ==>
              var h, n, d := HeaderSize(s[1]), StatedLength(s), Decode(s, max);
              && (d.TooBig? <==> n > 0 && n >= max)
              && (d.TooBig? ==> d.rest == s[h..])
              && (d.NoPayload? <==> (n == 0 || n < max) && |s| < h + n)
              && (d.NoPayload? ==> d.length == n && d.opcode == s[0] % 16)
              && (d.Whole? ==> d.opcode == s[0] % 16 && d.rest == s[h + n..])
              && (d.Whole? ==> d.payload == if s[1] >= 128 then Masked(s[h..h + n], s[h - 4..h]) else s[h..h + n])
  {
    if |s| >= 2 && |s| >= HeaderSize(s[1]) {
      var h, n := HeaderSize(s[1]), StatedLength(s);
      var k := if s[1] >= 128 then h - 4 else h;
      var left := s[k..];
      assert Decode(s, max) == DecodePayload(s[0] % 16, n, s[1] >= 128, left, max);
      if s[1] >= 128 {
        assert left[..4] == s[h - 4..h] && left[4..] == s[h..];
      }
      assert |s| >= h + n ==> s[h..][..n] == s[h..h + n] && s[h..][n..] == s[h + n..];
    }
  }

  /** Section 7.4.1: what is too big is answered with 1009, and nothing is delivered. */
  lemma RefusesBig(rest: seq<byte>, before: seq<Event>, after: seq<Event>, left: seq<byte>, res: int, error: int)
    ensures Reacted(TooBig(rest), before, after, left, res, error) <==>
            left == rest && after == before + [CloseSent(1009), ErrorReported(-90)] && res == -90
  {
  }

  /** Section 5.2: fin set, the opcode, the mask bit, the length in its shortest form in network order, key, payload. */
  lemma FrameLayout(f: Frame)
    requires Wellformed(f)
    ensures var n := |f.message|;
            var masked := f.masked && n > 0;
            var k := if n < 126 then 0 else if n < 65536 then 2 else 8;
            var len := if k == 0 then n else if k == 2 then 126 else 127;
            FrameBytes(f) == [128 + f.opcode, if masked then 128 + len else len] + BeBytes(n, k)
                             + (if masked then f.key + Masked(f.message, f.key) else f.message)
  {
    assert BeBytes(|f.message|, 0) == [];
  }

  /** Sections 5.4 to 5.6: which opcode is a message, a ping that is answered or a close; 1003 refuses the others. */
  lemma ReactsByOpcode(opcode: nat, payload: seq<byte>)
    ensures var (events, res) := Reaction(opcode, payload);
            && (opcode in {1, 2} <==> Message(opcode, payload) in events)
            && (opcode == 9 <==> PongSent in events) && (opcode == 9 <==> Ping in events)
            && (opcode == 8 <==> PeerClosed in events)
            && (opcode !in {1, 2, 8, 9} <==> CloseSent(1003) in events)
            && (res == 0 <==> opcode in {1, 2, 8, 9})
  {
  }
}
