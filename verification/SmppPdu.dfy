/** Packing and unpacking of SMPP v3.4 PDUs, and cutting a byte stream into them. */
module SmppPdu {
  import opened Wrappers
  import opened Bytes

  type u32 = x: int | 0 <= x < 0x1_0000_0000

  datatype Cmd = Cmd(id: u32, status: u32, sequence: u32)

  datatype Address = Address(ton: byte, npi: byte, address: seq<byte>)

  datatype Sms = Sms(
    command: Cmd, service: seq<byte>, src: Address, dst: Address,
    esm: byte, proto: byte, priority: byte,
    deliveryTime: seq<byte>, validPeriod: seq<byte>,
    registeredDelivery: byte, replace: byte, encoding: byte, msgId: byte,
    message: seq<byte>)

  /** Like Sms, but read with a C string where Sms has the one-byte sm_default_msg_id. */
  datatype Delivery = Delivery(
    service: seq<byte>, src: Address, dst: Address,
    esm: byte, proto: byte, priority: byte,
    deliveryTime: seq<byte>, validPeriod: seq<byte>,
    registeredDelivery: byte, replace: byte, encoding: byte, predefined: seq<byte>,
    message: seq<byte>)

  const COMMAND_SIZE: nat := 16
  const ECONNABORTED: int := 103

  // ---------- wire layout ----------

  function CString(s: seq<byte>): seq<byte> {
    s + [0]
  }

  predicate NulFree(s: seq<byte>) {
    0 !in s
  }

  function CmdBytes(c: Cmd): (s: seq<byte>)
    ensures |s| == COMMAND_SIZE
  {
    BeBytes(COMMAND_SIZE, 4) + (BeBytes(c.id, 4) + (BeBytes(c.status, 4) + BeBytes(c.sequence, 4)))
  }

  function AddressBytes(a: Address): seq<byte> {
    [a.ton, a.npi] + CString(a.address)
  }

  /** sm_length is one byte: the length is truncated, the text is not. */
  function MessageBytes(message: seq<byte>): seq<byte> {
    [|message| % 256] + message
  }

  function FlagBytes(m: Sms): seq<byte> {
    [m.registeredDelivery, m.replace, m.encoding, m.msgId]
  }

  function SmsTail(m: Sms): seq<byte> {
    CString(m.deliveryTime) + (CString(m.validPeriod) + (FlagBytes(m) + MessageBytes(m.message)))
  }

  function SmsMiddle(m: Sms): seq<byte> {
    AddressBytes(m.dst) + ([m.esm, m.proto, m.priority] + SmsTail(m))
  }

  function SmsBody(m: Sms): seq<byte> {
    CString(m.service) + (AddressBytes(m.src) + SmsMiddle(m))
  }

  /** The length is written over the first four bytes once the PDU is complete. */
  function WithLength(s: seq<byte>): (r: seq<byte>)
    requires |s| >= 4
    ensures |r| == |s|
  {
    BeBytes(|s|, 4) + s[4..]
  }

  function SmsPdu(m: Sms): seq<byte> {
    WithLength(CmdBytes(m.command) + SmsBody(m))
  }

  datatype Bind = Bind(login: seq<byte>, password: seq<byte>, system: seq<byte>, version: byte, addr: Address)

  function BindBody(b: Bind): seq<byte> {
    CString(b.login) + (CString(b.password) + (CString(b.system) + ([b.version] + AddressBytes(b.addr))))
  }

  function BindPdu(c: Cmd, b: Bind): seq<byte> {
    WithLength(CmdBytes(c) + BindBody(b))
  }

  function EnquirePdu(c: Cmd): seq<byte> {
    WithLength(CmdBytes(c))
  }

  function DeliveryRespPdu(c: Cmd, msgId: seq<byte>): seq<byte> {
    WithLength(CmdBytes(c) + CString(msgId))
  }

  // ---------- packing ----------

  /** smpp::cpacker */
  class Packer {
    var data: seq<byte>
    var offset: nat

    ghost predicate Valid()
      reads this
    {
      offset == |data|
    }

    constructor ()
      ensures Valid() && data == []
    {
      data, offset := [], 0;
    }

    method WriteU8(v: byte)
      requires Valid()
      modifies this
      ensures Valid() && data == old(data) + [v]
    {
      data := data + [v];
      offset := offset + 1;
    }

    method WriteU32(v: u32)
      requires Valid()
      modifies this
      ensures Valid() && data == old(data) + BeBytes(v, 4)
    {
      data := data + BeBytes(v, 4);
      offset := offset + 4;
    }

    method WriteU16(v: nat)
      requires Valid() && v < 0x1_0000
      modifies this
      ensures Valid() && data == old(data) + BeBytes(v, 2)
    {
      data := data + BeBytes(v, 2);
      offset := offset + 2;
    }

    method WriteString(v: seq<byte>)
      requires Valid()
      modifies this
      ensures Valid() && data == old(data) + CString(v)
    {
      data := data + v + [0];
      offset := offset + |v| + 1;
    }

    method WriteRaw(v: seq<byte>)
      requires Valid()
      modifies this
      ensures Valid() && data == old(data) + v
    {
      data := data + v;
      offset := offset + |v|;
    }

    method WriteCommand(c: Cmd)
      requires Valid()
      modifies this
      ensures Valid() && data == old(data) + CmdBytes(c)
    {
      WriteU32(COMMAND_SIZE);
      WriteU32(c.id);
      WriteU32(c.status);
      WriteU32(c.sequence);
    }

    method WriteAddress(a: Address)
      requires Valid()
      modifies this
      ensures Valid() && data == old(data) + AddressBytes(a)
    {
      WriteU8(a.ton);
      WriteU8(a.npi);
      WriteString(a.address);
    }

    method WriteMessage(message: seq<byte>)
      requires Valid()
      modifies this
      ensures Valid() && data == old(data) + MessageBytes(message)
    {
      WriteU8(|message| % 256);
      WriteRaw(message);
    }

    method WriteSmsTail(m: Sms)
      requires Valid()
      modifies this
      ensures Valid() && data == old(data) + SmsTail(m)
    {
      WriteString(m.deliveryTime);
      WriteString(m.validPeriod);
      WriteU8(m.registeredDelivery);
      WriteU8(m.replace);
      WriteU8(m.encoding);
      WriteU8(m.msgId);
      WriteMessage(m.message);
    }

    method WriteSmsBody(m: Sms)
      requires Valid()
      modifies this
      ensures Valid() && data == old(data) + SmsBody(m)
    {
      WriteString(m.service);
      WriteAddress(m.src);
      WriteAddress(m.dst);
      WriteU8(m.esm);
      WriteU8(m.proto);
      WriteU8(m.priority);
      WriteSmsTail(m);
    }

    method WriteBindBody(b: Bind)
      requires Valid()
      modifies this
      ensures Valid() && data == old(data) + BindBody(b)
    {
      WriteString(b.login);
      WriteString(b.password);
      WriteString(b.system);
      WriteU8(b.version);
      WriteAddress(b.addr);
    }

    /** Str(), then ccmd::Length on the first bytes of the copy. */
    method Finish() returns (msg: seq<byte>)
      requires Valid() && |data| >= 4
      ensures msg == WithLength(data)
    {
      msg := data;
      var len := BeBytes(|msg|, 4);
      msg := msg[0 := len[0]][1 := len[1]][2 := len[2]][3 := len[3]];
    }
  }

  method PackSms(m: Sms) returns (msg: seq<byte>)
    ensures msg == SmsPdu(m)
  {
    var packer := new Packer();
    packer.WriteCommand(m.command);
    packer.WriteSmsBody(m);
    msg := packer.Finish();
  }

  method PackBind(c: Cmd, b: Bind) returns (msg: seq<byte>)
    ensures msg == BindPdu(c, b)
  {
    var packer := new Packer();
    packer.WriteCommand(c);
    packer.WriteBindBody(b);
    msg := packer.Finish();
  }

  method PackEnquire(c: Cmd) returns (msg: seq<byte>)
    ensures msg == EnquirePdu(c)
  {
    var packer := new Packer();
    packer.WriteCommand(c);
    msg := packer.Finish();
  }

  method PackDeliveryResp(c: Cmd, msgId: seq<byte>) returns (msg: seq<byte>)
    ensures msg == DeliveryRespPdu(c, msgId)
  {
    var packer := new Packer();
    packer.WriteCommand(c);
    packer.WriteString(msgId);
    msg := packer.Finish();
  }

  // ---------- unpacking ----------

  type Parsed<T> = Option<(T, seq<byte>)>

  function TakeByte(s: seq<byte>): Parsed<byte> {
    if s == [] then None else Some((s[0], s[1..]))
  }

  function TakeU32(s: seq<byte>): Parsed<nat> {
    if |s| < 4 then None else Some((BeValue(s[..4]), s[4..]))
  }

  /** assign(data()) reads up to the first NUL; without one it would leave the buffer. */
  function TakeCString(s: seq<byte>): Parsed<seq<byte>> {
    if s == [] then None
    else if s[0] == 0 then Some(([], s[1..]))
    else
      var (tail, rest) :- TakeCString(s[1..]);
      Some(([s[0]] + tail, rest))
  }

  function TakeMessage(s: seq<byte>): Parsed<seq<byte>> {
    if s == [] then None
    else
      var len: nat, text := s[0], s[1..];
      if |text| < len then None else Some((text[..len], text[len..]))
  }

  function TakeAddress(s: seq<byte>): Parsed<Address> {
    var (ton, s1) :- TakeByte(s);
    var (npi, s2) :- TakeByte(s1);
    var (address, rest) :- TakeCString(s2);
    Some((Address(ton, npi, address), rest))
  }

  /** The command length that was read, and the command. */
  function TakeCmd(s: seq<byte>): Parsed<(nat, Cmd)> {
    var (len, s1) :- TakeU32(s);
    var (id, s2) :- TakeU32(s1);
    var (status, s3) :- TakeU32(s2);
    var (sequence, rest) :- TakeU32(s3);
    Pow256Values();
    Some(((len, Cmd(id, status, sequence)), rest))
  }

  /** registered_delivery to sm_default_msg_id and the text, read as cdelivery reads them. */
  datatype Tail = Tail(
    deliveryTime: seq<byte>, validPeriod: seq<byte>,
    registeredDelivery: byte, replace: byte, encoding: byte, predefined: seq<byte>,
    message: seq<byte>)

  function TakeTail(s: seq<byte>): Parsed<Tail> {
    var (deliveryTime, s1) :- TakeCString(s);
    var (validPeriod, s2) :- TakeCString(s1);
    var (registeredDelivery, s3) :- TakeByte(s2);
    var (replace, s4) :- TakeByte(s3);
    var (encoding, s5) :- TakeByte(s4);
    var (predefined, s6) :- TakeCString(s5);
    var (message, rest) :- TakeMessage(s6);
    Some((Tail(deliveryTime, validPeriod, registeredDelivery, replace, encoding, predefined, message), rest))
  }

  function TakeDelivery(s: seq<byte>): Parsed<Delivery> {
    var (service, s1) :- TakeCString(s);
    var (src, s2) :- TakeAddress(s1);
    var (dst, s3) :- TakeAddress(s2);
    var (esm, s4) :- TakeByte(s3);
    var (proto, s5) :- TakeByte(s4);
    var (priority, s6) :- TakeByte(s5);
    var (t, rest) :- TakeTail(s6);
    Some((Delivery(service, src, dst, esm, proto, priority, t.deliveryTime, t.validPeriod,
                   t.registeredDelivery, t.replace, t.encoding, t.predefined, t.message), rest))
  }

  /** The string a read yields is everything before the first NUL. */
  lemma {:induction false} FirstNulEndsCString(s: seq<byte>, n: nat)
    requires n <= |s| && NulFree(s[..n]) && (n < |s| ==> s[n] == 0)
    ensures TakeCString(s) == if n < |s| then Some((s[..n], s[n + 1..])) else None
  {
    if n > 0 {
      assert s[0] == s[..n][0];
      assert s[1..][..n - 1] == s[..n][1..];
      FirstNulEndsCString(s[1..], n - 1);
      assert [s[0]] + s[..n][1..] == s[..n];
    }
  }

  /** The std::string_view that the Unpack methods advance. */
  class View {
    var data: seq<byte>

    constructor (data: seq<byte>)
      ensures this.data == data
    {
      this.data := data;
    }

    method UnpackByte() returns (r: Option<byte>)
      modifies this
      ensures Advanced(r, TakeByte(old(data)), data)
    {
      if data == [] { return None; }
      r := Some(data[0]);
      data := data[1..];
    }

    method UnpackU32() returns (r: Option<nat>)
      modifies this
      ensures Advanced(r, TakeU32(old(data)), data)
    {
      if |data| < 4 { return None; }
      r := Some(BeValue(data[..4]));
      data := data[4..];
    }

    method UnpackCString() returns (r: Option<seq<byte>>)
      modifies this
      ensures Advanced(r, TakeCString(old(data)), data)
    {
      var n := 0;
      while n < |data| && data[n] != 0
        invariant n <= |data| && data == old(data) && NulFree(data[..n])
      {
        n := n + 1;
      }
      FirstNulEndsCString(data, n);
      if n == |data| { return None; }
      r := Some(data[..n]);
      data := data[n + 1..];
    }

    method UnpackMessage() returns (r: Option<seq<byte>>)
      modifies this
      ensures Advanced(r, TakeMessage(old(data)), data)
    {
      if data == [] { return None; }
      var len: nat := data[0];
      data := data[1..];
      if |data| < len { return None; }
      r := Some(data[..len]);
      data := data[len..];
    }

    method UnpackAddress() returns (r: Option<Address>)
      modifies this
      ensures Advanced(r, TakeAddress(old(data)), data)
    {
      var ton :- UnpackByte();
      var npi :- UnpackByte();
      var address :- UnpackCString();
      r := Some(Address(ton, npi, address));
    }

    method UnpackCmd() returns (r: Option<(nat, Cmd)>)
      modifies this
      ensures Advanced(r, TakeCmd(old(data)), data)
    {
      Pow256Values();
      var len :- UnpackU32();
      var id :- UnpackU32();
      var status :- UnpackU32();
      var sequence :- UnpackU32();
      r := Some((len, Cmd(id, status, sequence)));
    }

    method UnpackTail() returns (r: Option<Tail>)
      modifies this
      ensures Advanced(r, TakeTail(old(data)), data)
    {
      var deliveryTime :- UnpackCString();
      var validPeriod :- UnpackCString();
      var registeredDelivery :- UnpackByte();
      var replace :- UnpackByte();
      var encoding :- UnpackByte();
      var predefined :- UnpackCString();
      var message :- UnpackMessage();
      r := Some(Tail(deliveryTime, validPeriod, registeredDelivery, replace, encoding, predefined, message));
    }

    method UnpackDelivery() returns (r: Option<Delivery>)
      modifies this
      ensures Advanced(r, TakeDelivery(old(data)), data)
    {
      var service :- UnpackCString();
      var src :- UnpackAddress();
      var dst :- UnpackAddress();
      var esm :- UnpackByte();
      var proto :- UnpackByte();
      var priority :- UnpackByte();
      var t :- UnpackTail();
      r := Some(Delivery(service, src, dst, esm, proto, priority, t.deliveryTime, t.validPeriod,
                         t.registeredDelivery, t.replace, t.encoding, t.predefined, t.message));
    }
  }

  /** r is what was parsed, and the view holds what is left; nothing is said about a failed read. */
  ghost predicate Advanced<T>(r: Option<T>, p: Parsed<T>, left: seq<byte>) {
    match p
    case None => r == None
    case Some((t, rest)) => r == Some(t) && left == rest
  }

  // ---------- the submit round trip ----------

  /** What the reader should see of a submitted message. */
  function DeliveryOf(m: Sms): Delivery {
    Delivery(m.service, m.src, m.dst, m.esm, m.proto, m.priority, m.deliveryTime, m.validPeriod,
             m.registeredDelivery, m.replace, m.encoding, if m.msgId == 0 then [] else [m.msgId], m.message)
  }

  predicate Sendable(m: Sms) {
    && NulFree(m.service) && NulFree(m.src.address) && NulFree(m.dst.address)
    && NulFree(m.deliveryTime) && NulFree(m.validPeriod)
    && m.msgId == 0 && |m.message| <= 255
  }

  /** A C string followed by anything is read back exactly when it holds no NUL of its own. */
  lemma {:induction false} CStringRoundTrip(s: seq<byte>, rest: seq<byte>)
    ensures TakeCString(CString(s) + rest).Some?
    ensures NulFree(s) ==> TakeCString(CString(s) + rest) == Some((s, rest))
    ensures !NulFree(s) ==> TakeCString(CString(s) + rest).value.0 != s
  {
    var t := CString(s) + rest;
    if NulFree(s) {
      assert t[..|s|] == s && t[|s| + 1..] == rest;
      FirstNulEndsCString(t, |s|);
    } else {
      var n := FirstNul(s);
      assert t[..n] == s[..n];
      FirstNulEndsCString(t, n);
    }
  }

  lemma FirstNul(s: seq<byte>) returns (n: nat)
    requires !NulFree(s)
    ensures n < |s| && s[n] == 0 && NulFree(s[..n])
  {
    n := 0;
    while s[n] != 0
      invariant n < |s| && NulFree(s[..n]) && !NulFree(s[n..])
      decreases |s| - n
    {
      n := n + 1;
    }
  }

  lemma AddressRoundTrip(a: Address, rest: seq<byte>)
    ensures TakeAddress(AddressBytes(a) + rest).Some?
    ensures NulFree(a.address) ==> TakeAddress(AddressBytes(a) + rest) == Some((a, rest))
    ensures !NulFree(a.address) ==> TakeAddress(AddressBytes(a) + rest).value.0 != a
  {
    var s := AddressBytes(a) + rest;
    assert s[1..][1..] == CString(a.address) + rest;
    CStringRoundTrip(a.address, rest);
  }

  /** The one-byte message id read as a C string, and the text: intact only for id 0 and a short text. */
  lemma MessageRoundTrip(msgId: byte, message: seq<byte>)
    ensures var id := if msgId == 0 then [] else [msgId];
            var p := TakeCString([msgId] + MessageBytes(message));
            (p.Some? && p.value.0 == id && TakeMessage(p.value.1) == Some((message, [])))
            <==> msgId == 0 && |message| <= 255
  {
    var s := [msgId] + MessageBytes(message);
    assert s[1..] == MessageBytes(message);
    assert MessageBytes(message)[1..] == message;
    var n := |message| % 256;
    assert n == |message| ==> message[..n] == message;
    var p := TakeCString(s);
    if msgId == 0 {
      assert p == Some(([], MessageBytes(message)));
      assert TakeMessage(MessageBytes(message)) == Some((message[..n], message[n..]));
      assert n == |message| <==> |message| <= 255;
      if n == |message| { assert message[n..] == []; } else { assert |message[..n]| != |message|; }
    } else if p.Some? && p.value.0 == [msgId] {
      assert TakeCString(MessageBytes(message)).value.0 == [];
      assert p.value.1 == message;
      if TakeMessage(message).Some? {
        assert |TakeMessage(message).value.0| < |message|;
      }
    }
  }

  /** Past two readable times and the flags, the rest is the message id and the text. */
  lemma TimesRead(m: Sms)
    requires NulFree(m.deliveryTime) && NulFree(m.validPeriod)
    ensures TakeTail(SmsTail(m)) ==
            match TakeCString([m.msgId] + MessageBytes(m.message))
            case None => None
            case Some((id, s)) =>
              match TakeMessage(s)
              case None => None
              case Some((text, rest)) =>
                Some((Tail(m.deliveryTime, m.validPeriod, m.registeredDelivery, m.replace, m.encoding, id, text), rest))
  {
    var s2 := FlagBytes(m) + MessageBytes(m.message);
    CStringRoundTrip(m.deliveryTime, CString(m.validPeriod) + s2);
    CStringRoundTrip(m.validPeriod, s2);
    assert s2[1..][1..][1..] == [m.msgId] + MessageBytes(m.message);
  }

  lemma TimesMisread(m: Sms)
    requires !(NulFree(m.deliveryTime) && NulFree(m.validPeriod))
    ensures var p := TakeTail(SmsTail(m));
            p.Some? ==> p.value.0.deliveryTime != m.deliveryTime || p.value.0.validPeriod != m.validPeriod
  {
    var s2 := FlagBytes(m) + MessageBytes(m.message);
    CStringRoundTrip(m.deliveryTime, CString(m.validPeriod) + s2);
    CStringRoundTrip(m.validPeriod, s2);
  }

  lemma TailRoundTrip(m: Sms)
    ensures (TakeTail(SmsTail(m)) == Some((Tail(m.deliveryTime, m.validPeriod, m.registeredDelivery,
              m.replace, m.encoding, if m.msgId == 0 then [] else [m.msgId], m.message), [])))
            <==> NulFree(m.deliveryTime) && NulFree(m.validPeriod) && m.msgId == 0 && |m.message| <= 255
  {
    if NulFree(m.deliveryTime) && NulFree(m.validPeriod) {
      TimesRead(m);
      MessageRoundTrip(m.msgId, m.message);
    } else {
      TimesMisread(m);
    }
  }

  lemma AddressesRead(m: Sms)
    requires NulFree(m.service) && NulFree(m.src.address) && NulFree(m.dst.address)
    ensures TakeDelivery(SmsBody(m)) ==
            match TakeTail(SmsTail(m))
            case None => None
            case Some((t, rest)) =>
              Some((Delivery(m.service, m.src, m.dst, m.esm, m.proto, m.priority, t.deliveryTime, t.validPeriod,
                             t.registeredDelivery, t.replace, t.encoding, t.predefined, t.message), rest))
  {
    CStringRoundTrip(m.service, AddressBytes(m.src) + SmsMiddle(m));
    AddressRoundTrip(m.src, SmsMiddle(m));
    var s := [m.esm, m.proto, m.priority] + SmsTail(m);
    AddressRoundTrip(m.dst, s);
    assert s[1..][1..][1..] == SmsTail(m);
  }

  lemma AddressesMisread(m: Sms)
    requires !(NulFree(m.service) && NulFree(m.src.address) && NulFree(m.dst.address))
    ensures var p := TakeDelivery(SmsBody(m));
            p.Some? ==> p.value.0.service != m.service || p.value.0.src != m.src || p.value.0.dst != m.dst
  {
    CStringRoundTrip(m.service, AddressBytes(m.src) + SmsMiddle(m));
    AddressRoundTrip(m.src, SmsMiddle(m));
    AddressRoundTrip(m.dst, [m.esm, m.proto, m.priority] + SmsTail(m));
  }

  /** cdelivery::Unpack on a body from csms::Pack gives every field, nothing left, exactly for sendable messages. */
  lemma BodyRoundTripIff(m: Sms)
    ensures TakeDelivery(SmsBody(m)) == Some((DeliveryOf(m), [])) <==> Sendable(m)
  {
    if NulFree(m.service) && NulFree(m.src.address) && NulFree(m.dst.address) {
      AddressesRead(m);
      TailRoundTrip(m);
    } else {
      AddressesMisread(m);
    }
  }

  lemma {:induction false} CmdRoundTrip(len: nat, c: Cmd, rest: seq<byte>)
    ensures TakeCmd(BeBytes(len, 4) + (CmdBytes(c)[4..] + rest))
            == Some(((len % 0x1_0000_0000, c), rest))
  {
    var s3 := BeBytes(c.sequence, 4) + rest;
    var s2 := BeBytes(c.status, 4) + s3;
    var s1 := BeBytes(c.id, 4) + s2;
    assert CmdBytes(c)[4..] + rest == s1;
    TakeU32Of(len, s1);
    TakeU32Of(c.id, s2);
    TakeU32Of(c.status, s3);
    TakeU32Of(c.sequence, rest);
  }

  lemma TakeU32Of(n: nat, rest: seq<byte>)
    ensures TakeU32(BeBytes(n, 4) + rest) == Some((n % 0x1_0000_0000, rest))
  {
    var word := BeBytes(n, 4);
    Pow256Values();
    BeRoundTrip(n, 4);
    assert (word + rest)[..4] == word && (word + rest)[4..] == rest;
  }

  /** ccmd::Unpack, then cdelivery::Unpack. */
  function TakeSms(s: seq<byte>): Parsed<(Cmd, Delivery)> {
    var (c, s1) :- TakeCmd(s);
    var (d, rest) :- TakeDelivery(s1);
    Some(((c.1, d), rest))
  }

  lemma SmsRoundTripIff(m: Sms)
    ensures TakeSms(SmsPdu(m)) == Some(((m.command, DeliveryOf(m)), [])) <==> Sendable(m)
  {
    var s := CmdBytes(m.command) + SmsBody(m);
    assert s[4..] == CmdBytes(m.command)[4..] + SmsBody(m);
    CmdRoundTrip(|s|, m.command, SmsBody(m));
    BodyRoundTripIff(m);
  }

  // ---------- layouts, field by field ----------

  lemma Regroup(a: seq<byte>, b: seq<byte>, c: seq<byte>)
    ensures (a + b) + c == a + (b + c)
  {
  }

  lemma CStringThen(s: seq<byte>, rest: seq<byte>)
    ensures CString(s) + rest == s + ([0] + rest)
  {
    Regroup(s, [0], rest);
  }

  lemma AddressThen(a: Address, rest: seq<byte>)
    ensures AddressBytes(a) + rest == [a.ton, a.npi] + (a.address + ([0] + rest))
  {
    Regroup([a.ton, a.npi], CString(a.address), rest);
    CStringThen(a.address, rest);
  }

  /** The four words of the header, the first of them the length of the whole PDU. */
  lemma HeaderLayout(c: Cmd, body: seq<byte>)
    ensures WithLength(CmdBytes(c) + body) ==
            BeBytes(16 + |body|, 4) + (BeBytes(c.id, 4) + (BeBytes(c.status, 4) + (BeBytes(c.sequence, 4) + body)))
  {
    AfterLength(BeBytes(COMMAND_SIZE, 4), BeBytes(c.id, 4), BeBytes(c.status, 4), BeBytes(c.sequence, 4), body);
  }

  lemma AfterLength(length: seq<byte>, id: seq<byte>, status: seq<byte>, sequence: seq<byte>, body: seq<byte>)
    requires |length| == 4
    ensures ((length + (id + (status + sequence))) + body)[4..] == id + (status + (sequence + body))
  {
    Regroup(length, id + (status + sequence), body);
    Regroup(id, status + sequence, body);
    Regroup(status, sequence, body);
  }

  /** submit_sm, section 4.4.1 of SMPP v3.4. */
  lemma SmsLayout(m: Sms)
    ensures SmsBody(m) ==
            m.service + ([0] + ([m.src.ton, m.src.npi] + (m.src.address + ([0] +
            ([m.dst.ton, m.dst.npi] + (m.dst.address + ([0] + ([m.esm, m.proto, m.priority] +
            (m.deliveryTime + ([0] + (m.validPeriod + ([0] +
            ([m.registeredDelivery, m.replace, m.encoding, m.msgId] + ([|m.message| % 256] + m.message))))))))))))))
  {
    CStringThen(m.service, AddressBytes(m.src) + SmsMiddle(m));
    AddressThen(m.src, SmsMiddle(m));
    AddressThen(m.dst, [m.esm, m.proto, m.priority] + SmsTail(m));
    CStringThen(m.deliveryTime, CString(m.validPeriod) + (FlagBytes(m) + MessageBytes(m.message)));
    CStringThen(m.validPeriod, FlagBytes(m) + MessageBytes(m.message));
  }

  /** bind_transceiver, section 4.1.5: system_id, password, system_type, interface_version, ton, npi, address_range. */
  lemma BindLayout(b: Bind)
    ensures BindBody(b) ==
            b.login + ([0] + (b.password + ([0] + (b.system + ([0] + ([b.version] +
            ([b.addr.ton, b.addr.npi] + (b.addr.address + [0]))))))))
  {
    var rest := [b.version] + AddressBytes(b.addr);
    CStringThen(b.login, CString(b.password) + (CString(b.system) + rest));
    CStringThen(b.password, CString(b.system) + rest);
    CStringThen(b.system, rest);
  }

  /** A reader of that layout. */
  function TakeBind(s: seq<byte>): Parsed<Bind> {
    var (login, s1) :- TakeCString(s);
    var (password, s2) :- TakeCString(s1);
    var (system, s3) :- TakeCString(s2);
    var (version, s4) :- TakeByte(s3);
    var (addr, rest) :- TakeAddress(s4);
    Some((Bind(login, password, system, version, addr), rest))
  }

  /** The four strings of a bind come back exactly when none of them holds a NUL. */
  lemma BindRoundTripIff(b: Bind)
    ensures TakeBind(BindBody(b)) == Some((b, []))
            <==> NulFree(b.login) && NulFree(b.password) && NulFree(b.system) && NulFree(b.addr.address)
  {
    var s3 := [b.version] + AddressBytes(b.addr);
    var s2 := CString(b.system) + s3;
    var s1 := CString(b.password) + s2;
    CStringRoundTrip(b.login, s1);
    CStringRoundTrip(b.password, s2);
    CStringRoundTrip(b.system, s3);
    assert s3[1..] == AddressBytes(b.addr) + [];
    AddressRoundTrip(b.addr, []);
  }

  /** deliver_sm_resp: the message id, a C string, comes back exactly when it holds no NUL. */
  lemma RespRoundTripIff(msgId: seq<byte>)
    ensures CString(msgId) == msgId + [0]
    ensures TakeCString(CString(msgId)) == Some((msgId, [])) <==> NulFree(msgId)
  {
    CStringRoundTrip(msgId, []);
    assert CString(msgId) + [] == CString(msgId);
  }

  // ---------- framing ----------

  predicate WellFramed(pdu: seq<byte>) {
    |pdu| >= COMMAND_SIZE && BeValue(pdu[..4]) == |pdu|
  }

  /** A finished PDU carries its own length exactly while that length fits 32 bits. */
  lemma WithLengthFramedIff(s: seq<byte>)
    requires |s| >= COMMAND_SIZE
    ensures WellFramed(WithLength(s)) <==> |s| < 0x1_0000_0000
  {
    Pow256Values();
    BeRoundTrip(|s|, 4);
    assert WithLength(s)[..4] == BeBytes(|s|, 4);
  }

  lemma EveryPduFramed(c: Cmd, m: Sms, b: Bind, msgId: seq<byte>)
    ensures WellFramed(EnquirePdu(c))
    ensures |SmsPdu(m)| < 0x1_0000_0000 ==> WellFramed(SmsPdu(m))
    ensures |BindPdu(c, b)| < 0x1_0000_0000 ==> WellFramed(BindPdu(c, b))
    ensures |DeliveryRespPdu(c, msgId)| < 0x1_0000_0000 ==> WellFramed(DeliveryRespPdu(c, msgId))
  {
    WithLengthFramedIff(CmdBytes(c));
    WithLengthFramedIff(CmdBytes(m.command) + SmsBody(m));
    WithLengthFramedIff(CmdBytes(c) + BindBody(b));
    WithLengthFramedIff(CmdBytes(c) + CString(msgId));
  }

  /** A length below the header size wraps the remaining count and overruns the buffer. */
  datatype Cut = Whole(pdu: seq<byte>, rest: seq<byte>) | Failed | Undefined

  /**
   The bytes OnGwReply takes off the stream for one PDU. errno is what earlier calls left in the thread: the socket
   reports it as the result of a read of length 0, so a PDU that is only a header needs it to be 0.
   */
  function CutPdu(stream: seq<byte>, errno: int): Cut {
    if |stream| < COMMAND_SIZE then Failed
    else
      var len := BeValue(stream[..4]);
      if len < COMMAND_SIZE then Undefined
      else if len == COMMAND_SIZE && errno != 0 then Failed
      else if |stream| < len then Failed
      else Whole(stream[..len], stream[len..])
  }

  /** Any bytes: the first word decides, and what is taken off is as long as it says. */
  lemma CutDecides(stream: seq<byte>, errno: int)
    ensures CutPdu(stream, errno).Undefined? <==> |stream| >= 16 && BeValue(stream[..4]) < 16
    ensures CutPdu(stream, errno).Whole? <==>
            |stream| >= 16 && 16 <= BeValue(stream[..4]) <= |stream| && (BeValue(stream[..4]) == 16 ==> errno == 0)
    ensures CutPdu(stream, errno).Whole? ==>
              var c := CutPdu(stream, errno);
              c.pdu + c.rest == stream && |c.pdu| == BeValue(stream[..4])
  {
  }

  class Gateway {
    var stream: seq<byte>     // what the socket still has to deliver
    var connected: bool
    var replies: seq<seq<byte>>

    constructor (stream: seq<byte>)
      ensures this.stream == stream && connected && replies == []
    {
      this.stream, connected, replies := stream, true, [];
    }

    /** SocketRecv; a read of length 0 skips the loop and ends in -errno. */
    method SocketRecv(n: nat, errno: int) returns (err: int, data: seq<byte>)
      modifies this`stream
      ensures n == 0 ==> err == -errno && data == [] && stream == old(stream)
      ensures 0 < n <= |old(stream)| ==> err == 0 && |data| == n && data + stream == old(stream)
      ensures n > |old(stream)| ==> err != 0
    {
      if n == 0 {
        return -errno, [];
      }
      if |stream| < n {
        data, stream := stream, [];
        return -ECONNABORTED, data;
      }
      err, data := 0, stream[..n];
      stream := stream[n..];
    }

    /** cgateway::OnGwReply; readable says whether the event was EPOLLIN. False where the C++ is undefined. */
    method OnGwReply(readable: bool, errno: int) returns (defined: bool)
      modifies this
      ensures !old(connected) ==> defined && unchanged(this)
      ensures old(connected) && !readable ==>
                defined && !connected && replies == old(replies) && stream == old(stream)
      ensures old(connected) && readable ==> (defined <==> !CutPdu(old(stream), errno).Undefined?)
      ensures old(connected) && readable && defined ==>
                match CutPdu(old(stream), errno)
                case Whole(pdu, rest) => connected && replies == old(replies) + [pdu] && stream == rest
                case _ => !connected && replies == old(replies)
    {
      if !connected { return true; }
      if readable {
        var err, response := SocketRecv(COMMAND_SIZE, errno);
        if err == 0 {
          assert response[..4] == old(stream)[..4];
          var len := BeValue(response[..4]);
          if len < COMMAND_SIZE { return false; }
          var nread := len - COMMAND_SIZE;
          var body;
          err, body := SocketRecv(nread, errno);
          if err == 0 {
            assert old(stream) == (response + body) + stream;
            replies := replies + [response + body];
            return true;
          }
        }
      }
      connected := false;
      return true;
    }
  }

  /** Reading PDU after PDU; errno(k) is what the thread holds at read k. */
  function CutAll(stream: seq<byte>, errno: nat -> int, k: nat): (r: (seq<seq<byte>>, seq<byte>))
    decreases |stream|
  {
    match CutPdu(stream, errno(k))
    case Whole(pdu, rest) =>
      var (pdus, left) := CutAll(rest, errno, k + 1);
      ([pdu] + pdus, left)
    case _ => ([], stream)
  }

  function Concat(pdus: seq<seq<byte>>): seq<byte> {
    if pdus == [] then [] else pdus[0] + Concat(pdus[1..])
  }

  /** What one read needs: a true length, and for a bare header an errno of 0. */
  predicate Readable(pdu: seq<byte>, errno: int) {
    WellFramed(pdu) && (|pdu| > COMMAND_SIZE || errno == 0)
  }

  lemma CutFirst(pdu: seq<byte>, rest: seq<byte>, errno: int)
    ensures Readable(pdu, errno) ==> CutPdu(pdu + rest, errno) == Whole(pdu, rest)
    ensures CutPdu(pdu + rest, errno).Whole? && CutPdu(pdu + rest, errno).pdu == pdu ==> Readable(pdu, errno)
  {
    var s := pdu + rest;
    assert |pdu| >= 4 ==> s[..4] == pdu[..4];
    assert s[..|pdu|] == pdu && s[|pdu|..] == rest;
  }

  predicate AllReadable(pdus: seq<seq<byte>>, errno: nat -> int, k: nat)
    decreases |pdus|
  {
    pdus == [] || (Readable(pdus[0], errno(k)) && AllReadable(pdus[1..], errno, k + 1))
  }

  /**
   Reading PDU after PDU gives back the list that was sent, with nothing left, exactly when every PDU is well framed
   and no bare header is read while errno is set.
   */
  lemma {:induction false} CutConcatIff(pdus: seq<seq<byte>>, errno: nat -> int, k: nat)
    ensures CutAll(Concat(pdus), errno, k) == (pdus, []) <==> AllReadable(pdus, errno, k)
    decreases |pdus|
  {
    if pdus != [] {
      var p, rest := pdus[0], pdus[1..];
      assert pdus == [p] + rest;
      CutFirst(p, Concat(rest), errno(k));
      if Readable(p, errno(k)) {
        CutConcatIff(rest, errno, k + 1);
      }
    }
  }

  /** With errno set, an enquire_link or any other bare header ends the connection instead of being answered. */
  lemma EnquireReadIff(c: Cmd, rest: seq<byte>, errno: int)
    ensures CutPdu(EnquirePdu(c) + rest, errno) == Whole(EnquirePdu(c), rest) <==> errno == 0
  {
    WithLengthFramedIff(CmdBytes(c));
    CutFirst(EnquirePdu(c), rest, errno);
  }
}
