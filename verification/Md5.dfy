/** http::Md5: padding, block loop and compression, against RFC 1321, sections 3.1 to 3.5. */
module Md5 {
  import opened Bytes

  // ---------- padding (sections 3.1 and 3.2) ----------

  /** The message with the 0x80 byte and the zeros, without the length. */
  function PaddedLength(n: nat): nat {
    n + 1 + (55 - n) % 64
  }

  lemma PaddedLengthIsLeast(n: nat)
    ensures PaddedLength(n) >= n + 1 && PaddedLength(n) % 64 == 56
    ensures forall k :: n + 1 <= k < PaddedLength(n) ==> k % 64 != 56
  {
  }

  /** The k low-order bytes of n, least significant first. */
  function LeBytes(n: nat, k: nat): (s: seq<byte>)
    ensures |s| == k
  {
    if k == 0 then [] else [n % 256] + LeBytes(n / 256, k - 1)
  }

  function Zeros(n: nat): (s: seq<byte>)
    ensures |s| == n && forall i :: 0 <= i < n ==> s[i] == 0
  {
    seq(n, _ => 0)
  }

  function Padded(m: seq<byte>): (p: seq<byte>)
    ensures |p| == PaddedLength(|m|) + 8
  {
    m + [0x80] + Zeros(PaddedLength(|m|) - |m| - 1) + LeBytes(8 * |m|, 8)
  }

  /** Byte i is the digit of weight 256^i. */
  lemma {:induction false} LittleEndian(n: nat, k: nat, i: nat)
    requires i < k
    ensures LeBytes(n, k)[i] == n / Pow256(i) % 256
    decreases i
  {
    if i > 0 {
      LittleEndian(n / 256, k - 1, i - 1);
      DivTwice(n, Pow256(i - 1));
    }
  }

  /** At least one byte and the length are added, and no more than they need to fill whole blocks. */
  lemma PaddedBlocks(m: seq<byte>)
    ensures |Padded(m)| % 64 == 0 && |m| + 9 <= |Padded(m)| < |m| + 73
  {
    PaddedLengthIsLeast(|m|);
    EightMore(PaddedLength(|m|));
  }

  lemma EightMore(p: nat)
    requires p % 64 == 56
    ensures (p + 8) % 64 == 0
  {
  }

  /** Sections 3.1 and 3.2, byte by byte: the message, 0x80, zeros, and the length in bits. */
  lemma PaddedAt(m: seq<byte>, i: nat)
    requires i < |Padded(m)|
    ensures var tail := |Padded(m)| - 8;
            Padded(m)[i] ==
            if i < |m| then m[i]
            else if i == |m| then 0x80
            else if i < tail then 0
            else 8 * |m| / Pow256(i - tail) % 256
  {
    var tail := PaddedLength(|m|);
    var head, bits := m + [0x80] + Zeros(tail - |m| - 1), LeBytes(8 * |m|, 8);
    assert |head| == tail && Padded(m) == head + bits;
    if i >= tail {
      LittleEndian(8 * |m|, 8, i - tail);
      assert Padded(m)[i] == bits[i - tail];
    } else {
      assert Padded(m)[i] == head[i];
    }
  }

  /** n without its k low-order bytes. */
  function Dropped(n: nat, k: nat): nat {
    if k == 0 then n else Dropped(n / 256, k - 1)
  }

  lemma {:induction false} LeSplit(n: nat, j: nat, k: nat)
    ensures LeBytes(n, j + k) == LeBytes(n, j) + LeBytes(Dropped(n, j), k)
    decreases j
  {
    if j > 0 {
      LeSplit(n / 256, j - 1, k);
    }
  }

  lemma {:induction false} LeWrap(n: nat, k: nat)
    ensures LeBytes(n % Pow256(k), k) == LeBytes(n, k)
    decreases k
  {
    if k > 0 {
      var p := Pow256(k - 1);
      ModSplit(n, p);
      LowByte((n / 256) % p, n % 256);
      LeWrap(n / 256, k - 1);
    }
  }

  lemma DropFour(n: nat)
    ensures Dropped(n, 4) == n / 0x1_0000_0000
  {
    var n1, n2, n3 := n / 256, n / 256 / 256, n / 256 / 256 / 256;
    assert Dropped(n, 4) == Dropped(n1, 3) && Dropped(n1, 3) == Dropped(n2, 2);
    assert Dropped(n2, 2) == Dropped(n3, 1) && Dropped(n3, 1) == Dropped(n3 / 256, 0);
  }

  lemma LowByte(high: nat, low: nat)
    requires low < 256
    ensures (256 * high + low) % 256 == low && (256 * high + low) / 256 == high
  {
  }

  /** The two 32-bit halves that the code stores are the low 64 bits of the length in bits. */
  lemma LengthHalves(n: nat)
    ensures LeBytes(8 * n, 8) == LeBytes(8 * n % 0x1_0000_0000, 4) + LeBytes(n / 0x2000_0000 % 0x1_0000_0000, 4)
  {
    Pow256Values();
    LeSplit(8 * n, 4, 4);
    DropFour(8 * n);
    assert 8 * n / 0x1_0000_0000 == n / 0x2000_0000;
    LeWrap(8 * n, 4);
    LeWrap(n / 0x2000_0000, 4);
  }

  /** Different messages are padded differently, whatever their lengths. */
  lemma PaddingInjective(a: seq<byte>, b: seq<byte>)
    requires Padded(a) == Padded(b)
    ensures a == b
  {
    assert Padded(a)[|a|] == 0x80 && Padded(b)[|b|] == 0x80;
    assert |a| == |b|;
    assert a == Padded(a)[..|a|] && b == Padded(b)[..|b|];
  }

  // ---------- compression, as the code does it ----------

  /** The four chaining variables, or the four working registers. */
  datatype State<V> = State(a: V, b: V, c: V, d: V)

  type Words = w: seq<bv32> | |w| == 16 witness seq(16, _ => 0)
  type Table = t: seq<bv32> | |t| == 64 witness seq(64, _ => 0)

  function RotateLeft(x: bv32, c: bv32): bv32
    requires 0 < c < 32
  {
    (x << c) | (x >> (32 - c))
  }

  function Blend(a: bv32, b: bv32, mix: bv32, x: bv32, y: bv32, c: bv32): bv32
    requires 0 < c < 32
  {
    b + RotateLeft(((a + mix) + x) + y, c)
  }

  /** The table r: four rows, each repeated over its round. */
  function Shift(i: nat): (c: bv32)
    requires i < 64
    ensures 0 < c < 32
  {
    var j := i % 4;
    if i < 16 then (if j == 0 then 7 else if j == 1 then 12 else if j == 2 then 17 else 22)
    else if i < 32 then (if j == 0 then 5 else if j == 1 then 9 else if j == 2 then 14 else 20)
    else if i < 48 then (if j == 0 then 4 else if j == 1 then 11 else if j == 2 then 16 else 23)
    else (if j == 0 then 6 else if j == 1 then 10 else if j == 2 then 15 else 21)
  }

  function CodeF(b: bv32, c: bv32, d: bv32): bv32 { (b & c) | ((!b) & d) }
  function CodeG(b: bv32, c: bv32, d: bv32): bv32 { (d & b) | ((!d) & c) }
  function CodeH(b: bv32, c: bv32, d: bv32): bv32 { (b ^ c) ^ d }
  function CodeI(b: bv32, c: bv32, d: bv32): bv32 { c ^ (b | (!d)) }

  function CodeMix(i: nat, b: bv32, c: bv32, d: bv32): bv32 {
    if i < 16 then CodeF(b, c, d)
    else if i < 32 then CodeG(b, c, d)
    else if i < 48 then CodeH(b, c, d)
    else CodeI(b, c, d)
  }

  function CodeIndex(i: nat): (g: nat)
    requires i < 64
    ensures g < 16
  {
    if i < 16 then i
    else if i < 32 then (5 * i + 1) % 16
    else if i < 48 then (3 * i + 5) % 16
    else (7 * i) % 16
  }

  /** The value operation i computes from the registers a, b, c, d. */
  function CodeValue(k: Table, w: Words, i: nat, s: State<bv32>): bv32
    requires i < 64
  {
    Blend(s.a, s.b, CodeMix(i, s.b, s.c, s.d), k[i], w[CodeIndex(i)], Shift(i))
  }

  /** What is left of the 64 operations when their values are given: the code renames all four registers. */
  type Operation<!V> = (nat, State<V>) -> V

  function CodeSteps<V>(v: Operation<V>, n: nat, s: State<V>): State<V> {
    if n == 0 then s
    else
      var t := CodeSteps(v, n - 1, s);
      State(t.d, v(n - 1, t), t.b, t.c)
  }

  /** Each register is increased by its value before the block. */
  function Added<V>(plus: (V, V) -> V, s: State<V>, t: State<V>): State<V> {
    State(plus(s.a, t.a), plus(s.b, t.b), plus(s.c, t.c), plus(s.d, t.d))
  }

  function Add(x: bv32, y: bv32): bv32 { x + y }

  function Plus(): (bv32, bv32) -> bv32 {
    Add
  }

  lemma PlusAdds(x: bv32, y: bv32)
    ensures Plus()(x, y) == Add(x, y) == x + y
  {
  }

  // ---------- compression, as RFC 1321 section 3.4 states it ----------

  function F(x: bv32, y: bv32, z: bv32): bv32 { (x & y) | ((!x) & z) }
  function G(x: bv32, y: bv32, z: bv32): bv32 { (x & z) | (y & (!z)) }
  function H(x: bv32, y: bv32, z: bv32): bv32 { (x ^ y) ^ z }
  function I(x: bv32, y: bv32, z: bv32): bv32 { y ^ (x | (!z)) }

  /** Operation j of round r works on word k, as in [abcd k s i]. */
  function RfcIndex(j: nat): (k: nat)
    requires j < 64
    ensures k < 16
  {
    var t := j % 16;
    if j < 16 then t else if j < 32 then (1 + 5 * t) % 16 else if j < 48 then (5 + 3 * t) % 16 else (7 * t) % 16
  }

  /** The amounts of the four rounds. */
  function RfcShift(j: nat): (s: bv32)
    requires j < 64
    ensures 0 < s < 32
  {
    [[7, 12, 17, 22], [5, 9, 14, 20], [4, 11, 16, 23], [6, 10, 15, 21]][j / 16][j % 4]
  }

  function RfcMix(j: nat, x: bv32, y: bv32, z: bv32): bv32 {
    if j < 16 then F(x, y, z) else if j < 32 then G(x, y, z) else if j < 48 then H(x, y, z) else I(x, y, z)
  }

  function RfcStep(a: bv32, b: bv32, mix: bv32, x: bv32, t: bv32, s: bv32): bv32
    requires 0 < s < 32
  {
    b + RotateLeft(((a + mix) + x) + t, s)
  }

  /** a = b + ((a + F(b,c,d) + X[k] + T[i]) <<< s) */
  function RfcValue(t: Table, w: Words, j: nat, s: State<bv32>): bv32
    requires j < 64
  {
    RfcStep(s.a, s.b, RfcMix(j, s.b, s.c, s.d), w[RfcIndex(j)], t[j], RfcShift(j))
  }

  /** The roles of the registers in operation j: [ABCD], [DABC], [CDAB], [BCDA]. */
  function Roles<V>(j: nat, r: State<V>): State<V> {
    if j % 4 == 0 then r
    else if j % 4 == 1 then State(r.d, r.a, r.b, r.c)
    else if j % 4 == 2 then State(r.c, r.d, r.a, r.b)
    else State(r.b, r.c, r.d, r.a)
  }

  /** Each operation overwrites the one register that plays the first role. */
  function Overwrite<V>(j: nat, r: State<V>, x: V): State<V> {
    if j % 4 == 0 then r.(a := x)
    else if j % 4 == 1 then r.(d := x)
    else if j % 4 == 2 then r.(c := x)
    else r.(b := x)
  }

  function RfcSteps<V>(v: Operation<V>, n: nat, r: State<V>): State<V> {
    if n == 0 then r
    else
      var t := RfcSteps(v, n - 1, r);
      Overwrite(n - 1, t, v(n - 1, Roles(n - 1, t)))
  }

  /** A = A + AA, B = B + BB, C = C + CC, D = D + DD */
  function RfcAdded<V>(plus: (V, V) -> V, aa: State<V>, r: State<V>): State<V> {
    aa.(a := plus(aa.a, r.a), b := plus(aa.b, r.b), c := plus(aa.c, r.c), d := plus(aa.d, r.d))
  }

  /** One row of the RFC's listing: [ABCD], [DABC], [CDAB], [BCDA], each operation overwriting its first register. */
  lemma RfcRow<V>(v: Operation<V>, n: nat, r: State<V>)
    requires n % 4 == 0
    ensures var t := RfcSteps(v, n, r);
            var a := v(n, State(t.a, t.b, t.c, t.d));
            var d := v(n + 1, State(t.d, a, t.b, t.c));
            var c := v(n + 2, State(t.c, d, a, t.b));
            var b := v(n + 3, State(t.b, c, d, a));
            RfcSteps(v, n + 4, r) == State(a, b, c, d)
  {
    var t1, t2, t3 := RfcSteps(v, n + 1, r), RfcSteps(v, n + 2, r), RfcSteps(v, n + 3, r);
    assert (n + 1) % 4 == 1 && (n + 2) % 4 == 2 && (n + 3) % 4 == 3;
    assert RfcSteps(v, n + 4, r) == Overwrite(n + 3, t3, v(n + 3, Roles(n + 3, t3)));
  }

  // ---------- the two agree ----------

  lemma FAgrees(b: bv32, c: bv32, d: bv32)
    ensures CodeF(b, c, d) == F(b, c, d)
  {
  }

  lemma GAgrees(b: bv32, c: bv32, d: bv32)
    ensures CodeG(b, c, d) == G(b, c, d)
  {
  }

  lemma HAgrees(b: bv32, c: bv32, d: bv32)
    ensures CodeH(b, c, d) == H(b, c, d)
  {
  }

  lemma IAgrees(b: bv32, c: bv32, d: bv32)
    ensures CodeI(b, c, d) == I(b, c, d)
  {
  }

  lemma MixAgrees(i: nat, b: bv32, c: bv32, d: bv32)
    ensures CodeMix(i, b, c, d) == RfcMix(i, b, c, d)
  {
    if i < 16 {
      FAgrees(b, c, d);
    } else if i < 32 {
      GAgrees(b, c, d);
    } else if i < 48 {
      HAgrees(b, c, d);
    } else {
      IAgrees(b, c, d);
    }
  }

  lemma Mod16(q: nat, t: nat)
    ensures (16 * q + t) % 16 == t % 16
  {
  }

  lemma IndexAgrees(i: nat)
    requires i < 64
    ensures CodeIndex(i) == RfcIndex(i)
  {
    var q, t := i / 16, i % 16;
    assert i == 16 * q + t;
    Mod16(5 * q, 1 + 5 * t);
    Mod16(3 * q, 5 + 3 * t);
    Mod16(7 * q, 7 * t);
  }

  lemma ShiftAgrees(j: nat)
    requires j < 64
    ensures Shift(j) == RfcShift(j)
  {
  }

  // The two shifts of the code are the circular shift, by each of the sixteen amounts.

  lemma FirstRotations(x: bv32)
    ensures RotateLeft(x, 7) == x.RotateLeft(7) && RotateLeft(x, 12) == x.RotateLeft(12)
    ensures RotateLeft(x, 17) == x.RotateLeft(17) && RotateLeft(x, 22) == x.RotateLeft(22)
  {
  }

  lemma SecondRotations(x: bv32)
    ensures RotateLeft(x, 5) == x.RotateLeft(5) && RotateLeft(x, 9) == x.RotateLeft(9)
    ensures RotateLeft(x, 14) == x.RotateLeft(14) && RotateLeft(x, 20) == x.RotateLeft(20)
  {
  }

  lemma ThirdRotations(x: bv32)
    ensures RotateLeft(x, 4) == x.RotateLeft(4) && RotateLeft(x, 11) == x.RotateLeft(11)
    ensures RotateLeft(x, 16) == x.RotateLeft(16) && RotateLeft(x, 23) == x.RotateLeft(23)
  {
  }

  lemma FourthRotations(x: bv32)
    ensures RotateLeft(x, 6) == x.RotateLeft(6) && RotateLeft(x, 10) == x.RotateLeft(10)
    ensures RotateLeft(x, 15) == x.RotateLeft(15) && RotateLeft(x, 21) == x.RotateLeft(21)
  {
  }

  lemma AddSwaps(x: bv32, y: bv32, z: bv32)
    ensures (x + y) + z == (x + z) + y
  {
  }

  lemma BlendSwaps(a: bv32, b: bv32, mix: bv32, x: bv32, y: bv32, c: bv32)
    requires 0 < c < 32
    ensures Blend(a, b, mix, x, y, c) == RfcStep(a, b, mix, y, x, c)
  {
    AddSwaps(a + mix, x, y);
  }

  lemma ValueAgrees(t: Table, w: Words, j: nat, s: State<bv32>)
    requires j < 64
    ensures CodeValue(t, w, j, s) == RfcValue(t, w, j, s)
  {
    MixAgrees(j, s.b, s.c, s.d);
    IndexAgrees(j);
    BlendSwaps(s.a, s.b, CodeMix(j, s.b, s.c, s.d), t[j], w[CodeIndex(j)], Shift(j));
    ShiftAgrees(j);
  }

  lemma RolesMoveOn<V>(j: nat, r: State<V>, x: V)
    ensures var s := Roles(j, r);
            Roles(j + 1, Overwrite(j, r, x)) == State(s.d, x, s.b, s.c)
  {
    if j % 4 == 0 { assert (j + 1) % 4 == 1; }
    else if j % 4 == 1 { assert (j + 1) % 4 == 2; }
    else if j % 4 == 2 { assert (j + 1) % 4 == 3; }
    else { assert (j + 1) % 4 == 0; }
  }

  /** Renaming the registers after each operation is the same as rotating their roles. */
  lemma {:induction false} StepsAgree<V>(v: Operation<V>, n: nat, s: State<V>)
    ensures CodeSteps(v, n, s) == Roles(n, RfcSteps(v, n, s))
  {
    if n > 0 {
      StepsAgree(v, n - 1, s);
      var t := RfcSteps(v, n - 1, s);
      RolesMoveOn(n - 1, t, v(n - 1, Roles(n - 1, t)));
    }
  }

  /** Operations that compute the same values take the registers to the same state. */
  lemma {:induction false} SameValues<V>(v: Operation<V>, u: Operation<V>, n: nat, s: State<V>)
    requires forall i: nat, t: State<V> :: i < n ==> v(i, t) == u(i, t)
    ensures RfcSteps(v, n, s) == RfcSteps(u, n, s)
  {
    if n > 0 {
      SameValues(v, u, n - 1, s);
    }
  }

  function CodeOperation(k: Table, w: Words): Operation<bv32> {
    (i: nat, s: State<bv32>) => if i < 64 then CodeValue(k, w, i, s) else 0
  }

  function RfcOperation(t: Table, w: Words): Operation<bv32> {
    (i: nat, s: State<bv32>) => if i < 64 then RfcValue(t, w, i, s) else 0
  }

  /** All 64 operations: as many as the table has entries. */
  function CodeCompress(k: Table, h: State<bv32>, w: Words): State<bv32> {
    Added(Plus(), h, CodeSteps(CodeOperation(k, w), |k|, h))
  }

  function RfcCompress(t: Table, h: State<bv32>, w: Words): State<bv32> {
    RfcAdded(Plus(), h, RfcSteps(RfcOperation(t, w), |t|, h))
  }

  lemma OperationsAgree(t: Table, w: Words, i: nat, s: State<bv32>)
    requires i < 64
    ensures CodeOperation(t, w)(i, s) == RfcOperation(t, w)(i, s)
  {
    ValueAgrees(t, w, i, s);
    assert CodeOperation(t, w)(i, s) == CodeValue(t, w, i, s);
  }

  lemma SameSteps<V>(v: Operation<V>, u: Operation<V>, n: nat, s: State<V>)
    requires n % 4 == 0
    requires forall i: nat, t: State<V> :: i < n ==> v(i, t) == u(i, t)
    ensures CodeSteps(v, n, s) == RfcSteps(u, n, s)
  {
    StepsAgree(v, n, s);
    SameValues(v, u, n, s);
  }

  lemma AddedAgrees<V>(plus: (V, V) -> V, s: State<V>, t: State<V>)
    ensures Added(plus, s, t) == RfcAdded(plus, s, t)
  {
  }

  /** One block is compressed as the RFC says, for any table. */
  lemma CompressAgrees(t: Table, h: State<bv32>, w: Words)
    ensures CodeCompress(t, h, w) == RfcCompress(t, h, w)
  {
    var v, u := CodeOperation(t, w), RfcOperation(t, w);
    forall i: nat, s: State<bv32> | i < 64 ensures v(i, s) == u(i, s) {
      OperationsAgree(t, w, i, s);
    }
    SameSteps(v, u, |t|, h);
    AddedAgrees(Plus(), h, CodeSteps(v, |t|, h));
  }

  // ---------- the digest ----------

  function Word(s: seq<byte>): bv32
    requires |s| == 4
  {
    var b0: int, b1: int, b2: int, b3: int := s[0], s[1], s[2], s[3];
    (b0 + 0x100 * b1 + 0x1_0000 * b2 + 0x100_0000 * b3) as bv32
  }

  function BlockWords(block: seq<byte>): Words
    requires |block| == 64
  {
    seq(16, i requires 0 <= i < 16 => Word(block[4 * i..4 * i + 4]))
  }

  /** Low-order byte first (section 2). */
  lemma WordAt(block: seq<byte>, i: nat, n: nat)
    requires |block| == 64 && i < 16 && n < 0x1_0000_0000
    requires block[4 * i] == n % 0x100 && block[4 * i + 1] == n / 0x100 % 0x100
    requires block[4 * i + 2] == n / 0x1_0000 % 0x100 && block[4 * i + 3] == n / 0x100_0000
    ensures BlockWords(block)[i] == n as bv32
  {
    var s := block[4 * i..4 * i + 4];
    assert s == [block[4 * i], block[4 * i + 1], block[4 * i + 2], block[4 * i + 3]];
    FourDigits(n);
    WordOf(s, n);
  }

  lemma WordOf(s: seq<byte>, n: nat)
    requires |s| == 4
    requires var b0: int, b1: int, b2: int, b3: int := s[0], s[1], s[2], s[3];
             n == b0 + 0x100 * b1 + 0x1_0000 * b2 + 0x100_0000 * b3
    ensures n < 0x1_0000_0000 && Word(s) == n as bv32
  {
  }

  lemma FourDigits(n: nat)
    requires n < 0x1_0000_0000
    ensures n == n % 0x100 + 0x100 * (n / 0x100 % 0x100) + 0x1_0000 * (n / 0x1_0000 % 0x100)
                 + 0x100_0000 * (n / 0x100_0000)
  {
    var a, b, c := n / 0x100, n / 0x1_0000, n / 0x100_0000;
    assert a / 0x100 == b && b / 0x100 == c;
  }

  type Compressor = (State<bv32>, Words) -> State<bv32>

  /** Section 3.4: a compression folded over the 64-byte blocks. */
  function Fold(f: Compressor, h: State<bv32>, s: seq<byte>): State<bv32>
    decreases |s|
  {
    if |s| < 64 then h else Fold(f, f(h, BlockWords(s[..64])), s[64..])
  }

  /** Whatever was folded, one more block is compressed into it. */
  lemma {:induction false} FoldAppend(f: Compressor, h: State<bv32>, s: seq<byte>, block: seq<byte>)
    requires |s| % 64 == 0 && |block| == 64
    ensures Fold(f, h, []) == h
    ensures Fold(f, h, s + block) == f(Fold(f, h, s), BlockWords(block))
    decreases |s|
  {
    var t := s + block;
    if s == [] {
      assert t[..64] == block && t[64..] == [];
    } else {
      assert t[..64] == s[..64] && t[64..] == s[64..] + block;
      FoldAppend(f, f(h, BlockWords(s[..64])), s[64..], block);
    }
  }

  function RfcCompressor(t: Table): Compressor {
    (h: State<bv32>, w: Words) => RfcCompress(t, h, w)
  }

  /** f is the RFC's compression; the trigger keeps its definition out of proofs that only fold it. */
  ghost predicate IsRfc(f: Compressor, t: Table) {
    forall h: State<bv32>, w: Words {:trigger RfcCompress(t, h, w)} :: f(h, w) == RfcCompress(t, h, w)
  }

  function Initial(): State<bv32> {
    State(0x67452301, 0xefcdab89, 0x98badcfe, 0x10325476)
  }

  function HexDigit(n: bv32): char {
    if n == 0 then '0' else if n == 1 then '1' else if n == 2 then '2' else if n == 3 then '3'
    else if n == 4 then '4' else if n == 5 then '5' else if n == 6 then '6' else if n == 7 then '7'
    else if n == 8 then '8' else if n == 9 then '9' else if n == 10 then 'a' else if n == 11 then 'b'
    else if n == 12 then 'c' else if n == 13 then 'd' else if n == 14 then 'e' else 'f'
  }

  function HexByte(b: bv32): string {
    [HexDigit((b >> 4) & 15), HexDigit(b & 15)]
  }

  /** Low-order byte first. */
  function HexWord(h: bv32): (s: string)
    ensures |s| == 8
  {
    HexByte(h) + HexByte(h >> 8) + HexByte(h >> 16) + HexByte(h >> 24)
  }

  function Hex(h: State<bv32>): string {
    HexWord(h.a) + HexWord(h.b) + HexWord(h.c) + HexWord(h.d)
  }

  lemma HexDigits()
    ensures [HexDigit(0), HexDigit(1), HexDigit(2), HexDigit(3), HexDigit(4), HexDigit(5), HexDigit(6), HexDigit(7)]
            == "01234567"
    ensures [HexDigit(8), HexDigit(9), HexDigit(10), HexDigit(11)] == "89ab"
    ensures [HexDigit(12), HexDigit(13), HexDigit(14), HexDigit(15)] == "cdef"
  {
  }

  /** Section 3.5: A, B, C, D, each from its low-order byte to its high-order byte, the high digit of a byte first. */
  lemma HexAt(h: State<bv32>)
    ensures |Hex(h)| == 32
    ensures Hex(h)[..8] == HexWord(h.a) && Hex(h)[8..16] == HexWord(h.b)
    ensures Hex(h)[16..24] == HexWord(h.c) && Hex(h)[24..] == HexWord(h.d)
  {
  }

  lemma HexWordAt(n: bv32)
    ensures var d := HexWord(n);
            && |d| == 8
            && d[0] == HexDigit((n >> 4) & 15) && d[1] == HexDigit(n & 15)
            && d[2] == HexDigit((n >> 12) & 15) && d[3] == HexDigit((n >> 8) & 15)
            && d[4] == HexDigit((n >> 20) & 15) && d[5] == HexDigit((n >> 16) & 15)
            && d[6] == HexDigit((n >> 28) & 15) && d[7] == HexDigit((n >> 24) & 15)
  {
    assert (n >> 8) >> 4 == n >> 12 && (n >> 16) >> 4 == n >> 20 && (n >> 24) >> 4 == n >> 28;
  }

  /** Section 3.3: the words A, B, C, D, written with their low-order bytes first. */
  lemma InitialBytes()
    ensures HexWord(Initial().a) == "01234567" && HexWord(Initial().b) == "89abcdef"
    ensures HexWord(Initial().c) == "fedcba98" && HexWord(Initial().d) == "76543210"
  {
  }

  function Digest(t: Table, m: seq<byte>): string {
    Hex(Fold(RfcCompressor(t), Initial(), Padded(m)))
  }

  method FindPaddedLength(n: nat) returns (newLen: nat)
    ensures newLen == PaddedLength(n)
  {
    newLen := n + 1;
    while newLen % 64 != 56
      invariant n + 1 <= newLen <= PaddedLength(n)
      decreases PaddedLength(n) - newLen
    {
      newLen := newLen + 1;
    }
    PaddedLengthIsLeast(n);
  }

  method MarkAndFill(msg: array<byte>, value: seq<byte>, newLen: nat)
    requires |value| < newLen <= msg.Length && msg[..|value|] == value
    modifies msg
    ensures msg[..newLen] == value + [0x80] + Zeros(newLen - |value| - 1)
  {
    msg[|value|] := 0x80;
    var offset := |value| + 1;
    while offset < newLen
      invariant |value| + 1 <= offset <= newLen
      invariant msg[..|value|] == value && msg[|value|] == 0x80
      invariant forall i :: |value| < i < offset ==> msg[i] == 0
    {
      msg[offset] := 0;
      offset := offset + 1;
    }
  }

  /** The length in bits, as two 32-bit halves. */
  method StoreLength(msg: array<byte>, newLen: nat, n: nat)
    requires msg.Length == newLen + 8
    modifies msg
    ensures msg[..newLen] == old(msg[..newLen])
    ensures msg[newLen..] == LeBytes(8 * n, 8)
  {
    LengthHalves(n);
    var halves := LeBytes(8 * n % 0x1_0000_0000, 4) + LeBytes(n / 0x2000_0000 % 0x1_0000_0000, 4);
    forall i | 0 <= i < 8 { msg[newLen + i] := halves[i]; }
    assert msg[newLen..] == halves;
  }

  /** The message buffer: copied, marked, filled and closed with the length. */
  method Pad(value: seq<byte>) returns (msg: array<byte>, newLen: nat)
    ensures newLen == PaddedLength(|value|) && msg[..] == Padded(value)
  {
    newLen := FindPaddedLength(|value|);
    msg := new byte[newLen + 8](i requires 0 <= i < newLen + 8 => if i < |value| then value[i] else 0);
    MarkAndFill(msg, value, newLen);
    StoreLength(msg, newLen, |value|);
    assert msg[..] == msg[..newLen] + msg[newLen..];
  }

  method LoadWords(block: seq<byte>, w: array<bv32>)
    requires |block| == 64 && w.Length == 16
    modifies w
    ensures w[..] == BlockWords(block)
  {
    var i := 0;
    while i < 16
      invariant i <= 16
      invariant forall j :: 0 <= j < i ==> w[j] == BlockWords(block)[j]
    {
      w[i] := Word(block[4 * i..4 * i + 4]);
      i := i + 1;
    }
  }

  method CompressBlock(k: Table, ghost f: Compressor, h: State<bv32>, w: array<bv32>) returns (r: State<bv32>)
    requires w.Length == 16 && IsRfc(f, k)
    ensures r == f(h, w[..])
  {
    CompressAgrees(k, h, w[..]);
    var s := h;
    var i := 0;
    while i < |k|
      invariant i <= |k| && s == CodeSteps(CodeOperation(k, w[..]), i, h)
    {
      s := State(s.d, CodeValue(k, w[..], i, s), s.b, s.c);
      i := i + 1;
    }
    r := Added(Plus(), h, s);
  }

  lemma FoldStep(f: Compressor, h: State<bv32>, s: seq<byte>, offset: nat)
    requires offset + 64 <= |s|
    ensures Fold(f, h, s[offset..]) == Fold(f, f(h, BlockWords(s[offset..offset + 64])), s[offset + 64..])
  {
    assert s[offset..][..64] == s[offset..offset + 64] && s[offset..][64..] == s[offset + 64..];
  }

  /** Each 64-byte block of the padded message is visited once. */
  method CompressBlocks(k: Table, ghost f: Compressor, msg: array<byte>, newLen: nat) returns (h: State<bv32>)
    requires newLen % 64 == 56 && msg.Length == newLen + 8 && IsRfc(f, k)
    ensures h == Fold(f, Initial(), msg[..])
  {
    ghost var s := msg[..];
    assert s[0..] == s;
    h := Initial();
    var w := new bv32[16];
    var offset := 0;
    ghost var n, blocks := 0, newLen / 64 + 1;
    while offset < newLen
      invariant offset == 64 * n && n <= blocks && newLen + 8 == 64 * blocks
      invariant msg[..] == s
      invariant Fold(f, h, s[offset..]) == Fold(f, Initial(), s)
    {
      LoadWords(msg[offset..offset + 64], w);
      FoldStep(f, h, s, offset);
      h := CompressBlock(k, f, h, w);
      offset, n := offset + 64, n + 1;
    }
  }

  method DigestWith(k: Table, value: seq<byte>) returns (digest: string)
    ensures digest == Digest(k, value)
  {
    var msg, newLen := Pad(value);
    PaddedLengthIsLeast(|value|);
    var h := CompressBlocks(k, RfcCompressor(k), msg, newLen);
    digest := Hex(h);
  }

  function K1(): (t: seq<bv32>)
    ensures |t| == 16
  {
    [0xd76aa478, 0xe8c7b756, 0x242070db, 0xc1bdceee, 0xf57c0faf, 0x4787c62a, 0xa8304613, 0xfd469501,
     0x698098d8, 0x8b44f7af, 0xffff5bb1, 0x895cd7be, 0x6b901122, 0xfd987193, 0xa679438e, 0x49b40821]
  }

  function K2(): (t: seq<bv32>)
    ensures |t| == 16
  {
    [0xf61e2562, 0xc040b340, 0x265e5a51, 0xe9b6c7aa, 0xd62f105d, 0x02441453, 0xd8a1e681, 0xe7d3fbc8,
     0x21e1cde6, 0xc33707d6, 0xf4d50d87, 0x455a14ed, 0xa9e3e905, 0xfcefa3f8, 0x676f02d9, 0x8d2a4c8a]
  }

  function K3(): (t: seq<bv32>)
    ensures |t| == 16
  {
    [0xfffa3942, 0x8771f681, 0x6d9d6122, 0xfde5380c, 0xa4beea44, 0x4bdecfa9, 0xf6bb4b60, 0xbebfbc70,
     0x289b7ec6, 0xeaa127fa, 0xd4ef3085, 0x04881d05, 0xd9d4d039, 0xe6db99e5, 0x1fa27cf8, 0xc4ac5665]
  }

  function K4(): (t: seq<bv32>)
    ensures |t| == 16
  {
    [0xf4292244, 0x432aff97, 0xab9423a7, 0xfc93a039, 0x655b59c3, 0x8f0ccc92, 0xffeff47d, 0x85845dd1,
     0x6fa87e4f, 0xfe2ce6e0, 0xa3014314, 0x4e0811a1, 0xf7537e82, 0xbd3af235, 0x2ad7d2bb, 0xeb86d391]
  }

  /** The table k, a round at a time; entry i is meant to be the integer part of 2^32 * |sin(i + 1)|. */
  function K(): Table {
    K1() + K2() + K3() + K4()
  }

  /** http::Md5 */
  method Md5(value: seq<byte>) returns (digest: string)
    ensures digest == Digest(K(), value)
  {
    digest := DigestWith(K(), value);
  }
}
