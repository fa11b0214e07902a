/** Base64 in two variants: ToBase64/FromBase64 (RFC 4648, section 4), and cbase62, URL-safe and padded with '~'. */
module Base64 {
  import opened Wrappers

  /** The two tables and the padding character; both codecs are the same code around them. */
  datatype Alphabet = Alphabet(digit: bv8 -> bv8, value: bv8 -> bv8, pad: bv8)

  /** A..Z, a..z, 0..9 and two more characters. */
  function Digit(c62: bv8, c63: bv8, i: bv8): bv8 {
    if i < 26 then i + 65
    else if i < 52 then i + 71
    else if i < 62 then i - 4
    else if i == 62 then c62
    else c63
  }

  /** The decoding tables have 254 at '=' and 255 at every other character that is no digit. */
  function Value(c62: bv8, c63: bv8, c: bv8): bv8 {
    if 65 <= c <= 90 then c - 65
    else if 97 <= c <= 122 then c - 71
    else if 48 <= c <= 57 then c + 4
    else if c == c62 then 62
    else if c == c63 then 63
    else if c == 61 then 254
    else 255
  }

  /** base64TableEncode and base64TableDecode: '+', '/', padded with '='. */
  function Standard(): Alphabet {
    Alphabet(i => Digit(43, 47, i), c => Value(43, 47, c), 61)
  }

  /** safebase64TableEncode and safebase64TableDecode: '-', '_', padded with '~'. */
  function UrlSafe(): Alphabet {
    Alphabet(i => Digit(45, 95, i), c => Value(45, 95, c), 126)
  }

  /** What decoding relies on: a digit is read back, and is neither the pad nor a blank. */
  ghost predicate SoundAt(v: Alphabet, i: bv8) {
    v.value(v.digit(i)) == i && v.digit(i) != v.pad && v.digit(i) != 32 && v.digit(i) != 9
  }

  ghost predicate Sound(v: Alphabet) {
    && v.pad != 32 && v.pad != 9
    && forall i: bv8 {:trigger SoundAt(v, i)} :: i < 64 ==> SoundAt(v, i)
  }

  lemma BothSound()
    ensures Sound(Standard()) && Sound(UrlSafe())
  {
    forall i: bv8 | i < 64 ensures SoundAt(Standard(), i) && SoundAt(UrlSafe(), i) {
      assert Standard().digit(i) == Digit(43, 47, i);
      assert UrlSafe().digit(i) == Digit(45, 95, i);
    }
  }

  /** The three runs of the table and its two ends: A..Z, a..z, 0..9, then + / or - _, padded with = or ~. */
  lemma TableRuns(i: bv8)
    requires i < 63
    ensures i != 25 && i != 51 && i < 61 ==> Standard().digit(i + 1) == Standard().digit(i) + 1
    ensures i < 62 ==> UrlSafe().digit(i) == Standard().digit(i)
    ensures Standard().digit(0) == 65 && Standard().digit(26) == 97 && Standard().digit(52) == 48
    ensures Standard().digit(62) == 43 && Standard().digit(63) == 47 && Standard().pad == 61
    ensures UrlSafe().digit(62) == 45 && UrlSafe().digit(63) == 95 && UrlSafe().pad == 126
  {
    assert Standard().digit(i) == Digit(43, 47, i) && Standard().digit(i + 1) == Digit(43, 47, i + 1);
    assert UrlSafe().digit(i) == Digit(45, 95, i);
    TableEnds();
  }

  lemma TableEnds()
    ensures Digit(43, 47, 0) == Standard().digit(0) == 65
    ensures Standard().digit(26) == 97 && Standard().digit(52) == 48
    ensures Standard().digit(62) == 43 && Standard().digit(63) == 47
    ensures UrlSafe().digit(62) == 45 && UrlSafe().digit(63) == 95
  {
  }

  /** A character with a value below 64 is the digit for it, and the others are told apart from digits. */
  lemma ValueReads(c: bv8)
    ensures var n := Standard().value(c);
            if n < 64 then Standard().digit(n) == c else n == if c == 61 then 254 else 255
    ensures var n := UrlSafe().value(c);
            if n < 64 then UrlSafe().digit(n) == c else n == if c == 61 then 254 else 255
  {
    ValueDigit(43, 47, c);
    ValueDigit(45, 95, c);
    var n, u := Value(43, 47, c), Value(45, 95, c);
    assert Standard().value(c) == n && Standard().digit(n) == Digit(43, 47, n);
    assert UrlSafe().value(c) == u && UrlSafe().digit(u) == Digit(45, 95, u);
  }

  lemma ValueDigit(c62: bv8, c63: bv8, c: bv8)
    ensures var n := Value(c62, c63, c);
            if n < 64 then Digit(c62, c63, n) == c else n == if c == 61 then 254 else 255
  {
  }

  // ---------- encoding ----------

  function Sextet0(a: bv8): bv8 { (a & 0xfc) >> 2 }
  function Sextet1(a: bv8, b: bv8): bv8 { ((a & 0x03) << 4) + ((b & 0xf0) >> 4) }
  function Sextet2(b: bv8, c: bv8): bv8 { ((b & 0x0f) << 2) + ((c & 0xc0) >> 6) }
  function Sextet3(c: bv8): bv8 { c & 0x3f }

  function EncodeTriple(v: Alphabet, a: bv8, b: bv8, c: bv8): seq<bv8> {
    [v.digit(Sextet0(a)), v.digit(Sextet1(a, b)), v.digit(Sextet2(b, c)), v.digit(Sextet3(c))]
  }

  /** Whole triples, then one or two bytes completed with zero bits and padding. */
  function Encoded(v: Alphabet, s: seq<bv8>): seq<bv8> {
    if s == [] then []
    else if |s| == 1 then EncodeTriple(v, s[0], 0, 0)[..2] + [v.pad, v.pad]
    else if |s| == 2 then EncodeTriple(v, s[0], s[1], 0)[..3] + [v.pad]
    else EncodeTriple(v, s[0], s[1], s[2]) + Encoded(v, s[3..])
  }

  lemma {:induction false} EncodedAppend(v: Alphabet, s: seq<bv8>, t: seq<bv8>)
    requires |s| % 3 == 0
    ensures Encoded(v, s + t) == Encoded(v, s) + Encoded(v, t)
    decreases |s|
  {
    if s == [] {
      assert s + t == t;
    } else {
      assert (s + t)[3..] == s[3..] + t;
      EncodedAppend(v, s[3..], t);
    }
  }

  lemma EncodedPrefix(v: Alphabet, s: seq<bv8>, k: nat)
    requires k + 3 <= |s| && k % 3 == 0
    ensures Encoded(v, s[..k + 3]) == Encoded(v, s[..k]) + EncodeTriple(v, s[k], s[k + 1], s[k + 2])
  {
    var t := s[k..k + 3];
    assert s[..k + 3] == s[..k] + t;
    assert Encoded(v, t[3..]) == [];
    EncodedAppend(v, s[..k], t);
  }

  lemma EncodedSplit(v: Alphabet, s: seq<bv8>, k: nat)
    requires k <= |s| && k % 3 == 0
    ensures Encoded(v, s) == Encoded(v, s[..k]) + Encoded(v, s[k..])
  {
    EncodedAppend(v, s[..k], s[k..]);
    assert s == s[..k] + s[k..];
  }

  method EmitTriple(v: Alphabet, done: seq<bv8>, in3: array<bv8>, ghost source: seq<bv8>, ghost k: nat)
    returns (ret: seq<bv8>)
    requires in3.Length == 3 && k + 3 <= |source| && k % 3 == 0
    requires forall n :: 0 <= n < 3 ==> in3[n] == source[k + n]
    requires done == Encoded(v, source[..k])
    ensures ret == Encoded(v, source[..k + 3])
  {
    EncodedPrefix(v, source, k);
    ret := done + EncodeTriple(v, in3[0], in3[1], in3[2]);
  }

  /** Whole triples: k counts the bytes taken from the source, i those of them that wait in the buffer. */
  method EncodeTriples(v: Alphabet, source: seq<bv8>) returns (ret: seq<bv8>, in3: array<bv8>, i: nat)
    ensures fresh(in3) && in3.Length == 3 && i == |source| % 3
    ensures in3[..i] == source[|source| - i..]
    ensures ret == Encoded(v, source[..|source| - i])
  {
    ret := [];
    var k := 0;
    i := 0;
    in3 := new bv8[3];
    ghost var g := 0;
    while k < |source|
      invariant k <= |source| && 0 <= i < 3 && k == 3 * g + i
      invariant forall n :: 0 <= n < i ==> in3[n] == source[k - i + n]
      invariant ret == Encoded(v, source[..k - i])
    {
      in3[i] := source[k];
      i, k := i + 1, k + 1;
      if i == 3 {
        ret := EmitTriple(v, ret, in3, source, k - 3);
        i, g := 0, g + 1;
      }
    }
  }

  method Encode(v: Alphabet, source: seq<bv8>) returns (ret: seq<bv8>)
    ensures ret == Encoded(v, source)
  {
    var in3, i;
    ret, in3, i := EncodeTriples(v, source);
    EncodedSplit(v, source, |source| - i);
    if i > 0 {
      ret := EncodeRest(v, ret, in3, i);
    }
  }

  method EncodeRest(v: Alphabet, done: seq<bv8>, in3: array<bv8>, i: nat) returns (ret: seq<bv8>)
    requires in3.Length == 3 && 1 <= i <= 2
    modifies in3
    ensures ret == done + Encoded(v, old(in3[..i]))
  {
    var j := i;
    while j < 3
      invariant i <= j <= 3 && in3[..i] == old(in3[..i])
      invariant forall n :: i <= n < j ==> in3[n] == 0
    {
      in3[j] := 0;
      j := j + 1;
    }
    var out4 := EncodeTriple(v, in3[0], in3[1], in3[2]);
    ret := done;
    j := 0;
    while j < i + 1
      invariant j <= i + 1 && ret == done + out4[..j]
    {
      ret := ret + [out4[j]];
      j := j + 1;
    }
    var n := i;
    while n < 3
      invariant i <= n <= 3
      invariant ret == done + out4[..i + 1] + seq(n - i, _ => v.pad)
    {
      ret := ret + [v.pad];
      n := n + 1;
    }
  }

  // ---------- decoding ----------

  function Byte0(x: bv8, y: bv8): bv8 { (x << 2) | (y >> 4) }
  function Byte1(y: bv8, z: bv8): bv8 { (y << 4) | (z >> 2) }
  function Byte2(z: bv8, t: bv8): bv8 { ((z << 6) & 0xc0) | t }

  /** Three bytes for every four characters, whatever the characters are. */
  function Quads(v: Alphabet, s: seq<bv8>): seq<bv8> {
    if |s| < 4 then []
    else
      [Byte0(v.value(s[0]), v.value(s[1])),
       Byte1(v.value(s[1]), v.value(s[2])),
       Byte2(v.value(s[2]), v.value(s[3]))] + Quads(v, s[4..])
  }

  function TrailingPads(v: Alphabet, s: seq<bv8>): (n: nat)
    ensures n <= |s|
  {
    if s == [] || s[|s| - 1] != v.pad then 0 else 1 + TrailingPads(v, s[..|s| - 1])
  }

  /** One byte is taken back per trailing pad; taking back from nothing is undefined. */
  function Decoded(v: Alphabet, s: seq<bv8>): Option<seq<bv8>> {
    var q, n := Quads(v, s), TrailingPads(v, s);
    if n > |q| then None else Some(q[..|q| - n])
  }

  lemma {:induction false} QuadsAppend(v: Alphabet, s: seq<bv8>, t: seq<bv8>)
    requires |s| % 4 == 0
    ensures Quads(v, s + t) == Quads(v, s) + Quads(v, t)
    decreases |s|
  {
    if s == [] {
      assert s + t == t;
    } else {
      assert (s + t)[4..] == s[4..] + t;
      QuadsAppend(v, s[4..], t);
    }
  }

  lemma QuadsPrefix(v: Alphabet, s: seq<bv8>, at: nat)
    requires at % 4 == 0 && at + 4 <= |s|
    ensures Quads(v, s[..at + 4]) == Quads(v, s[..at]) +
              [Byte0(v.value(s[at]), v.value(s[at + 1])),
               Byte1(v.value(s[at + 1]), v.value(s[at + 2])),
               Byte2(v.value(s[at + 2]), v.value(s[at + 3]))]
  {
    var next := s[at..at + 4];
    assert s[..at + 4] == s[..at] + next;
    assert Quads(v, next[4..]) == [];
    QuadsAppend(v, s[..at], next);
  }

  lemma QuadsIgnoresRest(v: Alphabet, s: seq<bv8>)
    ensures Quads(v, s[..|s| - |s| % 4]) == Quads(v, s)
  {
    var n := |s| - |s| % 4;
    QuadsAppend(v, s[..n], s[n..]);
    assert s == s[..n] + s[n..];
    assert Quads(v, s[n..]) == [];
  }

  method DecodeQuads(v: Alphabet, source: seq<bv8>) returns (result: seq<bv8>)
    ensures result == Quads(v, source)
  {
    result := [];
    var at := 0;
    var len := |source| - |source| % 4;
    ghost var g := 0;
    while len > 0
      invariant 0 <= g <= |source| / 4
      invariant at == 4 * g && len == 4 * (|source| / 4 - g)
      invariant result == Quads(v, source[..at])
      decreases len
    {
      var x, y := v.value(source[at]), v.value(source[at + 1]);
      var z, t := v.value(source[at + 2]), v.value(source[at + 3]);
      QuadsPrefix(v, source, at);
      result := result + [Byte0(x, y), Byte1(y, z), Byte2(z, t)];
      at, len, g := at + 4, len - 4, g + 1;
    }
    QuadsIgnoresRest(v, source);
  }

  /** None where the C++ would pop from an empty result. */
  method Decode(v: Alphabet, source: seq<bv8>) returns (r: Option<seq<bv8>>)
    ensures r == Decoded(v, source)
  {
    var result := DecodeQuads(v, source);
    ghost var q := result;
    var length := |source|;
    assert source[..length] == source;
    while length > 0 && source[length - 1] == v.pad
      invariant 0 <= length <= |source|
      invariant |source| - length <= |q| && result == q[..|q| - (|source| - length)]
      invariant TrailingPads(v, source) == |source| - length + TrailingPads(v, source[..length])
    {
      assert source[..length][..length - 1] == source[..length - 1];
      if result == [] {
        return None;
      }
      result := result[..|result| - 1];
      length := length - 1;
    }
    r := Some(result);
  }

  // ---------- round trip ----------

  lemma SextetsInRange(a: bv8, b: bv8, c: bv8)
    ensures Sextet0(a) < 64 && Sextet1(a, b) < 64 && Sextet2(b, c) < 64 && Sextet3(c) < 64
  {
  }

  lemma BytesOfSextets(a: bv8, b: bv8, c: bv8)
    ensures Byte0(Sextet0(a), Sextet1(a, b)) == a
    ensures Byte1(Sextet1(a, b), Sextet2(b, c)) == b
    ensures Byte2(Sextet2(b, c), Sextet3(c)) == c
  {
  }

  /** The 24 bits of three bytes. */
  function Group(a: bv8, b: bv8, c: bv8): bv24 {
    (((a as bv24) << 16) | ((b as bv24) << 8)) | (c as bv24)
  }

  /** Four digits, each below 64, are the 24 bits of the three bytes, cut into sixes. */
  lemma SextetsRegroup(a: bv8, b: bv8, c: bv8)
    ensures Sextet0(a) < 64 && Sextet1(a, b) < 64 && Sextet2(b, c) < 64 && Sextet3(c) < 64
    ensures ((((Sextet0(a) as bv24) << 18) | ((Sextet1(a, b) as bv24) << 12))
             | ((Sextet2(b, c) as bv24) << 6)) | (Sextet3(c) as bv24)
            == Group(a, b, c)
  {
  }

  /** The digits come from the top of the group down; a short group is completed with zero bits and ends in pads. */
  lemma GroupDigits(v: Alphabet, a: bv8, b: bv8, c: bv8)
    ensures Encoded(v, [a, b, c]) ==
            [v.digit(Sextet0(a)), v.digit(Sextet1(a, b)), v.digit(Sextet2(b, c)), v.digit(Sextet3(c))]
    ensures Encoded(v, [a, b]) == [v.digit(Sextet0(a)), v.digit(Sextet1(a, b)), v.digit(Sextet2(b, 0)), v.pad]
    ensures Encoded(v, [a]) == [v.digit(Sextet0(a)), v.digit(Sextet1(a, 0)), v.pad, v.pad]
  {
    assert [a, b, c][3..] == [];
    assert Encoded(v, []) == [];
  }

  /** Any four digits decode to the 24 bits of their values, canonical or not. */
  lemma BytesOfGroup(x: bv8, y: bv8, z: bv8, t: bv8)
    requires x < 64 && y < 64 && z < 64 && t < 64
    ensures Group(Byte0(x, y), Byte1(y, z), Byte2(z, t))
            == ((((x as bv24) << 18) | ((y as bv24) << 12)) | ((z as bv24) << 6)) | (t as bv24)
  {
  }

  lemma DigitsSound(v: Alphabet, a: bv8, b: bv8, c: bv8)
    requires Sound(v)
    ensures SoundAt(v, Sextet0(a)) && SoundAt(v, Sextet1(a, b))
    ensures SoundAt(v, Sextet2(b, c)) && SoundAt(v, Sextet3(c))
  {
    SextetsInRange(a, b, c);
  }

  lemma QuadOfTriple(v: Alphabet, a: bv8, b: bv8, c: bv8)
    requires Sound(v)
    ensures Quads(v, EncodeTriple(v, a, b, c)) == [a, b, c]
  {
    DigitsSound(v, a, b, c);
    BytesOfSextets(a, b, c);
  }

  lemma PadsAtEnd(v: Alphabet, s: seq<bv8>, n: nat)
    requires TrailingPads(v, s) == 0
    ensures TrailingPads(v, s + seq(n, _ => v.pad)) == n
  {
    var t := s + seq(n, _ => v.pad);
    if n > 0 {
      assert t[..|t| - 1] == s + seq(n - 1, _ => v.pad);
      PadsAtEnd(v, s, n - 1);
    } else {
      assert t == s;
    }
  }

  lemma {:induction false} QuadsLength(v: Alphabet, s: seq<bv8>)
    ensures |Quads(v, s)| == 3 * (|s| / 4)
  {
    if |s| >= 4 {
      QuadsLength(v, s[4..]);
    }
  }

  /** Any text with n pads at its end loses n of its decoded bytes; decoding is undefined exactly if there are fewer. */
  lemma DecodedLength(v: Alphabet, s: seq<bv8>, n: nat)
    requires s != [] ==> s[|s| - 1] != v.pad
    ensures var t := s + seq(n, _ => v.pad);
            && (Decoded(v, t) == None <==> n > 3 * (|t| / 4))
            && (Decoded(v, t).Some? ==>
                  |Decoded(v, t).value| == 3 * (|t| / 4) - n && Decoded(v, t).value <= Quads(v, t))
  {
    PadsAtEnd(v, s, n);
    QuadsLength(v, s + seq(n, _ => v.pad));
  }

  function PadCount(n: nat): nat {
    (3 - n % 3) % 3
  }

  /** The last group: what it decodes to before the pads are taken back, and how many pads it has. */
  lemma TailRoundTrip(v: Alphabet, s: seq<bv8>)
    requires Sound(v) && |s| < 3
    ensures var e := Encoded(v, s);
            && |e| == 4 * ((|s| + 2) / 3)
            && |Quads(v, e)| == |s| + PadCount(|s|)
            && Quads(v, e)[..|s|] == s
            && TrailingPads(v, e) == PadCount(|s|)
  {
    if s != [] {
      var a, b := s[0], if |s| == 2 then s[1] else 0;
      DigitsSound(v, a, b, 0);
      BytesOfSextets(a, b, 0);
      var digits := EncodeTriple(v, a, b, 0)[..|s| + 1];
      assert Encoded(v, s) == digits + seq(PadCount(|s|), _ => v.pad);
      PadsAtEnd(v, digits, PadCount(|s|));
      assert Quads(v, Encoded(v, s)[4..]) == [];
    }
  }

  lemma ThreeMore(n: nat)
    ensures PadCount(n + 3) == PadCount(n) && (n + 3 + 2) / 3 == (n + 2) / 3 + 1
  {
  }

  lemma TripleEndsWithDigit(v: Alphabet, a: bv8, b: bv8, c: bv8)
    requires Sound(v)
    ensures EncodeTriple(v, a, b, c)[3] != v.pad
  {
    DigitsSound(v, a, b, c);
  }

  lemma Extends(v: Alphabet, e: seq<bv8>, bytes: seq<bv8>, tail: seq<bv8>)
    requires |e| == 4 && e[3] != v.pad && Quads(v, e) == bytes
    ensures Quads(v, e + tail) == bytes + Quads(v, tail)
    ensures TrailingPads(v, e + tail) == TrailingPads(v, tail)
  {
    QuadsAppend(v, e, tail);
    PadsOfAppend(v, e, tail);
  }

  lemma TripleExtends(v: Alphabet, s: seq<bv8>)
    requires Sound(v) && |s| >= 3
    ensures Quads(v, Encoded(v, s)) == s[..3] + Quads(v, Encoded(v, s[3..]))
    ensures TrailingPads(v, Encoded(v, s)) == TrailingPads(v, Encoded(v, s[3..]))
  {
    var e := EncodeTriple(v, s[0], s[1], s[2]);
    QuadOfTriple(v, s[0], s[1], s[2]);
    TripleEndsWithDigit(v, s[0], s[1], s[2]);
    Extends(v, e, s[..3], Encoded(v, s[3..]));
  }

  /** Four characters for every three bytes begun. */
  lemma {:induction false} EncodedLength(v: Alphabet, s: seq<bv8>)
    requires Sound(v)
    ensures |Encoded(v, s)| == 4 * ((|s| + 2) / 3)
    decreases |s|
  {
    if |s| < 3 {
      TailRoundTrip(v, s);
    } else {
      EncodedLength(v, s[3..]);
      ThreeMore(|s| - 3);
    }
  }

  lemma {:induction false} EncodedPads(v: Alphabet, s: seq<bv8>)
    requires Sound(v)
    ensures TrailingPads(v, Encoded(v, s)) == PadCount(|s|)
    decreases |s|
  {
    if |s| < 3 {
      TailRoundTrip(v, s);
    } else {
      EncodedPads(v, s[3..]);
      TripleExtends(v, s);
      ThreeMore(|s| - 3);
    }
  }

  /** The encoding decodes to the input followed by as many garbage bytes as there are pads. */
  lemma {:induction false} PadsPopTheGarbage(v: Alphabet, s: seq<bv8>) returns (garbage: seq<bv8>)
    requires Sound(v)
    ensures Quads(v, Encoded(v, s)) == s + garbage
    ensures |garbage| == TrailingPads(v, Encoded(v, s))
    decreases |s|
  {
    if |s| < 3 {
      TailRoundTrip(v, s);
      garbage := Quads(v, Encoded(v, s))[|s|..];
      SplitAt(Quads(v, Encoded(v, s)), s);
    } else {
      garbage := PadsPopTheGarbage(v, s[3..]);
      TripleExtends(v, s);
      Regroup(s, garbage);
    }
  }

  lemma SplitAt(q: seq<bv8>, s: seq<bv8>)
    requires |s| <= |q| && q[..|s|] == s
    ensures q == s + q[|s|..]
  {
  }

  lemma Regroup(s: seq<bv8>, garbage: seq<bv8>)
    requires |s| >= 3
    ensures s[..3] + (s[3..] + garbage) == s + garbage
  {
  }

  lemma {:induction false} PadsOfAppend(v: Alphabet, s: seq<bv8>, t: seq<bv8>)
    requires s != [] && s[|s| - 1] != v.pad
    ensures TrailingPads(v, s + t) == TrailingPads(v, t)
    decreases |t|
  {
    if t == [] {
      assert s + t == s;
    } else {
      assert (s + t)[..|s + t| - 1] == s + t[..|t| - 1];
      PadsOfAppend(v, s, t[..|t| - 1]);
    }
  }

  /** Decoding an encoding gives the bytes back, in both variants. */
  lemma RoundTrip(v: Alphabet, s: seq<bv8>)
    requires Sound(v)
    ensures Decoded(v, Encoded(v, s)) == Some(s)
  {
    var garbage := PadsPopTheGarbage(v, s);
    assert (s + garbage)[..|s|] == s;
  }

  /** No blank appears in an encoding. */
  lemma {:induction false} EncodedHasNoBlanks(v: Alphabet, s: seq<bv8>)
    requires Sound(v)
    ensures forall c <- Encoded(v, s) :: c != 32 && c != 9
    decreases |s|
  {
    if s != [] {
      var a, b, c := s[0], if |s| > 1 then s[1] else 0, if |s| > 2 then s[2] else 0;
      DigitsSound(v, a, b, c);
      if |s| >= 3 {
        EncodedHasNoBlanks(v, s[3..]);
      }
    }
  }
}
