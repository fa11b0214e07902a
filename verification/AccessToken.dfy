/**
 * Access tokens: AccessToken builds a text of four fields, encrypts it and writes it in URL-safe base64; ValidateToken
 * undoes the three and compares the fields with the request.  The cipher is a parameter.
 */
module AccessToken {
  import opened Wrappers
  import Base64

  const TWO63: int := 0x8000_0000_0000_0000
  const TWO64: int := 0x1_0000_0000_0000_0000

  type Cipher = string -> seq<bv8>
  type Decipher = seq<bv8> -> Option<string>

  ghost predicate Inverts(dec: Decipher, enc: Cipher) {
    forall x: string :: dec(enc(x)) == Some(x)
  }

  // ---------- numbers as text ----------

  function DigitChar(d: nat): (c: char)
    requires d < 10
  {
    (48 + d) as char
  }

  predicate IsDigit(c: char) {
    48 <= c as int <= 57
  }

  /** std::to_string of an unsigned number. */
  function Decimal(n: nat): string {
    if n < 10 then [DigitChar(n)] else Decimal(n / 10) + [DigitChar(n % 10)]
  }

  function Value(digits: string): nat
    requires forall c <- digits :: IsDigit(c)
  {
    if digits == "" then 0
    else
      var c := digits[|digits| - 1];
      assert IsDigit(c);
      10 * Value(digits[..|digits| - 1]) + (c as int - 48)
  }

  predicate IsSpace(c: char) {
    c == ' ' || 9 <= c as int <= 13
  }

  function SkipSpaces(s: string): string {
    if s != "" && IsSpace(s[0]) then SkipSpaces(s[1..]) else s
  }

  function DigitRun(s: string): (k: nat)
    ensures k <= |s| && forall i :: 0 <= i < k ==> IsDigit(s[i])
    ensures k < |s| ==> !IsDigit(s[k])
  {
    if s != "" && IsDigit(s[0]) then 1 + DigitRun(s[1..]) else 0
  }

  /** std::stol: None where it throws, because there is no digit or the number does not fit a long. */
  function Stol(text: string): Option<int> {
    SignedNumber(SkipSpaces(text))
  }

  function SignedNumber(s: string): Option<int> {
    var signed := s != "" && (s[0] == '-' || s[0] == '+');
    var t := if signed then s[1..] else s;
    var k := DigitRun(t);
    var n: int := Value(t[..k]);
    var v := if signed && s[0] == '-' then -n else n;
    if k == 0 || !(-TWO63 <= v < TWO63) then None else Some(v)
  }

  lemma {:induction false} DecimalValue(n: nat)
    ensures Decimal(n) != "" && (forall c <- Decimal(n) :: IsDigit(c)) && Value(Decimal(n)) == n
  {
    var d := Decimal(n);
    if n < 10 {
      assert d[..|d| - 1] == "";
    } else {
      DecimalValue(n / 10);
      assert d[..|d| - 1] == Decimal(n / 10);
    }
  }

  lemma {:induction false} DigitRunAll(s: string)
    requires forall c <- s :: IsDigit(c)
    ensures DigitRun(s) == |s|
    decreases |s|
  {
    if s != "" {
      DigitRunAll(s[1..]);
    }
  }

  /** Reading back a number that was written, if it fits. */
  lemma StolOfDecimal(n: nat)
    ensures Stol(Decimal(n)) == if n < TWO63 then Some(n) else None
  {
    var s := Decimal(n);
    DecimalValue(n);
    DigitRunAll(s);
    assert IsDigit(s[0]) && SkipSpaces(s) == s && s[..|s|] == s;
  }

  /** Decimal writes one digit after the other, and Value reads them. */
  lemma DecimalDigits(n: nat, d: nat)
    requires d < 10
    ensures Decimal(10 * n + d) == (if n == 0 then "" else Decimal(n)) + ["0123456789"[d]]
  {
    assert (10 * n + d) / 10 == n && (10 * n + d) % 10 == d;
    assert "0123456789"[d] == (48 + d) as char;
  }

  ghost predicate Digits(s: string) {
    forall i :: 0 <= i < |s| ==> '0' <= s[i] <= '9'
  }

  /** What isspace accepts: blank, tab, newline, vertical tab, form feed, carriage return. */
  ghost predicate Spaces(s: string) {
    forall i :: 0 <= i < |s| ==> s[i] == ' ' || (s[i] as int in {9, 10, 11, 12, 13})
  }

  lemma ValueDigits(digits: string, d: nat)
    requires Digits(digits) && d < 10
    ensures Value("") == 0 && Value(digits + ["0123456789"[d]]) == 10 * Value(digits) + d
  {
    var t := digits + ["0123456789"[d]];
    assert t[..|t| - 1] == digits;
  }

  lemma {:induction false} SpacesSkipped(spaces: string, s: string)
    requires Spaces(spaces)
    requires s != "" ==> !IsSpace(s[0])
    ensures SkipSpaces(spaces + s) == s
    decreases |spaces|
  {
    if spaces == "" {
      assert spaces + s == s;
    } else {
      assert (spaces + s)[1..] == spaces[1..] + s;
      SpacesSkipped(spaces[1..], s);
    }
  }

  lemma {:induction false} DigitRunStops(digits: string, junk: string)
    requires Digits(digits) && (junk == "" || !('0' <= junk[0] <= '9'))
    ensures DigitRun(digits + junk) == |digits|
    decreases |digits|
  {
    if digits == "" {
      assert digits + junk == junk;
    } else {
      assert (digits + junk)[1..] == digits[1..] + junk;
      DigitRunStops(digits[1..], junk);
    }
  }

  /** What std::stol reads: spaces, a sign, digits, and anything that is not a digit after them. */
  lemma StolReads(spaces: string, sign: string, digits: string, junk: string)
    requires Spaces(spaces)
    requires sign == "" || sign == "+" || sign == "-"
    requires Digits(digits) && digits != "" && (junk == "" || !('0' <= junk[0] <= '9'))
    ensures var v: int := if sign == "-" then 0 - Value(digits) else Value(digits);
            Stol(spaces + (sign + (digits + junk))) ==
            if -0x8000_0000_0000_0000 <= v < 0x8000_0000_0000_0000 then Some(v) else None
  {
    var t := digits + junk;
    assert t[0] == digits[0] && digits[0] in digits && t[..|digits|] == digits;
    DigitRunStops(digits, junk);
    var s := sign + t;
    assert sign == "" ==> s == t;
    assert sign != "" ==> s[1..] == t && s[0] == sign[0];
    SpacesSkipped(spaces, s);
    SignedReads(s, sign, digits, t);
  }

  lemma SignedReads(s: string, sign: string, digits: string, t: string)
    requires sign == "" || sign == "+" || sign == "-"
    requires Digits(digits) && digits != "" && |digits| <= |t| && t[..|digits|] == digits && DigitRun(t) == |digits|
    requires if sign == "" then s == t else s != "" && s[1..] == t && s[0] == sign[0]
    ensures var v: int := if sign == "-" then 0 - Value(digits) else Value(digits);
            SignedNumber(s) == if -0x8000_0000_0000_0000 <= v < 0x8000_0000_0000_0000 then Some(v) else None
  {
    assert t[0] == digits[0];
  }

  /** Without a digit there, it throws. */
  lemma StolThrows(spaces: string, sign: string, junk: string)
    requires Spaces(spaces)
    requires sign == "+" || sign == "-" || (sign == "" && (junk == "" || (!IsSpace(junk[0]) && junk[0] !in "+-")))
    requires junk == "" || !('0' <= junk[0] <= '9')
    ensures Stol(spaces + (sign + junk)) == None
  {
    assert "" + junk == junk;
    assert sign == "" ==> sign + junk == junk;
    assert sign != "" ==> (sign + junk)[1..] == junk;
    SpacesSkipped(spaces, sign + junk);
    DigitRunStops("", junk);
  }

  // ---------- fields ----------

  function FirstColon(s: string): Option<nat> {
    if s == "" then None
    else if s[0] == ':' then Some(0)
    else match FirstColon(s[1..]) case None => None case Some(i) => Some(i + 1)
  }

  lemma {:induction false} FirstColonFound(s: string)
    ensures FirstColon(s).None? ==> ':' !in s
    ensures FirstColon(s).Some? ==>
              FirstColon(s).value < |s| && s[FirstColon(s).value] == ':' && ':' !in s[..FirstColon(s).value]
    decreases |s|
  {
    if s != "" && s[0] != ':' {
      FirstColonFound(s[1..]);
      if FirstColon(s[1..]).Some? {
        var i := FirstColon(s[1..]).value;
        assert s[..i + 1] == [s[0]] + s[1..][..i];
      } else {
        assert s == [s[0]] + s[1..];
      }
    }
  }

  lemma {:induction false} FirstColonAfter(field: string, rest: string)
    requires ':' !in field
    ensures FirstColon(field + ":" + rest) == Some(|field|)
    decreases |field|
  {
    var s := field + ":" + rest;
    if field != "" {
      assert s[1..] == field[1..] + ":" + rest;
      FirstColonAfter(field[1..], rest);
    }
  }

  lemma {:induction false} NoColon(s: string)
    requires ':' !in s
    ensures FirstColon(s) == None
    decreases |s|
  {
    if s != "" {
      NoColon(s[1..]);
    }
  }

  /** The next field, and what is left; the last of the n fields may run to the end of the text. */
  function Fields(s: string, n: nat): Option<seq<string>> {
    if n == 0 then Some([])
    else
      match FirstColon(s)
      case None => if n == 1 then Some([s]) else None
      case Some(i) =>
        FirstColonFound(s);
        var rest :- Fields(s[i + 1..], n - 1);
        Some([s[..i]] + rest)
  }

  lemma {:induction false} FieldsCount(s: string, n: nat)
    ensures Fields(s, n).Some? ==> |Fields(s, n).value| == n
  {
    if n > 0 && FirstColon(s).Some? {
      FirstColonFound(s);
      FieldsCount(s[FirstColon(s).value + 1..], n - 1);
    }
  }

  lemma FieldStep(a: string, rest: string, n: nat)
    requires ':' !in a && n > 0
    ensures Fields(a + ":" + rest, n) ==
            match Fields(rest, n - 1) case None => None case Some(fs) => Some([a] + fs)
  {
    FirstColonAfter(a, rest);
    var s := a + ":" + rest;
    assert s[..|a|] == a && s[|a| + 1..] == rest;
  }

  /** Four colon-free fields are read back, and a colon after the fourth ends it. */
  lemma FourFields(a: string, b: string, c: string, d: string, junk: string)
    requires ':' !in a && ':' !in b && ':' !in c && ':' !in d
    ensures Fields(a + ":" + (b + ":" + (c + ":" + d)), 4) == Some([a, b, c, d])
    ensures Fields(a + ":" + (b + ":" + (c + ":" + (d + ":" + junk))), 4) == Some([a, b, c, d])
  {
    NoColon(d);
    FieldStep(d, junk, 1);
    assert [d] + [] == [d];
    LastFields(a, b, c, d, d);
    LastFields(a, b, c, d, d + ":" + junk);
  }

  lemma LastFields(a: string, b: string, c: string, d: string, tail: string)
    requires ':' !in a && ':' !in b && ':' !in c && Fields(tail, 1) == Some([d])
    ensures Fields(a + ":" + (b + ":" + (c + ":" + tail)), 4) == Some([a, b, c, d])
  {
    FieldStep(c, tail, 2);
    assert [c] + [d] == [c, d];
    FieldStep(b, c + ":" + tail, 3);
    assert [b] + [c, d] == [b, c, d];
    FieldStep(a, b + ":" + (c + ":" + tail), 4);
    assert [a] + [b, c, d] == [a, b, c, d];
  }

  /** Fewer than three colons are not a token's text. */
  lemma TooFewFields(a: string, b: string, c: string)
    requires ':' !in a && ':' !in b && ':' !in c
    ensures Fields(a, 4) == None && Fields(a + ":" + b, 4) == None && Fields(a + ":" + (b + ":" + c), 4) == None
  {
    NoColon(a);
    NoColon(b);
    NoColon(c);
    FieldStep(a, b, 4);
    FieldStep(b, c, 3);
    FieldStep(a, b + ":" + c, 4);
  }

  // ---------- minting ----------

  function OrAny(s: string): string {
    if s == "" then "*" else s
  }

  /** The sum is computed in size_t from a lifetime cast to a signed 64-bit number. */
  function Expire(now: nat, ttl: nat): nat
    requires now < TWO63 && ttl < TWO64
  {
    if ttl == 0 then 0 else (now + ttl) % TWO64
  }

  function Plain(rand: nat, origin: string, channel: string, expire: nat): string {
    "token-" + Decimal(rand) + ":" + (OrAny(origin) + ":" + (OrAny(channel) + ":" + Decimal(expire)))
  }

  ghost function Minted(enc: Cipher, rand: nat, origin: string, channel: string, expire: nat): seq<bv8> {
    Base64.Encoded(Base64.UrlSafe(), enc(Plain(rand, origin, channel, expire)))
  }

  method MintToken(enc: Cipher, rand: nat, origin: string, channel: string, now: nat, ttl: nat)
    returns (token: seq<bv8>)
    requires now < TWO63 && ttl < TWO64
    ensures token == Minted(enc, rand, origin, channel, Expire(now, ttl))
  {
    var expire := if ttl == 0 then 0 else (now + ttl) % TWO64;
    var text := "token-" + Decimal(rand) + ":" + (if origin == "" then "*" else origin);
    text := text + ":" + (if channel == "" then "*" else channel) + ":" + Decimal(expire);
    assert text == Plain(rand, origin, channel, expire);
    token := Base64.Encode(Base64.UrlSafe(), enc(text));
  }

  // ---------- validation ----------

  /** Wildcards, then the expiry. */
  predicate Grants(args: seq<string>, origin: string, channel: string, now: int)
    requires |args| == 4
  {
    match Stol(args[3])
    case None => false
    case Some(expire) =>
      (args[1] == "*" || origin == args[1]) && (args[2] == "*" || channel == args[2]) && (expire == 0 || expire >= now)
  }

  predicate TextAccepted(text: string, origin: string, channel: string, now: int) {
    FieldsCount(text, 4);
    match Fields(text, 4)
    case None => false
    case Some(args) => Grants(args, origin, channel, now)
  }

  /** What a text of four fields grants; a last field that is no number grants nothing. */
  lemma TextGrants(a: string, b: string, c: string, d: string, junk: string, origin: string, channel: string, now: int)
    requires ':' !in a && ':' !in b && ':' !in c && ':' !in d
    ensures var e := Stol(d);
            var grants := (b == "*" || b == origin) && (c == "*" || c == channel)
                          && e.Some? && (e.value == 0 || now <= e.value);
            && TextAccepted(a + ":" + (b + ":" + (c + ":" + d)), origin, channel, now) == grants
            && TextAccepted(a + ":" + (b + ":" + (c + ":" + (d + ":" + junk))), origin, channel, now) == grants
  {
    FourFields(a, b, c, d, junk);
  }

  /** The fields already read, then those still to read. */
  ghost function Joined(args: seq<string>, more: Option<seq<string>>): Option<seq<string>> {
    if more.None? then None else Some(args + more.value)
  }

  lemma FieldTaken(args: seq<string>, rest: string, n: nat)
    requires n > 0
    ensures var i := FirstColon(rest);
            match i
            case None => Joined(args, Fields(rest, n)) == if n == 1 then Some(args + [rest]) else None
            case Some(i) =>
              i < |rest| && Joined(args, Fields(rest, n)) == Joined(args + [rest[..i]], Fields(rest[i + 1..], n - 1))
  {
    FirstColonFound(rest);
    if FirstColon(rest).Some? {
      var i := FirstColon(rest).value;
      var more := Fields(rest[i + 1..], n - 1);
      if more.Some? {
        assert args + ([rest[..i]] + more.value) == (args + [rest[..i]]) + more.value;
      }
    }
  }

  method ValidateAccessToken(token: string, origin: string, channel: string, now: int) returns (ok: bool)
    ensures ok == TextAccepted(token, origin, channel, now)
  {
    FieldsCount(token, 4);
    var args: seq<string> := [];
    var rest := token;
    var n := 0;
    ghost var all := Fields(token, 4);
    assert all.Some? ==> args + all.value == all.value;
    while n < 4
      invariant n <= 4 && |args| == n
      invariant n < 4 ==> all == Joined(args, Fields(rest, 4 - n))
      invariant n == 4 ==> all == Some(args)
    {
      FieldTaken(args, rest, 4 - n);
      var npos := FirstColon(rest);
      if npos.None? {
        if n != 3 {
          return false;
        }
        args := args + [rest];
      } else {
        args := args + [rest[..npos.value]];
        rest := rest[npos.value + 1..];
        assert Fields(rest, 0) == Some([]) && args + [] == args;
      }
      n := n + 1;
    }
    var expire := Stol(args[3]);
    if expire.None? {
      return false;
    }
    return (args[1] == "*" || origin == args[1]) && (args[2] == "*" || channel == args[2])
           && (expire.value == 0 || expire.value >= now);
  }

  predicate IsBlank(c: bv8) {
    c == 32 || c == 9
  }

  function TrimFront(s: seq<bv8>): seq<bv8> {
    if s != [] && IsBlank(s[0]) then TrimFront(s[1..]) else s
  }

  function TrimBack(s: seq<bv8>): seq<bv8> {
    if s != [] && IsBlank(s[|s| - 1]) then TrimBack(s[..|s| - 1]) else s
  }

  method Trim(data: seq<bv8>) returns (r: seq<bv8>)
    ensures r == TrimBack(TrimFront(data))
  {
    r := data;
    while r != [] && IsBlank(r[0])
      invariant TrimFront(r) == TrimFront(data)
      decreases |r|
    {
      r := r[1..];
    }
    while r != [] && IsBlank(r[|r| - 1])
      invariant TrimBack(r) == TrimBack(TrimFront(data))
      decreases |r|
    {
      r := r[..|r| - 1];
    }
  }

  function Lower(c: bv8): bv8 {
    if 65 <= c <= 90 then c + 32 else c
  }

  /** "bearer " in lower case. */
  const BEARER: seq<bv8> := [98, 101, 97, 114, 101, 114, 32]

  predicate IsBearer(s: seq<bv8>) {
    |s| == 7 && forall i :: 0 <= i < 7 ==> Lower(s[i]) == BEARER[i]
  }

  function StripBearer(s: seq<bv8>): seq<bv8> {
    if |s| >= 7 && IsBearer(s[..7]) then s[7..] else s
  }

  /** None where decoding the base64 text is undefined, see Base64.Decoded. */
  function Accepted(dec: Decipher, token: seq<bv8>, origin: string, channel: string, now: int): Option<bool> {
    var data :- Base64.Decoded(Base64.UrlSafe(), TrimBack(TrimFront(StripBearer(token))));
    match dec(data)
    case None => Some(false)
    case Some(text) => Some("token-" <= text && TextAccepted(text, origin, channel, now))
  }

  method ValidateToken(dec: Decipher, token: seq<bv8>, origin: string, channel: string, now: int)
    returns (ok: Option<bool>)
    ensures ok == Accepted(dec, token, origin, channel, now)
  {
    var rest := token;
    if |rest| >= 7 && IsBearer(rest[..7]) {
      rest := rest[7..];
    }
    rest := Trim(rest);
    var data := Base64.Decode(Base64.UrlSafe(), rest);
    if data.None? {
      return None;
    }
    var text := dec(data.value);
    if text.Some? && "token-" <= text.value {
      var granted := ValidateAccessToken(text.value, origin, channel, now);
      return Some(granted);
    }
    return Some(false);
  }

  // ---------- presentation: the Bearer prefix and the blanks around a token change nothing ----------

  ghost predicate Blanks(s: seq<bv8>) {
    forall i :: 0 <= i < |s| ==> s[i] == 32 || s[i] == 9
  }

  /** No blank at either end. */
  ghost predicate Trimmed(s: seq<bv8>) {
    s == [] || (s[0] != 32 && s[0] != 9 && s[|s| - 1] != 32 && s[|s| - 1] != 9)
  }

  /** The prefix in either case, letter by letter. */
  ghost predicate AnyCase(p: seq<bv8>) {
    && |p| == 7
    && (p[0] == 66 || p[0] == 98)
    && (p[1] == 69 || p[1] == 101)
    && (p[2] == 65 || p[2] == 97)
    && (p[3] == 82 || p[3] == 114)
    && (p[4] == 69 || p[4] == 101)
    && (p[5] == 82 || p[5] == 114)
    && p[6] == 32
  }

  lemma {:induction false} TrimsFront(b: seq<bv8>, s: seq<bv8>)
    requires Blanks(b)
    ensures TrimFront(b + s) == TrimFront(s)
    decreases |b|
  {
    if b == [] {
      assert b + s == s;
    } else {
      assert (b + s)[1..] == b[1..] + s;
      TrimsFront(b[1..], s);
    }
  }

  lemma {:induction false} TrimsBack(s: seq<bv8>, b: seq<bv8>)
    requires Trimmed(s) && Blanks(b)
    ensures TrimBack(s + b) == s
    decreases |b|
  {
    if b == [] {
      assert s + b == s;
    } else {
      assert (s + b)[..|s + b| - 1] == s + b[..|b| - 1];
      TrimsBack(s, b[..|b| - 1]);
    }
  }

  /** Trim takes away the blanks at both ends and nothing else. */
  lemma TrimsAround(b1: seq<bv8>, s: seq<bv8>, b2: seq<bv8>)
    requires Blanks(b1) && Trimmed(s) && Blanks(b2)
    ensures TrimBack(TrimFront(b1 + s + b2)) == s
  {
    assert b1 + s + b2 == b1 + (s + b2);
    TrimsFront(b1, s + b2);
    if s == [] {
      assert s + b2 == b2 && b2 + [] == b2;
      TrimsFront(b2, []);
    } else {
      assert TrimFront(s + b2) == s + b2 by { assert (s + b2)[0] == s[0]; }
      TrimsBack(s, b2);
    }
  }

  /** strncasecmp against the prefix. */
  lemma BearerIff(p: seq<bv8>)
    ensures IsBearer(p) <==> AnyCase(p)
  {
    if |p| == 7 {
      assert BEARER[0] == 98 && BEARER[1] == 101 && BEARER[2] == 97 && BEARER[3] == 114;
      assert BEARER[4] == 101 && BEARER[5] == 114 && BEARER[6] == 32;
      LowerIff(p[0], 98);
      LowerIff(p[1], 101);
      LowerIff(p[2], 97);
      LowerIff(p[3], 114);
      LowerIff(p[4], 101);
      LowerIff(p[5], 114);
      assert Lower(p[6]) == 32 <==> p[6] == 32;
    }
  }

  lemma LowerIff(c: bv8, small: bv8)
    requires 97 <= small <= 122
    ensures Lower(c) == small <==> c == small || c == small - 32
  {
  }

  /** A bare token is never taken for one with a prefix: base64 text comes in fours, the word has six letters. */
  lemma NotBearer(b1: seq<bv8>, s: seq<bv8>, b2: seq<bv8>)
    requires Blanks(b1) && Blanks(b2) && |s| % 4 == 0
    requires forall i :: 0 <= i < |s| ==> s[i] != 32 && s[i] != 9
    ensures StripBearer(b1 + s + b2) == b1 + s + b2
  {
    var t := b1 + s + b2;
    if |t| >= 7 {
      var w := t[..7];
      BearerIff(w);
      assert b1 != [] ==> w[0] == b1[0];
      assert b1 == [] && |s| <= 5 ==> w[5] == b2[5 - |s|];
      assert b1 == [] && |s| >= 7 ==> w[6] == s[6];
    }
  }

  lemma Unwrapped(prefix: seq<bv8>, b1: seq<bv8>, s: seq<bv8>, b2: seq<bv8>)
    requires prefix == [] || AnyCase(prefix)
    requires Blanks(b1) && Blanks(b2) && |s| % 4 == 0
    requires forall i :: 0 <= i < |s| ==> s[i] != 32 && s[i] != 9
    ensures TrimBack(TrimFront(StripBearer(prefix + (b1 + s + b2)))) == s
  {
    var body := b1 + s + b2;
    var presented := prefix + body;
    if prefix == [] {
      assert presented == body;
      NotBearer(b1, s, b2);
    } else {
      BearerIff(prefix);
      assert presented[..7] == prefix && presented[7..] == body;
    }
    TrimsAround(b1, s, b2);
  }

  lemma EncodedShape(data: seq<bv8>)
    ensures var s := Base64.Encoded(Base64.UrlSafe(), data);
            && |s| % 4 == 0 && (forall i :: 0 <= i < |s| ==> s[i] != 32 && s[i] != 9)
            && Base64.Decoded(Base64.UrlSafe(), s) == Some(data)
  {
    var v := Base64.UrlSafe();
    var s := Base64.Encoded(v, data);
    Base64.BothSound();
    Base64.RoundTrip(v, data);
    Base64.EncodedLength(v, data);
    Base64.EncodedHasNoBlanks(v, data);
    forall i | 0 <= i < |s| ensures s[i] != 32 && s[i] != 9 {
      assert s[i] in s;
    }
  }

  /** Any data, encoded and presented with or without the prefix, are judged by the text they decipher to alone. */
  lemma PresentedIsJudged(dec: Decipher, data: seq<bv8>, prefix: seq<bv8>, b1: seq<bv8>, b2: seq<bv8>,
                          origin: string, channel: string, now: int)
    requires prefix == [] || AnyCase(prefix)
    requires Blanks(b1) && Blanks(b2)
    ensures var text := dec(data);
            Accepted(dec, prefix + (b1 + Base64.Encoded(Base64.UrlSafe(), data) + b2), origin, channel, now)
            == Some(text.Some? && "token-" <= text.value && TextAccepted(text.value, origin, channel, now))
  {
    EncodedShape(data);
    Unwrapped(prefix, b1, Base64.Encoded(Base64.UrlSafe(), data), b2);
  }

  // ---------- what a minted token grants ----------

  /** What the holder was promised; an empty origin or channel, or "*", means any. */
  predicate Promised(origin: string, channel: string, expire: int, o: string, c: string, now: int) {
    && (origin == "" || origin == "*" || o == origin)
    && (channel == "" || channel == "*" || c == channel)
    && (expire == 0 || expire >= now)
  }

  lemma PrefixHasNoColon(rand: nat)
    ensures ':' !in "token-" + Decimal(rand)
  {
    DecimalValue(rand);
    assert ':' !in Decimal(rand);
    assert ':' !in "token-";
  }

  /** The text of a token with colon-free fields splits back into them. */
  lemma PlainFields(rand: nat, origin: string, channel: string, expire: nat)
    requires ':' !in origin && ':' !in channel
    ensures Fields(Plain(rand, origin, channel, expire), 4)
            == Some(["token-" + Decimal(rand), if origin == "" then "*" else origin,
                     if channel == "" then "*" else channel, Decimal(expire)])
  {
    var t, o, c, e := "token-" + Decimal(rand), OrAny(origin), OrAny(channel), Decimal(expire);
    PrefixHasNoColon(rand);
    DecimalValue(expire);
    FourFields(t, o, c, e, "");
  }

  lemma PlainAccepted(rand: nat, origin: string, channel: string, expire: nat, o: string, c: string, now: int)
    requires ':' !in origin && ':' !in channel
    ensures TextAccepted(Plain(rand, origin, channel, expire), o, c, now)
            == (expire < TWO63 && Promised(origin, channel, expire, o, c, now))
  {
    PlainFields(rand, origin, channel, expire);
    StolOfDecimal(expire);
  }

  /**
   * The pipeline: minted with colon-free fields, presented with or without the prefix and with blanks around it, a
   * token is accepted exactly when origin and channel match or are wildcards and the expiry has not passed.
   */
  lemma MintedAcceptedIff(enc: Cipher, dec: Decipher, rand: nat, origin: string, channel: string, expire: nat,
                          prefix: seq<bv8>, b1: seq<bv8>, b2: seq<bv8>, o: string, c: string, now: int)
    requires Inverts(dec, enc)
    requires ':' !in origin && ':' !in channel && expire < TWO63
    requires (prefix == [] || AnyCase(prefix)) && Blanks(b1) && Blanks(b2)
    ensures Accepted(dec, prefix + (b1 + Minted(enc, rand, origin, channel, expire) + b2), o, c, now)
            == Some(Promised(origin, channel, expire, o, c, now))
  {
    var text := Plain(rand, origin, channel, expire);
    PresentedIsJudged(dec, enc(text), prefix, b1, b2, o, c, now);
    PlainAccepted(rand, origin, channel, expire, o, c, now);
    assert "token-" <= text;
  }

  lemma MintedIsJudged(enc: Cipher, dec: Decipher, rand: nat, origin: string, channel: string, expire: nat,
                       o: string, c: string, now: int)
    requires Inverts(dec, enc)
    ensures Accepted(dec, Minted(enc, rand, origin, channel, expire), o, c, now)
            == Some(TextAccepted(Plain(rand, origin, channel, expire), o, c, now))
  {
    var text, token := Plain(rand, origin, channel, expire), Minted(enc, rand, origin, channel, expire);
    PresentedIsJudged(dec, enc(text), [], [], [], o, c, now);
    assert [] + ([] + token + []) == token;
    assert "token-" <= text;
  }

  /** An origin with a colon is cut at the colon, and the rest of it is read as the channel. */
  lemma CutOrigin(rand: nat, origin: string, channel: string, expire: nat) returns (i: nat)
    requires ':' in origin
    ensures i < |origin|
    ensures var fs := Fields(Plain(rand, origin, channel, expire), 4);
            fs.Some? ==> |fs.value| == 4 && fs.value[1] == origin[..i]
  {
    FirstColonFound(origin);
    i := FirstColon(origin).value;
    var t, p, q := "token-" + Decimal(rand), origin[..i], origin[i + 1..];
    var r := OrAny(channel) + ":" + Decimal(expire);
    assert origin == p + ":" + q;
    assert origin + ":" + r == p + ":" + (q + ":" + r);
    PrefixHasNoColon(rand);
    FieldStep(p, q + ":" + r, 3);
    FieldStep(t, origin + ":" + r, 4);
    FieldsCount(Plain(rand, origin, channel, expire), 4);
  }

  lemma LastTwoFields(t: string, o: string, rest: string)
    requires ':' !in t && ':' !in o
    ensures var fs := Fields(rest, 2);
            Fields(t + ":" + (o + ":" + rest), 4) == if fs.None? then None else Some([t, o] + fs.value)
  {
    FieldStep(o, rest, 3);
    FieldStep(t, o + ":" + rest, 4);
    var fs := Fields(rest, 2);
    assert fs.Some? ==> [t] + ([o] + fs.value) == [t, o] + fs.value;
  }

  lemma CutChannel(rand: nat, origin: string, channel: string, expire: nat) returns (i: nat)
    requires ':' !in origin && ':' in channel
    ensures i < |channel|
    ensures var fs := Fields(Plain(rand, origin, channel, expire), 4);
            fs.Some? ==> |fs.value| == 4 && fs.value[1] == OrAny(origin) && fs.value[2] == channel[..i]
  {
    FirstColonFound(channel);
    i := FirstColon(channel).value;
    var t, o, p, q := "token-" + Decimal(rand), OrAny(origin), channel[..i], channel[i + 1..];
    var e := Decimal(expire);
    assert channel + ":" + e == p + ":" + (q + ":" + e);
    PrefixHasNoColon(rand);
    FieldStep(p, q + ":" + e, 2);
    LastTwoFields(t, o, channel + ":" + e);
    FieldsCount(channel + ":" + e, 2);
  }

  /** With a colon in a field some request is judged wrongly: its own, or, if what is left is "*", a stranger's. */
  lemma ColonMisjudges(rand: nat, origin: string, channel: string, expire: nat) returns (o: string, c: string)
    requires ':' in origin || ':' in channel
    ensures TextAccepted(Plain(rand, origin, channel, expire), o, c, 0) != Promised(origin, channel, expire, o, c, 0)
  {
    var text := Plain(rand, origin, channel, expire);
    o, c := origin, channel;
    assert Promised(origin, channel, expire, o, c, 0);
    if TextAccepted(text, o, c, 0) {
      if ':' in origin {
        var i := CutOrigin(rand, origin, channel, expire);
        o := "";
      } else {
        var i := CutChannel(rand, origin, channel, expire);
        c := "";
      }
    }
  }

  /** A token keeps its promise to every request exactly when neither field it was minted with has a colon. */
  lemma PromiseKeptIff(enc: Cipher, dec: Decipher, rand: nat, origin: string, channel: string, expire: nat)
    requires Inverts(dec, enc) && expire < TWO63
    ensures (forall o, c, now ::
               Accepted(dec, Minted(enc, rand, origin, channel, expire), o, c, now)
               == Some(Promised(origin, channel, expire, o, c, now)))
            <==> ':' !in origin && ':' !in channel
  {
    var token := Minted(enc, rand, origin, channel, expire);
    if ':' !in origin && ':' !in channel {
      forall o, c, now
        ensures Accepted(dec, token, o, c, now) == Some(Promised(origin, channel, expire, o, c, now))
      {
        MintedIsJudged(enc, dec, rand, origin, channel, expire, o, c, now);
        PlainAccepted(rand, origin, channel, expire, o, c, now);
      }
    } else {
      var o, c := ColonMisjudges(rand, origin, channel, expire);
      MintedIsJudged(enc, dec, rand, origin, channel, expire, o, c, 0);
      assert Accepted(dec, token, o, c, 0) != Some(Promised(origin, channel, expire, o, c, 0));
    }
  }

  /** The holder's own request at some later time. */
  lemma AcceptedAt(enc: Cipher, dec: Decipher, rand: nat, origin: string, channel: string, expire: nat, later: int)
    requires Inverts(dec, enc) && ':' !in origin && ':' !in channel
    ensures Accepted(dec, Minted(enc, rand, origin, channel, expire), origin, channel, later)
            == Some(Alive(expire, later))
  {
    MintedIsJudged(enc, dec, rand, origin, channel, expire, origin, channel, later);
    PlainAccepted(rand, origin, channel, expire, origin, channel, later);
  }

  /** Whether a token with that expiry is still good. */
  ghost predicate Alive(expire: nat, later: int) {
    expire < TWO63 && (expire == 0 || expire >= later)
  }

  lemma ExpireCovers(now: nat, ttl: nat)
    requires now < TWO63 && ttl < TWO64
    ensures (forall later: int | now <= later < TWO63 ::
               Alive(Expire(now, ttl), later) == (ttl == 0 || later <= now + ttl))
            <==> ttl == 0 || now + ttl < TWO63 || now + ttl == TWO64
  {
    if ttl != 0 && now + ttl >= TWO63 && now + ttl != TWO64 {
      assert !Alive(Expire(now, ttl), now);
    }
  }

  /**
   * A token lives for the lifetime asked for, at every later time, exactly when the sum stays within a signed 64-bit
   * number or no lifetime was asked for; past that it is dead at once (or, if the sum wraps to 0, lives for ever).
   */
  lemma LifetimeKeptIff(enc: Cipher, dec: Decipher, rand: nat, origin: string, channel: string, now: nat, ttl: nat)
    requires Inverts(dec, enc) && ':' !in origin && ':' !in channel
    requires now < TWO63 && ttl < TWO64
    ensures (forall later: int | now <= later < TWO63 ::
               Accepted(dec, Minted(enc, rand, origin, channel, Expire(now, ttl)), origin, channel, later)
               == Some(ttl == 0 || later <= now + ttl))
            <==> ttl == 0 || now + ttl < 0x8000_0000_0000_0000 || now + ttl == 0x1_0000_0000_0000_0000
  {
    var expire := Expire(now, ttl);
    forall later: int
      ensures Accepted(dec, Minted(enc, rand, origin, channel, expire), origin, channel, later)
              == Some(Alive(expire, later))
    {
      AcceptedAt(enc, dec, rand, origin, channel, expire, later);
    }
    ExpireCovers(now, ttl);
  }
}
