/** The chunked-body reader of chttpconnection (RFC 9112, section 7.1), which also cuts the text into JSON objects. */
module ChunkedReader {
  import opened Wrappers

  // ---------- JSON objects by brace depth ----------

  /** Where the first object ends; popping the empty bracket stack is undefined. */
  datatype JsonEnd = Ends(at: nat) | Incomplete | Underflow

  function After(n: nat, e: JsonEnd): JsonEnd {
    if e.Ends? then Ends(n + e.at) else e
  }

  function Scan(s: string, depth: nat): JsonEnd {
    if s == "" then Incomplete
    else if s[0] == '{' then After(1, Scan(s[1..], depth + 1))
    else if s[0] == '}' then
      if depth == 0 then Underflow
      else if depth == 1 then Ends(0)
      else After(1, Scan(s[1..], depth - 1))
    else After(1, Scan(s[1..], depth))
  }

  lemma {:induction false} ScanEndsInside(s: string, depth: nat)
    ensures Scan(s, depth).Ends? ==> Scan(s, depth).at < |s|
    ensures depth == 0 && Scan(s, 0).Ends? ==> Scan(s, 0).at > 0
  {
    if s != "" {
      ScanEndsInside(s[1..], depth + 1);
      ScanEndsInside(s[1..], depth);
      if depth > 0 { ScanEndsInside(s[1..], depth - 1); }
    }
  }

  /** The result of ExtractJson: the index, -1, or nothing where undefined. */
  function EndIndex(e: JsonEnd): Option<int> {
    match e
    case Ends(n) => Some(n as int)
    case Incomplete => Some(-1)
    case Underflow => None
  }

  method ExtractJson(str: string) returns (r: Option<int>)
    ensures r == EndIndex(Scan(str, 0))
  {
    var bracketStack: string := "";
    var i := 0;
    while i < |str|
      invariant i <= |str|
      invariant Scan(str, 0) == After(i, Scan(str[i..], |bracketStack|))
    {
      var c := str[i];
      assert str[i..][1..] == str[i + 1..];
      if c == '{' {
        bracketStack := bracketStack + [c];
      } else if c == '}' {
        if bracketStack == "" { return None; }
        bracketStack := bracketStack[..|bracketStack| - 1];
        if bracketStack == "" { return Some(i); }
      }
      i := i + 1;
    }
    r := Some(-1);
  }

  /** All complete objects at the front of a text, and what remains. */
  function ExtractAll(text: string): Option<(seq<string>, string)>
    decreases |text|
  {
    ScanEndsInside(text, 0);
    match Scan(text, 0)
    case Underflow => None
    case Incomplete => Some(([], text))
    case Ends(n) =>
      var (objects, rest) :- ExtractAll(text[n + 1..]);
      Some(([text[..n + 1]] + objects, rest))
  }

  method Extract(text: string, chunks: seq<string>) returns (r: Option<(seq<string>, string)>)
    ensures var e := ExtractAll(text);
            r == if e.None? then None else Some((chunks + e.value.0, e.value.1))
  {
    var found, chunkStr := chunks, text;
    var n :- ExtractJson(chunkStr);
    while n > 0
      invariant Some(n) == EndIndex(Scan(chunkStr, 0))
      invariant var e, d := ExtractAll(text), ExtractAll(chunkStr);
                e.None? == d.None? && (e.Some? ==> chunks + e.value.0 == found + d.value.0 && e.value.1 == d.value.1)
      decreases |chunkStr|
    {
      ScanEndsInside(chunkStr, 0);
      assert Scan(chunkStr, 0) == Ends(n);
      ghost var d := ExtractAll(chunkStr[n + 1..]);
      assert d.Some? ==>
          found + ([chunkStr[..n + 1]] + d.value.0) == (found + [chunkStr[..n + 1]]) + d.value.0;
      found := found + [chunkStr[..n + 1]];
      chunkStr := chunkStr[n + 1..];
      n :- ExtractJson(chunkStr);
    }
    ScanEndsInside(chunkStr, 0);
    assert Scan(chunkStr, 0) == Incomplete && found + [] == found;
    r := Some((found, chunkStr));
  }

  // ---------- the read loop ----------

  const INT64_LIMIT: int := 0x8000_0000_0000_0000

  function Wrap64(x: int): int {
    (x + INT64_LIMIT) % (2 * INT64_LIMIT) - INT64_LIMIT
  }

  function HexDigit(c: char): Option<nat> {
    if '0' <= c <= '9' then Some((c - '0') as nat)
    else if 'a' <= c <= 'f' then Some(10 + (c - 'a') as nat)
    else if 'A' <= c <= 'F' then Some(10 + (c - 'A') as nat)
    else None
  }

  /** http::FromHex in 64 bits. */
  function HexValue(val: int, s: string): int
    decreases |s|
  {
    if s == "" then val
    else if HexDigit(s[0]).None? then -1
    else HexValue(Wrap64(val * 16 + HexDigit(s[0]).value), s[1..])
  }

  method FromHex(data: string) returns (val: int)
    ensures val == HexValue(0, data)
  {
    val := 0;
    var i := 0;
    while i < |data|
      invariant i <= |data| && HexValue(0, data) == HexValue(val, data[i..])
    {
      assert data[i..][1..] == data[i + 1..];
      var digit := HexDigit(data[i]);
      if digit.None? { return -1; }
      val := Wrap64(val * 16 + digit.value);
      i := i + 1;
    }
  }

  // ---------- the size line ----------

  /** The digits of RFC 5234, appendix B.1, in either case. */
  function DigitOf(c: char): Option<nat> {
    if c in "0123456789" then Some(c as int - 48)
    else if c in "abcdef" then Some(c as int - 87)
    else if c in "ABCDEF" then Some(c as int - 55)
    else None
  }

  predicate AllHex(s: string) {
    forall c <- s :: DigitOf(c).Some?
  }

  /** The number that a line of hexadecimal digits denotes, without any bound. */
  function Hexadecimal(s: string): nat
    requires AllHex(s)
  {
    if s == "" then 0
    else
      var c := s[|s| - 1];
      assert DigitOf(c).Some?;
      16 * Hexadecimal(s[..|s| - 1]) + DigitOf(c).value
  }

  lemma DigitsAgree(c: char)
    ensures HexDigit(c) == DigitOf(c)
    ensures HexDigit(c).Some? ==> HexDigit(c).value < 16
  {
  }

  lemma {:induction false} HexValueSnoc(val: int, s: string, c: char)
    requires AllHex(s) && DigitOf(c).Some?
    ensures HexValue(val, s + [c]) == Wrap64(HexValue(val, s) * 16 + DigitOf(c).value)
    decreases |s|
  {
    DigitsAgree(c);
    if s == "" {
      assert s + [c] == [c] && [c][1..] == "";
    } else {
      DigitsAgree(s[0]);
      assert DigitOf(s[0]).Some?;
      assert (s + [c])[1..] == s[1..] + [c];
      HexValueSnoc(Wrap64(val * 16 + HexDigit(s[0]).value), s[1..], c);
    }
  }

  /** In 64 bits, the value differs from the number by a multiple of 2^64. */
  lemma {:induction false} FromHexWraps(s: string) returns (q: int)
    requires AllHex(s)
    ensures HexValue(0, s) == Hexadecimal(s) + q * (2 * INT64_LIMIT) && -INT64_LIMIT <= HexValue(0, s) < INT64_LIMIT
    decreases |s|
  {
    if s == "" {
      q := 0;
    } else {
      var t, c := s[..|s| - 1], s[|s| - 1];
      assert s == t + [c] && DigitOf(c).Some?;
      q := FromHexWraps(t);
      HexValueSnoc(0, t, c);
      var x := HexValue(0, t) * 16 + DigitOf(c).value;
      var w := WrapQuotient(x);
      q := NextQuotient(Hexadecimal(t), q, w, DigitOf(c).value);
    }
  }

  lemma WrapQuotient(x: int) returns (w: int)
    ensures Wrap64(x) == x - w * (2 * INT64_LIMIT) && -INT64_LIMIT <= Wrap64(x) < INT64_LIMIT
  {
    w := (x + INT64_LIMIT) / (2 * INT64_LIMIT);
  }

  lemma NextQuotient(h: int, q: int, w: int, d: int) returns (r: int)
    ensures (h + q * (2 * INT64_LIMIT)) * 16 + d - w * (2 * INT64_LIMIT) == 16 * h + d + r * (2 * INT64_LIMIT)
  {
    r := 16 * q - w;
  }

  lemma {:induction false} FromHexRefuses(val: int, s: string)
    requires !AllHex(s)
    ensures HexValue(val, s) == -1
    decreases |s|
  {
    DigitsAgree(s[0]);
    if HexDigit(s[0]).Some? {
      assert s == [s[0]] + s[1..];
      FromHexRefuses(Wrap64(val * 16 + HexDigit(s[0]).value), s[1..]);
    }
  }

  lemma SmallQuotient(v: int, h: int, q: int)
    requires v == h + q * (2 * INT64_LIMIT) && -INT64_LIMIT <= v < INT64_LIMIT && 0 <= h < INT64_LIMIT
    ensures v == h
  {
  }

  /** FromHex gives the number that the line denotes, if it fits. */
  lemma FromHexReads(s: string)
    requires AllHex(s) && Hexadecimal(s) < INT64_LIMIT
    ensures HexValue(0, s) == Hexadecimal(s)
  {
    var q := FromHexWraps(s);
    SmallQuotient(HexValue(0, s), Hexadecimal(s), q);
  }

  const CRLF: string := "\r\n"

  /** http::FindFirstOf for "\r\n": the line and what follows it, or nothing and the whole text. */
  function SplitLine(s: string): (string, string) {
    if |s| < 2 then ("", s)
    else if s[..2] == CRLF then ("", s[2..])
    else if HasLine(s) then ([s[0]] + SplitLine(s[1..]).0, SplitLine(s[1..]).1)
    else ("", s)
  }

  predicate HasLine(s: string) {
    |s| >= 2 && (s[..2] == CRLF || HasLine(s[1..]))
  }

  /** The loop's last part: leading line breaks do not stay in the remainder. */
  function Strip(s: string): string {
    if s != "" && (s[0] == '\n' || s[0] == '\r') then Strip(s[1..]) else s
  }

  /** What one pass appends to the text, and what it leaves of the body. */
  datatype Piece = Piece(text: string, body: string) | Short(text: string) | Bad

  function NextPiece(body: string): Piece {
    var (line, rest) := SplitLine(body);
    var length := HexValue(0, line);
    if line != "" && length != -1 then
      if length + 2 >= INT64_LIMIT || length + 2 < 0 then Bad
      else if |rest| < length + 2 then Short(rest)
      else if length < 0 then Piece(rest, rest[length + 2..])
      else Piece(rest[..length], rest[length + 2..])
    else if line != "" then Piece(line, rest)
    else Piece(rest, "")
  }

  lemma {:induction false} SplitLineShorter(s: string)
    ensures var (line, rest) := SplitLine(s);
            |line| + |rest| <= |s| && (line != "" ==> |rest| < |s|)
  {
    if |s| >= 2 && s[..2] != CRLF && HasLine(s) {
      SplitLineShorter(s[1..]);
    }
  }

  lemma NextPieceShorter(body: string)
    requires body != ""
    ensures NextPiece(body).Piece? ==> |NextPiece(body).body| < |body|
  {
    SplitLineShorter(body);
  }

  /** Done and NoData (the -ENODATA return) give the objects found and the text kept for the next read. */
  datatype Outcome = Done(chunks: seq<string>, data: string) | NoData(chunks: seq<string>, data: string) | Undefined

  function ReadLoop(chunkStr: string, chunks: seq<string>, body: string): Outcome
    decreases |body|
  {
    if body == "" then Done(chunks, Strip(chunkStr))
    else
      NextPieceShorter(body);
      match NextPiece(body)
      case Bad => Undefined
      case Short(text) => NoData(chunks, chunkStr + text)
      case Piece(text, rest) =>
        match ExtractAll(chunkStr + text)
        case None => Undefined
        case Some((objects, left)) => ReadLoop(left, chunks + objects, rest)
  }

  /** What a connection keeps between two reads. */
  class HttpConnection {
    var data: string

    constructor ()
      ensures data == ""
    {
      data := "";
    }

    /** HttpReadChunkedResponse, from the bytes one SocketRecv gave; None where the C++ is undefined. */
    method HttpReadChunkedResponse(received: string) returns (r: Option<(seq<string>, bool)>)
      modifies this
      ensures match ReadLoop(old(data), [], received)
              case Done(chunks, rest) => r == Some((chunks, true)) && data == rest
              case NoData(chunks, rest) => r == Some((chunks, false)) && data == rest
              case Undefined => r == None
    {
      var chunkStr, body := data, received;
      var chunks: seq<string> := [];
      while body != ""
        invariant data == old(data)
        invariant ReadLoop(data, [], received) == ReadLoop(chunkStr, chunks, body)
        decreases |body|
      {
        NextPieceShorter(body);
        var (line, rest) := SplitLine(body);
        var length := FromHex(line);
        body := rest;
        if line != "" && length != -1 {
          if length + 2 >= INT64_LIMIT || length + 2 < 0 { return None; }
          if |body| < length + 2 {
            chunkStr := chunkStr + body;
            data := chunkStr;
            return Some((chunks, false));
          }
          chunkStr := chunkStr + if length < 0 then body else body[..length];
          body := body[length + 2..];
        } else if line != "" {
          chunkStr := chunkStr + line;
        } else {
          chunkStr := chunkStr + body;
          body := "";
        }
        var extracted :- Extract(chunkStr, chunks);
        chunks, chunkStr := extracted.0, extracted.1;
      }
      ghost var left := chunkStr;
      while chunkStr != "" && (chunkStr[0] == '\n' || chunkStr[0] == '\r')
        invariant Strip(chunkStr) == Strip(left)
        decreases |chunkStr|
      {
        chunkStr := chunkStr[1..];
      }
      data := chunkStr;
      r := Some((chunks, true));
    }
  }

  // ---------- incremental equals batch ----------

  /** The scan of a text does not look past the object it finds. */
  lemma {:induction false} ScanAppend(s: string, t: string, depth: nat)
    ensures !Scan(s, depth).Incomplete? ==> Scan(s + t, depth) == Scan(s, depth)
  {
    if s != "" {
      assert (s + t)[1..] == s[1..] + t;
      ScanAppend(s[1..], t, depth + 1);
      ScanAppend(s[1..], t, depth);
      if depth > 0 { ScanAppend(s[1..], t, depth - 1); }
    }
  }

  /** Extracting early changes nothing: objects found in a prefix come first, the rest is found from its remainder. */
  lemma {:induction false} ExtractAppend(s: string, t: string)
    ensures match ExtractAll(s)
            case None => ExtractAll(s + t) == None
            case Some((objects, rest)) =>
              var e := ExtractAll(rest + t);
              ExtractAll(s + t) == if e.None? then None else Some((objects + e.value.0, e.value.1))
    decreases |s|
  {
    ScanEndsInside(s, 0);
    ScanAppend(s, t, 0);
    if Scan(s, 0).Ends? {
      var n := Scan(s, 0).at;
      assert (s + t)[..n + 1] == s[..n + 1];
      assert (s + t)[n + 1..] == s[n + 1..] + t;
      ExtractAppend(s[n + 1..], t);
      var d := ExtractAll(s[n + 1..]);
      if d.Some? {
        var e := ExtractAll(d.value.1 + t);
        if e.Some? {
          assert [s[..n + 1]] + (d.value.0 + e.value.0) == ([s[..n + 1]] + d.value.0) + e.value.0;
        }
      }
    } else if Scan(s, 0).Incomplete? {
      var e := ExtractAll(s + t);
      if e.Some? {
        assert [] + e.value.0 == e.value.0;
      }
    }
  }

  datatype Chunk = Chunk(sizeLine: string, payload: string)

  /** The size line is hexadecimal, in any case and with any leading zeros, and tells the payload's length. */
  predicate Complete(c: Chunk) {
    && c.sizeLine != "" && AllHex(c.sizeLine) && Hexadecimal(c.sizeLine) == |c.payload|
    && |c.payload| + 2 < INT64_LIMIT
  }

  function Encoded(chunks: seq<Chunk>): string {
    if chunks == [] then ""
    else chunks[0].sizeLine + ("\r\n" + (chunks[0].payload + ("\r\n" + Encoded(chunks[1..]))))
  }

  function Payloads(chunks: seq<Chunk>): string {
    if chunks == [] then "" else chunks[0].payload + Payloads(chunks[1..])
  }

  lemma HexHasNoCr(s: string)
    requires AllHex(s)
    ensures '\r' !in s
  {
    assert DigitOf('\r').None?;
  }

  lemma {:induction false} SplitAtCrlf(line: string, rest: string)
    requires '\r' !in line
    ensures SplitLine(line + CRLF + rest) == (line, rest) && HasLine(line + CRLF + rest)
    decreases |line|
  {
    var s := line + CRLF + rest;
    if line == "" {
      assert s[..2] == CRLF && s[2..] == rest;
    } else {
      assert s[1..] == line[1..] + CRLF + rest;
      assert s[0] == line[0] && s[..2] != CRLF;
      SplitAtCrlf(line[1..], rest);
      assert [line[0]] + line[1..] == line;
    }
  }

  lemma ChunkPiece(c: Chunk, rest: string)
    requires Complete(c)
    ensures NextPiece(c.sizeLine + (CRLF + (c.payload + (CRLF + rest)))) == Piece(c.payload, rest)
  {
    HexHasNoCr(c.sizeLine);
    FromHexReads(c.sizeLine);
    var tail := c.payload + (CRLF + rest);
    assert c.sizeLine + (CRLF + tail) == c.sizeLine + CRLF + tail;
    SplitAtCrlf(c.sizeLine, tail);
    assert tail[..|c.payload|] == c.payload && tail[|c.payload| + 2..] == rest;
  }

  function Finish(found: seq<string>, extracted: Option<(seq<string>, string)>): Outcome {
    if extracted.None? then Undefined else Done(found + extracted.value.0, Strip(extracted.value.1))
  }

  /** Extracting once from the whole text. */
  function Batch(found: seq<string>, text: string): Outcome {
    Finish(found, ExtractAll(text))
  }

  lemma FinishLater(found: seq<string>, objects: seq<string>, e: Option<(seq<string>, string)>)
    ensures Finish(found, if e.None? then None else Some((objects + e.value.0, e.value.1)))
            == Finish(found + objects, e)
  {
    if e.Some? {
      assert (found + objects) + e.value.0 == found + (objects + e.value.0);
    }
  }

  /** Batch extraction of a text in two parts is extraction of the first, then batch extraction of the rest. */
  lemma BatchInTwo(found: seq<string>, s: string, t: string)
    ensures var d := ExtractAll(s);
            Batch(found, s + t) == if d.None? then Undefined else Batch(found + d.value.0, d.value.1 + t)
  {
    ExtractAppend(s, t);
    var d := ExtractAll(s);
    if d.Some? {
      FinishLater(found, d.value.0, ExtractAll(d.value.1 + t));
    }
  }

  /** What is left after extraction holds no object. */
  lemma {:induction false} NothingLeft(text: string)
    ensures ExtractAll(text).Some? ==> Scan(ExtractAll(text).value.1, 0).Incomplete?
    decreases |text|
  {
    ScanEndsInside(text, 0);
    if Scan(text, 0).Ends? {
      NothingLeft(text[Scan(text, 0).at + 1..]);
    }
  }

  lemma EmptyRead(saved: string, found: seq<string>)
    ensures ReadLoop(saved, found, "") == Batch(found, saved) <==> Scan(saved, 0).Incomplete?
  {
    var e := ExtractAll(saved);
    if Scan(saved, 0).Incomplete? {
      assert found + [] == found;
    } else if e.Some? {
      assert |found + e.value.0| > |found|;
    }
  }

  lemma ReadLoopStep(saved: string, found: seq<string>, c: Chunk, rest: seq<Chunk>)
    requires Complete(c)
    ensures var d := ExtractAll(saved + c.payload);
            ReadLoop(saved, found, Encoded([c] + rest)) ==
            if d.None? then Undefined else ReadLoop(d.value.1, found + d.value.0, Encoded(rest))
  {
    ChunkPiece(c, Encoded(rest));
    assert ([c] + rest)[1..] == rest;
  }

  /**
   Extracting after each complete chunk gives what extracting once from all payloads gives, unless there is no chunk at
   all and the saved text is not one that an earlier extraction leaves: nothing is then extracted.
   */
  lemma {:induction false} IncrementalIsBatch(saved: string, found: seq<string>, chunks: seq<Chunk>)
    requires forall c <- chunks :: Complete(c)
    ensures ReadLoop(saved, found, Encoded(chunks)) == Batch(found, saved + Payloads(chunks))
            <==> chunks != [] || Scan(saved, 0).Incomplete?
    decreases |chunks|
  {
    if chunks == [] {
      assert saved + "" == saved && found + [] == found;
      EmptyRead(saved, found);
    } else {
      var c, rest := chunks[0], chunks[1..];
      var text := saved + c.payload;
      assert chunks == [c] + rest;
      ReadLoopStep(saved, found, c, rest);
      assert saved + Payloads(chunks) == text + Payloads(rest);
      BatchInTwo(found, text, Payloads(rest));
      var d := ExtractAll(text);
      if d.Some? {
        NothingLeft(text);
        IncrementalIsBatch(d.value.1, found + d.value.0, rest);
      }
    }
  }

  // ---------- what is extracted, and when extraction is defined ----------

  function Concat(parts: seq<string>): string {
    if parts == [] then "" else parts[0] + Concat(parts[1..])
  }

  /** Objects and remainder are the text, cut. */
  lemma {:induction false} ExtractLosesNothing(text: string)
    ensures match ExtractAll(text)
            case None => true
            case Some((objects, rest)) => Concat(objects) + rest == text && Scan(rest, 0) == Incomplete
    decreases |text|
  {
    ScanEndsInside(text, 0);
    if Scan(text, 0).Ends? {
      var n := Scan(text, 0).at;
      ExtractLosesNothing(text[n + 1..]);
      var e := ExtractAll(text[n + 1..]);
      if e.Some? {
        assert text == text[..n + 1] + text[n + 1..];
        assert Concat(ExtractAll(text).value.0) == text[..n + 1] + Concat(e.value.0);
      }
    }
  }

  /** Opening minus closing braces. */
  function Depth(s: string): int {
    if s == "" then 0
    else Depth(s[..|s| - 1]) + (if s[|s| - 1] == '{' then 1 else if s[|s| - 1] == '}' then -1 else 0)
  }

  ghost predicate NeverNegative(s: string, start: int) {
    forall k :: 0 <= k <= |s| ==> start + Depth(s[..k]) >= 0
  }

  lemma {:induction false} DepthCons(s: string)
    requires s != ""
    ensures Depth(s) == Depth(s[..1]) + Depth(s[1..])
    decreases |s|
  {
    if |s| == 1 {
      assert s[..1] == s;
    } else {
      DepthCons(s[..|s| - 1]);
      assert s[..|s| - 1][..1] == s[..1];
      assert s[1..][..|s| - 2] == s[..|s| - 1][1..];
    }
  }

  lemma NeverNegativeCons(s: string, start: int)
    requires s != ""
    ensures NeverNegative(s, start) <==> start >= 0 && NeverNegative(s[1..], start + Depth(s[..1]))
  {
    forall k | 0 < k <= |s| ensures Depth(s[..k]) == Depth(s[..1]) + Depth(s[1..][..k - 1]) {
      DepthCons(s[..k]);
      assert s[..k][..1] == s[..1] && s[..k][1..] == s[1..][..k - 1];
    }
    if NeverNegative(s, start) {
      assert start + Depth(s[..0]) >= 0;
      forall j | 0 <= j <= |s[1..]| ensures start + Depth(s[..1]) + Depth(s[1..][..j]) >= 0 {
        assert start + Depth(s[..j + 1]) >= 0;
      }
    }
    if start >= 0 && NeverNegative(s[1..], start + Depth(s[..1])) {
      forall k | 0 <= k <= |s| ensures start + Depth(s[..k]) >= 0 {
        if k > 0 { assert start + Depth(s[..1]) + Depth(s[1..][..k - 1]) >= 0; }
      }
    }
  }

  lemma {:induction false} ScanAndDepth(s: string, depth: nat)
    ensures match Scan(s, depth)
            case Underflow => !NeverNegative(s, depth)
            case Incomplete => NeverNegative(s, depth)
            case Ends(n) => n < |s| && (NeverNegative(s, depth) <==> NeverNegative(s[n + 1..], 0))
    decreases |s|
  {
    if s == "" {
      assert NeverNegative(s, depth);
    } else {
      NeverNegativeCons(s, depth);
      assert s[..1] == [s[0]] && [s[0]][..0] == "";
      var next := depth + Depth(s[..1]);
      if next < 0 {
        assert s[1..][..0] == "" && !NeverNegative(s[1..], next);
      } else if s[0] == '}' && depth == 1 {
        assert s[0 + 1..] == s[1..];
      } else {
        ScanAndDepth(s[1..], next);
        var e := Scan(s[1..], next);
        if e.Ends? { assert s[1..][e.at + 1..] == s[e.at + 2..]; }
      }
    }
  }

  /** Extraction is defined exactly for texts whose brace depth never goes negative. */
  lemma {:induction false} DefinedIffNeverNegative(text: string)
    ensures ExtractAll(text).Some? <==> NeverNegative(text, 0)
    decreases |text|
  {
    ScanAndDepth(text, 0);
    if Scan(text, 0).Ends? {
      DefinedIffNeverNegative(text[Scan(text, 0).at + 1..]);
    }
  }

  // ---------- objects by depth alone ----------

  /** A closing brace at n brings the depth back to 0. */
  ghost predicate Closes(s: string, start: int, n: int) {
    0 <= n < |s| && s[n] == '}' && start + Depth(s[..n + 1]) == 0
  }

  ghost predicate FirstClose(s: string, start: int, n: int) {
    Closes(s, start, n) && forall k :: 0 <= k < n ==> !Closes(s, start, k)
  }

  lemma ClosesCons(s: string, start: int, n: int)
    requires s != "" && n > 0
    ensures Closes(s, start, n) <==> Closes(s[1..], start + Depth(s[..1]), n - 1)
  {
    if n < |s| {
      DepthCons(s[..n + 1]);
      assert s[..n + 1][..1] == s[..1] && s[..n + 1][1..] == s[1..][..n];
    }
  }

  lemma {:induction false} ScanFinds(s: string, depth: nat)
    ensures match Scan(s, depth)
            case Ends(n) => FirstClose(s, depth, n)
            case Incomplete => forall k :: !Closes(s, depth, k)
            case Underflow => true
    decreases |s|
  {
    if s != "" {
      var next := depth + Depth(s[..1]);
      assert s[..1] == [s[0]] && [s[0]][..0] == "";
      forall k | k > 0 ensures Closes(s, depth, k) <==> Closes(s[1..], next, k - 1) {
        ClosesCons(s, depth, k);
      }
      assert Closes(s, depth, 0) <==> s[0] == '}' && next == 0;
      if next >= 0 {
        ScanFinds(s[1..], next);
        if Scan(s[1..], next).Incomplete? && Scan(s, depth).Incomplete? {
          forall k ensures !Closes(s, depth, k) {
            if k > 0 { assert !Closes(s[1..], next, k - 1); }
          }
        }
      }
    }
  }

  /**
   ExtractJson, where the depth never goes negative: n if that is the first closing brace that brings the
   depth to 0, and -1 exactly if there is none.
   */
  lemma ExtractJsonFindsIff(s: string, n: nat)
    requires NeverNegative(s, 0)
    ensures EndIndex(Scan(s, 0)) == Some(n as int) <==> FirstClose(s, 0, n)
    ensures EndIndex(Scan(s, 0)) == Some(-1) <==> forall k :: !Closes(s, 0, k)
  {
    ScanAndDepth(s, 0);
    ScanFinds(s, 0);
    if Scan(s, 0).Ends? {
      var m := Scan(s, 0).at;
      assert Closes(s, 0, m);
      if FirstClose(s, 0, n) {
        assert !(m < n) && !(n < m);
      }
    }
  }

  /** Every object first returns to depth 0 at its last character, and no object is left in the remainder. */
  lemma {:induction false} ObjectsCloseAtTheirEnd(text: string)
    ensures match ExtractAll(text)
            case None => true
            case Some((objects, rest)) =>
              && (forall o <- objects :: FirstClose(o, 0, |o| - 1))
              && forall k :: !Closes(rest, 0, k)
    decreases |text|
  {
    ScanEndsInside(text, 0);
    ScanFinds(text, 0);
    if Scan(text, 0).Ends? {
      var n := Scan(text, 0).at;
      var o := text[..n + 1];
      assert FirstClose(o, 0, n) by {
        assert o[..n + 1] == text[..n + 1];
        forall k | 0 <= k < n ensures !Closes(o, 0, k) {
          assert o[..k + 1] == text[..k + 1] && !Closes(text, 0, k);
        }
      }
      ObjectsCloseAtTheirEnd(text[n + 1..]);
    }
  }

  // ---------- lines, plain text and chunks that are cut short ----------

  ghost predicate BreakAt(s: string, k: int) {
    0 <= k <= |s| - 2 && s[k] == '\r' && s[k + 1] == '\n'
  }

  lemma BreakFirst(s: string)
    ensures |s| >= 2 ==> (BreakAt(s, 0) <==> s[..2] == CRLF)
  {
  }

  /** The line ends before the first line break, and the rest begins after it. */
  lemma {:induction false} SplitLineCuts(s: string)
    ensures HasLine(s) ==>
              var n := |SplitLine(s).0|;
              BreakAt(s, n) && SplitLine(s) == (s[..n], s[n + 2..]) && forall k :: 0 <= k < n ==> !BreakAt(s, k)
    ensures !HasLine(s) ==> SplitLine(s) == ("", s) && forall k :: !BreakAt(s, k)
    decreases |s|
  {
    BreakFirst(s);
    if |s| >= 2 && !BreakAt(s, 0) {
      forall k | k > 0 ensures BreakAt(s, k) <==> BreakAt(s[1..], k - 1) {}
      SplitLineCuts(s[1..]);
      if HasLine(s) {
        var n := |SplitLine(s[1..]).0|;
        assert s[..n + 1] == [s[0]] + s[1..][..n];
        assert s[n + 3..] == s[1..][n + 2..];
      }
    }
  }

  /** The line breaks at the front go, and nothing else. */
  lemma {:induction false} StripCuts(s: string) returns (n: nat)
    ensures n <= |s| && Strip(s) == s[n..]
    ensures (forall c <- s[..n] :: c == '\r' || c == '\n') && (n < |s| ==> s[n] != '\r' && s[n] != '\n')
    decreases |s|
  {
    if s != "" && (s[0] == '\n' || s[0] == '\r') {
      n := StripCuts(s[1..]);
      assert s[..n + 1] == [s[0]] + s[1..][..n];
      n := n + 1;
    } else {
      n := 0;
    }
  }

  /** A chunk that has not arrived in full: nothing is extracted, and its size line is forgotten. */
  lemma CutShort(saved: string, found: seq<string>, sizeLine: string, part: string)
    requires sizeLine != "" && AllHex(sizeLine) && |part| < Hexadecimal(sizeLine) + 2 < INT64_LIMIT
    ensures ReadLoop(saved, found, sizeLine + "\r\n" + part) == NoData(found, saved + part)
  {
    HexHasNoCr(sizeLine);
    FromHexReads(sizeLine);
    SplitAtCrlf(sizeLine, part);
  }

  /** Bytes without a line break are taken as text. */
  lemma PlainText(saved: string, found: seq<string>, body: string)
    requires body != "" && !HasLine(body)
    ensures ReadLoop(saved, found, body) == Batch(found, saved + body)
  {
    SplitLineCuts(body);
    assert HexValue(0, "") == 0;
  }

  /** A line that is no size is text, without its line break. */
  lemma TextLine(line: string, rest: string)
    requires line != "" && '\r' !in line && !AllHex(line)
    ensures NextPiece(line + "\r\n" + rest) == Piece(line, rest)
  {
    FromHexRefuses(0, line);
    SplitAtCrlf(line, rest);
  }
}
