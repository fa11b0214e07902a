/** Segmentation of a long message into parts with a concatenation header (3GPP TS 23.040, 9.2.3.24.1). */
module SmppSplit {
  import opened Bytes
  import opened SmppPdu

  const SINGLE_MAX: nat := 140
  const PART_MAX: nat := 132
  const UDH_SIZE: nat := 6

  /** The longest message whose parts a one-byte number can tell apart. */
  const LARGEST: nat := 255 * 132

  /** param::cudh: both counters are cut to one byte. */
  function Udh(total: nat, no: nat): (s: seq<byte>)
    ensures |s| == UDH_SIZE
  {
    [5, 0, 3, 1, total % 256, no % 256]
  }

  function Min(a: nat, b: nat): nat {
    if a < b then a else b
  }

  function PartCount(n: nat): nat {
    (n + 131) / 132
  }

  function Payload(msg: seq<byte>, i: nat): seq<byte>
    requires 132 * i <= |msg|
  {
    msg[132 * i..Min(132 * (i + 1), |msg|)]
  }

  /** What the parts of a message are, one by one. */
  ghost predicate IsSplit(msg: seq<byte>, parts: seq<seq<byte>>) {
    if |msg| <= SINGLE_MAX then parts == [msg]
    else
      && |parts| == PartCount(|msg|)
      && forall i :: 0 <= i < |parts| ==>
           132 * i <= |msg| && parts[i] == Udh(|parts|, i + 1) + Payload(msg, i)
  }

  /** cmessage::Split */
  method Split(msg: seq<byte>) returns (parts: seq<seq<byte>>)
    ensures IsSplit(msg, parts)
  {
    if |msg| <= SINGLE_MAX {
      return [msg];
    }
    parts := [];
    var nparts := (|msg| + 131) / 132;
    var msgpart := msg;
    var npart := 1;
    while msgpart != []
      invariant |parts| == npart - 1
      invariant if msgpart == [] then |parts| == nparts
                else 132 * |parts| < |msg| && msgpart == msg[132 * |parts|..]
      invariant forall i :: 0 <= i < |parts| ==>
                  132 * i <= |msg| && parts[i] == Udh(nparts, i + 1) + Payload(msg, i)
      decreases |msgpart|
    {
      var package := new Packer();
      package.WriteU8(5);
      package.WriteU16(3);
      assert BeBytes(3, 2) == BeBytes(0, 1) + [3] == [0, 3];
      package.WriteU8(1);
      package.WriteU8(nparts % 256);
      package.WriteU8(npart % 256);
      assert package.data == Udh(nparts, npart);
      var len := Min(PART_MAX, |msgpart|);
      package.WriteRaw(msgpart[..len]);
      assert msgpart[..len] == Payload(msg, |parts|);
      msgpart := msgpart[len..];
      parts := parts + [package.data];
      npart := npart + 1;
    }
  }

  /** A receiver's view of a part. */
  function Text(part: seq<byte>): seq<byte>
    requires |part| >= UDH_SIZE
  {
    part[UDH_SIZE..]
  }

  function Joined(parts: seq<seq<byte>>): seq<byte>
    requires forall i :: 0 <= i < |parts| ==> |parts[i]| >= UDH_SIZE
  {
    if parts == [] then []
    else Joined(parts[..|parts| - 1]) + Text(parts[|parts| - 1])
  }

  ghost predicate IsLongSplit(msg: seq<byte>, parts: seq<seq<byte>>) {
    |msg| > SINGLE_MAX && IsSplit(msg, parts)
  }

  lemma PartCountBounds(n: nat)
    ensures n > 0 ==> 132 * (PartCount(n) - 1) < n
    ensures n <= 132 * PartCount(n)
  {
  }

  lemma PartShape(msg: seq<byte>, parts: seq<seq<byte>>, i: nat)
    requires IsLongSplit(msg, parts) && i < |parts|
    ensures 132 * i < |msg|
    ensures parts[i] == Udh(|parts|, i + 1) + Payload(msg, i)
    ensures UDH_SIZE < |parts[i]| <= UDH_SIZE + PART_MAX
    ensures Text(parts[i]) == Payload(msg, i)
    ensures parts[i][..4] == [5, 0, 3, 1]
    ensures parts[i][4] == |parts| % 256 && parts[i][5] == (i + 1) % 256
  {
    PartCountBounds(|msg|);
  }

  /** No part of any message exceeds the 140 bytes of a short message, and one that fits is sent as it is. */
  lemma PartsFit(msg: seq<byte>, parts: seq<seq<byte>>)
    requires IsSplit(msg, parts)
    ensures forall i :: 0 <= i < |parts| ==> |parts[i]| <= 140
    ensures |msg| <= 140 ==> parts == [msg]
    ensures |msg| > 140 ==> |parts| > 1 && forall i :: 0 <= i < |parts| - 1 ==> |parts[i]| == 138
  {
    if |msg| > 140 {
      PartCountBounds(|msg|);
      forall i | 0 <= i < |parts| ensures |parts[i]| <= 138 && (i < |parts| - 1 ==> |parts[i]| == 138) {
        PartShape(msg, parts, i);
        if i < |parts| - 1 {
          PartShape(msg, parts, i + 1);
        }
      }
    }
  }

  lemma {:induction false} PrefixJoined(msg: seq<byte>, parts: seq<seq<byte>>, k: nat)
    requires IsLongSplit(msg, parts) && k <= |parts|
    ensures forall i :: 0 <= i < |parts| ==> |parts[i]| >= UDH_SIZE
    ensures Joined(parts[..k]) == msg[..Min(132 * k, |msg|)]
  {
    forall i | 0 <= i < |parts| ensures |parts[i]| >= UDH_SIZE {
      PartShape(msg, parts, i);
    }
    if k > 0 {
      PrefixJoined(msg, parts, k - 1);
      PartShape(msg, parts, k - 1);
      assert parts[..k][..k - 1] == parts[..k - 1];
    }
  }

  /** Nothing is lost: stripping the headers and concatenating gives the message; no part is oversized or empty. */
  lemma SplitLosesNothing(msg: seq<byte>, parts: seq<seq<byte>>)
    requires IsLongSplit(msg, parts)
    ensures forall i :: 0 <= i < |parts| ==> UDH_SIZE < |parts[i]| <= UDH_SIZE + PART_MAX
    ensures Joined(parts) == msg
    ensures 132 * (|parts| - 1) < |msg| <= 132 * |parts|
  {
    forall i | 0 <= i < |parts| ensures UDH_SIZE < |parts[i]| <= UDH_SIZE + PART_MAX {
      PartShape(msg, parts, i);
    }
    PartCountBounds(|msg|);
    PrefixJoined(msg, parts, |parts|);
    assert parts[..|parts|] == parts && msg[..|msg|] == msg;
  }

  lemma EvenCut(n: nat, i: nat)
    requires n % 2 == 0 && 132 * i <= n
    ensures Min(132 * i, n) % 2 == 0 && (Min(132 * (i + 1), n) - 132 * i) % 2 == 0
  {
    Twice(66 * i);
    Twice(66);
    if 132 * (i + 1) > n {
      Twice(n / 2 - 66 * i);
      assert n - 132 * i == 2 * (n / 2 - 66 * i);
    }
  }

  lemma Twice(h: nat)
    ensures (2 * h) % 2 == 0
  {
  }

  lemma PartKeepsCodeUnits(msg: seq<byte>, parts: seq<seq<byte>>, i: nat)
    requires IsLongSplit(msg, parts) && |msg| % 2 == 0 && i < |parts|
    ensures forall j :: 0 <= j < |parts| ==> |parts[j]| >= UDH_SIZE
    ensures |Text(parts[i])| % 2 == 0 && |Joined(parts[..i])| % 2 == 0
  {
    PrefixJoined(msg, parts, i);
    PartShape(msg, parts, i);
    EvenCut(|msg|, i);
  }

  /** An even-length (UCS2) message is never cut inside a code unit. */
  lemma SplitKeepsCodeUnits(msg: seq<byte>, parts: seq<seq<byte>>)
    requires IsLongSplit(msg, parts) && |msg| % 2 == 0
    ensures forall i :: 0 <= i < |parts| ==> |parts[i]| >= UDH_SIZE
    ensures forall i :: 0 <= i < |parts| ==> |Text(parts[i])| % 2 == 0 && |Joined(parts[..i])| % 2 == 0
  {
    PartKeepsCodeUnits(msg, parts, 0);
    forall i | 0 <= i < |parts| ensures |Text(parts[i])| % 2 == 0 && |Joined(parts[..i])| % 2 == 0 {
      PartKeepsCodeUnits(msg, parts, i);
    }
  }

  lemma HeaderTruthful(msg: seq<byte>, parts: seq<seq<byte>>, i: nat)
    requires IsLongSplit(msg, parts) && i < |parts| <= 255
    ensures |parts[i]| >= UDH_SIZE && parts[i][4] == |parts| && parts[i][5] == i + 1
  {
    PartShape(msg, parts, i);
  }

  lemma FitsNumbering(n: nat)
    ensures PartCount(n) <= 255 <==> n <= LARGEST
  {
  }

  /** The headers say "part i of total" truthfully exactly for messages of at most 255 * 132 bytes. */
  lemma HeadersTruthfulIff(msg: seq<byte>, parts: seq<seq<byte>>)
    requires IsLongSplit(msg, parts)
    ensures (forall i :: 0 <= i < |parts| ==>
               |parts[i]| >= UDH_SIZE && parts[i][4] == |parts| && parts[i][5] == i + 1)
            <==> |msg| <= LARGEST
  {
    FitsNumbering(|msg|);
    PartShape(msg, parts, 0);
    if |parts| <= 255 {
      forall i | 0 <= i < |parts|
        ensures |parts[i]| >= UDH_SIZE && parts[i][4] == |parts| && parts[i][5] == i + 1
      {
        HeaderTruthful(msg, parts, i);
      }
    }
  }

  // ---------- reassembly in any order of arrival ----------

  /** The text of the part numbered no, or nothing. */
  function Numbered(arrived: seq<seq<byte>>, no: nat): seq<byte> {
    if arrived == [] then []
    else if |arrived[0]| >= UDH_SIZE && arrived[0][5] == no then Text(arrived[0])
    else Numbered(arrived[1..], no)
  }

  function Reassembled(arrived: seq<seq<byte>>, total: nat): seq<byte> {
    if total == 0 then [] else Reassembled(arrived, total - 1) + Numbered(arrived, total)
  }

  lemma {:induction false} NumberedIs(arrived: seq<seq<byte>>, part: seq<byte>, no: nat)
    requires |part| >= UDH_SIZE && part[5] == no && part in arrived
    requires forall p <- arrived :: |p| >= UDH_SIZE && (p[5] == no ==> p == part)
    ensures Numbered(arrived, no) == Text(part)
  {
    if arrived[0][5] != no {
      NumberedIs(arrived[1..], part, no);
    }
  }

  /** Only the k-th part carries the number k. */
  lemma NumberIdentifies(msg: seq<byte>, parts: seq<seq<byte>>, i: nat, k: nat)
    requires IsLongSplit(msg, parts) && 0 < k <= |parts| <= 255 && i < |parts|
    ensures |parts[i]| >= UDH_SIZE
    ensures parts[i][5] == k <==> i == k - 1
  {
    PartShape(msg, parts, i);
  }

  lemma NumberedOnce(msg: seq<byte>, parts: seq<seq<byte>>, p: seq<byte>, k: nat)
    requires IsLongSplit(msg, parts) && 0 < k <= |parts| <= 255 && p in parts
    ensures |p| >= UDH_SIZE && (p[5] == k ==> p == parts[k - 1])
  {
    var i :| 0 <= i < |parts| && parts[i] == p;
    NumberIdentifies(msg, parts, i, k);
  }

  /** All parts have arrived, some perhaps more than once, and nothing else. */
  ghost predicate Arrived(parts: seq<seq<byte>>, arrived: seq<seq<byte>>) {
    forall p :: p in arrived <==> p in parts
  }

  lemma ArrivedInAnyOrder(parts: seq<seq<byte>>, arrived: seq<seq<byte>>)
    requires multiset(arrived) == multiset(parts)
    ensures Arrived(parts, arrived)
  {
    forall p ensures p in arrived <==> p in parts {
      assert p in multiset(arrived) <==> p in multiset(parts);
    }
  }

  lemma ArrivedPart(msg: seq<byte>, parts: seq<seq<byte>>, arrived: seq<seq<byte>>, k: nat)
    requires IsLongSplit(msg, parts) && 0 < k <= |parts| <= 255
    requires Arrived(parts, arrived)
    ensures 132 * (k - 1) <= |msg|
    ensures Numbered(arrived, k) == Payload(msg, k - 1)
  {
    var part := parts[k - 1];
    assert part in arrived;
    NumberIdentifies(msg, parts, k - 1, k);
    forall p | p in arrived ensures |p| >= UDH_SIZE && (p[5] == k ==> p == part) {
      NumberedOnce(msg, parts, p, k);
    }
    NumberedIs(arrived, part, k);
    PartShape(msg, parts, k - 1);
  }

  lemma {:induction false} ReassembledPrefix(msg: seq<byte>, parts: seq<seq<byte>>,
                                             arrived: seq<seq<byte>>, k: nat)
    requires IsLongSplit(msg, parts) && k <= |parts| <= 255
    requires Arrived(parts, arrived)
    ensures Reassembled(arrived, k) == msg[..Min(132 * k, |msg|)]
  {
    if k > 0 {
      ReassembledPrefix(msg, parts, arrived, k - 1);
      ArrivedPart(msg, parts, arrived, k);
    }
  }

  lemma {:induction false} NumberedBound(arrived: seq<seq<byte>>, no: nat)
    requires forall p <- arrived :: |p| <= UDH_SIZE + PART_MAX
    ensures |Numbered(arrived, no)| <= if no > 255 then 0 else PART_MAX
    decreases |arrived|
  {
    if arrived != [] && !(|arrived[0]| >= UDH_SIZE && arrived[0][5] == no) {
      NumberedBound(arrived[1..], no);
    }
  }

  /** However long the list of parts: numbers above 255 do not exist, so no more text than this is found. */
  lemma {:induction false} ReassembledBound(arrived: seq<seq<byte>>, total: nat)
    requires forall p <- arrived :: |p| <= UDH_SIZE + PART_MAX
    ensures |Reassembled(arrived, total)| <= PART_MAX * Min(total, 255)
  {
    if total > 0 {
      ReassembledBound(arrived, total - 1);
      NumberedBound(arrived, total);
    }
  }

  /** In any order of arrival, the message comes back exactly if it has at most 255 * 132 bytes. */
  lemma AnyOrderReassemblesIff(msg: seq<byte>, parts: seq<seq<byte>>, arrived: seq<seq<byte>>)
    requires IsLongSplit(msg, parts)
    requires multiset(arrived) == multiset(parts)
    ensures Reassembled(arrived, |parts|) == msg <==> |msg| <= LARGEST
  {
    FitsNumbering(|msg|);
    ArrivedInAnyOrder(parts, arrived);
    if |msg| <= LARGEST {
      ReassembledPrefix(msg, parts, arrived, |parts|);
      assert msg[..|msg|] == msg;
    } else {
      forall p | p in arrived ensures |p| <= UDH_SIZE + PART_MAX {
        var i :| 0 <= i < |parts| && parts[i] == p;
        PartShape(msg, parts, i);
      }
      ReassembledBound(arrived, |parts|);
    }
  }

  // ---------- two messages on the way at once ----------

  /** The parts whose header gives this total; the reference number is 1 in every header and tells nothing apart. */
  function Selected(arrived: seq<seq<byte>>, total: nat): seq<seq<byte>> {
    if arrived == [] then []
    else
      (if |arrived[0]| >= UDH_SIZE && arrived[0][4] == total then [arrived[0]] else []) + Selected(arrived[1..], total)
  }

  lemma {:induction false} InSelected(arrived: seq<seq<byte>>, total: nat, p: seq<byte>)
    ensures p in Selected(arrived, total) <==> p in arrived && |p| >= UDH_SIZE && p[4] == total
    decreases |arrived|
  {
    if arrived != [] {
      InSelected(arrived[1..], total, p);
      assert arrived == [arrived[0]] + arrived[1..];
    }
  }

  /** The receiver sorts what arrived by total and number, and gets both messages. */
  ghost predicate BothReassemble(a: seq<byte>, pa: seq<seq<byte>>, b: seq<byte>, pb: seq<seq<byte>>,
                                 arrived: seq<seq<byte>>) {
    && Reassembled(Selected(arrived, |pa|), |pa|) == a
    && Reassembled(Selected(arrived, |pb|), |pb|) == b
  }

  ghost predicate Totalled(parts: seq<seq<byte>>, total: nat) {
    forall p <- parts :: |p| >= UDH_SIZE && p[4] == total
  }

  lemma PartTotalled(msg: seq<byte>, parts: seq<seq<byte>>, p: seq<byte>)
    requires IsLongSplit(msg, parts) && |parts| <= 255 && p in parts
    ensures |p| >= UDH_SIZE && p[4] == |parts|
  {
    var i :| 0 <= i < |parts| && parts[i] == p;
    HeaderTruthful(msg, parts, i);
  }

  lemma PartsTotalled(msg: seq<byte>, parts: seq<seq<byte>>)
    requires IsLongSplit(msg, parts) && |parts| <= 255
    ensures Totalled(parts, |parts|)
  {
    forall p | p in parts ensures |p| >= UDH_SIZE && p[4] == |parts| {
      PartTotalled(msg, parts, p);
    }
  }

  /** The parts of one message are all that is selected, if the other gives another total or is the same message. */
  lemma SelectedArrive(pa: seq<seq<byte>>, pb: seq<seq<byte>>, arrived: seq<seq<byte>>, t: nat, u: nat)
    requires Totalled(pa, t) && Totalled(pb, u) && (t != u || pa == pb)
    requires multiset(arrived) == multiset(pa) + multiset(pb)
    ensures Arrived(pa, Selected(arrived, t))
  {
    forall p ensures p in Selected(arrived, t) <==> p in pa {
      InSelected(arrived, t, p);
      assert p in multiset(arrived) <==> p in multiset(pa) || p in multiset(pb);
    }
  }

  lemma SameMessageSameParts(a: seq<byte>, pa: seq<seq<byte>>, pb: seq<seq<byte>>)
    requires IsLongSplit(a, pa) && IsLongSplit(a, pb)
    ensures pa == pb
  {
    forall i | 0 <= i < |pa| ensures pa[i] == pb[i] {
      PartShape(a, pa, i);
      PartShape(a, pb, i);
    }
  }

  lemma {:induction false} SelectedAll(arrived: seq<seq<byte>>, total: nat)
    requires forall p <- arrived :: |p| >= UDH_SIZE && p[4] == total
    ensures Selected(arrived, total) == arrived
    decreases |arrived|
  {
    if arrived != [] {
      SelectedAll(arrived[1..], total);
      assert arrived == [arrived[0]] + arrived[1..];
    }
  }

  lemma {:induction false} FirstComeNumbered(first: seq<seq<byte>>, more: seq<seq<byte>>, part: seq<byte>, no: nat)
    requires part in first && |part| >= UDH_SIZE && part[5] == no
    ensures Numbered(first + more, no) == Numbered(first, no)
    decreases |first|
  {
    assert first == [first[0]] + first[1..];
    assert (first + more)[1..] == first[1..] + more;
    if !(|first[0]| >= UDH_SIZE && first[0][5] == no) {
      FirstComeNumbered(first[1..], more, part, no);
    }
  }

  /** Whichever message arrives first is the one that is put together. */
  lemma {:induction false} FirstComeReassembled(b: seq<byte>, pb: seq<seq<byte>>, more: seq<seq<byte>>, k: nat)
    requires IsLongSplit(b, pb) && k <= |pb| <= 255
    ensures Reassembled(pb + more, k) == Reassembled(pb, k)
  {
    if k > 0 {
      FirstComeReassembled(b, pb, more, k - 1);
      NumberIdentifies(b, pb, k - 1, k);
      FirstComeNumbered(pb, more, pb[k - 1], k);
    }
  }

  lemma WholeReassembled(msg: seq<byte>, parts: seq<seq<byte>>)
    requires IsLongSplit(msg, parts) && |parts| <= 255
    ensures Reassembled(parts, |parts|) == msg
  {
    FitsNumbering(|msg|);
    AnyOrderReassemblesIff(msg, parts, parts);
  }

  lemma EqualTotalsMixUp(a: seq<byte>, pa: seq<seq<byte>>, b: seq<byte>, pb: seq<seq<byte>>)
    requires IsLongSplit(a, pa) && IsLongSplit(b, pb) && |pa| == |pb| <= 255 && a != b
    ensures !BothReassemble(a, pa, b, pb, pb + pa)
  {
    PartsTotalled(a, pa);
    PartsTotalled(b, pb);
    SelectedAll(pb + pa, |pa|);
    WholeReassembled(b, pb);
    FirstComeReassembled(b, pb, pa, |pb|);
  }

  lemma OneOfTwoReassembles(a: seq<byte>, pa: seq<seq<byte>>, pb: seq<seq<byte>>, u: nat, arrived: seq<seq<byte>>)
    requires IsLongSplit(a, pa) && |a| <= LARGEST
    requires Totalled(pb, u) && (|pa| != u || pa == pb)
    requires multiset(arrived) == multiset(pa) + multiset(pb)
    ensures Reassembled(Selected(arrived, |pa|), |pa|) == a
  {
    FitsNumbering(|a|);
    PartsTotalled(a, pa);
    SelectedArrive(pa, pb, arrived, |pa|, u);
    ReassembledPrefix(a, pa, Selected(arrived, |pa|), |pa|);
    assert a[..|a|] == a;
  }

  lemma PartsCounted(msg: seq<byte>, parts: seq<seq<byte>>)
    requires IsLongSplit(msg, parts)
    ensures |parts| == PartCount(|msg|)
  {
  }

  lemma MixedReassemble(a: seq<byte>, pa: seq<seq<byte>>, b: seq<byte>, pb: seq<seq<byte>>, arrived: seq<seq<byte>>)
    requires IsLongSplit(a, pa) && IsLongSplit(b, pb) && |a| <= LARGEST && |b| <= LARGEST
    requires |pa| != |pb| || pa == pb
    requires multiset(arrived) == multiset(pa) + multiset(pb)
    ensures BothReassemble(a, pa, b, pb, arrived)
  {
    FitsNumbering(|a|);
    FitsNumbering(|b|);
    PartsTotalled(a, pa);
    PartsTotalled(b, pb);
    OneOfTwoReassembles(a, pa, pb, |pb|, arrived);
    OneOfTwoReassembles(b, pb, pa, |pa|, arrived);
  }

  /**
   Two long messages whose parts arrive mixed, in any order, both come back exactly if they have different numbers of
   parts (or are the same message).
   */
  lemma MixedArrivalsIff(a: seq<byte>, pa: seq<seq<byte>>, b: seq<byte>, pb: seq<seq<byte>>)
    requires IsLongSplit(a, pa) && IsLongSplit(b, pb) && |a| <= LARGEST && |b| <= LARGEST
    ensures (forall arrived | multiset(arrived) == multiset(pa) + multiset(pb) :: BothReassemble(a, pa, b, pb, arrived))
            <==> PartCount(|a|) != PartCount(|b|) || a == b
  {
    PartsCounted(a, pa);
    PartsCounted(b, pb);
    FitsNumbering(|a|);
    if PartCount(|a|) != PartCount(|b|) || a == b {
      if a == b { SameMessageSameParts(a, pa, pb); }
      forall arrived | multiset(arrived) == multiset(pa) + multiset(pb)
        ensures BothReassemble(a, pa, b, pb, arrived)
      {
        MixedReassemble(a, pa, b, pb, arrived);
      }
    } else {
      EqualTotalsMixUp(a, pa, b, pb);
      assert multiset(pb + pa) == multiset(pa) + multiset(pb);
    }
  }
}
