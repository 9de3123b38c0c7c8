/** The question of a DNS message: a cursor over length-prefixed labels, and the scan for long labels
    that the tunnelling rule makes over the joined name. */
module DnsExtractor {
  import opened NetTypes

  datatype DnsInfo = DnsInfo(queryName: Bytes, queryType: nat, isResponse: bool)

  const DNS_HEADER_SIZE := 12
  const DNS_MAX_LABEL_HOPS := 128
  const DOT: Byte := 46

  type Labels = seq<Bytes>

  // Labels joined by dots.
  function Join(labels: Labels): Bytes {
    if |labels| == 0 then []
    else if |labels| == 1 then labels[0]
    else Join(labels[..|labels| - 1]) + [DOT] + labels[|labels| - 1]
  }

  // ---------------------------------------------------------------- parsing

  datatype NameScan = Bail | Ended(labels: Labels, end: nat)

  // The labels read from an offset on, and where reading stopped. Compression pointers and labels that
  // run past the end give up; running out of bytes or of hops merely stops.
  function ScanLabels(p: Bytes, offset: nat, hops: nat): (r: NameScan)
    requires hops <= DNS_MAX_LABEL_HOPS
    decreases DNS_MAX_LABEL_HOPS - hops
  {
    if offset >= |p| || hops == DNS_MAX_LABEL_HOPS then Ended([], offset)
    else
      var n := p[offset];
      if n == 0 then Ended([], offset + 1)
      else if n >= 0xC0 then Bail
      else if offset + 1 + n > |p| then Bail
      else match ScanLabels(p, offset + 1 + n, hops + 1)
        case Bail => Bail
        case Ended(labels, end) => Ended([p[offset + 1..offset + 1 + n]] + labels, end)
  }

  // What a payload yields: the joined name, type and direction of its first question, if it has one.
  function ParseDns(p: Bytes): Option<DnsInfo> {
    if |p| < DNS_HEADER_SIZE + 5 || U16(p[4], p[5]) == 0 then None
    else match ScanLabels(p, DNS_HEADER_SIZE, 0)
      case Bail => None
      case Ended(labels, end) =>
        if labels == [] || end + 2 > |p| then None
        else Some(DnsInfo(Join(labels), U16(p[end], p[end + 1]), p[2] >= 0x80))
  }

  method ExtractDns(payload: Bytes) returns (info: Option<DnsInfo>)
    ensures info == ParseDns(payload)
  {
    var len := |payload|;
    if len < DNS_HEADER_SIZE + 5 {
      return None;
    }
    var isResponse := payload[2] >= 0x80;
    var qdcount := U16(payload[4], payload[5]);
    if qdcount == 0 {
      return None;
    }
    var ok, name, offset := DecodeName(payload);
    if !ok || name == [] || offset + 2 > len {
      return None;
    }
    info := Some(DnsInfo(name, U16(payload[offset], payload[offset + 1]), isResponse));
  }

  // The label loop: a cursor, a hop count and the name so far.
  method DecodeName(payload: Bytes) returns (ok: bool, name: Bytes, offset: nat)
    ensures var r := ScanLabels(payload, DNS_HEADER_SIZE, 0);
      && (ok <==> r.Ended?)
      && (ok ==> name == Join(r.labels) && offset == r.end && (name == [] <==> r.labels == []))
  {
    hide ScanLabels, Join, After;
    var hops: nat := 0;
    ok, name, offset := true, [], DNS_HEADER_SIZE;
    ghost var done: Labels := [];
    ghost var whole := ScanLabels(payload, DNS_HEADER_SIZE, 0);
    AfterEnds([], DNS_HEADER_SIZE, whole);
    while offset < |payload| && hops < DNS_MAX_LABEL_HOPS
      invariant ok && hops <= DNS_MAX_LABEL_HOPS
      invariant whole == After(done, ScanLabels(payload, offset, hops))
      invariant name == Join(done) && (name == [] <==> done == [])
      decreases DNS_MAX_LABEL_HOPS - hops
    {
      ScanUnfolds(payload, offset, hops);
      var labelLen := payload[offset];
      if labelLen == 0 {
        offset := offset + 1;
        AfterEnds(done, offset, whole);
        return;
      }
      AfterEnds(done, offset, whole);
      if labelLen >= 0xC0 {
        return false, name, offset;
      }
      offset := offset + 1;
      if offset + labelLen > |payload| {
        return false, name, offset;
      }
      if name != [] {
        name := name + [DOT];
      }
      ghost var next := payload[offset..offset + labelLen];
      name := name + payload[offset..offset + labelLen];
      offset := offset + labelLen;
      hops := hops + 1;
      JoinPush(done, next);
      AfterPush(done, next, ScanLabels(payload, offset, hops));
      done := done + [next];
    }
    ScanStops(payload, offset, hops);
    AfterEnds(done, offset, whole);
  }

  lemma ScanStops(p: Bytes, offset: nat, hops: nat)
    requires hops <= DNS_MAX_LABEL_HOPS && (offset >= |p| || hops == DNS_MAX_LABEL_HOPS)
    ensures ScanLabels(p, offset, hops) == Ended([], offset)
  {
  }

  lemma ScanUnfolds(p: Bytes, offset: nat, hops: nat)
    requires hops < DNS_MAX_LABEL_HOPS && offset < |p|
    ensures var n := p[offset];
      ScanLabels(p, offset, hops) ==
        if n == 0 then Ended([], offset + 1)
        else if n >= 0xC0 || offset + 1 + n > |p| then Bail
        else
          var rest := ScanLabels(p, offset + 1 + n, hops + 1);
          if rest.Bail? then Bail else Ended([p[offset + 1..offset + 1 + n]] + rest.labels, rest.end)
  {
  }

  // A scan that continues one which has already read some labels.
  ghost function After(done: Labels, rest: NameScan): NameScan {
    match rest
    case Bail => Bail
    case Ended(labels, end) => if labels == [] then Ended(done, end) else Ended(done + labels, end)
  }

  lemma AfterEnds(done: Labels, end: nat, any: NameScan)
    ensures After(done, Ended([], end)) == Ended(done, end) && After(done, Bail) == Bail
    ensures After([], any) == any && Join([]) == []
  {
    if any.Ended? {
      assert [] + any.labels == any.labels;
    }
  }

  lemma AfterPush(done: Labels, l: Bytes, rest: NameScan)
    ensures After(done, if rest.Bail? then Bail else Ended([l] + rest.labels, rest.end)) == After(done + [l], rest)
  {
    if rest.Ended? {
      assert done + ([l] + rest.labels) == (done + [l]) + rest.labels;
    }
  }

  lemma JoinPush(labels: Labels, l: Bytes)
    ensures Join(labels + [l]) == if labels == [] then l else Join(labels) + [DOT] + l
  {
    assert (labels + [l])[..|labels|] == labels;
  }

  // ---------------------------------------------------------------- encoding

  // Section 4.1.1 of RFC 1035: the twelve header bytes that precede the question.
  datatype DnsHeader = DnsHeader(id: nat, flagsHi: Byte, flagsLo: Byte, qdcount: nat, ancount: nat, nscount: nat, arcount: nat)
  {
    predicate Legal() {
      id < 0x1_0000 && 0 < qdcount < 0x1_0000 && ancount < 0x1_0000 && nscount < 0x1_0000 && arcount < 0x1_0000
    }
  }

  function EncodeHeader(h: DnsHeader): (bytes: Bytes)
    requires h.Legal()
    ensures |bytes| == DNS_HEADER_SIZE
    ensures bytes[2] == h.flagsHi && U16(bytes[4], bytes[5]) == h.qdcount
  {
    Put16(h.id) + [h.flagsHi, h.flagsLo] + Put16(h.qdcount) + Put16(h.ancount) + Put16(h.nscount) + Put16(h.arcount)
  }

  function EncodedLength(labels: Labels): nat {
    if labels == [] then 1 else 1 + |labels[0]| + EncodedLength(labels[1..])
  }

  // Sections 2.3.4 and 3.1: labels of 1 to 63 octets, 255 octets in all with the length bytes and the root.
  ghost predicate LegalName(labels: Labels) {
    && labels != []
    && (forall k :: 0 <= k < |labels| ==> 0 < |labels[k]| < 64)
    && EncodedLength(labels) <= 255
  }

  function EncodeName(labels: Labels): Bytes
    requires forall k :: 0 <= k < |labels| ==> |labels[k]| < 64
  {
    if labels == [] then [0] else [|labels[0]|] + labels[0] + EncodeName(labels[1..])
  }

  // A message whose first question is the given one; anything may follow.
  function EncodeMessage(h: DnsHeader, labels: Labels, qtype: nat, qclass: nat, rest: Bytes): Bytes
    requires h.Legal() && qtype < 0x1_0000 && qclass < 0x1_0000
    requires forall k :: 0 <= k < |labels| ==> |labels[k]| < 64
  {
    EncodeHeader(h) + EncodeName(labels) + Put16(qtype) + Put16(qclass) + rest
  }

  // 255 octets leave room for at most 127 labels, so the hop limit never bites on a legal name.
  lemma {:induction false} FewLabels(labels: Labels)
    requires forall k :: 0 <= k < |labels| ==> |labels[k]| > 0
    ensures 2 * |labels| + 1 <= EncodedLength(labels)
  {
    if labels != [] {
      FewLabels(labels[1..]);
    }
  }

  lemma {:induction false} ScanUndoesEncode(pre: Bytes, labels: Labels, post: Bytes, hops: nat)
    requires forall k :: 0 <= k < |labels| ==> 0 < |labels[k]| < 64
    requires hops + |labels| < DNS_MAX_LABEL_HOPS
    ensures ScanLabels(pre + EncodeName(labels) + post, |pre|, hops) == Ended(labels, |pre| + |EncodeName(labels)|)
    decreases labels
  {
    hide ScanLabels, EncodeName;
    if labels == [] {
      ScanRoot(pre, post, hops);
    } else {
      var l := labels[0];
      EncodeSplit(pre, labels, post);
      ScanUndoesEncode(pre + [|l|] + l, labels[1..], post, hops + 1);
      ScanOne(pre + EncodeName(labels) + post, |pre|, hops, l, labels[1..], |pre| + |EncodeName(labels)|);
    }
  }

  lemma ScanRoot(pre: Bytes, post: Bytes, hops: nat)
    requires hops < DNS_MAX_LABEL_HOPS
    ensures ScanLabels(pre + EncodeName([]) + post, |pre|, hops) == Ended([], |pre| + |EncodeName([])|)
  {
    assert (pre + EncodeName([]) + post)[|pre|] == 0;
  }

  lemma EncodeSplit(pre: Bytes, labels: Labels, post: Bytes)
    requires labels != [] && forall k :: 0 <= k < |labels| ==> |labels[k]| < 64
    ensures var l, p := labels[0], pre + EncodeName(labels) + post;
      && p == pre + [|l|] + l + EncodeName(labels[1..]) + post
      && |pre| + |EncodeName(labels)| == |pre + [|l|] + l| + |EncodeName(labels[1..])|
      && p[|pre|] == |l| && p[|pre| + 1..|pre| + 1 + |l|] == l
      && [l] + labels[1..] == labels
  {
    var l, p := labels[0], pre + EncodeName(labels) + post;
    assert p == pre + ([|l|] + l + (EncodeName(labels[1..]) + post));
    LabelAt(pre, l, EncodeName(labels[1..]) + post, p);
  }

  lemma ScanOne(p: Bytes, offset: nat, hops: nat, l: Bytes, labels: Labels, end: nat)
    requires offset + 1 + |l| <= |p| && hops < DNS_MAX_LABEL_HOPS && 0 < |l| < 64
    requires p[offset] == |l| && p[offset + 1..offset + 1 + |l|] == l
    requires ScanLabels(p, offset + 1 + |l|, hops + 1) == Ended(labels, end)
    ensures ScanLabels(p, offset, hops) == Ended([l] + labels, end)
  {
  }

  lemma LabelAt(pre: Bytes, l: Bytes, tail: Bytes, p: Bytes)
    requires |l| < 64 && p == pre + ([|l|] + l + tail)
    ensures p[|pre|] == |l| && p[|pre| + 1..|pre| + 1 + |l|] == l
    ensures p == pre + [|l|] + l + tail
  {
  }

  // Reading undoes writing: the joined name, the type and the response bit come back.
  lemma DnsRoundTrip(h: DnsHeader, labels: Labels, qtype: nat, qclass: nat, rest: Bytes)
    requires h.Legal() && LegalName(labels) && qtype < 0x1_0000 && qclass < 0x1_0000
    ensures ParseDns(EncodeMessage(h, labels, qtype, qclass, rest)) == Some(DnsInfo(Join(labels), qtype, h.flagsHi >= 0x80))
  {
    var head, name, tail := EncodeHeader(h), EncodeName(labels), Put16(qtype) + Put16(qclass) + rest;
    var p := EncodeMessage(h, labels, qtype, qclass, rest);
    FewLabels(labels);
    NameSize(labels);
    assert p == head + name + tail;
    ScanUndoesEncode(head, labels, tail, 0);
    assert p[2] == head[2] && p[4] == head[4] && p[5] == head[5];
    var end := |head| + |name|;
    assert p[end] == Put16(qtype)[0] && p[end + 1] == Put16(qtype)[1];
  }

  lemma {:induction false} NameSize(labels: Labels)
    requires forall k :: 0 <= k < |labels| ==> |labels[k]| < 64
    ensures |EncodeName(labels)| == EncodedLength(labels)
  {
    if labels != [] {
      NameSize(labels[1..]);
    }
  }

  // ---------------------------------------------------------------- the longest label

  // No dot at any index from i up to j.
  ghost predicate DotFree(q: Bytes, i: nat, j: nat) {
    forall k :: i <= k < j <= |q| ==> q[k] != DOT
  }

  // m is the length of the longest dot-free stretch of q.
  ghost predicate IsLongestRun(q: Bytes, m: nat) {
    && (exists i, j :: 0 <= i <= j <= |q| && j - i == m && DotFree(q, i, j))
    && (forall i, j :: 0 <= i <= j <= |q| && DotFree(q, i, j) ==> j - i <= m)
  }

  // The scan of the tunnelling rule: split at dots, remember the longest piece.
  method LongestLabel(q: Bytes) returns (maxLabel: nat)
    ensures IsLongestRun(q, maxLabel)
  {
    var start: nat := 0;
    maxLabel := 0;
    ghost var at: nat := 0;
    assert DotFree(q, 0, 0);
    for i := 0 to |q| + 1
      invariant start <= i && (i <= |q| || start == |q| + 1)
      invariant i <= |q| ==> DotFree(q, start, i) && (start > 0 ==> q[start - 1] == DOT)
      invariant at + maxLabel <= |q| && DotFree(q, at, at + maxLabel)
      invariant forall a, b :: 0 <= a <= b <= |q| && b < start && DotFree(q, a, b) ==> b - a <= maxLabel
    {
      if i == |q| || q[i] == DOT {
        forall a, b | 0 <= a <= b <= i && start <= b && DotFree(q, a, b)
          ensures start <= a
        {
          RunStartsAfterDot(q, start, a, b);
        }
        if i - start > maxLabel {
          at := start;
        }
        maxLabel := if maxLabel < i - start then i - start else maxLabel;
        start := i + 1;
      }
    }
    assert DotFree(q, at, at + maxLabel);
  }

  lemma RunStartsAfterDot(q: Bytes, start: nat, a: nat, b: nat)
    requires a <= b <= |q| && start <= b && DotFree(q, a, b)
    requires start > 0 ==> q[start - 1] == DOT
    ensures start <= a
  {
  }

  // Where label k begins in the joined name.
  function LabelStart(labels: Labels, k: nat): nat
    requires k < |labels|
  {
    if k == 0 then 0 else LabelStart(labels, k - 1) + |labels[k - 1]| + 1
  }

  // Each label is the stretch of the joined name from its start on.
  lemma {:induction false} LabelInJoin(labels: Labels, k: nat)
    requires k < |labels|
    ensures var i := LabelStart(labels, k);
      i + |labels[k]| <= |Join(labels)| && Join(labels)[i..i + |labels[k]|] == labels[k]
    ensures var n := |labels| - 1; k == n ==> LabelStart(labels, k) + |labels[k]| == |Join(labels)|
    decreases |labels|, k
  {
    var n := |labels| - 1;
    if n > 0 {
      var pre := labels[..n];
      LabelInJoin(pre, n - 1);
      if k < n {
        LabelInJoin(pre, k);
        StartsAgree(labels, n, k);
        var i := LabelStart(labels, k);
        assert Join(labels)[i..i + |labels[k]|] == Join(pre)[i..i + |labels[k]|];
      } else {
        StartsAgree(labels, n, n - 1);
      }
    }
  }

  lemma {:induction false} StartsAgree(labels: Labels, n: nat, k: nat)
    requires k < n <= |labels|
    ensures LabelStart(labels[..n], k) == LabelStart(labels, k)
  {
    if k > 0 {
      StartsAgree(labels, n, k - 1);
    }
  }

  // A dot-free stretch of the joined name lies within one label.
  lemma {:induction false} RunWithinLabel(labels: Labels, i: nat, j: nat) returns (k: nat)
    requires labels != [] && i <= j <= |Join(labels)| && DotFree(Join(labels), i, j)
    ensures k < |labels| && j - i <= |labels[k]|
    ensures j - i == |labels[k]| ==> DotFree(labels[k], 0, |labels[k]|)
    decreases |labels|
  {
    var n := |labels| - 1;
    var q := Join(labels);
    if n == 0 {
      k := 0;
    } else {
      var pre := Join(labels[..n]);
      assert q[|pre|] == DOT;
      if j <= |pre| {
        assert forall m :: i <= m < j ==> pre[m] == q[m];
        k := RunWithinLabel(labels[..n], i, j);
      } else {
        RunStartsAfterDot(q, |pre| + 1, i, j);
        k := n;
        assert forall m :: 0 <= m < |labels[n]| ==> labels[n][m] == q[|pre| + 1 + m];
      }
    }
  }

  ghost predicate IsLongestLabel(labels: Labels, m: nat) {
    (exists k :: 0 <= k < |labels| && |labels[k]| == m) && (forall k :: 0 <= k < |labels| ==> |labels[k]| <= m)
  }

  // On the joined name the scan finds the longest wire label exactly when some longest label holds no dot.
  lemma ScanFindsLongestLabel(labels: Labels, longest: nat, found: nat)
    requires labels != [] && IsLongestLabel(labels, longest)
    requires IsLongestRun(Join(labels), found)
    ensures found <= longest
    ensures found == longest <==>
      exists k :: 0 <= k < |labels| && |labels[k]| == longest && DotFree(labels[k], 0, longest)
  {
    var q := Join(labels);
    var i, j :| 0 <= i <= j <= |q| && j - i == found && DotFree(q, i, j);
    var k := RunWithinLabel(labels, i, j);
    forall k' | 0 <= k' < |labels| && DotFree(labels[k'], 0, |labels[k']|)
      ensures |labels[k']| <= found
    {
      LabelInJoin(labels, k');
      var at := LabelStart(labels, k');
      assert forall m :: at <= m < at + |labels[k']| ==> q[m] == labels[k'][m - at];
      assert DotFree(q, at, at + |labels[k']|);
    }
  }
}
