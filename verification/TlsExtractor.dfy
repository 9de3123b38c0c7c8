/** The server name in a TLS ClientHello: a cursor through nested length-prefixed vectors.

    The extractor works with absolute offsets and two nested loops. Its specification consumes the
    payload vector by vector; the round trip is over the ClientHello of section 4.1.2 of RFC 8446 in one
    record of section 5.1, with the server name list of section 3 of RFC 6066. */
module TlsExtractor {
  import opened NetTypes

  datatype TlsInfo = TlsInfo(sni: Bytes, recordVersion: nat)

  const TLS_CONTENT_HANDSHAKE: Byte := 0x16
  const TLS_HANDSHAKE_CLIENT_HELLO: Byte := 0x01
  const TLS_EXTENSION_SNI := 0x0000

  function U24(a: Byte, b: Byte, c: Byte): nat {
    a * 0x1_0000 + b * 0x100 + c
  }

  // ---------------------------------------------------------------- parsing, vector by vector

  // What follows an opaque vector with a one-byte, or two-byte, length; None when it does not fit.
  function Skip8(s: Bytes): (rest: Option<Bytes>)
    ensures rest.Some? ==> |s| >= 1 && 1 + s[0] <= |s| && rest.value == s[1 + s[0]..]
  {
    if |s| < 1 || 1 + s[0] > |s| then None else Some(s[1 + s[0]..])
  }

  function Skip16(s: Bytes): (rest: Option<Bytes>)
    ensures rest.Some? ==> |s| >= 2 && 2 + U16(s[0], s[1]) <= |s| && rest.value == s[2 + U16(s[0], s[1])..]
  {
    if |s| < 2 || 2 + U16(s[0], s[1]) > |s| then None else Some(s[2 + U16(s[0], s[1])..])
  }

  // What follows the session id, the cipher suites and the compression methods of a hello body.
  function SkipToExtensions(s: Bytes): Option<Bytes> {
    match Skip8(s)
    case None => None
    case Some(s1) =>
      match Skip16(s1)
      case None => None
      case Some(s2) => Skip8(s2)
  }

  // The first host_name of a server name list.
  function FirstHostName(l: Bytes): Option<Bytes> {
    if |l| < 3 then None
    else
      var n := U16(l[1], l[2]);
      if 3 + n > |l| then None
      else if l[0] == 0 then Some(l[3..3 + n])
      else FirstHostName(l[3 + n..])
  }

  // The server name list at the start of b, which reaches to the end of all extensions.
  function ServerName(b: Bytes): Option<Bytes> {
    if |b| < 2 then None
    else
      var n := U16(b[0], b[1]);
      if 2 + n > |b| then None else FirstHostName(b[2..2 + n])
  }

  // The name in the first server name extension.
  function FindSni(b: Bytes): Option<Bytes> {
    if |b| < 4 then None
    else
      var n := U16(b[2], b[3]);
      if 4 + n > |b| then None
      else if U16(b[0], b[1]) == TLS_EXTENSION_SNI then ServerName(b[4..])
      else FindSni(b[4 + n..])
  }

  // The extensions of a ClientHello payload, if it is one and they lie within record, message and payload.
  function ExtensionsOf(p: Bytes): Option<Bytes> {
    if |p| < 43 || p[0] != TLS_CONTENT_HANDSHAKE || 5 + U16(p[3], p[4]) > |p| then None
    else if p[5] != TLS_HANDSHAKE_CLIENT_HELLO then None
    else
      var hsEnd := 9 + U24(p[6], p[7], p[8]);
      if hsEnd > |p| then None
      else
        match SkipToExtensions(p[43..])
        case None => None
        case Some(s) =>
          if |s| < 2 then None
          else
            var n := U16(s[0], s[1]);
            if 2 + n > |s| || |p| - |s| + 2 + n > hsEnd then None else Some(s[2..2 + n])
  }

  function ParseTls(p: Bytes): Option<TlsInfo> {
    match ExtensionsOf(p)
    case None => None
    case Some(exts) =>
      match FindSni(exts)
      case None => None
      case Some(name) => Some(TlsInfo(name, U16(p[1], p[2])))
  }

  // ---------------------------------------------------------------- the extractor

  method ExtractTls(payload: Bytes) returns (info: Option<TlsInfo>)
    ensures info == ParseTls(payload)
  {
    var start, end := LocateExtensions(payload);
    if start == 0 {
      return None;
    }
    var recordVersion := U16(payload[1], payload[2]);
    var sni := WalkExtensions(payload, start, end);
    if sni == None {
      return None;
    }
    info := Some(TlsInfo(sni.value, recordVersion));
  }

  // Header checks and the cursor up to the extensions; start 0 when there are none to walk.
  method LocateExtensions(payload: Bytes) returns (start: nat, end: nat)
    ensures ExtensionsOf(payload) == None ==> start == 0
    ensures ExtensionsOf(payload).Some? ==>
      43 < start <= end <= |payload| && payload[start..end] == ExtensionsOf(payload).value
  {
    hide U24;
    var len := |payload|;
    start, end := 0, 0;
    if len < 43 || payload[0] != TLS_CONTENT_HANDSHAKE {
      return;
    }
    var recordLen := U16(payload[3], payload[4]);
    if 5 + recordLen > len {
      return;
    }
    var offset := 5;
    if payload[offset] != TLS_HANDSHAKE_CLIENT_HELLO {
      return;
    }
    var hsLen := U24(payload[offset + 1], payload[offset + 2], payload[offset + 3]);
    offset := offset + 4;
    var hsEnd := offset + hsLen;
    if hsEnd > len {
      return;
    }
    offset := offset + 34;
    var ok;
    ok, offset := SkipVectors(payload, offset);
    if !ok || offset + 2 > len {
      return;
    }
    var extTotal := U16(payload[offset], payload[offset + 1]);
    offset := offset + 2;
    var extEnd := offset + extTotal;
    if extEnd > len || extEnd > hsEnd {
      return;
    }
    SliceOfSlice(payload, offset - 2, len, 2, 2 + extTotal);
    start, end := offset, extEnd;
  }

  // The cursor over session id, cipher suites and compression methods.
  method SkipVectors(payload: Bytes, from: nat) returns (ok: bool, offset: nat)
    requires from <= |payload|
    ensures ok <==> SkipToExtensions(payload[from..]).Some?
    ensures ok ==> from <= offset <= |payload| && SkipToExtensions(payload[from..]).value == payload[offset..]
  {
    hide Skip8, Skip16;
    ok, offset := SkipShortVector(payload, from);
    if !ok {
      return;
    }
    ok, offset := SkipLongVector(payload, offset);
    if !ok {
      return;
    }
    ok, offset := SkipShortVector(payload, offset);
  }

  // One opaque vector with a one-byte length.
  method SkipShortVector(payload: Bytes, from: nat) returns (ok: bool, offset: nat)
    requires from <= |payload|
    ensures ok <==> Skip8(payload[from..]).Some?
    ensures ok ==> from <= offset <= |payload| && Skip8(payload[from..]).value == payload[offset..]
  {
    hide Skip8;
    var len := |payload|;
    Skip8At(payload, from);
    ok, offset := false, from;
    if offset + 1 > len {
      return;
    }
    var vectorLen: nat := payload[offset];
    offset := offset + 1;
    if offset + vectorLen > len {
      return;
    }
    ok, offset := true, offset + vectorLen;
  }

  // One opaque vector with a two-byte length.
  method SkipLongVector(payload: Bytes, from: nat) returns (ok: bool, offset: nat)
    requires from <= |payload|
    ensures ok <==> Skip16(payload[from..]).Some?
    ensures ok ==> from <= offset <= |payload| && Skip16(payload[from..]).value == payload[offset..]
  {
    hide U16, Skip16;
    var len := |payload|;
    Skip16At(payload, from);
    ok, offset := false, from;
    if offset + 2 > len {
      return;
    }
    var vectorLen: nat := U16(payload[offset], payload[offset + 1]);
    offset := offset + 2;
    if offset + vectorLen > len {
      return;
    }
    ok, offset := true, offset + vectorLen;
  }

  lemma Skip8At(p: Bytes, at: nat)
    requires at <= |p|
    ensures Skip8(p[at..]) ==
      if at + 1 > |p| || at + 1 + p[at] > |p| then None else Some(p[at + 1 + p[at]..])
  {
    if at + 1 <= |p| && at + 1 + p[at] <= |p| {
      assert p[at..][1 + p[at]..] == p[at + 1 + p[at]..];
    }
  }

  lemma Skip16At(p: Bytes, at: nat)
    requires at <= |p|
    ensures Skip16(p[at..]) ==
      if at + 2 > |p| || at + 2 + U16(p[at], p[at + 1]) > |p| then None
      else Some(p[at + 2 + U16(p[at], p[at + 1])..])
  {
    hide U16;
    if at + 2 <= |p| {
      var n := U16(p[at], p[at + 1]);
      if at + 2 + n <= |p| {
        assert p[at..][2 + n..] == p[at + 2 + n..];
      }
    }
  }

  // The outer loop: extension headers up to the first server name extension.
  method WalkExtensions(payload: Bytes, start: nat, end: nat) returns (sni: Option<Bytes>)
    requires start <= end <= |payload|
    ensures sni == FindSni(payload[start..end])
  {
    hide FindSni, ServerName, U16;
    var offset := start;
    while offset + 4 <= end
      invariant start <= offset <= end
      invariant FindSni(payload[start..end]) == FindSni(payload[offset..end])
    {
      ExtensionStep(payload, offset, end);
      var extType := U16(payload[offset], payload[offset + 1]);
      var extLen := U16(payload[offset + 2], payload[offset + 3]);
      offset := offset + 4;
      if offset + extLen > end {
        return None;
      }
      if extType == TLS_EXTENSION_SNI {
        sni := WalkServerNames(payload, offset, end);
        return;
      }
      offset := offset + extLen;
    }
    ExtensionsEnd(payload, offset, end);
    sni := None;
  }

  lemma ExtensionsEnd(p: Bytes, offset: nat, end: nat)
    requires offset <= end <= |p| && offset + 4 > end
    ensures FindSni(p[offset..end]) == None
  {
  }

  lemma ExtensionStep(p: Bytes, offset: nat, end: nat)
    requires offset + 4 <= end <= |p|
    ensures var b, n := p[offset..end], U16(p[offset + 2], p[offset + 3]);
      if offset + 4 + n > end then FindSni(b) == None
      else if U16(p[offset], p[offset + 1]) == TLS_EXTENSION_SNI then FindSni(b) == ServerName(p[offset + 4..end])
      else FindSni(b) == FindSni(p[offset + 4 + n..end])
  {
    hide U16, ServerName, FindSni;
    var b, n := p[offset..end], U16(p[offset + 2], p[offset + 3]);
    FindSniUnfolds(b);
    if offset + 4 + n <= end {
      TailOfSlice(p, offset, end, 4);
      TailOfSlice(p, offset, end, 4 + n);
    }
  }

  lemma FindSniUnfolds(b: Bytes)
    requires |b| >= 4
    ensures var n := U16(b[2], b[3]);
      if 4 + n > |b| then FindSni(b) == None
      else if U16(b[0], b[1]) == TLS_EXTENSION_SNI then FindSni(b) == ServerName(b[4..])
      else FindSni(b) == FindSni(b[4 + n..])
  {
    hide U16, ServerName;
  }

  // The inner loop: entries of the server name list up to the first host_name.
  method WalkServerNames(payload: Bytes, offset: nat, end: nat) returns (sni: Option<Bytes>)
    requires offset <= end <= |payload|
    ensures sni == ServerName(payload[offset..end])
  {
    hide FirstHostName, U16;
    ghost var b := payload[offset..end];
    if offset + 2 > end {
      return None;
    }
    var sniListLen: nat := U16(payload[offset], payload[offset + 1]);
    var sniOffset := offset + 2;
    var sniEnd := sniOffset + sniListLen;
    if sniEnd > end {
      return None;
    }
    SliceOfSlice(payload, offset, end, 2, 2 + sniListLen);
    assert ServerName(b) == FirstHostName(payload[sniOffset..sniEnd]);
    hide ServerName;
    while sniOffset + 3 <= sniEnd
      invariant sniOffset <= sniEnd
      invariant ServerName(b) == FirstHostName(payload[sniOffset..sniEnd])
    {
      NameStep(payload, sniOffset, sniEnd);
      var nameType := payload[sniOffset];
      var nameLen := U16(payload[sniOffset + 1], payload[sniOffset + 2]);
      sniOffset := sniOffset + 3;
      if sniOffset + nameLen > sniEnd {
        return None;
      }
      if nameType == 0 {
        return Some(payload[sniOffset..sniOffset + nameLen]);
      }
      sniOffset := sniOffset + nameLen;
    }
    NamesEnd(payload, sniOffset, sniEnd);
    sni := None;
  }

  lemma NamesEnd(p: Bytes, offset: nat, end: nat)
    requires offset <= end <= |p| && offset + 3 > end
    ensures FirstHostName(p[offset..end]) == None
  {
  }

  lemma NameStep(p: Bytes, offset: nat, end: nat)
    requires offset + 3 <= end <= |p|
    ensures var l, n := p[offset..end], U16(p[offset + 1], p[offset + 2]);
      if offset + 3 + n > end then FirstHostName(l) == None
      else if p[offset] == 0 then FirstHostName(l) == Some(p[offset + 3..offset + 3 + n])
      else FirstHostName(l) == FirstHostName(p[offset + 3 + n..end])
  {
    hide U16, FirstHostName;
    var l, n := p[offset..end], U16(p[offset + 1], p[offset + 2]);
    HostNameUnfolds(l);
    if offset + 3 + n <= end {
      SliceOfSlice(p, offset, end, 3, 3 + n);
      TailOfSlice(p, offset, end, 3 + n);
    }
  }

  lemma HostNameUnfolds(l: Bytes)
    requires |l| >= 3
    ensures var n := U16(l[1], l[2]);
      if 3 + n > |l| then FirstHostName(l) == None
      else if l[0] == 0 then FirstHostName(l) == Some(l[3..3 + n])
      else FirstHostName(l) == FirstHostName(l[3 + n..])
  {
    hide U16;
  }

  // ---------------------------------------------------------------- arbitrary bytes

  // Any name found on the list is a contiguous piece of it, and so on outwards.
  ghost predicate IsPiece(name: Bytes, b: Bytes) {
    exists i, j :: 0 <= i <= j <= |b| && b[i..j] == name
  }

  lemma PieceOfSlice(name: Bytes, b: Bytes, from: nat, to: nat)
    requires from <= to <= |b| && IsPiece(name, b[from..to])
    ensures IsPiece(name, b)
  {
    var i, j :| 0 <= i <= j <= |b[from..to]| && b[from..to][i..j] == name;
    SliceOfSlice(b, from, to, i, j);
    assert b[from + i..from + j] == name;
  }

  lemma PieceOfTail(name: Bytes, b: Bytes, from: nat)
    requires from <= |b| && IsPiece(name, b[from..])
    ensures IsPiece(name, b)
  {
    assert b[from..] == b[from..|b|];
    PieceOfSlice(name, b, from, |b|);
  }

  // Any name found on the list is a contiguous piece of it, and so on outwards.
  lemma {:induction false} HostNameIsPiece(l: Bytes)
    requires FirstHostName(l).Some?
    ensures IsPiece(FirstHostName(l).value, l)
    decreases |l|
  {
    var n := U16(l[1], l[2]);
    HostNameUnfolds(l);
    hide FirstHostName, U16;
    if l[0] == 0 {
      assert l[3..3 + n] == FirstHostName(l).value;
    } else {
      HostNameIsPiece(l[3 + n..]);
      hide IsPiece;
      PieceOfTail(FirstHostName(l).value, l, 3 + n);
    }
  }

  lemma ServerNameIsPiece(b: Bytes)
    requires ServerName(b).Some?
    ensures IsPiece(ServerName(b).value, b)
  {
    hide FirstHostName, IsPiece;
    var n := U16(b[0], b[1]);
    HostNameIsPiece(b[2..2 + n]);
    PieceOfSlice(ServerName(b).value, b, 2, 2 + n);
  }

  lemma {:induction false} SniIsPiece(b: Bytes)
    requires FindSni(b).Some?
    ensures IsPiece(FindSni(b).value, b)
    decreases |b|
  {
    var n := U16(b[2], b[3]);
    FindSniUnfolds(b);
    hide FindSni, ServerName, U16, IsPiece;
    if U16(b[0], b[1]) == TLS_EXTENSION_SNI {
      ServerNameIsPiece(b[4..]);
      PieceOfTail(FindSni(b).value, b, 4);
    } else {
      SniIsPiece(b[4 + n..]);
      PieceOfTail(FindSni(b).value, b, 4 + n);
    }
  }

  // The extensions are a contiguous piece of the payload, within the handshake message.
  lemma ExtensionsAreSlice(p: Bytes) returns (start: nat, end: nat)
    requires ExtensionsOf(p).Some?
    ensures 43 < start <= end <= |p| && p[start..end] == ExtensionsOf(p).value
    ensures end <= 9 + U24(p[6], p[7], p[8])
  {
    var s := SkipToExtensions(p[43..]).value;
    SkipIsSuffix(p[43..]);
    start := |p| - |s| + 2;
    end := start + U16(s[0], s[1]);
    assert s == p[|p| - |s|..];
    SliceOfSlice(p, |p| - |s|, |p|, 2, 2 + U16(s[0], s[1]));
  }

  lemma SkipIsSuffix(s: Bytes)
    requires SkipToExtensions(s).Some?
    ensures var rest := SkipToExtensions(s).value; |rest| < |s| && rest == s[|s| - |rest|..]
  {
    var s1 := Skip8(s).value;
    var s2 := Skip16(s1).value;
    var s3 := Skip8(s2).value;
    assert s1 == s[|s| - |s1|..] && s2 == s1[|s1| - |s2|..] && s3 == s2[|s2| - |s3|..];
  }

  // On arbitrary bytes, a server name is a contiguous piece of the extensions of the message.
  lemma NameLiesInExtensions(p: Bytes)
    requires ParseTls(p).Some?
    ensures ExtensionsOf(p).Some? && IsPiece(ParseTls(p).value.sni, ExtensionsOf(p).value)
    ensures exists start, end ::
      43 < start <= end <= |p| && end <= 9 + U24(p[6], p[7], p[8]) && p[start..end] == ExtensionsOf(p).value
  {
    hide ExtensionsOf, FindSni, IsPiece;
    SniIsPiece(ExtensionsOf(p).value);
    var start, end := ExtensionsAreSlice(p);
  }

  lemma SkipAppend(s: Bytes, more: Bytes)
    requires SkipToExtensions(s).Some?
    ensures SkipToExtensions(s + more) == Some(SkipToExtensions(s).value + more)
  {
    var s1 := Skip8(s).value;
    assert (s + more)[1 + s[0]..] == s1 + more;
    var s2 := Skip16(s1).value;
    assert (s1 + more)[2 + U16(s1[0], s1[1])..] == s2 + more;
    var s3 := Skip8(s2).value;
    assert (s2 + more)[1 + s2[0]..] == s3 + more;
  }

  lemma ExtensionsAppend(p: Bytes, more: Bytes)
    requires ExtensionsOf(p).Some?
    ensures ExtensionsOf(p + more) == ExtensionsOf(p)
  {
    var q := p + more;
    assert q[43..] == p[43..] + more;
    SkipAppend(p[43..], more);
    var s := SkipToExtensions(p[43..]).value;
    var n := U16(s[0], s[1]);
    assert (s + more)[2..2 + n] == s[2..2 + n];
  }

  // Bytes after the message never change a name once it has been found.
  lemma AppendingKeepsTheName(p: Bytes, more: Bytes)
    requires ParseTls(p).Some?
    ensures ParseTls(p + more) == ParseTls(p)
  {
    ExtensionsAppend(p, more);
  }

  // ---------------------------------------------------------------- serialising

  // Vectors of section 3.4 of RFC 8446: a length, then that many bytes.
  function Vector8(v: Bytes): Bytes
    requires |v| < 0x100
  {
    [|v|] + v
  }

  function Vector16(v: Bytes): Bytes
    requires |v| < 0x1_0000
  {
    Put16(|v|) + v
  }

  function Put24(n: nat): (bytes: Bytes)
    requires n < 0x100_0000
    ensures |bytes| == 3 && U24(bytes[0], bytes[1], bytes[2]) == n
  {
    [n / 0x1_0000, n / 0x100 % 0x100, n % 0x100]
  }

  // Section 3 of RFC 6066: a name type (0 is host_name) and the name.
  datatype ServerNameEntry = ServerNameEntry(nameType: Byte, name: Bytes)

  datatype Extension = Sni(names: seq<ServerNameEntry>) | Other(extType: nat, data: Bytes)

  function EncodeNames(names: seq<ServerNameEntry>): Bytes
    requires NamesFit(names)
  {
    if names == [] then [] else [names[0].nameType] + Vector16(names[0].name) + EncodeNames(names[1..])
  }

  ghost predicate NamesFit(names: seq<ServerNameEntry>) {
    forall k :: 0 <= k < |names| ==> |names[k].name| < 0x1_0000
  }

  // Its type is not that of a server name extension, and its data have a two-byte length.
  ghost predicate ExtensionFits(e: Extension) {
    match e
    case Sni(names) => NamesFit(names) && |EncodeNames(names)| + 2 < 0x1_0000
    case Other(extType, data) => 0 < extType < 0x1_0000 && |data| < 0x1_0000
  }

  ghost predicate ExtensionsFit(exts: seq<Extension>) {
    forall k :: 0 <= k < |exts| ==> ExtensionFits(exts[k])
  }

  function EncodeExtension(e: Extension): Bytes
    requires ExtensionFits(e)
  {
    match e
    case Sni(names) => Put16(TLS_EXTENSION_SNI) + Vector16(Vector16(EncodeNames(names)))
    case Other(extType, data) => Put16(extType) + Vector16(data)
  }

  function EncodeExtensions(exts: seq<Extension>): Bytes
    requires ExtensionsFit(exts)
  {
    if exts == [] then [] else EncodeExtension(exts[0]) + EncodeExtensions(exts[1..])
  }

  // Section 4.1.2 of RFC 8446, in one record of section 5.1.
  datatype ClientHello = ClientHello(
    recordVersion: nat,
    legacyVersion: nat,
    random: Bytes,
    sessionId: Bytes,
    cipherSuites: Bytes,
    compression: Bytes,
    extensions: seq<Extension>)
  {
    // Every length fits its field.
    ghost predicate Legal() {
      && recordVersion < 0x1_0000 && legacyVersion < 0x1_0000 && |random| == 32
      && |sessionId| < 0x100 && |cipherSuites| < 0x1_0000 && |compression| < 0x100
      && ExtensionsFit(extensions) && |EncodeExtensions(extensions)| < 0x1_0000
      && 38 + |EncodeVectors(this)| < 0x1_0000
    }
  }

  function EncodeVectors(h: ClientHello): Bytes
    requires |h.sessionId| < 0x100 && |h.cipherSuites| < 0x1_0000 && |h.compression| < 0x100
    requires ExtensionsFit(h.extensions) && |EncodeExtensions(h.extensions)| < 0x1_0000
  {
    Vector8(h.sessionId) + (Vector16(h.cipherSuites) + (Vector8(h.compression) + Vector16(EncodeExtensions(h.extensions))))
  }

  // Record header, handshake header, version and random: all before the first vector.
  function EncodeHead(h: ClientHello): (bytes: Bytes)
    requires h.Legal()
    ensures |bytes| == 43 && bytes[0] == TLS_CONTENT_HANDSHAKE && bytes[5] == TLS_HANDSHAKE_CLIENT_HELLO
    ensures U16(bytes[1], bytes[2]) == h.recordVersion
    ensures U16(bytes[3], bytes[4]) == 38 + |EncodeVectors(h)|
    ensures U24(bytes[6], bytes[7], bytes[8]) == 34 + |EncodeVectors(h)|
  {
    hide U16, U24, EncodeVectors, ExtensionsFit;
    var version, recordLen, helloLen := Put16(h.recordVersion), Put16(38 + |EncodeVectors(h)|), Put24(34 + |EncodeVectors(h)|);
    var record := [TLS_CONTENT_HANDSHAKE, version[0], version[1], recordLen[0], recordLen[1]];
    record + [TLS_HANDSHAKE_CLIENT_HELLO, helloLen[0], helloLen[1], helloLen[2]] + Put16(h.legacyVersion) + h.random
  }

  function EncodeHello(h: ClientHello): Bytes
    requires h.Legal()
  {
    EncodeHead(h) + EncodeVectors(h)
  }

  // The first host_name of a list, and the one the hello asks for: of its first server name extension.
  function FirstHost(names: seq<ServerNameEntry>): Option<Bytes> {
    if names == [] then None
    else if names[0].nameType == 0 then Some(names[0].name)
    else FirstHost(names[1..])
  }

  function RequestedHost(exts: seq<Extension>): Option<Bytes> {
    if exts == [] then None
    else if exts[0].Sni? then FirstHost(exts[0].names)
    else RequestedHost(exts[1..])
  }

  lemma {:induction false} NamesRoundTrip(names: seq<ServerNameEntry>)
    requires NamesFit(names)
    ensures FirstHostName(EncodeNames(names)) == FirstHost(names)
  {
    if names != [] {
      var l := EncodeNames(names);
      EntryLayout(names[0], EncodeNames(names[1..]), l);
      HostNameUnfolds(l);
      NamesRoundTrip(names[1..]);
    }
  }

  lemma EntryLayout(e: ServerNameEntry, rest: Bytes, l: Bytes)
    requires |e.name| < 0x1_0000 && l == [e.nameType] + Vector16(e.name) + rest
    ensures |l| == 3 + |e.name| + |rest| && l[0] == e.nameType && U16(l[1], l[2]) == |e.name|
    ensures l[3..3 + |e.name|] == e.name && l[3 + |e.name|..] == rest
  {
    hide U16;
  }

  lemma ListRoundTrip(names: seq<ServerNameEntry>, more: Bytes)
    requires NamesFit(names) && |EncodeNames(names)| < 0x1_0000
    ensures ServerName(Vector16(EncodeNames(names)) + more) == FirstHost(names)
  {
    hide EncodeNames, FirstHostName, FirstHost, U16;
    var l := EncodeNames(names);
    var b := Vector16(l) + more;
    assert U16(b[0], b[1]) == |l| && b[2..2 + |l|] == l;
    NamesRoundTrip(names);
  }

  lemma {:induction false} ExtensionsRoundTrip(exts: seq<Extension>)
    requires ExtensionsFit(exts)
    ensures FindSni(EncodeExtensions(exts)) == RequestedHost(exts)
  {
    hide ServerName, U16;
    if exts != [] {
      var b, rest := EncodeExtensions(exts), EncodeExtensions(exts[1..]);
      ExtensionsRoundTrip(exts[1..]);
      match exts[0]
      case Sni(names) => {
        SniLayout(names, rest, b);
        ListRoundTrip(names, rest);
      }
      case Other(extType, data) => OtherLayout(extType, data, rest, b);
    }
  }

  lemma SniLayout(names: seq<ServerNameEntry>, rest: Bytes, b: Bytes)
    requires ExtensionFits(Sni(names)) && b == EncodeExtension(Sni(names)) + rest
    ensures FindSni(b) == ServerName(Vector16(EncodeNames(names)) + rest)
  {
    hide U16, ServerName, EncodeNames, FindSni;
    var list := Vector16(EncodeNames(names));
    HeaderLayout(TLS_EXTENSION_SNI, list, rest, b);
    FindSniUnfolds(b);
  }

  lemma OtherLayout(extType: nat, data: Bytes, rest: Bytes, b: Bytes)
    requires ExtensionFits(Other(extType, data)) && b == EncodeExtension(Other(extType, data)) + rest
    ensures FindSni(b) == FindSni(rest)
  {
    hide U16, ServerName, FindSni;
    HeaderLayout(extType, data, rest, b);
    FindSniUnfolds(b);
  }

  lemma HeaderLayout(extType: nat, data: Bytes, rest: Bytes, b: Bytes)
    requires extType < 0x1_0000 && |data| < 0x1_0000 && b == Put16(extType) + Vector16(data) + rest
    ensures |b| == 4 + |data| + |rest| && U16(b[0], b[1]) == extType && U16(b[2], b[3]) == |data|
    ensures b[4..] == data + rest && b[4 + |data|..] == rest
  {
    hide U16;
  }

  lemma Skip8Undoes(v: Bytes, rest: Bytes)
    requires |v| < 0x100
    ensures Skip8(Vector8(v) + rest) == Some(rest)
  {
    assert (Vector8(v) + rest)[1 + |v|..] == rest;
  }

  lemma Skip16Undoes(v: Bytes, rest: Bytes)
    requires |v| < 0x1_0000
    ensures Skip16(Vector16(v) + rest) == Some(rest)
  {
    hide U16;
    var s := Vector16(v) + rest;
    assert U16(s[0], s[1]) == |v| && s[2 + |v|..] == rest;
  }

  lemma VectorsRoundTrip(h: ClientHello)
    requires h.Legal()
    ensures SkipToExtensions(EncodeVectors(h)) == Some(Vector16(EncodeExtensions(h.extensions)))
  {
    hide Skip8, Skip16, Vector8, Vector16, EncodeExtensions, ExtensionsFit;
    var s4 := Vector16(EncodeExtensions(h.extensions));
    var s3 := Vector8(h.compression) + s4;
    var s2 := Vector16(h.cipherSuites) + s3;
    Skip8Undoes(h.sessionId, s2);
    Skip16Undoes(h.cipherSuites, s3);
    Skip8Undoes(h.compression, s4);
  }

  lemma HelloRoundTrip(h: ClientHello)
    requires h.Legal()
    ensures ExtensionsOf(EncodeHello(h)) == Some(EncodeExtensions(h.extensions))
  {
    hide U16, U24, EncodeVectors, EncodeHead, EncodeExtensions, SkipToExtensions, ExtensionsFit;
    var p, head, vectors := EncodeHello(h), EncodeHead(h), EncodeVectors(h);
    assert p[43..] == vectors;
    assert forall k :: 0 <= k < 43 ==> p[k] == head[k];
    VectorsRoundTrip(h);
    var exts := EncodeExtensions(h.extensions);
    var s := Vector16(exts);
    assert U16(s[0], s[1]) == |exts| && s[2..2 + |exts|] == exts;
  }

  // Reading undoes writing: whatever the session id, cipher suites, compression methods and other
  // extensions are and whatever follows the record, the extractor returns exactly the first host_name of
  // the first server name extension, with the version of the record.
  lemma TlsRoundTrip(h: ClientHello, more: Bytes)
    requires h.Legal()
    ensures ParseTls(EncodeHello(h) + more) ==
      match RequestedHost(h.extensions)
      case None => None
      case Some(name) => Some(TlsInfo(name, h.recordVersion))
  {
    hide ExtensionsOf, FindSni, U16, EncodeVectors, EncodeHead, RequestedHost, ExtensionsFit;
    HelloRoundTrip(h);
    ExtensionsAppend(EncodeHello(h), more);
    ExtensionsRoundTrip(h.extensions);
    var p, head := EncodeHello(h) + more, EncodeHead(h);
    assert p[1] == head[1] && p[2] == head[2];
  }
}
