/** What the extractors answer on arbitrary bytes, both ways: exactly which payloads yield something, by the
    positions and values of their bytes. */
module ParserAnswers {
  import opened NetTypes
  import opened DnsExtractor
  import opened TlsExtractor

  // Two bytes as a number.
  function Word(p: Bytes, at: nat): nat
    requires at + 2 <= |p|
  {
    var hi: nat, lo: nat := p[at], p[at + 1];
    hi * 256 + lo
  }

  lemma WordIsU16(p: Bytes, at: nat)
    requires at + 2 <= |p|
    ensures Word(p, at) == U16(p[at], p[at + 1])
  {
  }

  // ---------------------------------------------------------------- DNS

  // Where the length byte of label k stands.
  function LabelAt(offset: nat, labels: Labels, k: nat): nat
    requires k <= |labels|
  {
    if k == 0 then offset else LabelAt(offset, labels, k - 1) + 1 + |labels[k - 1]|
  }

  // The label stands there behind its length byte; lengths up to 191 are read.
  ghost predicate Stands(p: Bytes, at: nat, l: Bytes) {
    at + 1 + |l| <= |p| && p[at] == |l| && 0 < |l| < 192 && p[at + 1..at + 1 + |l|] == l
  }

  // The labels stand one behind the other from an offset on, and reading stops at `end`: behind a zero byte,
  // at the end of the payload, or when no more labels are allowed.
  ghost predicate Spells(p: Bytes, offset: nat, labels: Labels, end: nat, limit: nat) {
    && |labels| <= limit
    && (forall k :: 0 <= k < |labels| ==> Stands(p, LabelAt(offset, labels, k), labels[k]))
    && var at := LabelAt(offset, labels, |labels|);
       if |labels| == limit || at >= |p| then end == at else p[at] == 0 && end == at + 1
  }

  lemma {:induction false} LabelAtShifts(offset: nat, labels: Labels, k: nat)
    requires labels != [] && k < |labels|
    ensures LabelAt(offset, labels, k + 1) == LabelAt(offset + 1 + |labels[0]|, labels[1..], k)
  {
    if k > 0 {
      LabelAtShifts(offset, labels, k - 1);
    }
  }

  // Spelling is spelling the first label and then the others.
  lemma SpellsOneMore(p: Bytes, offset: nat, labels: Labels, end: nat, limit: nat)
    requires labels != [] && limit > 0
    ensures Spells(p, offset, labels, end, limit) <==>
      Stands(p, offset, labels[0]) && Spells(p, offset + 1 + |labels[0]|, labels[1..], end, limit - 1)
  {
    hide Stands;
    var rest, next := labels[1..], offset + 1 + |labels[0]|;
    forall k | 0 <= k < |rest|
      ensures LabelAt(offset, labels, k + 1) == LabelAt(next, rest, k) && labels[k + 1] == rest[k]
    {
      LabelAtShifts(offset, labels, k);
    }
    LabelAtShifts(offset, labels, |rest|);
    assert LabelAt(offset, labels, 0) == offset;
    hide LabelAt;
    if Spells(p, offset, labels, end, limit) {
      forall k | 0 <= k < |rest|
        ensures Stands(p, LabelAt(next, rest, k), rest[k])
      {
        assert Stands(p, LabelAt(offset, labels, k + 1), labels[k + 1]);
      }
    }
    if Stands(p, offset, labels[0]) && Spells(p, next, rest, end, limit - 1) {
      forall k | 0 <= k < |labels|
        ensures Stands(p, LabelAt(offset, labels, k), labels[k])
      {
        if k > 0 {
          assert Stands(p, LabelAt(next, rest, k - 1), rest[k - 1]);
        }
      }
    }
  }

  lemma SpellsNone(p: Bytes, offset: nat, end: nat, limit: nat)
    ensures Spells(p, offset, [], end, limit) <==>
      if limit == 0 || offset >= |p| then end == offset else p[offset] == 0 && end == offset + 1
  {
  }

  // The scan reads exactly what is spelled.
  lemma {:induction false} ScanIff(p: Bytes, offset: nat, hops: nat, labels: Labels, end: nat)
    requires hops <= 128
    ensures ScanLabels(p, offset, hops) == Ended(labels, end) <==> Spells(p, offset, labels, end, 128 - hops)
    decreases 128 - hops
  {
    hide Spells, ScanLabels;
    if offset >= |p| || hops == 128 {
      ScanStops(p, offset, hops);
      SpellsNone(p, offset, end, 128 - hops);
      if labels != [] {
        SpellsNothing(p, offset, labels, end, 128 - hops);
      }
    } else {
      ScanUnfolds(p, offset, hops);
      if labels == [] {
        SpellsNone(p, offset, end, 128 - hops);
        NotEmptied(p, offset, hops);
      } else {
        SpellsOneMore(p, offset, labels, end, 128 - hops);
        ScanIff(p, offset + 1 + |labels[0]|, hops + 1, labels[1..], end);
        FirstLabel(p, offset, hops, labels, end);
      }
    }
  }

  lemma SpellsNothing(p: Bytes, offset: nat, labels: Labels, end: nat, limit: nat)
    requires labels != [] && (offset >= |p| || limit == 0)
    ensures !Spells(p, offset, labels, end, limit)
  {
    assert LabelAt(offset, labels, 0) == offset;
  }

  // A name without labels ends at its first byte.
  lemma NotEmptied(p: Bytes, offset: nat, hops: nat)
    requires hops < 128 && offset < |p|
    ensures var r := ScanLabels(p, offset, hops);
      r.Ended? && r.labels == [] ==> p[offset] == 0 && r.end == offset + 1
  {
  }

  // The first label of a scan is the one that stands at the offset.
  lemma FirstLabel(p: Bytes, offset: nat, hops: nat, labels: Labels, end: nat)
    requires hops < 128 && offset < |p| && labels != []
    ensures ScanLabels(p, offset, hops) == Ended(labels, end) <==>
      && Stands(p, offset, labels[0])
      && ScanLabels(p, offset + 1 + |labels[0]|, hops + 1) == Ended(labels[1..], end)
  {
    ScanUnfolds(p, offset, hops);
    hide ScanLabels;
    var n := p[offset];
    if 0 < n < 0xC0 && offset + 1 + n <= |p| {
      var rest := ScanLabels(p, offset + 1 + n, hops + 1);
      if rest.Ended? {
        var l := p[offset + 1..offset + 1 + n];
        assert ([l] + rest.labels)[1..] == rest.labels;
        assert labels == [labels[0]] + labels[1..];
      }
    }
  }

  // What a payload yields: exactly the name, type and direction spelled in it. There is room for a header and
  // five bytes, a question is counted, and the name and the two bytes of its type are there.
  lemma DnsAnswerIff(p: Bytes, info: DnsInfo)
    ensures ParseDns(p) == Some(info) <==>
      && |p| >= 17 && Word(p, 4) != 0
      && exists labels, end :: IsQuestion(p, labels, end, info)
  {
    hide ScanLabels, Join, Spells;
    if |p| >= 17 {
      WordIsU16(p, 4);
      var r := ScanLabels(p, 12, 0);
      if r.Ended? {
        ScanIff(p, 12, 0, r.labels, r.end);
        if r.end + 2 <= |p| {
          WordIsU16(p, r.end);
        }
        if ParseDns(p) == Some(info) {
          assert IsQuestion(p, r.labels, r.end, info);
        }
      }
      if labels, end :| IsQuestion(p, labels, end, info) {
        ScanIff(p, 12, 0, labels, end);
        WordIsU16(p, end);
      }
    }
  }

  ghost predicate IsQuestion(p: Bytes, labels: Labels, end: nat, info: DnsInfo) {
    && |p| >= 17 && labels != [] && Spells(p, 12, labels, end, 128) && end + 2 <= |p|
    && info.queryName == Join(labels) && info.queryType == Word(p, end) && (info.isResponse <==> p[2] >= 128)
  }

  // ---------------------------------------------------------------- TLS

  function Word24(p: Bytes, at: nat): nat
    requires at + 3 <= |p|
  {
    var a: nat, b: nat, c: nat := p[at], p[at + 1], p[at + 2];
    a * 65536 + b * 256 + c
  }

  // Where the lengths of the cipher suites, the compression methods and the extensions stand.
  function SuitesAt(p: Bytes): nat
    requires |p| >= 44
  {
    var n: nat := p[43];
    44 + n
  }

  ghost predicate HasSuites(p: Bytes) {
    |p| >= 44 && SuitesAt(p) + 2 <= |p|
  }

  function MethodsAt(p: Bytes): nat
    requires HasSuites(p)
  {
    SuitesAt(p) + 2 + Word(p, SuitesAt(p))
  }

  ghost predicate HasMethods(p: Bytes) {
    HasSuites(p) && MethodsAt(p) + 1 <= |p|
  }

  function ExtensionsAt(p: Bytes): nat
    requires HasMethods(p)
  {
    var n: nat := p[MethodsAt(p)];
    MethodsAt(p) + 1 + n
  }

  ghost predicate HasExtensions(p: Bytes) {
    HasMethods(p) && ExtensionsAt(p) + 2 <= |p|
  }

  // A ClientHello in a handshake record, with every length in bounds: record and message end within the
  // payload, and the extensions within the message.
  ghost predicate WholeHello(p: Bytes) {
    && HasExtensions(p)
    && p[0] == 22 && 5 + Word(p, 3) <= |p|
    && p[5] == 1 && 9 + Word24(p, 6) <= |p|
    && ExtensionsAt(p) + 2 + Word(p, ExtensionsAt(p)) <= 9 + Word24(p, 6)
  }

  // The extensions looked through are those of a whole hello, and there are none otherwise.
  lemma ExtensionsIff(p: Bytes)
    ensures WholeHello(p) ==>
      var at := ExtensionsAt(p) + 2; ExtensionsOf(p) == Some(p[at..at + Word(p, at - 2)])
    ensures !WholeHello(p) ==> ExtensionsOf(p) == None
  {
    hide SkipToExtensions, U16, HasExtensions, HasMethods, HasSuites, ExtensionsAt, MethodsAt, SuitesAt;
    if |p| >= 44 {
      WordIsU16(p, 3);
      SkipsTo(p);
      if HasExtensions(p) {
        ExtensionsInBounds(p);
        var at := ExtensionsAt(p);
        WordIsU16(p, at);
        var s := p[at..];
        if at + 2 + Word(p, at) <= |p| {
          assert s[2..2 + Word(p, at)] == p[at + 2..at + 2 + Word(p, at)];
        }
      }
    } else {
      TooShort(p);
    }
  }

  lemma ExtensionsInBounds(p: Bytes)
    requires HasExtensions(p)
    ensures ExtensionsAt(p) + 2 <= |p|
  {
  }

  lemma TooShort(p: Bytes)
    requires |p| < 44
    ensures !HasExtensions(p) && ExtensionsOf(p) == None
  {
    if |p| == 43 {
      assert p[43..] == [];
    }
  }

  // The cursor behind the three vectors stands there, or too close to the end.
  lemma SkipsTo(p: Bytes)
    requires |p| >= 44
    ensures var s := SkipToExtensions(p[43..]);
      if HasExtensions(p) then HasMethods(p) && s == Some(p[ExtensionsAt(p)..]) else s == None || |s.value| < 2
  {
    hide U16, Skip8, Skip16;
    Skip8At(p, 43);
    if SuitesAt(p) <= |p| {
      Skip16At(p, SuitesAt(p));
      if HasSuites(p) {
        AfterSuites(p);
      }
    }
  }

  lemma AfterSuites(p: Bytes)
    requires HasSuites(p)
    ensures var s := match Skip16(p[SuitesAt(p)..]) case None => None case Some(r) => Skip8(r);
      if HasExtensions(p) then HasMethods(p) && s == Some(p[ExtensionsAt(p)..]) else s == None || |s.value| < 2
  {
    hide U16, Skip8, Skip16, SuitesAt;
    Skip16At(p, SuitesAt(p));
    WordIsU16(p, SuitesAt(p));
    if MethodsAt(p) <= |p| {
      Skip8At(p, MethodsAt(p));
    }
  }

  // ---------------------------------------------------------------- server names

  // Entries of other types than host_name.
  ghost predicate NoHosts(names: seq<ServerNameEntry>) {
    forall k :: 0 <= k < |names| ==> names[k].nameType != 0
  }

  // A list that begins with such entries and goes on with a host_name entry for the name.
  ghost predicate NamesHost(l: Bytes, names: seq<ServerNameEntry>, name: Bytes, more: Bytes) {
    && NamesFit(names) && NoHosts(names) && |name| < 0x1_0000
    && l == EncodeNames(names) + ([0] + Vector16(name) + more)
  }

  lemma {:induction false} HostIsFound(l: Bytes, names: seq<ServerNameEntry>, name: Bytes, more: Bytes)
    requires NamesHost(l, names, name, more)
    ensures FirstHostName(l) == Some(name)
    decreases |names|
  {
    hide U16, FirstHostName;
    if names == [] {
      assert l == [0] + Vector16(name) + more;
      EntryLayout(ServerNameEntry(0, name), more, l);
      HostNameUnfolds(l);
    } else {
      var rest := EncodeNames(names[1..]) + ([0] + Vector16(name) + more);
      assert l == [names[0].nameType] + Vector16(names[0].name) + rest;
      EntryLayout(names[0], rest, l);
      HostNameUnfolds(l);
      HostIsFound(rest, names[1..], name, more);
    }
  }

  lemma {:induction false} FoundIsHost(l: Bytes) returns (names: seq<ServerNameEntry>, more: Bytes)
    requires FirstHostName(l).Some?
    ensures NamesHost(l, names, FirstHostName(l).value, more)
    decreases |l|
  {
    hide U16, FirstHostName;
    LongEnough(l);
    HostNameUnfolds(l);
    var n := U16(l[1], l[2]);
    var e := ServerNameEntry(l[0], l[3..3 + n]);
    EntryAt(l, n);
    if l[0] == 0 {
      names, more := [], l[3 + n..];
      assert l == EncodeNames([]) + ([0] + Vector16(e.name) + more);
    } else {
      names, more := FoundIsHost(l[3 + n..]);
      var name := FirstHostName(l).value;
      OneMoreEntry(l, e, names, name, more, n);
      names := [e] + names;
    }
  }

  lemma LongEnough(l: Bytes)
    requires FirstHostName(l).Some?
    ensures |l| >= 3 && 3 + U16(l[1], l[2]) <= |l|
  {
  }

  // The bytes of an entry are its encoding.
  lemma EntryAt(l: Bytes, n: nat)
    requires |l| >= 3 && n == U16(l[1], l[2]) && 3 + n <= |l|
    ensures l == [l[0]] + Vector16(l[3..3 + n]) + l[3 + n..]
  {
    assert Put16(n) == [l[1], l[2]];
    assert l == [l[0]] + ([l[1], l[2]] + l[3..3 + n]) + l[3 + n..];
  }

  lemma OneMoreEntry(l: Bytes, e: ServerNameEntry, names: seq<ServerNameEntry>, name: Bytes, more: Bytes, n: nat)
    requires |e.name| < 0x1_0000 && e.nameType != 0 && 3 + n <= |l|
    requires NamesHost(l[3 + n..], names, name, more) && l == [e.nameType] + Vector16(e.name) + l[3 + n..]
    ensures NamesHost(l, [e] + names, name, more)
  {
    hide Vector16;
    assert ([e] + names)[1..] == names;
    assert EncodeNames([e] + names) == [e.nameType] + Vector16(e.name) + EncodeNames(names);
  }

  // A list yields a name exactly when it begins with entries of other types and then one for that name.
  lemma HostNameIff(l: Bytes, name: Bytes)
    ensures FirstHostName(l) == Some(name) <==> exists names, more :: NamesHost(l, names, name, more)
  {
    hide NamesHost, FirstHostName;
    if FirstHostName(l).Some? {
      var names, more := FoundIsHost(l);
    }
    if names, more :| NamesHost(l, names, name, more) {
      HostIsFound(l, names, name, more);
    }
  }

  // Extensions of other types than server name, then one of that type with m bytes, whose list may reach to
  // the end of all extensions.
  ghost predicate HasSni(b: Bytes, others: seq<Extension>, m: nat, list: Bytes) {
    && ExtensionsFit(others) && (forall k :: 0 <= k < |others| ==> others[k].Other?)
    && m < 0x1_0000 && m <= |list| && b == EncodeExtensions(others) + (Put16(0) + Put16(m) + list)
  }

  lemma SniHead(m: nat, list: Bytes, b: Bytes)
    requires m < 0x1_0000 && m <= |list| && b == Put16(0) + Put16(m) + list
    ensures FindSni(b) == ServerName(list)
  {
    hide U16, ServerName, FindSni;
    assert U16(b[0], b[1]) == 0 && U16(b[2], b[3]) == m && b[4..] == list;
    FindSniUnfolds(b);
  }

  lemma {:induction false} SniIsFound(b: Bytes, others: seq<Extension>, m: nat, list: Bytes)
    requires HasSni(b, others, m, list)
    ensures FindSni(b) == ServerName(list)
    decreases |others|
  {
    hide U16, ServerName, FindSni, EncodeExtension;
    if others == [] {
      assert b == Put16(0) + Put16(m) + list;
      SniHead(m, list, b);
    } else {
      var rest := EncodeExtensions(others[1..]) + (Put16(0) + Put16(m) + list);
      assert b == EncodeExtension(others[0]) + rest;
      OtherLayout(others[0].extType, others[0].data, rest, b);
      SniIsFound(rest, others[1..], m, list);
    }
  }

  lemma {:induction false} FoundHasSni(b: Bytes) returns (others: seq<Extension>, m: nat, list: Bytes)
    requires FindSni(b).Some?
    ensures HasSni(b, others, m, list)
    decreases |b|
  {
    hide U16, ServerName, FindSni;
    SniLongEnough(b);
    FindSniUnfolds(b);
    var n := U16(b[2], b[3]);
    HeaderAt(b);
    if U16(b[0], b[1]) == 0 {
      others, m, list := [], n, b[4..];
      assert b == EncodeExtensions([]) + (Put16(0) + Put16(m) + list);
    } else {
      others, m, list := FoundHasSni(b[4 + n..]);
      var x := Other(U16(b[0], b[1]), b[4..4 + n]);
      OneMoreExtension(b, x, others, m, list, n);
      others := [x] + others;
    }
  }

  lemma SniLongEnough(b: Bytes)
    requires FindSni(b).Some?
    ensures |b| >= 4 && 4 + U16(b[2], b[3]) <= |b|
  {
  }

  lemma HeaderAt(b: Bytes)
    requires |b| >= 4 && 4 + U16(b[2], b[3]) <= |b|
    ensures var n := U16(b[2], b[3]);
      && b == Put16(U16(b[0], b[1])) + Vector16(b[4..4 + n]) + b[4 + n..]
      && b == Put16(U16(b[0], b[1])) + Put16(n) + b[4..]
  {
    assert Put16(U16(b[0], b[1])) == [b[0], b[1]] && Put16(U16(b[2], b[3])) == [b[2], b[3]];
  }

  lemma OneMoreExtension(b: Bytes, x: Extension, others: seq<Extension>, m: nat, list: Bytes, n: nat)
    requires x.Other? && ExtensionFits(x) && 4 + n <= |b|
    requires HasSni(b[4 + n..], others, m, list) && b == Put16(x.extType) + Vector16(x.data) + b[4 + n..]
    ensures HasSni(b, [x] + others, m, list)
  {
    EncodePush(x, others);
    hide Vector16, U16, EncodeExtensions, ExtensionFits;
    var tail := Put16(0) + Put16(m) + list;
    assert b == EncodeExtension(x) + (EncodeExtensions(others) + tail);
    assert b == (EncodeExtension(x) + EncodeExtensions(others)) + tail;
  }

  lemma EncodePush(x: Extension, others: seq<Extension>)
    requires ExtensionFits(x) && ExtensionsFit(others)
    ensures ExtensionsFit([x] + others) && EncodeExtensions([x] + others) == EncodeExtension(x) + EncodeExtensions(others)
  {
    hide ExtensionFits, EncodeExtension;
    assert ([x] + others)[1..] == others;
  }

  // Extensions yield a name exactly when they begin with others, then hold one of type server name, and the
  // list in it, within all the extensions, begins with entries of other types and then one for that name.
  lemma SniIff(b: Bytes, name: Bytes)
    ensures FindSni(b) == Some(name) <==>
      exists others, m, list, names, more :: IsSni(b, name, others, m, list, names, more)
  {
    hide FindSni, FirstHostName, HasSni, NamesHost, U16;
    if FindSni(b) == Some(name) {
      var others, m, list := FoundHasSni(b);
      SniIsFound(b, others, m, list);
      assert ServerName(list) == Some(name);
      WordIsU16(list, 0);
      var names, more := FoundIsHost(list[2..2 + Word(list, 0)]);
      assert IsSni(b, name, others, m, list, names, more);
    }
    if others, m, list, names, more :| IsSni(b, name, others, m, list, names, more) {
      SniIsFound(b, others, m, list);
      WordIsU16(list, 0);
      HostIsFound(list[2..2 + Word(list, 0)], names, name, more);
    }
  }

  ghost predicate IsSni(b: Bytes, name: Bytes, others: seq<Extension>, m: nat, list: Bytes,
                        names: seq<ServerNameEntry>, more: Bytes)
  {
    && HasSni(b, others, m, list)
    && |list| >= 2 && 2 + Word(list, 0) <= |list|
    && NamesHost(list[2..2 + Word(list, 0)], names, name, more)
  }
}
