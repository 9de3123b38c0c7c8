/** What the HTTP extractor answers on arbitrary bytes: exactly which payloads are requests, and which method,
    target and host they yield. */
module HttpAnswers {
  import opened NetTypes
  import opened HttpExtractor

  // GET, POST, PUT, DELETE, HEAD, OPTIONS, PATCH, CONNECT and TRACE, in ASCII; and "Host: ".
  lemma Words()
    ensures METHODS == [
      [71, 69, 84], [80, 79, 83, 84], [80, 85, 84], [68, 69, 76, 69, 84, 69], [72, 69, 65, 68],
      [79, 80, 84, 73, 79, 78, 83], [80, 65, 84, 67, 72], [67, 79, 78, 78, 69, 67, 84], [84, 82, 65, 67, 69]]
    ensures HOST == [72, 111, 115, 116, 58, 32]
  {
    AsciiThree("GET");
    AsciiThree("PUT");
    assert Ascii("POST") == [80, 79, 83, 84];
    assert Ascii("HEAD") == [72, 69, 65, 68];
    assert Ascii("DELETE") == [68, 69, 76, 69, 84, 69];
    assert Ascii("PATCH") == [80, 65, 84, 67, 72];
    assert Ascii("TRACE") == [84, 82, 65, 67, 69];
    assert Ascii("OPTIONS") == [79, 80, 84, 73, 79, 78, 83];
    assert Ascii("CONNECT") == [67, 79, 78, 78, 69, 67, 84];
  }

  lemma AsciiThree(s: string)
    requires |s| == 3 && forall i :: 0 <= i < 3 ==> s[i] < 128 as char
    ensures Ascii(s) == [s[0] as nat, s[1] as nat, s[2] as nat]
  {
  }

  // The payload begins with this method and a space.
  ghost predicate BeginsWithVerb(p: Bytes, verb: Bytes) {
    |p| > |verb| && p[..|verb|] == verb && p[|verb|] == 32
  }

  lemma VerbIsPrefix(p: Bytes, verb: Bytes)
    ensures StartsAt(p, 0, verb + [SP]) <==> BeginsWithVerb(p, verb)
  {
    if |p| > |verb| {
      assert p[0..|verb| + 1] == p[..|verb|] + [p[|verb|]];
    }
  }

  lemma {:induction false} PrefixIff(p: Bytes, verbs: seq<Bytes>)
    ensures FirstPrefix(p, verbs).Some? <==> exists k :: 0 <= k < |verbs| && BeginsWithVerb(p, verbs[k])
    ensures FirstPrefix(p, verbs).Some? ==> BeginsWithVerb(p, FirstPrefix(p, verbs).value)
  {
    hide BeginsWithVerb, StartsAt;
    if verbs != [] {
      VerbIsPrefix(p, verbs[0]);
      PrefixIff(p, verbs[1..]);
      if k :| 0 <= k < |verbs| && BeginsWithVerb(p, verbs[k]) {
        assert k > 0 ==> verbs[1..][k - 1] == verbs[k];
      }
    }
  }

  lemma {:induction false} SpaceMeaning(p: Bytes, pos: nat)
    requires pos <= |p|
    ensures var end := FirstSpace(p, pos);
      && pos <= end <= |p| && (end < |p| ==> p[end] == 32) && forall k: nat :: pos <= k < end ==> p[k] != 32
    decreases |p| - pos
  {
    if pos < |p| && p[pos] != SP {
      SpaceMeaning(p, pos + 1);
    }
  }

  // A payload is a request exactly when it has sixteen bytes and begins with one of the methods and a space.
  // The target reaches from there to the next space, or to the end.
  lemma RequestIff(p: Bytes)
    ensures ParseHttp(p).Some? <==> |p| >= 16 && exists k :: 0 <= k < 9 && BeginsWithVerb(p, METHODS[k])
    ensures ParseHttp(p).Some? ==>
      var i := ParseHttp(p).value;
      var n := |i.verb| + 1;
      && i.verb in METHODS && BeginsWithVerb(p, i.verb)
      && n + |i.uri| <= |p| && p[n..n + |i.uri|] == i.uri && 32 !in i.uri
      && (n + |i.uri| == |p| || p[n + |i.uri|] == 32)
      && i.host == HostFrom(p, LineEnd(p, 0) + 2)
  {
    TableSize();
    hide METHODS, HostFrom, LineEnd, FirstPrefix, FirstSpace;
    PrefixIff(p, METHODS);
    if FirstPrefix(p, METHODS).Some? {
      var n := |FirstPrefix(p, METHODS).value| + 1;
      SpaceMeaning(p, n);
    }
  }

  lemma TableSize()
    ensures |METHODS| == 9
  {
  }

  // ---------------------------------------------------------------- the Host line

  // A line begins there, counting from a given one on.
  ghost predicate IsLine(p: Bytes, pos: nat, k: nat) {
    k == pos || LineStart(p, k)
  }

  // The first line from pos on that begins with "Host: ", with no empty line before it.
  ghost predicate FirstHostLine(p: Bytes, pos: nat, at: nat) {
    && pos <= at && at + 1 < |p| && IsLine(p, pos, at) && StartsAt(p, at, HOST)
    && forall k: nat :: pos <= k <= at && IsLine(p, pos, k) ==> !CrlfAt(p, k) && (k < at ==> !StartsAt(p, k, HOST))
  }

  // The host is what stands behind that, up to the end of its line; without such a line it is empty.
  lemma {:induction false} HostIff(p: Bytes, pos: nat)
    requires LineStart(p, pos)
    ensures forall at: nat :: FirstHostLine(p, pos, at) ==> HostFrom(p, pos) == p[at + 6..LineEnd(p, at + 6)]
    ensures (forall at: nat :: !FirstHostLine(p, pos, at)) ==> HostFrom(p, pos) == []
    decreases |p| + 1 - pos
  {
    hide StartsAt, HOST, LineEnd, LineStart;
    HostSize();
    if pos + 1 >= |p| || CrlfAt(p, pos) {
      assert forall at: nat :: FirstHostLine(p, pos, at) ==> IsLine(p, pos, pos);
    } else if StartsAt(p, pos, HOST) {
      assert IsLine(p, pos, pos);
      assert FirstHostLine(p, pos, pos) by {
        forall k: nat | pos <= k <= pos && IsLine(p, pos, k)
          ensures !CrlfAt(p, k)
        {
        }
      }
    } else {
      LineEndMeaning(p, pos);
      var next := LineEnd(p, pos) + 2;
      HostIff(p, next);
      forall at: nat
        ensures FirstHostLine(p, pos, at) <==> FirstHostLine(p, next, at)
      {
        NextHostLine(p, pos, next, at);
      }
    }
  }

  lemma HostSize()
    ensures |HOST| == 6
  {
  }

  lemma NextHostLine(p: Bytes, pos: nat, next: nat, at: nat)
    requires LineStart(p, pos) && pos + 1 < |p| && !CrlfAt(p, pos) && !StartsAt(p, pos, HOST)
    requires next == LineEnd(p, pos) + 2 && LineStart(p, next)
    ensures FirstHostLine(p, pos, at) <==> FirstHostLine(p, next, at)
  {
    hide StartsAt, HOST, LineStart;
    forall k: nat | pos <= k && LineStart(p, k)
      ensures k == pos || next <= k
    {
      LineStartsApart(p, pos, k, next);
    }
    if FirstHostLine(p, pos, at) {
      assert IsLine(p, next, at);
      assert forall k: nat :: next <= k && IsLine(p, next, k) ==> IsLine(p, pos, k);
    }
    if FirstHostLine(p, next, at) {
      assert IsLine(p, pos, at);
      assert forall k: nat :: pos <= k && IsLine(p, pos, k) ==> k == pos || IsLine(p, next, k);
    }
  }
}
