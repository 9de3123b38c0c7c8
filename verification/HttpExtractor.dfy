/** Plaintext HTTP requests: method, target and the Host header, found by a cursor that skips from line
    to line. */
module HttpExtractor {
  import opened NetTypes

  datatype HttpInfo = HttpInfo(verb: Bytes, uri: Bytes, host: Bytes)

  const CR: Byte := 13
  const LF: Byte := 10
  const SP: Byte := 32
  const CRLF: Bytes := [CR, LF]

  function Ascii(s: string): (bytes: Bytes)
    requires forall i :: 0 <= i < |s| ==> s[i] < 128 as char
    ensures |bytes| == |s| && forall i :: 0 <= i < |s| ==> bytes[i] == s[i] as nat
  {
    seq(|s|, i requires 0 <= i < |s| => s[i] as nat)
  }

  // The recognised methods; each counts only with a space behind it.
  const METHODS: seq<Bytes> := [
    Ascii("GET"), Ascii("POST"), Ascii("PUT"), Ascii("DELETE"), Ascii("HEAD"),
    Ascii("OPTIONS"), Ascii("PATCH"), Ascii("CONNECT"), Ascii("TRACE")]

  const HOST: Bytes := Ascii("Host: ")

  // ---------------------------------------------------------------- what is looked for

  predicate StartsAt(p: Bytes, pos: nat, what: Bytes) {
    pos + |what| <= |p| && p[pos..pos + |what|] == what
  }

  predicate CrlfAt(p: Bytes, pos: nat)
    requires pos + 1 < |p|
  {
    p[pos] == CR && p[pos + 1] == LF
  }

  // Where the search for a line end from pos stops: at one, or before the last byte.
  function LineEnd(p: Bytes, pos: nat): (end: nat)
    ensures end >= pos && (pos <= |p| ==> end <= |p|)
    decreases |p| - pos
  {
    if pos + 1 >= |p| || CrlfAt(p, pos) then pos else LineEnd(p, pos + 1)
  }

  function FirstSpace(p: Bytes, pos: nat): (end: nat)
    requires pos <= |p|
    ensures pos <= end <= |p|
    decreases |p| - pos
  {
    if pos == |p| || p[pos] == SP then pos else FirstSpace(p, pos + 1)
  }

  // The first of the given methods that the payload begins with.
  function FirstPrefix(p: Bytes, verbs: seq<Bytes>): (found: Option<Bytes>)
    ensures found.Some? ==> StartsAt(p, 0, found.value + [SP]) && found.value in verbs
  {
    if verbs == [] then None
    else if StartsAt(p, 0, verbs[0] + [SP]) then Some(verbs[0])
    else FirstPrefix(p, verbs[1..])
  }

  // The value of the first Host line from pos on, empty if an empty line or the end comes first.
  function HostFrom(p: Bytes, pos: nat): Bytes
    decreases |p| - pos
  {
    if pos + 1 >= |p| || CrlfAt(p, pos) then []
    else if StartsAt(p, pos, HOST) then p[pos + |HOST|..LineEnd(p, pos + |HOST|)]
    else HostFrom(p, LineEnd(p, pos) + 2)
  }

  function ParseHttp(p: Bytes): Option<HttpInfo> {
    if |p| < 16 then None
    else match FirstPrefix(p, METHODS)
      case None => None
      case Some(verb) =>
        var n := |verb| + 1;
        Some(HttpInfo(verb, p[n..FirstSpace(p, n)], HostFrom(p, LineEnd(p, 0) + 2)))
  }

  // ---------------------------------------------------------------- the extractor

  method ExtractHttp(payload: Bytes) returns (info: Option<HttpInfo>)
    ensures info == ParseHttp(payload)
  {
    hide METHODS, FirstPrefix, LineEnd, HostFrom, FirstSpace;
    if |payload| < 16 {
      return None;
    }
    var verb := MatchMethod(payload);
    if verb == [] {
      return None;
    }
    var methodLen := |verb| + 1;
    var uriEnd := FindSpace(payload, methodLen);
    var uri := payload[methodLen..uriEnd];
    var host := FindHost(payload);
    info := Some(HttpInfo(verb, uri, host));
  }

  // The scan of the method table; empty when none fits.
  method MatchMethod(payload: Bytes) returns (verb: Bytes)
    ensures FirstPrefix(payload, METHODS) == if verb == [] then None else Some(verb)
  {
    MethodsAreWords();
    hide METHODS, StartsAt;
    for i := 0 to |METHODS|
      invariant FirstPrefix(payload, METHODS) == FirstPrefix(payload, METHODS[i..])
    {
      var m := METHODS[i];
      assert METHODS[i..][1..] == METHODS[i + 1..];
      if BeginsWith(payload, m + [SP]) {
        return m;
      }
    }
    verb := [];
  }

  predicate BeginsWith(p: Bytes, word: Bytes)
    ensures BeginsWith(p, word) <==> StartsAt(p, 0, word)
  {
    |p| >= |word| && p[..|word|] == word
  }

  method FindSpace(payload: Bytes, from: nat) returns (end: nat)
    requires from <= |payload|
    ensures end == FirstSpace(payload, from)
  {
    end := from;
    while end < |payload| && payload[end] != SP
      invariant from <= end <= |payload|
      invariant FirstSpace(payload, from) == FirstSpace(payload, end)
    {
      end := end + 1;
    }
  }

  method FindLineEnd(payload: Bytes, from: nat) returns (pos: nat)
    ensures pos == LineEnd(payload, from)
  {
    pos := from;
    while pos + 1 < |payload| && !CrlfAt(payload, pos)
      invariant from <= pos && LineEnd(payload, from) == LineEnd(payload, pos)
      decreases |payload| - pos
    {
      pos := pos + 1;
    }
  }

  // The line-skipping loop. Its cursor is always just behind a line end or past the end.
  method FindHost(payload: Bytes) returns (host: Bytes)
    requires payload != []
    ensures host == HostFrom(payload, LineEnd(payload, 0) + 2)
  {
    hide LineEnd, StartsAt;
    ghost var first := LineEnd(payload, 0) + 2;
    var pos := FindLineEnd(payload, 0);
    LineEndMeaning(payload, 0);
    pos := pos + 2;
    while pos + 1 < |payload|
      invariant LineStart(payload, pos)
      invariant HostFrom(payload, first) == HostFrom(payload, pos)
      decreases |payload| + 2 - pos
    {
      if payload[pos] == CR && payload[pos + 1] == LF {
        return [];
      }
      if HostAt(payload, pos) {
        var valStart := pos + |HOST|;
        var valEnd := FindLineEnd(payload, valStart);
        return payload[valStart..valEnd];
      }
      LineEndMeaning(payload, pos);
      pos := FindLineEnd(payload, pos);
      pos := pos + 2;
    }
    host := [];
  }

  predicate HostAt(p: Bytes, pos: nat)
    requires pos <= |p|
    ensures HostAt(p, pos) <==> StartsAt(p, pos, HOST)
    ensures HostAt(p, pos) ==> pos + |HOST| <= |p|
  {
    |p| - pos >= |HOST| && p[pos..pos + |HOST|] == HOST
  }

  // Neither empty nor with a space or a carriage return in it.
  ghost predicate IsWord(m: Bytes) {
    m != [] && forall i :: 0 <= i < |m| ==> m[i] != SP && m[i] != CR
  }

  lemma MethodsAreWords()
    ensures forall k :: 0 <= k < |METHODS| ==> IsWord(METHODS[k])
  {
  }

  // ---------------------------------------------------------------- arbitrary bytes

  // Just behind a line end, or past the end of the payload.
  ghost predicate LineStart(p: Bytes, pos: nat) {
    pos == |p| + 1 || (2 <= pos <= |p| && p[pos - 2] == CR && p[pos - 1] == LF)
  }

  lemma {:induction false} LineEndMeaning(p: Bytes, pos: nat)
    requires pos < |p|
    ensures var end := LineEnd(p, pos);
      && LineStart(p, end + 2) && pos <= end < |p|
      && (forall k :: pos <= k < end ==> !CrlfAt(p, k))
      && (end + 1 < |p| ==> CrlfAt(p, end))
    decreases |p| - pos
  {
    if pos + 1 < |p| && !CrlfAt(p, pos) {
      LineEndMeaning(p, pos + 1);
    }
  }

  // On arbitrary bytes, a non-empty host is what follows "Host: " at the start of some line, up to the
  // end of that line, and no line before it from pos on is empty or starts that way.
  lemma {:induction false} HostIsALine(p: Bytes, pos: nat) returns (at: nat)
    requires LineStart(p, pos) && HostFrom(p, pos) != []
    ensures pos <= at && LineStart(p, at) && StartsAt(p, at, HOST)
    ensures HostFrom(p, pos) == p[at + |HOST|..LineEnd(p, at + |HOST|)]
    ensures forall k :: pos <= k < at && (k == pos || LineStart(p, k)) ==> !CrlfAt(p, k) && !StartsAt(p, k, HOST)
    decreases |p| + 1 - pos
  {
    if StartsAt(p, pos, HOST) {
      at := pos;
    } else {
      LineEndMeaning(p, pos);
      var next := LineEnd(p, pos) + 2;
      at := HostIsALine(p, next);
      forall k | pos <= k < at && (k == pos || LineStart(p, k))
        ensures !CrlfAt(p, k) && !StartsAt(p, k, HOST)
      {
        if pos < k < next {
          LineStartsApart(p, pos, k, next);
        }
      }
    }
  }

  // Between two neighbouring line starts there is no other.
  lemma LineStartsApart(p: Bytes, pos: nat, k: nat, next: nat)
    requires LineStart(p, pos) && LineStart(p, k) && pos + 1 < |p| && !CrlfAt(p, pos)
    requires next == LineEnd(p, pos) + 2
    ensures !(pos < k < next)
  {
    LineEndMeaning(p, pos);
    if pos < k < next {
      if k >= pos + 2 && k <= |p| {
        assert CrlfAt(p, k - 2);
      }
    }
  }

  // ---------------------------------------------------------------- serialising

  datatype Request = Request(verb: Bytes, target: Bytes, version: Bytes, headers: seq<Bytes>, body: Bytes)
  {
    ghost predicate Legal() {
      && verb in METHODS
      && target != [] && SP !in target && NoCrlf(target)
      && |version| == 8 && NoCrlf(version)
      && LegalHeaders(headers)
    }
  }

  ghost predicate NoCrlf(line: Bytes) {
    forall k :: 0 <= k < |line| - 1 ==> !CrlfAt(line, k)
  }

  ghost predicate LegalHeaders(headers: seq<Bytes>) {
    forall k :: 0 <= k < |headers| ==> headers[k] != [] && NoCrlf(headers[k])
  }

  function RequestLine(r: Request): Bytes {
    r.verb + [SP] + r.target + [SP] + r.version
  }

  // Each line with its end, then the empty line.
  function EncodeHeaders(headers: seq<Bytes>): Bytes {
    if headers == [] then CRLF else headers[0] + CRLF + EncodeHeaders(headers[1..])
  }

  function EncodeRequest(r: Request): Bytes {
    RequestLine(r) + CRLF + EncodeHeaders(r.headers) + r.body
  }

  // The value of the first header line that begins exactly "Host: ".
  function HostValue(headers: seq<Bytes>): Bytes {
    if headers == [] then []
    else if StartsAt(headers[0], 0, HOST) then headers[0][|HOST|..]
    else HostValue(headers[1..])
  }

  lemma {:induction false} LineEndFinds(p: Bytes, pos: nat, end: nat)
    requires pos <= end && end + 1 < |p| && CrlfAt(p, end)
    requires forall k :: pos <= k < end ==> !CrlfAt(p, k)
    ensures LineEnd(p, pos) == end
    decreases end - pos
  {
    if pos < end {
      LineEndFinds(p, pos + 1, end);
    }
  }

  // From inside a line of the text, the search stops at its end.
  lemma LineEndOfLine(pre: Bytes, line: Bytes, post: Bytes, skip: nat)
    requires NoCrlf(line) && skip <= |line|
    ensures LineEnd(pre + line + CRLF + post, |pre| + skip) == |pre| + |line|
  {
    var p := pre + line + CRLF + post;
    forall k | |pre| + skip <= k < |pre| + |line|
      ensures !CrlfAt(p, k)
    {
      var i := k - |pre|;
      assert p[k] == line[i];
      if i + 1 < |line| {
        assert p[k + 1] == line[i + 1] && !CrlfAt(line, i);
      } else {
        assert p[k + 1] == CR;
      }
    }
    LineEndFinds(p, |pre| + skip, |pre| + |line|);
  }

  lemma {:induction false} HeadersRoundTrip(pre: Bytes, headers: seq<Bytes>, body: Bytes)
    requires LegalHeaders(headers)
    ensures HostFrom(pre + EncodeHeaders(headers) + body, |pre|) == HostValue(headers)
    decreases |headers|
  {
    hide HostFrom, HostValue, EncodeHeaders, StartsAt, NoCrlf;
    if headers == [] {
      NoHeaders(pre, body);
    } else {
      var line, post := headers[0], EncodeHeaders(headers[1..]) + body;
      HeadersSplit(pre, headers, body);
      HeadersRoundTrip(pre + line + CRLF, headers[1..], body);
      HeaderLine(pre, line, post);
      HostValueStep(headers);
    }
  }

  lemma NoHeaders(pre: Bytes, body: Bytes)
    ensures HostFrom(pre + EncodeHeaders([]) + body, |pre|) == HostValue([])
  {
    assert CrlfAt(pre + EncodeHeaders([]) + body, |pre|);
  }

  lemma HostValueStep(headers: seq<Bytes>)
    requires headers != []
    ensures HostValue(headers) == if StartsAt(headers[0], 0, HOST) then headers[0][|HOST|..] else HostValue(headers[1..])
    ensures StartsAt(headers[0], 0, HOST) ==> |HOST| <= |headers[0]|
  {
  }

  lemma HeadersSplit(pre: Bytes, headers: seq<Bytes>, body: Bytes)
    requires headers != []
    ensures pre + EncodeHeaders(headers) + body == pre + headers[0] + CRLF + (EncodeHeaders(headers[1..]) + body)
    ensures pre + EncodeHeaders(headers) + body == (pre + headers[0] + CRLF) + EncodeHeaders(headers[1..]) + body
  {
  }

  // What the cursor does at the start of a header line.
  lemma HeaderLine(pre: Bytes, line: Bytes, post: Bytes)
    requires line != [] && NoCrlf(line)
    ensures StartsAt(line, 0, HOST) ==> |HOST| <= |line|
    ensures HostFrom(pre + line + CRLF + post, |pre|) ==
      if StartsAt(line, 0, HOST) then line[|HOST|..] else HostFrom(pre + line + CRLF + post, |pre + line + CRLF|)
  {
    hide HOST;
    var p := pre + line + CRLF + post;
    LineIsNotEmpty(pre, line, post);
    HostInLine(pre, line, post);
    if StartsAt(line, 0, HOST) {
      LineEndOfLine(pre, line, post, |HOST|);
      assert p[|pre| + |HOST|..|pre| + |line|] == line[|HOST|..];
    } else {
      LineEndOfLine(pre, line, post, 0);
    }
  }

  lemma LineIsNotEmpty(pre: Bytes, line: Bytes, post: Bytes)
    requires line != [] && NoCrlf(line)
    ensures !CrlfAt(pre + line + CRLF + post, |pre|)
  {
    var p := pre + line + CRLF + post;
    assert p[|pre|] == line[0];
    if |line| > 1 {
      assert p[|pre| + 1] == line[1] && !CrlfAt(line, 0);
    } else {
      assert p[|pre| + 1] == CR;
    }
  }

  // The text has "Host: " at a line exactly when the line begins so: the line end cannot complete it.
  lemma HostInLine(pre: Bytes, line: Bytes, post: Bytes)
    ensures StartsAt(pre + line + CRLF + post, |pre|, HOST) <==> StartsAt(line, 0, HOST)
  {
    var p := pre + line + CRLF + post;
    assert forall k :: 0 <= k < |HOST| ==> HOST[k] != CR;
    hide HOST;
    if |line| >= |HOST| {
      assert p[|pre|..|pre| + |HOST|] == line[0..|HOST|];
    } else if |pre| + |HOST| <= |p| {
      assert p[|pre|..|pre| + |HOST|][|line|] == CR;
    }
  }

  lemma {:induction false} SpaceFound(p: Bytes, pos: nat, end: nat)
    requires pos <= end < |p| && p[end] == SP
    requires forall k :: pos <= k < end ==> p[k] != SP
    ensures FirstSpace(p, pos) == end
    decreases end - pos
  {
    if pos < end {
      SpaceFound(p, pos + 1, end);
    }
  }

  // Space-free words that begin the same text and are followed by a space are the same word.
  lemma WordsAgree(p: Bytes, a: Bytes, b: Bytes)
    requires IsWord(a) && IsWord(b) && StartsAt(p, 0, a + [SP]) && StartsAt(p, 0, b + [SP])
    ensures a == b
  {
    WordIsFirst(p, a);
    WordIsFirst(p, b);
  }

  lemma WordIsFirst(p: Bytes, a: Bytes)
    requires IsWord(a) && StartsAt(p, 0, a + [SP])
    ensures |a| < |p| && FirstSpace(p, 0) == |a| && p[..|a|] == a
  {
    assert p[..|a|] == p[0..|a + [SP]|][..|a|] == (a + [SP])[..|a|] == a;
    assert p[|a|] == p[0..|a + [SP]|][|a|] == SP;
    assert forall k :: 0 <= k < |a| ==> p[k] == p[..|a|][k];
    SpaceFound(p, 0, |a|);
  }

  lemma {:induction false} PrefixFound(p: Bytes, verbs: seq<Bytes>, verb: Bytes)
    requires verb in verbs && StartsAt(p, 0, verb + [SP])
    requires forall k :: 0 <= k < |verbs| ==> IsWord(verbs[k])
    ensures FirstPrefix(p, verbs) == Some(verb)
  {
    hide StartsAt, IsWord;
    if StartsAt(p, 0, verbs[0] + [SP]) {
      WordsAgree(p, verb, verbs[0]);
    } else {
      PrefixFound(p, verbs[1..], verb);
    }
  }

  lemma RequestLineIsOneLine(r: Request)
    requires r.Legal()
    ensures NoCrlf(RequestLine(r))
  {
    MethodsAreWords();
    hide METHODS;
    assert NoCrlf(r.verb);
    JoinedBySpace(r.verb, r.target);
    JoinedBySpace(r.verb + [SP] + r.target, r.version);
  }

  lemma JoinedBySpace(a: Bytes, b: Bytes)
    requires NoCrlf(a) && NoCrlf(b)
    ensures NoCrlf(a + [SP] + b)
  {
    var line := a + [SP] + b;
    forall k | 0 <= k < |line| - 1
      ensures !CrlfAt(line, k)
    {
      if k + 1 < |a| {
        assert !CrlfAt(a, k);
      } else if k > |a| {
        assert line[k] == b[k - |a| - 1] && line[k + 1] == b[k - |a|] && !CrlfAt(b, k - |a| - 1);
      }
    }
  }

  lemma VerbAndTarget(r: Request)
    requires r.Legal()
    ensures var p, n := EncodeRequest(r), |r.verb| + 1;
      && n + |r.target| < |p| && StartsAt(p, 0, r.verb + [SP])
      && FirstSpace(p, n) == n + |r.target|
      && p[n..n + |r.target|] == r.target
  {
    hide METHODS, EncodeHeaders;
    var p, n := EncodeRequest(r), |r.verb| + 1;
    var tail := [SP] + r.version + CRLF + EncodeHeaders(r.headers) + r.body;
    assert p == (r.verb + [SP]) + r.target + tail;
    assert p[n + |r.target|] == SP;
    forall k | n <= k < n + |r.target|
      ensures p[k] != SP
    {
      assert p[k] == r.target[k - n];
    }
    SpaceFound(p, n, n + |r.target|);
  }

  // Reading undoes writing: method, target and the first Host line come back, whatever the body.
  lemma HttpRoundTrip(r: Request)
    requires r.Legal()
    ensures ParseHttp(EncodeRequest(r)) == Some(HttpInfo(r.verb, r.target, HostValue(r.headers)))
  {
    hide METHODS, FirstPrefix, FirstSpace, HostFrom, HostValue, EncodeHeaders, StartsAt, NoCrlf, IsWord;
    var p, line := EncodeRequest(r), RequestLine(r);
    VerbAndTarget(r);
    MethodsAreWords();
    PrefixFound(p, METHODS, r.verb);
    RequestLineIsOneLine(r);
    LineEndOfLine([], line, EncodeHeaders(r.headers) + r.body, 0);
    assert p == [] + line + CRLF + (EncodeHeaders(r.headers) + r.body);
    HeadersRoundTrip(line + CRLF, r.headers, r.body);
    assert p == (line + CRLF) + EncodeHeaders(r.headers) + r.body;
    EncodedLength(r);
  }

  lemma EncodedLength(r: Request)
    requires r.Legal()
    ensures |EncodeRequest(r)| >= 16
  {
    MethodsAreAtLeastThree();
    hide METHODS;
    assert |EncodeHeaders(r.headers)| >= 2;
  }

  lemma MethodsAreAtLeastThree()
    ensures forall k :: 0 <= k < |METHODS| ==> |METHODS[k]| >= 3
  {
  }
}
