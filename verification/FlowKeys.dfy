/** Flow identity: the canonical 5-tuple shared by both directions of a conversation, and its hash. */
module FlowKeys {
  import opened NetTypes

  // A 128-bit address, most significant byte first; IPv4 addresses are mapped into it.
  type Addr128 = a: seq<Byte> | |a| == 16 witness seq(16, _ => 0)

  datatype FlowKey = FlowKey(loAddr: Addr128, hiAddr: Addr128, loPort: Port, hiPort: Port, protocol: Byte)

  datatype Endpoint = Endpoint(addr: Addr128, port: Port)

  // Lexicographic order on addresses.
  predicate AddrLess(a: seq<Byte>, b: seq<Byte>)
    requires |a| == |b|
  {
    |a| > 0 && (a[0] < b[0] || (a[0] == b[0] && AddrLess(a[1..], b[1..])))
  }

  lemma {:induction false} AddrTrichotomy(a: seq<Byte>, b: seq<Byte>)
    requires |a| == |b|
    ensures AddrLess(a, b) || a == b || AddrLess(b, a)
    ensures !(AddrLess(a, b) && AddrLess(b, a))
    ensures a == b ==> !AddrLess(a, b)
  {
    if |a| > 0 {
      AddrTrichotomy(a[1..], b[1..]);
      assert a == [a[0]] + a[1..] && b == [b[0]] + b[1..];
    }
  }

  predicate SrcIsLo(src: Endpoint, dst: Endpoint) {
    AddrLess(src.addr, dst.addr) || (src.addr == dst.addr && src.port <= dst.port)
  }

  function Make(srcAddr: Addr128, dstAddr: Addr128, srcPort: Port, dstPort: Port, proto: Byte): FlowKey {
    if SrcIsLo(Endpoint(srcAddr, srcPort), Endpoint(dstAddr, dstPort))
    then FlowKey(srcAddr, dstAddr, srcPort, dstPort, proto)
    else FlowKey(dstAddr, srcAddr, dstPort, srcPort, proto)
  }

  // Equal keys exactly for packets of one protocol between the same unordered pair of endpoints.
  lemma KeysIdentifyConversations(s: Endpoint, d: Endpoint, p: Byte, s': Endpoint, d': Endpoint, p': Byte)
    ensures Make(s.addr, d.addr, s.port, d.port, p) == Make(s'.addr, d'.addr, s'.port, d'.port, p')
       <==> p == p' && multiset{s, d} == multiset{s', d'}
  {
    AddrTrichotomy(s.addr, d.addr);
    AddrTrichotomy(s'.addr, d'.addr);
    assert multiset{s, d} == multiset{s', d'} <==> (s == s' && d == d') || (s == d' && d == s') by {
      assert multiset{s, d} == multiset{s', d'} ==> multiset{s, d}[s] == multiset{s', d'}[s] && multiset{s, d}[d] == multiset{s', d'}[d];
    }
  }

  // ---------------------------------------------------------------- hashing

  const TWO_TO_THE_64: nat := 0x1_0000_0000_0000_0000
  const FNV_OFFSET: Word := 14695981039346656037
  const FNV_PRIME: nat := 1099511628211

  // A 64-bit unsigned integer.
  type Word = w: nat | w < 0x1_0000_0000_0000_0000

  function Pow2(n: nat): nat {
    if n == 0 then 1 else 2 * Pow2(n - 1)
  }

  // Bitwise exclusive or of the n low bits.
  function Xor(x: nat, y: nat, n: nat): (z: nat)
    ensures z < Pow2(n)
  {
    if n == 0 then 0 else 2 * Xor(x / 2, y / 2, n - 1) + (x % 2 + y % 2) % 2
  }

  function XorByte(x: Byte, y: Byte): Byte {
    assert Pow2(8) == 256;
    Xor(x, y, 8)
  }

  // Xor with a byte touches the low eight bits of the state only (see XorInIsMachineXor).
  function XorIn(hash: Word, b: Byte): Word {
    hash - hash % 256 + XorByte(hash % 256, b)
  }

  // One round: xor a byte in, multiply by the FNV prime modulo 2^64.
  function Mix(hash: Word, b: Byte): Word {
    (XorIn(hash, b) * FNV_PRIME) % TWO_TO_THE_64
  }

  function MixAll(hash: Word, bytes: seq<Byte>): Word {
    if bytes == [] then hash else Mix(MixAll(hash, bytes[..|bytes| - 1]), bytes[|bytes| - 1])
  }

  method MixBytes(hash0: Word, bytes: seq<Byte>) returns (hash: Word)
    ensures hash == MixAll(hash0, bytes)
  {
    hash := hash0;
    for i := 0 to |bytes|
      invariant hash == MixAll(hash0, bytes[..i])
    {
      assert bytes[..i + 1][..i] == bytes[..i];
      hash := Mix(hash, bytes[i]);
    }
    assert bytes[..|bytes|] == bytes;
  }

  // A port as it lies in memory on a little-endian host.
  function PortBytes(p: Port): seq<Byte> {
    [p % 256, p / 256]
  }

  // The 37 bytes that are mixed, in order.
  function KeyBytes(key: FlowKey): (bytes: seq<Byte>)
    ensures |bytes| == 37
  {
    key.loAddr + key.hiAddr + PortBytes(key.loPort) + PortBytes(key.hiPort) + [key.protocol]
  }

  method Hash(key: FlowKey) returns (hash: Word)
    ensures hash == MixAll(FNV_OFFSET, KeyBytes(key))
  {
    hash := MixBytes(FNV_OFFSET, key.loAddr);
    hash := MixBytes(hash, key.hiAddr);
    hash := MixBytes(hash, PortBytes(key.loPort));
    hash := MixBytes(hash, PortBytes(key.hiPort));
    hash := MixBytes(hash, [key.protocol]);
    MixParts(FNV_OFFSET, key.loAddr, key.hiAddr, PortBytes(key.loPort), PortBytes(key.hiPort), [key.protocol]);
  }

  lemma MixParts(hash: Word, a: seq<Byte>, b: seq<Byte>, c: seq<Byte>, d: seq<Byte>, e: seq<Byte>)
    ensures MixAll(hash, a + b + c + d + e) == MixAll(MixAll(MixAll(MixAll(MixAll(hash, a), b), c), d), e)
  {
    MixConcat(hash, a, b);
    MixConcat(hash, a + b, c);
    MixConcat(hash, a + b + c, d);
    MixConcat(hash, a + b + c + d, e);
  }

  lemma {:induction false} MixConcat(hash: Word, a: seq<Byte>, b: seq<Byte>)
    ensures MixAll(hash, a + b) == MixAll(MixAll(hash, a), b)
  {
    if b == [] {
      assert a + b == a;
    } else {
      var n := |b| - 1;
      MixConcat(hash, a, b[..n]);
      assert (a + b)[..|a| + n] == a + b[..n];
    }
  }

  // ---------------------------------------------------------------- separation

  // The numbers that machine words and bytes stand for.
  function WordOf(w: bv64): Word {
    w as nat
  }

  function ByteOf(b: bv8): Byte {
    b as nat
  }

  // Machine operations by name.
  function MachineXor(w: bv64, b: bv8): bv64 {
    w ^ (b as bv64)
  }

  function HighPart(w: bv64): bv56 {
    (w >> 8) as bv56
  }

  function LowPart(w: bv64): bv8 {
    (w & 0xFF) as bv8
  }

  function Joined(hi: bv56, lo: bv8): bv64 {
    ((hi as bv64) << 8) | (lo as bv64)
  }

  function HighValue(hi: bv56): nat {
    hi as nat
  }

  function ByteXor(x: bv8, y: bv8): bv8 {
    x ^ y
  }

  function Half(x: bv8): bv8 {
    x >> 1
  }

  function Bit(x: bv8): bv8 {
    x & 1
  }

  // Xoring a byte into a machine word is what XorIn does to the number the word stands for.
  lemma XorInIsMachineXor(hash: bv64, b: bv8)
    ensures XorIn(WordOf(hash), ByteOf(b)) == WordOf(MachineXor(hash, b))
  {
    hide WordOf, ByteOf, HighValue, XorByte, MachineXor, HighPart, LowPart, Joined, ByteXor;
    XorTouchesLowByte(hash, b);
    JoinedValue(HighPart(hash), LowPart(hash));
    JoinedValue(HighPart(hash), ByteXor(LowPart(hash), b));
    XorByteIsMachineXor(LowPart(hash), b);
  }

  // On machine words, xor with a byte leaves the upper 56 bits alone.
  lemma XorTouchesLowByte(hash: bv64, b: bv8)
    ensures hash == Joined(HighPart(hash), LowPart(hash))
    ensures MachineXor(hash, b) == Joined(HighPart(hash), ByteXor(LowPart(hash), b))
  {
  }

  lemma JoinedValue(hi: bv56, lo: bv8)
    ensures WordOf(Joined(hi, lo)) == 256 * HighValue(hi) + ByteOf(lo)
  {
    assert (((hi as bv64) << 8) | (lo as bv64)) as nat == 256 * (hi as nat) + (lo as nat);
  }

  lemma XorByteIsMachineXor(x: bv8, y: bv8)
    ensures XorByte(ByteOf(x), ByteOf(y)) == ByteOf(ByteXor(x, y))
  {
    hide ByteXor;
    assert Pow2(8) == 256;
    XorBits(x, y, 8);
  }

  lemma {:induction false} XorBits(x: bv8, y: bv8, n: nat)
    requires n <= 8 && ByteOf(x) < Pow2(n) && ByteOf(y) < Pow2(n)
    ensures Xor(ByteOf(x), ByteOf(y), n) == ByteOf(ByteXor(x, y))
    decreases n
  {
    hide ByteOf, ByteXor, Half, Bit, Xor, Pow2, BitSum;
    if n == 0 {
      XorOfZero(x, y);
    } else {
      HalfAndBit(x);
      HalfAndBit(y);
      HalfAndBit(ByteXor(x, y));
      XorOfParts(x, y);
      XorUnfolds(ByteOf(x), ByteOf(y), n, ByteOf(Half(x)), ByteOf(Half(y)), ByteOf(Bit(x)), ByteOf(Bit(y)));
      XorBits(Half(x), Half(y), n - 1);
    }
  }

  lemma XorUnfolds(x: nat, y: nat, n: nat, u: nat, v: nat, b: nat, c: nat)
    requires n > 0 && x < Pow2(n) && y < Pow2(n)
    requires x == 2 * u + b && y == 2 * v + c && b < 2 && c < 2
    ensures u < Pow2(n - 1) && v < Pow2(n - 1)
    ensures Xor(x, y, n) == 2 * Xor(u, v, n - 1) + BitSum(b, c)
  {
    Halves(x, u, b);
    Halves(y, v, c);
  }

  function BitSum(b: nat, c: nat): nat {
    (b + c) % 2
  }

  lemma XorOfZero(x: bv8, y: bv8)
    requires ByteOf(x) < Pow2(0) && ByteOf(y) < Pow2(0)
    ensures Xor(ByteOf(x), ByteOf(y), 0) == ByteOf(ByteXor(x, y))
  {
    assert x == 0 && y == 0;
  }

  lemma HalfAndBit(x: bv8)
    ensures ByteOf(x) == 2 * ByteOf(Half(x)) + ByteOf(Bit(x)) && ByteOf(Bit(x)) < 2
  {
  }

  lemma XorOfParts(x: bv8, y: bv8)
    ensures Half(ByteXor(x, y)) == ByteXor(Half(x), Half(y))
    ensures ByteOf(Bit(ByteXor(x, y))) == BitSum(ByteOf(Bit(x)), ByteOf(Bit(y)))
  {
  }

  lemma {:induction false} XorSelfInverse(x: nat, b: nat, n: nat)
    requires x < Pow2(n)
    ensures Xor(Xor(x, b, n), b, n) == x
  {
    if n > 0 {
      var u, bit := Xor(x / 2, b / 2, n - 1), (x % 2 + b % 2) % 2;
      XorSelfInverse(x / 2, b / 2, n - 1);
      Halves(2 * u + bit, u, bit);
      BitTwice(x % 2, b % 2);
      Halves(x, x / 2, x % 2);
    }
  }

  lemma Halves(z: nat, u: nat, bit: nat)
    requires z == 2 * u + bit && bit < 2
    ensures z / 2 == u && z % 2 == bit
  {
  }

  lemma BitTwice(x: nat, b: nat)
    requires x < 2 && b < 2
    ensures ((x + b) % 2 + b) % 2 == x
  {
  }

  lemma {:induction false} XorCommutes(x: nat, y: nat, n: nat)
    ensures Xor(x, y, n) == Xor(y, x, n)
  {
    if n > 0 {
      XorCommutes(x / 2, y / 2, n - 1);
    }
  }

  // Different states stay different under one byte; different bytes split one state.
  lemma XorInInjective(g: Word, h: Word, b: Byte)
    requires g != h
    ensures XorIn(g, b) != XorIn(h, b)
  {
    XorByteInjective(g % 256, h % 256, b);
    SameParts(g, h, XorByte(g % 256, b), XorByte(h % 256, b));
  }

  lemma XorByteInjective(x: Byte, y: Byte, b: Byte)
    ensures XorByte(x, b) == XorByte(y, b) ==> x == y
  {
    assert Pow2(8) == 256;
    XorSelfInverse(x, b, 8);
    XorSelfInverse(y, b, 8);
  }

  lemma SameParts(g: Word, h: Word, r: Byte, s: Byte)
    ensures g - g % 256 + r == h - h % 256 + s ==> g - g % 256 == h - h % 256 && r == s
  {
    var i, j := g / 256, h / 256;
    assert g - g % 256 == 256 * i && h - h % 256 == 256 * j;
  }

  lemma XorInSplits(h: Word, b: Byte, c: Byte)
    requires b != c
    ensures XorIn(h, b) != XorIn(h, c)
    ensures -256 < XorIn(h, b) - XorIn(h, c) < 256
  {
    XorByteInjective(b, c, h % 256);
    XorCommutes(b, h % 256, 8);
    XorCommutes(c, h % 256, 8);
  }

  // The FNV prime is odd, so it has an inverse modulo 2^64 and multiplication loses nothing.
  lemma ProductInjective(x: Word, y: Word)
    requires (x * FNV_PRIME) % TWO_TO_THE_64 == (y * FNV_PRIME) % TWO_TO_THE_64
    ensures x == y
  {
    var k := x * FNV_PRIME / TWO_TO_THE_64 - y * FNV_PRIME / TWO_TO_THE_64;
    var d := x - y;
    assert d * FNV_PRIME == k * TWO_TO_THE_64;
    var j := 14886173955864302971 * k - 887285111055 * d;
    assert 14886173955864302971 * 1099511628211 == 1 + 887285111055 * TWO_TO_THE_64;
    assert d == j * TWO_TO_THE_64;
  }

  lemma MixInjective(g: Word, h: Word, b: Byte)
    requires g != h
    ensures Mix(g, b) != Mix(h, b)
  {
    XorInInjective(g, h, b);
    if Mix(g, b) == Mix(h, b) {
      ProductInjective(XorIn(g, b), XorIn(h, b));
    }
  }

  // A difference in the state survives whatever is mixed in afterwards.
  lemma {:induction false} MixAllInjective(g: Word, h: Word, bytes: seq<Byte>)
    requires g != h
    ensures MixAll(g, bytes) != MixAll(h, bytes)
  {
    if bytes != [] {
      var n := |bytes| - 1;
      MixAllInjective(g, h, bytes[..n]);
      MixInjective(MixAll(g, bytes[..n]), MixAll(h, bytes[..n]), bytes[n]);
    }
  }

  lemma MixSplits(h: Word, b: Byte, c: Byte)
    requires b != c
    ensures Mix(h, b) != Mix(h, c)
  {
    XorInSplits(h, b, c);
    if Mix(h, b) == Mix(h, c) {
      ProductInjective(XorIn(h, b), XorIn(h, c));
    }
  }

  // States that differ in the low byte only are torn far apart by the multiplication.
  lemma ProductsFarApart(x: Word, y: Word)
    requires x != y && -256 < x - y < 256
    ensures var e := (x * FNV_PRIME) % TWO_TO_THE_64 - (y * FNV_PRIME) % TWO_TO_THE_64; e <= -256 || 256 <= e
  {
    var k := x * FNV_PRIME / TWO_TO_THE_64 - y * FNV_PRIME / TWO_TO_THE_64;
    var d := x - y;
    var e := (x * FNV_PRIME) % TWO_TO_THE_64 - (y * FNV_PRIME) % TWO_TO_THE_64;
    assert e == d * FNV_PRIME - k * TWO_TO_THE_64;
  }

  // Two rounds separate any two different pairs of bytes.
  lemma MixTwiceSplits(h: Word, b: Byte, b': Byte, c: Byte, c': Byte)
    requires (b, b') != (c, c')
    ensures Mix(Mix(h, b), b') != Mix(Mix(h, c), c')
  {
    if b == c {
      MixSplits(Mix(h, b), b', c');
    } else {
      XorInSplits(h, b, c);
      ProductsFarApart(XorIn(h, b), XorIn(h, c));
      var g, g' := Mix(h, b), Mix(h, c);
      SameParts(g, g', XorByte(g % 256, b'), XorByte(g' % 256, c'));
      assert XorIn(g, b') != XorIn(g', c');
      if Mix(g, b') == Mix(g', c') {
        ProductInjective(XorIn(g, b'), XorIn(g', c'));
      }
    }
  }

  // No collision between byte strings that differ at one position, or at two neighbouring positions.
  lemma NeighboursSeparate(hash: Word, pre: seq<Byte>, b: Byte, b': Byte, c: Byte, c': Byte, post: seq<Byte>)
    requires (b, b') != (c, c')
    ensures MixAll(hash, pre + [b, b'] + post) != MixAll(hash, pre + [c, c'] + post)
  {
    var h := MixAll(hash, pre);
    MixTwice(hash, pre, b, b');
    MixTwice(hash, pre, c, c');
    MixTwiceSplits(h, b, b', c, c');
    MixConcat(hash, pre + [b, b'], post);
    MixConcat(hash, pre + [c, c'], post);
    MixAllInjective(Mix(Mix(h, b), b'), Mix(Mix(h, c), c'), post);
  }

  lemma MixTwice(hash: Word, pre: seq<Byte>, b: Byte, b': Byte)
    ensures MixAll(hash, pre + [b, b']) == Mix(Mix(MixAll(hash, pre), b), b')
  {
    assert (pre + [b, b'])[..|pre| + 1] == pre + [b];
    assert (pre + [b])[..|pre|] == pre;
  }

  lemma OneByteSeparates(hash: Word, bytes: seq<Byte>, other: seq<Byte>, i: nat)
    requires i < |bytes| == |other| && bytes[i] != other[i]
    requires forall j :: 0 <= j < |bytes| && j != i ==> bytes[j] == other[j]
    ensures MixAll(hash, bytes) != MixAll(hash, other)
  {
    var pre, post := bytes[..i], bytes[i + 1..];
    assert bytes == pre + [bytes[i]] + post && other == pre + [other[i]] + post;
    MixConcat(hash, pre + [bytes[i]], post);
    MixConcat(hash, pre + [other[i]], post);
    assert (pre + [bytes[i]])[..i] == pre && (pre + [other[i]])[..i] == pre;
    MixSplits(MixAll(hash, pre), bytes[i], other[i]);
    MixAllInjective(Mix(MixAll(hash, pre), bytes[i]), Mix(MixAll(hash, pre), other[i]), post);
  }

  ghost function HashOf(key: FlowKey): Word {
    MixAll(FNV_OFFSET, KeyBytes(key))
  }

  // Flow keys one mixed byte apart never share a hash.
  lemma KeysOneByteApart(k: FlowKey, k': FlowKey, i: nat)
    requires i < 37 && KeyBytes(k)[i] != KeyBytes(k')[i]
    requires forall j :: 0 <= j < 37 && j != i ==> KeyBytes(k)[j] == KeyBytes(k')[j]
    ensures HashOf(k) != HashOf(k')
  {
    OneByteSeparates(FNV_OFFSET, KeyBytes(k), KeyBytes(k'), i);
  }

  // Nor do the flows of one pair of addresses and one protocol that differ in a single port: a port
  // sweep spreads over distinct hashes.
  lemma PortSweepNeverCollides(k: FlowKey, port: Port)
    ensures port != k.hiPort ==> HashOf(k) != HashOf(k.(hiPort := port))
    ensures port != k.loPort ==> HashOf(k) != HashOf(k.(loPort := port))
  {
    var a, lo, hi, p := k.loAddr + k.hiAddr, PortBytes(k.loPort), PortBytes(k.hiPort), PortBytes(port);
    if port != k.hiPort {
      assert KeyBytes(k) == a + lo + hi + [k.protocol] && KeyBytes(k.(hiPort := port)) == a + lo + p + [k.protocol];
      NeighboursSeparate(FNV_OFFSET, a + lo, hi[0], hi[1], p[0], p[1], [k.protocol]);
    }
    if port != k.loPort {
      assert KeyBytes(k) == a + lo + (hi + [k.protocol]) && KeyBytes(k.(loPort := port)) == a + p + (hi + [k.protocol]);
      NeighboursSeparate(FNV_OFFSET, a, lo[0], lo[1], p[0], p[1], hi + [k.protocol]);
    }
  }

  // The mixed bytes determine the key.
  lemma KeyBytesInjective(k: FlowKey, k': FlowKey)
    requires KeyBytes(k) == KeyBytes(k')
    ensures k == k'
  {
    assert k.loAddr == KeyBytes(k)[..16] && k'.loAddr == KeyBytes(k')[..16];
    assert k.hiAddr == KeyBytes(k)[16..32] && k'.hiAddr == KeyBytes(k')[16..32];
    assert PortBytes(k.loPort) == KeyBytes(k)[32..34] && PortBytes(k'.loPort) == KeyBytes(k')[32..34];
    assert PortBytes(k.hiPort) == KeyBytes(k)[34..36] && PortBytes(k'.hiPort) == KeyBytes(k')[34..36];
    assert k.protocol == KeyBytes(k)[36] && k'.protocol == KeyBytes(k')[36];
    PortBytesInjective(k.loPort, k'.loPort);
    PortBytesInjective(k.hiPort, k'.hiPort);
  }

  lemma PortBytesInjective(p: Port, q: Port)
    ensures PortBytes(p) == PortBytes(q) ==> p == q
  {
    assert PortBytes(p)[0] == p % 256 && PortBytes(p)[1] == p / 256;
    assert PortBytes(q)[0] == q % 256 && PortBytes(q)[1] == q / 256;
  }

  // The order of the bytes: both addresses, both ports with the low byte first, and the protocol.
  lemma KeyBytesAre(k: FlowKey)
    ensures var b := KeyBytes(k);
      && b[..16] == k.loAddr && b[16..32] == k.hiAddr && b[36] == k.protocol
      && b[32] == k.loPort % 256 && b[33] == k.loPort / 256 && b[34] == k.hiPort % 256 && b[35] == k.hiPort / 256
  {
    var b := KeyBytes(k);
    assert b[32..34] == PortBytes(k.loPort) && b[34..36] == PortBytes(k.hiPort);
    assert b[32] == b[32..34][0] && b[33] == b[32..34][1] && b[34] == b[34..36][0] && b[35] == b[34..36][1];
  }

  // ---------------------------------------------------------------- known hashes

  // One round on machine words: xor, then the product modulo 2^64.
  lemma KnownMix(hash: bv64, b: bv8, x: bv64)
    requires MachineXor(hash, b) == x
    ensures Mix(WordOf(hash), ByteOf(b)) == (WordOf(x) * 1099511628211) % 0x1_0000_0000_0000_0000
  {
    hide WordOf, ByteOf, MachineXor, XorIn;
    XorInIsMachineXor(hash, b);
  }

  lemma KnownWords()
    ensures WordOf(0xcbf29ce484222325) == 0xcbf29ce484222325 && ByteOf(97) == 97
    ensures MachineXor(0xcbf29ce484222325, 97) == 0xcbf29ce484222344
    ensures WordOf(0xcbf29ce484222344) == 0xcbf29ce484222344
  {
  }

  // The published 64-bit FNV-1a hashes of no bytes and of "a".
  lemma KnownHashes()
    ensures MixAll(FNV_OFFSET, []) == 0xcbf29ce484222325
    ensures MixAll(FNV_OFFSET, [97]) == 0xaf63dc4c8601ec8c
  {
    hide Mix, WordOf, ByteOf, MachineXor;
    KnownWords();
    KnownMix(0xcbf29ce484222325, 97, 0xcbf29ce484222344);
    assert [97 as Byte][..0] == [];
  }
}
