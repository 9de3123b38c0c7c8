/** Vocabulary shared by the detection pipeline. */
module NetTypes {

  datatype Option<+T> = None | Some(value: T)

  // Ordered from least to most severe, as in the alert record.
  datatype Severity = Low | Medium | High | Critical

  type Byte = b: nat | b < 256

  type Bytes = seq<Byte>

  type Port = p: nat | p < 0x1_0000

  const IPPROTO_TCP: Byte := 6

  const TCP_FLAG_FIN: bv8 := 0x01
  const TCP_FLAG_SYN: bv8 := 0x02
  const TCP_FLAG_RST: bv8 := 0x04
  const TCP_FLAG_PSH: bv8 := 0x08
  const TCP_FLAG_ACK: bv8 := 0x10

  predicate HasFlag(flags: bv8, mask: bv8) {
    flags & mask != 0
  }

  // A connection attempt: SYN set, ACK clear.
  predicate SynOnly(flags: bv8) {
    HasFlag(flags, TCP_FLAG_SYN) && !HasFlag(flags, TCP_FLAG_ACK)
  }

  // The answer to a connection attempt: both set.
  predicate SynAck(flags: bv8) {
    HasFlag(flags, TCP_FLAG_SYN) && HasFlag(flags, TCP_FLAG_ACK)
  }

  // Big-endian integers of the wire formats.
  function U16(hi: Byte, lo: Byte): (n: nat)
    ensures n < 0x1_0000
  {
    hi * 256 + lo
  }

  function Put16(n: nat): (bytes: Bytes)
    requires n < 0x1_0000
    ensures |bytes| == 2 && U16(bytes[0], bytes[1]) == n
  {
    [n / 256, n % 256]
  }

  // A slice of a slice is a slice.
  lemma SliceOfSlice<T>(s: seq<T>, a: nat, b: nat, i: nat, j: nat)
    requires a <= b <= |s| && i <= j <= b - a
    ensures s[a..b][i..j] == s[a + i..a + j]
  {
    var t := s[a..b];
    assert |t[i..j]| == |s[a + i..a + j]|;
    assert forall k :: 0 <= k < j - i ==> t[i..j][k] == t[i + k] == s[a + i + k];
  }

  lemma TailOfSlice<T>(s: seq<T>, a: nat, b: nat, i: nat)
    requires a <= b <= |s| && i <= b - a
    ensures s[a..b][i..] == s[a + i..b]
  {
    var t := s[a..b];
    assert |t[i..]| == |s[a + i..b]|;
    assert forall k :: 0 <= k < b - a - i ==> t[i..][k] == t[i + k] == s[a + i + k];
  }

  function MaxReal(a: real, b: real): real {
    if a < b then b else a
  }

  function MinReal(a: real, b: real): real {
    if b < a then b else a
  }

  // How many elements of s satisfy p.
  function Count<T>(s: seq<T>, p: T -> bool): (n: nat)
    ensures n <= |s|
  {
    if s == [] then 0 else Count(s[..|s| - 1], p) + (if p(s[|s| - 1]) then 1 else 0)
  }

  lemma CountPush<T>(s: seq<T>, x: T, p: T -> bool)
    ensures Count(s + [x], p) == Count(s, p) + (if p(x) then 1 else 0)
  {
    assert (s + [x])[..|s|] == s;
  }

  lemma {:induction false} CountAll<T>(s: seq<T>, p: T -> bool)
    requires forall x :: x in s ==> p(x)
    ensures Count(s, p) == |s|
  {
    if s != [] {
      CountAll(s[..|s| - 1], p);
    }
  }

  lemma {:induction false} SubsetSize<T>(a: set<T>, b: set<T>)
    requires a <= b
    ensures |a| <= |b|
  {
    if a != {} {
      var x :| x in a;
      SubsetSize(a - {x}, b - {x});
    }
  }

  // The erase-while-iterating sweep every table of the engine uses: drop exactly the doomed entries.
  method Sweep<K, V>(table: map<K, V>, doomed: V -> bool) returns (kept: map<K, V>)
    ensures kept == map k | k in table && !doomed(table[k]) :: table[k]
  {
    kept := table;
    var todo := table.Keys;
    while todo != {}
      invariant todo <= kept.Keys <= table.Keys
      invariant forall k :: k in kept ==> kept[k] == table[k] && (k in todo || !doomed(table[k]))
      invariant forall k :: k in table && k !in kept ==> doomed(table[k])
      decreases |todo|
    {
      var k :| k in todo;
      if doomed(kept[k]) {
        kept := kept - {k};
      }
      todo := todo - {k};
    }
  }
}
