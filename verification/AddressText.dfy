/** Addresses as text: dotted decimal, and the compressed hexadecimal form of IPv6. The detectors key
    their tables by these strings while the flow table parses them back into 128-bit addresses. */
module AddressText {
  import opened NetTypes
  import opened FlowKeys

  type Word32 = w: nat | w < 0x1_0000_0000

  // ---------------------------------------------------------------- numerals

  function Digit(d: nat): char
    requires d < 16
  {
    "0123456789abcdef"[d]
  }

  predicate IsDigit(c: char, base: nat) {
    ('0' <= c <= '9' || 'a' <= c <= 'f') && DigitValue(c) < base
  }

  function DigitValue(c: char): nat {
    if '0' <= c <= '9' then c as nat - '0' as nat else if 'a' <= c <= 'f' then c as nat - 'a' as nat + 10 else 0
  }

  // Without leading zeros.
  function Numeral(n: nat, base: nat): (s: string)
    requires 2 <= base <= 16
    ensures s != ""
    decreases n
  {
    if n < base then [Digit(n)] else Numeral(n / base, base) + [Digit(n % base)]
  }

  function Shift(n: nat, base: nat, d: nat): nat {
    n * base + d
  }

  function ValueOf(s: string, base: nat): nat {
    if s == "" then 0 else Shift(ValueOf(s[..|s| - 1], base), base, DigitValue(s[|s| - 1]))
  }

  predicate IsNumeral(s: string, base: nat) {
    s != "" && forall i :: 0 <= i < |s| ==> IsDigit(s[i], base)
  }

  lemma DigitsAreDistinct(d: nat)
    requires d < 16
    ensures DigitValue(Digit(d)) == d && (Digit(d) == '0' <==> d == 0)
    ensures forall base :: d < base ==> IsDigit(Digit(d), base)
  {
  }

  lemma ValueOfPush(s: string, c: char, base: nat)
    ensures ValueOf(s + [c], base) == Shift(ValueOf(s, base), base, DigitValue(c))
  {
    assert (s + [c])[..|s|] == s;
  }

  lemma {:induction false} ValueOfNumeral(n: nat, base: nat)
    requires 2 <= base <= 16
    ensures ValueOf(Numeral(n, base), base) == n
    decreases n
  {
    hide Digit, ValueOf, DigitValue, IsDigit, Shift, Numeral;
    NumeralUnfolds(n, base);
    if n >= base {
      var q, r := n / base, n % base;
      DigitsAreDistinct(r);
      ValueOfNumeral(q, base);
      ValueOfPush(Numeral(q, base), Digit(r), base);
    } else {
      DigitsAreDistinct(n);
      ValueOfOne(Digit(n), base);
    }
  }

  lemma NumeralUnfolds(n: nat, base: nat)
    requires 2 <= base <= 16
    ensures n < base ==> Numeral(n, base) == [Digit(n)]
    ensures n >= base ==>
      && 0 <= n / base < n && 0 <= n % base < base && Shift(n / base, base, n % base) == n
      && Numeral(n, base) == Numeral(n / base, base) + [Digit(n % base)]
  {
    QuotientAndRemainder(n, base);
    hide Shift, Digit;
  }

  lemma QuotientAndRemainder(n: nat, base: nat)
    requires 2 <= base
    ensures 0 <= n % base < base && Shift(n / base, base, n % base) == n
    ensures n >= base ==> 0 <= n / base < n
  {
    var q, r := n / base, n % base;
    assert q >= 0 && n == q * base + r && 0 <= r < base;
    TwiceAtMost(q, base);
  }

  lemma TwiceAtMost(q: nat, base: nat)
    requires 2 <= base
    ensures q * base >= q * 2
  {
  }

  lemma ValueOfOne(c: char, base: nat)
    ensures ValueOf([c], base) == DigitValue(c)
  {
    assert [c][..0] == "";
    assert 0 * base == 0;
  }

  // Digits of the base only, and no leading zero.
  lemma {:induction false} NumeralDigits(n: nat, base: nat)
    requires 2 <= base <= 16
    ensures IsNumeral(Numeral(n, base), base)
    ensures Numeral(n, base)[0] == '0' <==> n == 0
    decreases n
  {
    hide Digit, DigitValue, IsDigit, Numeral;
    NumeralUnfolds(n, base);
    DigitsAreDistinct(n % base);
    if n >= base {
      NumeralDigits(n / base, base);
    }
  }

  lemma {:induction false} NumeralLength(n: nat, base: nat, digits: nat)
    requires 2 <= base <= 16 && digits > 0 && n < Power(base, digits)
    ensures |Numeral(n, base)| <= digits
    decreases digits
  {
    hide Digit;
    if n >= base {
      var p := Power(base, digits - 1);
      QuotientIsBelow(n, base, p);
      assert digits > 1;
      NumeralLength(n / base, base, digits - 1);
    }
  }

  lemma QuotientIsBelow(n: nat, base: nat, p: nat)
    requires base > 0 && n < base * p
    ensures n / base < p
  {
  }

  function Power(base: nat, e: nat): nat {
    if e == 0 then 1 else base * Power(base, e - 1)
  }

  // ---------------------------------------------------------------- separated numerals

  function Join(parts: seq<string>, sep: char): string {
    if |parts| == 0 then ""
    else if |parts| == 1 then parts[0]
    else Join(parts[..|parts| - 1], sep) + [sep] + parts[|parts| - 1]
  }

  function Split(s: string, sep: char): (parts: seq<string>)
    ensures |parts| > 0
  {
    if s == "" then [""]
    else
      var front, c := Split(s[..|s| - 1], sep), s[|s| - 1];
      if c == sep then front + [""] else front[..|front| - 1] + [front[|front| - 1] + [c]]
  }

  ghost predicate SepFree(s: string, sep: char) {
    forall i :: 0 <= i < |s| ==> s[i] != sep
  }

  ghost predicate Clean(parts: seq<string>, sep: char) {
    forall k :: 0 <= k < |parts| ==> parts[k] != "" && SepFree(parts[k], sep)
  }

  lemma JoinPush(parts: seq<string>, part: string, sep: char)
    ensures Join(parts + [part], sep) == if parts == [] then part else Join(parts, sep) + [sep] + part
  {
    assert (parts + [part])[..|parts|] == parts;
  }

  lemma SplitPush(s: string, c: char, sep: char)
    ensures Split(s + [c], sep) ==
      if c == sep then Split(s, sep) + [""]
      else Split(s, sep)[..|Split(s, sep)| - 1] + [Split(s, sep)[|Split(s, sep)| - 1] + [c]]
  {
    assert (s + [c])[..|s|] == s;
  }

  // Appending a piece without separators extends the last part.
  lemma {:induction false} SplitExtends(s: string, part: string, sep: char)
    requires SepFree(part, sep)
    ensures var front := Split(s, sep);
      Split(s + part, sep) == front[..|front| - 1] + [front[|front| - 1] + part]
    decreases |part|
  {
    hide Split;
    var front := Split(s, sep);
    if part == "" {
      assert s + part == s && front[|front| - 1] + part == front[|front| - 1];
      assert front == front[..|front| - 1] + [front[|front| - 1]];
    } else {
      var n := |part| - 1;
      SplitExtends(s, part[..n], sep);
      SplitPush(s + part[..n], part[n], sep);
      assert s + part[..n] + [part[n]] == s + part;
      assert front[|front| - 1] + part[..n] + [part[n]] == front[|front| - 1] + part;
    }
  }

  lemma {:induction false} SplitJoin(parts: seq<string>, sep: char)
    requires Clean(parts, sep) && parts != []
    ensures Split(Join(parts, sep), sep) == parts
    decreases |parts|
  {
    hide Join, Split;
    var n := |parts| - 1;
    assert parts == parts[..n] + [parts[n]];
    JoinPush(parts[..n], parts[n], sep);
    if n == 0 {
      SplitExtends("", parts[0], sep);
      SplitEmpty(sep);
      assert "" + parts[0] == parts[0];
    } else {
      SplitJoin(parts[..n], sep);
      var front := Join(parts[..n], sep);
      SplitPush(front, sep, sep);
      SplitExtends(front + [sep], parts[n], sep);
      assert "" + parts[n] == parts[n];
    }
  }

  lemma SplitEmpty(sep: char)
    ensures Split("", sep) == [""]
  {
  }

  function Numerals(values: seq<nat>, base: nat): (parts: seq<string>)
    requires 2 <= base <= 16
    ensures |parts| == |values| && forall k :: 0 <= k < |parts| ==> parts[k] == Numeral(values[k], base)
  {
    seq(|values|, i requires 0 <= i < |values| => Numeral(values[i], base))
  }

  // Numerals of at most so many digits each.
  predicate AreNumerals(parts: seq<string>, base: nat, digits: nat) {
    forall k :: 0 <= k < |parts| ==> IsNumeral(parts[k], base) && |parts[k]| <= digits
  }

  function ParseNumerals(parts: seq<string>, base: nat, digits: nat): (values: Option<seq<nat>>)
    ensures values.Some? <==> AreNumerals(parts, base, digits)
    ensures values.Some? ==> |values.value| == |parts|
    ensures values.Some? ==> forall k :: 0 <= k < |parts| ==> values.value[k] == ValueOf(parts[k], base)
  {
    if AreNumerals(parts, base, digits)
    then Some(seq(|parts|, i requires 0 <= i < |parts| => ValueOf(parts[i], base)))
    else None
  }

  lemma NumeralIsClean(n: nat, base: nat, sep: char)
    requires 2 <= base <= 16 && (sep == ':' || sep == '.')
    ensures SepFree(Numeral(n, base), sep)
  {
    hide Numeral, DigitValue;
    NumeralDigits(n, base);
    var s := Numeral(n, base);
    forall i | 0 <= i < |s|
      ensures s[i] != sep
    {
      assert IsDigit(s[i], base);
    }
  }

  lemma NumeralsRoundTrip(values: seq<nat>, base: nat, digits: nat, sep: char)
    requires 2 <= base <= 16 && digits > 0 && (sep == ':' || sep == '.')
    requires forall k :: 0 <= k < |values| ==> values[k] < Power(base, digits)
    ensures ParseNumerals(Numerals(values, base), base, digits) == Some(values)
    ensures Clean(Numerals(values, base), sep)
  {
    hide Power, Numeral, IsNumeral, ValueOf, SepFree;
    forall k | 0 <= k < |values|
      ensures IsNumeral(Numerals(values, base)[k], base) && |Numerals(values, base)[k]| <= digits
      ensures ValueOf(Numerals(values, base)[k], base) == values[k]
      ensures SepFree(Numerals(values, base)[k], sep)
    {
      NumeralDigits(values[k], base);
      NumeralLength(values[k], base, digits);
      ValueOfNumeral(values[k], base);
      NumeralIsClean(values[k], base, sep);
    }
    assert ParseNumerals(Numerals(values, base), base, digits).value == values;
  }

  // ---------------------------------------------------------------- IPv4

  function Octets(w: Word32): (o: seq<Byte>)
    ensures |o| == 4
  {
    var a := w / 0x100;
    var b := a / 0x100;
    [b / 0x100, b % 0x100, a % 0x100, w % 0x100]
  }

  function FromOctets(o: seq<Byte>): Word32
    requires |o| == 4
  {
    var a: nat, b: nat, c: nat, d: nat := o[0], o[1], o[2], o[3];
    ((a * 0x100 + b) * 0x100 + c) * 0x100 + d
  }

  lemma OctetsRoundTrip(w: Word32)
    ensures FromOctets(Octets(w)) == w
  {
  }

  function FormatIpv4(w: Word32): string {
    Join(Numerals(Octets(w), 10), '.')
  }

  // Four decimal numerals below 256, separated by dots.
  function ParseIpv4(s: string): Option<Word32> {
    match ParseNumerals(Split(s, '.'), 10, 3)
    case None => None
    case Some(v) => if |v| == 4 && (forall k :: 0 <= k < 4 ==> v[k] < 256) then Some(FromOctets(v)) else None
  }

  // Parsing undoes formatting, for all 2^32 addresses; the text fits the sixteen-byte buffer with its end.
  lemma Ipv4RoundTrip(w: Word32)
    ensures ParseIpv4(FormatIpv4(w)) == Some(w)
    ensures |FormatIpv4(w)| <= 15
  {
    var o, parts := Octets(w), Numerals(Octets(w), 10);
    OctetNumerals(w);
    hide Octets, FromOctets, ParseNumerals, Numerals, Split, Join, Clean;
    OctetsRoundTrip(w);
    SplitJoin(parts, '.');
    JoinLength(parts, '.');
  }

  lemma OctetNumerals(w: Word32)
    ensures ParseNumerals(Numerals(Octets(w), 10), 10, 3) == Some(Octets(w))
    ensures Clean(Numerals(Octets(w), 10), '.')
    ensures forall k :: 0 <= k < 4 ==> |Numerals(Octets(w), 10)[k]| <= 3
  {
    assert Power(10, 3) == 1000;
    hide Octets, Numeral, Power;
    NumeralsRoundTrip(Octets(w), 10, 3, '.');
    forall k | 0 <= k < 4
      ensures |Numerals(Octets(w), 10)[k]| <= 3
    {
      NumeralLength(Octets(w)[k], 10, 3);
    }
  }

  lemma {:induction false} JoinLength(parts: seq<string>, sep: char)
    requires parts != [] && forall k :: 0 <= k < |parts| ==> |parts[k]| <= 3
    ensures |Join(parts, sep)| <= 4 * |parts| - 1
    decreases |parts|
  {
    if |parts| > 1 {
      JoinLength(parts[..|parts| - 1], sep);
    }
  }

  // ---------------------------------------------------------------- IPv6

  // The eight 16-bit groups, in order.
  function Groups(a: Addr128): (g: seq<nat>)
    ensures |g| == 8 && forall i :: 0 <= i < 8 ==> g[i] < 0x1_0000
  {
    seq(8, i requires 0 <= i < 8 => U16(a[2 * i], a[2 * i + 1]))
  }

  function FromGroups(g: seq<nat>): Addr128
    requires |g| == 8 && forall i :: 0 <= i < 8 ==> g[i] < 0x1_0000
  {
    seq(16, i requires 0 <= i < 16 => if i % 2 == 0 then g[i / 2] / 256 else g[i / 2] % 256)
  }

  lemma GroupsRoundTrip(a: Addr128)
    ensures FromGroups(Groups(a)) == a
  {
    var b := FromGroups(Groups(a));
    forall i | 0 <= i < 16
      ensures b[i] == a[i]
    {
      assert i == 2 * (i / 2) + i % 2;
    }
  }

  datatype Run = Run(start: nat, length: nat)

  ghost predicate ZeroRange(g: seq<nat>, a: int, b: int) {
    0 <= a <= b <= |g| && forall k :: a <= k < b ==> g[k] == 0
  }

  // A longest run of zero groups, the leftmost of these; length 0 when no group is zero.
  ghost predicate IsLongestRun(g: seq<nat>, r: Run) {
    && ZeroRange(g, r.start, r.start + r.length)
    && (r.length == 0 ==> r.start == 0)
    && forall a, b :: ZeroRange(g, a, b) ==> b - a <= r.length && (0 < b - a == r.length ==> r.start <= a)
  }

  lemma LongestRunIsUnique(g: seq<nat>, r: Run, r': Run)
    requires IsLongestRun(g, r) && IsLongestRun(g, r')
    ensures r == r'
  {
    assert ZeroRange(g, r.start, r.start + r.length) && ZeroRange(g, r'.start, r'.start + r'.length);
  }

  function ZeroRun(g: seq<nat>, i: nat): (n: nat)
    decreases |g| - i
  {
    if i >= |g| || g[i] != 0 then 0 else 1 + ZeroRun(g, i + 1)
  }

  function LongestRun(g: seq<nat>, i: nat): Run
    decreases |g| - i
  {
    if i >= |g| then Run(0, 0)
    else
      var later := LongestRun(g, i + 1);
      if ZeroRun(g, i) > 0 && ZeroRun(g, i) >= later.length then Run(i, ZeroRun(g, i)) else later
  }

  lemma {:induction false} ZeroRunIsMaximal(g: seq<nat>, i: nat)
    requires i <= |g|
    ensures ZeroRange(g, i, i + ZeroRun(g, i))
    ensures forall b :: ZeroRange(g, i, b) ==> b - i <= ZeroRun(g, i)
    decreases |g| - i
  {
    if i < |g| && g[i] == 0 {
      ZeroRunIsMaximal(g, i + 1);
      forall b | ZeroRange(g, i, b)
        ensures b - i <= ZeroRun(g, i)
      {
        if b > i {
          assert ZeroRange(g, i + 1, b);
        }
      }
    }
  }

  lemma {:induction false} LongestRunFrom(g: seq<nat>, i: nat)
    requires i <= |g|
    ensures var r := LongestRun(g, i);
      && ZeroRange(g, r.start, r.start + r.length) && (if r.length == 0 then r.start == 0 else i <= r.start)
      && forall a, b :: i <= a && ZeroRange(g, a, b) ==> b - a <= r.length && (0 < b - a == r.length ==> r.start <= a)
    decreases |g| - i
  {
    hide ZeroRange, ZeroRun;
    if i < |g| {
      LongestRunFrom(g, i + 1);
      ZeroRunIsMaximal(g, i);
    } else {
      EmptyRange(g);
    }
  }

  lemma EmptyRange(g: seq<nat>)
    ensures ZeroRange(g, 0, 0)
    ensures forall a, b :: |g| <= a && ZeroRange(g, a, b) ==> b - a <= 0
  {
  }

  lemma LongestRunIsLongest(g: seq<nat>)
    ensures IsLongestRun(g, LongestRun(g, 0))
  {
    LongestRunFrom(g, 0);
  }

  function Hex(g: seq<nat>): string {
    Join(Numerals(g, 16), ':')
  }

  lemma HexPush(g: seq<nat>, x: nat)
    ensures Hex(g + [x]) == if g == [] then Numeral(x, 16) else Hex(g) + ":" + Numeral(x, 16)
  {
    hide Numeral;
    assert Numerals(g + [x], 16) == Numerals(g, 16) + [Numeral(x, 16)];
    JoinPush(Numerals(g, 16), Numeral(x, 16), ':');
  }

  // The groups with a run of at least two left out.
  function Render(g: seq<nat>, r: Run): string
    requires r.start + r.length <= |g|
  {
    if r.length < 2 then Hex(g) else Hex(g[..r.start]) + "::" + Hex(g[r.start + r.length..])
  }

  function TextOfGroups(g: seq<nat>): string {
    LongestRunIsLongest(g);
    Render(g, LongestRun(g, 0))
  }

  function FormatIpv6(a: Addr128): string {
    TextOfGroups(Groups(a))
  }

  method PrintIpv6(addr: Addr128) returns (text: string)
    ensures text == FormatIpv6(addr)
  {
    var groups := ReadGroups(addr);
    var bestStart, bestLen := FindZeroRun(groups);
    ghost var best := Run(if bestLen == 0 then 0 else bestStart, bestLen);
    LongestRunIsLongest(groups);
    LongestRunIsUnique(groups, best, LongestRun(groups, 0));
    if bestLen < 2 {
      bestStart := -1;
    }
    text := WriteGroups(groups, bestStart, bestLen);
  }

  method ReadGroups(addr: Addr128) returns (groups: seq<nat>)
    ensures groups == Groups(addr)
  {
    groups := [];
    for i := 0 to 8
      invariant groups == Groups(addr)[..i]
    {
      groups := groups + [U16(addr[i * 2], addr[i * 2 + 1])];
    }
  }

  method FindZeroRun(groups: seq<nat>) returns (bestStart: int, bestLen: nat)
    ensures bestLen > 0 ==> bestStart >= 0
    ensures IsLongestRun(groups, Run(if bestLen == 0 then 0 else bestStart, bestLen))
  {
    bestStart, bestLen := -1, 0;
    var curStart, curLen: nat := -1, 0;
    for i := 0 to |groups|
      invariant curLen <= i && (if curLen == 0 then curStart == -1 else curStart == i - curLen)
      invariant ZeroRange(groups, i - curLen, i) && (i > curLen ==> groups[i - curLen - 1] != 0)
      invariant curLen <= bestLen <= i
      invariant bestLen > 0 ==> 0 <= bestStart <= i - bestLen && ZeroRange(groups, bestStart, bestStart + bestLen)
      invariant forall a, b :: b <= i && ZeroRange(groups, a, b) ==> b - a <= bestLen
      invariant forall a, b :: b <= i && ZeroRange(groups, a, b) && 0 < b - a == bestLen ==> bestStart <= a
    {
      if groups[i] == 0 {
        RangesTo(groups, i, curLen);
        if curStart == -1 {
          curStart := i;
        }
        curLen := curLen + 1;
        if curLen > bestLen {
          bestLen := curLen;
          bestStart := curStart;
        }
      } else {
        curStart := -1;
        curLen := 0;
      }
    }
  }

  // A zero range that ends at i reaches back no further than the current run.
  lemma RangesTo(g: seq<nat>, i: nat, n: nat)
    requires n <= i < |g| && g[i] == 0 && ZeroRange(g, i - n, i)
    requires i > n ==> g[i - n - 1] != 0
    ensures ZeroRange(g, i - n, i + 1)
    ensures forall a, b :: b == i + 1 && ZeroRange(g, a, b) ==> i - n <= a
  {
  }

  method WriteGroups(groups: seq<nat>, bestStart: int, bestLen: nat) returns (text: string)
    requires |groups| == 8 && (bestStart == -1 || (0 <= bestStart && bestLen >= 2 && bestStart + bestLen <= 8))
    ensures text == if bestStart == -1 then Hex(groups) else Render(groups, Run(bestStart, bestLen))
  {
    hide Hex, Numeral;
    text := "";
    var i := 0;
    HexEmpty();
    assert groups[..0] == [];
    while i < 8
      invariant i <= 8
      invariant bestStart == -1 || i <= bestStart ==> text == Hex(groups[..i])
      invariant 0 <= bestStart < i ==> bestStart + bestLen < i
      invariant 0 <= bestStart < i ==> text == Hex(groups[..bestStart]) + "::" + Hex(groups[bestStart + bestLen..i])
    {
      if i == bestStart {
        text := text + "::";
        i := i + bestLen;
        if i >= 8 {
          assert groups[i..] == [];
          break;
        }
        NextGroup(groups, i, i);
        text := text + Numeral(groups[i], 16);
        i := i + 1;
        continue;
      }
      NextGroup(groups, if 0 <= bestStart < i then bestStart + bestLen else 0, i);
      if i != 0 && !(i == bestStart + bestLen && bestStart == 0) {
        text := text + ":";
      }
      text := text + Numeral(groups[i], 16);
      i := i + 1;
    }
    assert groups[..8] == groups;
  }

  lemma HexEmpty()
    ensures Hex([]) == ""
  {
  }

  lemma NextGroup(g: seq<nat>, from: nat, i: nat)
    requires from <= i < |g|
    ensures Hex(g[from..i + 1]) == if i == from then Numeral(g[i], 16) else Hex(g[from..i]) + ":" + Numeral(g[i], 16)
    ensures g[0..i] == g[..i] && g[0..i + 1] == g[..i + 1]
  {
    hide Hex, Numeral;
    HexPush(g[from..i], g[i]);
    assert g[from..i + 1] == g[from..i] + [g[i]];
  }

  // ---------------------------------------------------------------- reading IPv6

  // Where the first "::" begins at or after i; the length of the text when there is none.
  function FirstDouble(s: string, i: nat): (at: nat)
    requires i <= |s|
    ensures i <= at <= |s| && (at < |s| ==> at + 2 <= |s|)
    decreases |s| - i
  {
    if i + 1 >= |s| then |s|
    else if s[i] == ':' && s[i + 1] == ':' then i
    else FirstDouble(s, i + 1)
  }

  // Groups of one to four hexadecimal digits, separated by colons; there may be none.
  function ParseGroups(s: string): Option<seq<nat>> {
    if s == "" then Some([]) else ParseNumerals(Split(s, ':'), 16, 4)
  }

  // Section 2.2 of RFC 4291: eight groups, or fewer around one "::" that stands for the missing zeros.
  function ParseIpv6(s: string): Option<seq<nat>> {
    var at := FirstDouble(s, 0);
    if at == |s| then
      match ParseGroups(s)
      case None => None
      case Some(g) => if |g| == 8 then Some(g) else None
    else
      match (ParseGroups(s[..at]), ParseGroups(s[at + 2..]))
      case (Some(l), Some(r)) => if |l| + |r| < 8 then Some(l + Zeros(8 - |l| - |r|) + r) else None
      case _ => None
  }

  function Zeros(n: nat): (g: seq<nat>)
    ensures |g| == n && forall k :: 0 <= k < n ==> g[k] == 0
  {
    seq(n, _ => 0)
  }

  // No two colons in a row, and none at either end.
  ghost predicate SingleColons(s: string) {
    && (forall i :: 0 <= i < |s| - 1 ==> !DoubleAt(s, i))
    && (s != "" ==> s[0] != ':' && s[|s| - 1] != ':')
  }

  ghost predicate DoubleAt(s: string, i: nat)
    requires i + 1 < |s|
  {
    s[i] == ':' && s[i + 1] == ':'
  }

  lemma JoinedByColon(a: string, b: string)
    requires SingleColons(a) && SepFree(b, ':') && a != "" && b != ""
    ensures SingleColons(a + ":" + b)
  {
    var s := a + ":" + b;
    forall i | 0 <= i < |s| - 1
      ensures !DoubleAt(s, i)
    {
      if i + 1 < |a| {
        assert !DoubleAt(a, i);
      } else if i < |a| {
        assert s[i] == a[|a| - 1];
      } else {
        assert s[i + 1] == b[i - |a|];
      }
    }
  }

  lemma {:induction false} JoinSingleColons(parts: seq<string>)
    requires Clean(parts, ':')
    ensures SingleColons(Join(parts, ':')) && (parts != [] ==> Join(parts, ':') != "")
    decreases |parts|
  {
    hide SingleColons, SepFree;
    if |parts| == 0 {
      EmptyIsSingle("");
    } else {
      var n := |parts| - 1;
      JoinSingleColons(parts[..n]);
      if n == 0 {
        EmptyIsSingle(parts[0]);
      } else {
        JoinedByColon(Join(parts[..n], ':'), parts[n]);
      }
    }
  }

  lemma EmptyIsSingle(s: string)
    requires SepFree(s, ':')
    ensures SingleColons(s)
  {
  }

  lemma HexParts(g: seq<nat>)
    requires forall k :: 0 <= k < |g| ==> g[k] < 0x1_0000
    ensures SingleColons(Hex(g)) && ParseGroups(Hex(g)) == Some(g) && (g == [] <==> Hex(g) == "")
  {
    assert Power(16, 4) == 0x1_0000;
    hide Power, Numerals, Numeral, ParseNumerals, Join, Split, SingleColons, Clean;
    var parts := Numerals(g, 16);
    NumeralsRoundTrip(g, 16, 4, ':');
    JoinSingleColons(parts);
    if g == [] {
      JoinEmpty(parts);
    } else {
      SplitJoin(parts, ':');
    }
  }

  lemma JoinEmpty(parts: seq<string>)
    requires parts == []
    ensures Join(parts, ':') == ""
  {
  }

  lemma {:induction false} FirstDoubleFinds(s: string, i: nat, at: nat)
    requires i <= at && at + 1 < |s| && DoubleAt(s, at)
    requires forall k :: i <= k < at ==> !DoubleAt(s, k)
    ensures FirstDouble(s, i) == at
    decreases at - i
  {
    if i < at {
      assert !DoubleAt(s, i);
      FirstDoubleFinds(s, i + 1, at);
    }
  }

  lemma {:induction false} NoDouble(s: string, i: nat)
    requires i <= |s| && forall k :: i <= k < |s| - 1 ==> !DoubleAt(s, k)
    ensures FirstDouble(s, i) == |s|
    decreases |s| - i
  {
    if i + 1 < |s| {
      assert !DoubleAt(s, i);
      NoDouble(s, i + 1);
    }
  }

  lemma DoubleIsFirst(l: string, r: string)
    requires SingleColons(l)
    ensures FirstDouble(l + "::" + r, 0) == |l|
  {
    var s := l + "::" + r;
    assert DoubleAt(s, |l|);
    forall k | 0 <= k < |l|
      ensures !DoubleAt(s, k)
    {
      if k + 1 < |l| {
        assert !DoubleAt(l, k);
      } else {
        assert s[k] == l[|l| - 1];
      }
    }
    FirstDoubleFinds(s, 0, |l|);
  }

  // Leaving out any run of zero groups loses nothing.
  lemma RenderRoundTrip(g: seq<nat>, r: Run)
    requires |g| == 8 && forall k :: 0 <= k < 8 ==> g[k] < 0x1_0000
    requires ZeroRange(g, r.start, r.start + r.length)
    ensures ParseIpv6(Render(g, r)) == Some(g)
  {
    hide Hex, ParseGroups, FirstDouble, SingleColons;
    if r.length < 2 {
      HexParts(g);
      SingleHasNoDouble(Hex(g));
    } else {
      var left, right := g[..r.start], g[r.start + r.length..];
      var l, t := Hex(left), Hex(right);
      HexParts(left);
      HexParts(right);
      DoubleIsFirst(l, t);
      var s := l + "::" + t;
      assert s[..|l|] == l && s[|l| + 2..] == t;
      assert left + Zeros(r.length) + right == g;
    }
  }

  lemma SingleHasNoDouble(s: string)
    requires SingleColons(s)
    ensures FirstDouble(s, 0) == |s|
  {
    NoDouble(s, 0);
  }

  // Parsing undoes formatting, for all 2^128 addresses.
  lemma Ipv6RoundTrip(a: Addr128)
    ensures ParseIpv6(FormatIpv6(a)) == Some(Groups(a)) && FromGroups(Groups(a)) == a
  {
    hide Render, ParseIpv6;
    LongestRunIsLongest(Groups(a));
    RenderRoundTrip(Groups(a), LongestRun(Groups(a), 0));
    GroupsRoundTrip(a);
  }

  // Sections 4.1, 4.2.2, 4.2.3 and 4.3 of RFC 5952: the one run left out is the leftmost of the longest
  // runs of zero groups, a single zero group is written out, and groups are lower-case numerals without
  // leading zeros.
  lemma TextIsCanonical(a: Addr128)
    ensures exists r :: IsLongestRun(Groups(a), r) && FormatIpv6(a) == Render(Groups(a), r)
    ensures FirstDouble(FormatIpv6(a), 0) < |FormatIpv6(a)| <==>
      exists i :: 0 <= i < 7 && Groups(a)[i] == 0 && Groups(a)[i + 1] == 0
    ensures forall k :: 0 <= k < 8 ==>
      var t := Numerals(Groups(a), 16)[k]; IsNumeral(t, 16) && |t| <= 4 && (t[0] == '0' ==> t == "0")
  {
    LongestRunIsLongest(Groups(a));
    DoubleIffRun(Groups(a), LongestRun(Groups(a), 0));
    forall k | 0 <= k < 8
      ensures var t := Numerals(Groups(a), 16)[k]; IsNumeral(t, 16) && |t| <= 4 && (t[0] == '0' ==> t == "0")
    {
      HexNumeral(Groups(a)[k]);
    }
  }

  lemma HexNumeral(n: nat)
    requires n < 0x1_0000
    ensures var t := Numeral(n, 16); IsNumeral(t, 16) && |t| <= 4 && (t[0] == '0' ==> t == "0")
  {
    NumeralDigits(n, 16);
    assert Power(16, 4) == 0x1_0000;
    NumeralLength(n, 16, 4);
  }

  lemma DoubleIffRun(g: seq<nat>, r: Run)
    requires |g| == 8 && IsLongestRun(g, r) && forall k :: 0 <= k < 8 ==> g[k] < 0x1_0000
    ensures FirstDouble(Render(g, r), 0) < |Render(g, r)| <==> exists i :: 0 <= i < 7 && g[i] == 0 && g[i + 1] == 0
  {
    DoubleIffLong(g, r);
    hide Render, FirstDouble;
    LongIffPair(g, r);
  }

  lemma DoubleIffLong(g: seq<nat>, r: Run)
    requires |g| == 8 && r.start + r.length <= 8 && forall k :: 0 <= k < 8 ==> g[k] < 0x1_0000
    ensures FirstDouble(Render(g, r), 0) < |Render(g, r)| <==> r.length >= 2
  {
    hide Hex, FirstDouble, SingleColons, ParseGroups;
    if r.length < 2 {
      HexParts(g);
      SingleHasNoDouble(Hex(g));
    } else {
      HexParts(g[..r.start]);
      DoubleIsFirst(Hex(g[..r.start]), Hex(g[r.start + r.length..]));
    }
  }

  lemma LongIffPair(g: seq<nat>, r: Run)
    requires |g| == 8 && IsLongestRun(g, r)
    ensures r.length >= 2 <==> exists i :: 0 <= i < 7 && g[i] == 0 && g[i + 1] == 0
  {
    if r.length >= 2 {
      assert g[r.start] == 0 && g[r.start + 1] == 0;
    } else {
      forall i | 0 <= i < 7
        ensures !(g[i] == 0 && g[i + 1] == 0)
      {
        assert !ZeroRange(g, i, i + 2);
      }
    }
  }

  // ---------------------------------------------------------------- one source, one key

  // IPv4 addresses as the flow table keys them: mapped into the last four bytes.
  function MappedAddr(w: Word32): Addr128 {
    seq(10, _ => 0) + [0xFF, 0xFF] + Octets(w)
  }

  // What the flow table makes of an address string; unreadable text yields zeros.
  function AddrOfIpv4Text(s: string): Addr128 {
    match ParseIpv4(s)
    case None => MappedAddr(0)
    case Some(w) => MappedAddr(w)
  }

  function AddrOfIpv6Text(s: string): Addr128 {
    match ParseIpv6(s)
    case Some(g) => if |g| == 8 && (forall k :: 0 <= k < 8 ==> g[k] < 0x1_0000) then FromGroups(g) else seq(16, _ => 0)
    case None => seq(16, _ => 0)
  }

  // Within each family, the strings that key the detectors and the addresses that key the flow table
  // distinguish exactly the same sources.
  lemma TextAndAddressAgree(v: Word32, w: Word32, a: Addr128, b: Addr128)
    ensures FormatIpv4(v) == FormatIpv4(w) <==> v == w
    ensures AddrOfIpv4Text(FormatIpv4(v)) == AddrOfIpv4Text(FormatIpv4(w)) <==> v == w
    ensures FormatIpv6(a) == FormatIpv6(b) <==> a == b
    ensures AddrOfIpv6Text(FormatIpv6(a)) == a
  {
    hide FormatIpv4, FormatIpv6, ParseIpv4, ParseIpv6, FromOctets, Octets;
    Ipv4RoundTrip(v);
    Ipv4RoundTrip(w);
    OctetsRoundTrip(v);
    OctetsRoundTrip(w);
    MappedOctets(v);
    MappedOctets(w);
    Ipv6RoundTrip(a);
    Ipv6RoundTrip(b);
  }

  lemma MappedOctets(w: Word32)
    ensures MappedAddr(w)[12..] == Octets(w)
  {
  }
}
