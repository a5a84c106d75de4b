/** CIDR blocks as internal/iprules/rules.go normalises them: an address as one number, a network as
    that number with its host bits cleared. */
module Blocks {
  import opened Text
  import opened Addresses

  /** The number with its `d` low bits cleared. */
  function ClearLow(x: nat, d: nat): (y: nat)
    ensures y <= x
  {
    if d == 0 then x else 2 * ClearLow(x / 2, d - 1)
  }

  /** The `kept` high bits of a number of `width` bits. */
  function HighBits(x: nat, width: nat, kept: int): (y: nat)
    ensures y <= x
  {
    if kept >= width then x else ClearLow(x, width - if kept < 0 then 0 else kept)
  }

  function Masked(a: Addr, n: nat): (b: Addr)
    requires a.Valid()
    ensures b.Valid() && b.Bits() == a.Bits()
  {
    match a
    case V4(o) => V4([HighBits(o[0], 8, n), HighBits(o[1], 8, n - 8), HighBits(o[2], 8, n - 16),
                      HighBits(o[3], 8, n - 24)])
    case V6(g) =>
      V6([HighBits(g[0], 16, n), HighBits(g[1], 16, n - 16), HighBits(g[2], 16, n - 32), HighBits(g[3], 16, n - 48),
          HighBits(g[4], 16, n - 64), HighBits(g[5], 16, n - 80), HighBits(g[6], 16, n - 96),
          HighBits(g[7], 16, n - 112)])
  }

  // --------------------------------------------------------------- addresses as numbers

  function Pow2(n: nat): (p: nat)
    ensures p > 0
  {
    if n == 0 then 1 else 2 * Pow2(n - 1)
  }

  /** An address as one number, of 32 or of 128 bits. */
  function Value(a: Addr): nat {
    match a case V4(o) => Number(o, 256) case V6(g) => Number(g, 65536)
  }

  /** The address stands for an IPv4 address in IPv6. */
  predicate IsMapped(a: Addr) {
    a.V6? && Value(a) / 0x1_0000_0000 == 0xFFFF
  }

  lemma QuotientIs(q: nat, m: nat, r: nat)
    requires r < m
    ensures (q * m + r) / m == q && (q * m + r) % m == r
  {
    var x := q * m + r;
    var d := q - x / m;
    assert d * m == x % m - r;
  }

  lemma {:induction false} PowSum(a: nat, b: nat)
    ensures Pow2(a + b) == Pow2(a) * Pow2(b)
  {
    if a > 0 {
      PowSum(a - 1, b);
    }
  }

  lemma ClearStep(x: nat, p: nat)
    requires p > 0
    ensures 2 * (x / 2 - x / 2 % p) == x - x % (2 * p)
  {
    var h := x / 2;
    var q, r := h / p, h % p;
    assert x == q * (2 * p) + (2 * r + x % 2);
    QuotientIs(q, 2 * p, 2 * r + x % 2);
  }

  lemma {:induction false} ClearLowIs(x: nat, d: nat)
    ensures ClearLow(x, d) == x - x % Pow2(d)
  {
    if d > 0 {
      ClearLowIs(x / 2, d - 1);
      ClearStep(x, Pow2(d - 1));
    }
  }

  lemma QuotientTimes(x: nat, p: nat)
    requires p > 0
    ensures x == x / p * p + x % p
  {
  }

  lemma Combined(q: nat, h: nat, l: nat, p: nat, k: nat)
    ensures q * (p * k) + (h * p + l) == (q * k + h) * p + l
  {
  }

  /** Clearing less than the last digit. */
  lemma LastDigitCleared(front: nat, x: nat, p: nat, k: nat, base: nat)
    requires p > 0 && base == p * k
    ensures var v := front * base + x; front * base + (x - x % p) == v - v % p
  {
    var q, r := x / p, x % p;
    QuotientTimes(x, p);
    Combined(front, q, r, p, k);
    QuotientIs(front * k + q, p, r);
  }

  lemma BelowProduct(r: nat, x: nat, p: nat, base: nat)
    requires r < p && x < base
    ensures r * base + x < p * base
  {
    assert p * base == r * base + base + (p - r - 1) * base;
  }

  lemma Scaled(q: nat, r: nat, p: nat, base: nat, x: nat)
    ensures (q * p + r) * base + x == q * (p * base) + (r * base + x)
    ensures (q * p + r - r) * base == q * (p * base)
  {
  }

  lemma DigitsClearedBy(v: nat, q: nat, r: nat, x: nat, p: nat, base: nat)
    requires r < p && x < base && v == (q * p + r) * base + x
    ensures p * base > 0 && v - v % (p * base) == q * (p * base)
  {
    BelowProduct(r, x, p, base);
    Scaled(q, r, p, base, x);
    QuotientIs(q, p * base, r * base + x);
  }

  /** Clearing the last digit and more. */
  lemma DigitsCleared(front: nat, x: nat, p: nat, base: nat)
    requires p > 0 && x < base
    ensures var v := front * base + x; p * base > 0 && (front - front % p) * base == v - v % (p * base)
  {
    var q, r := front / p, front % p;
    QuotientTimes(front, p);
    DigitsClearedBy(front * base + x, q, r, x, p, base);
    Scaled(q, r, p, base, x);
  }

  /** The high `n` bits of digits of `width` bits each. */
  ghost predicate MasksDigits(masked: seq<nat>, digits: seq<nat>, width: nat, n: nat) {
    |masked| == |digits| && forall i :: 0 <= i < |digits| ==> masked[i] == HighBits(digits[i], width, n - width * i)
  }

  ghost predicate AreDigits(digits: seq<nat>, base: nat) {
    forall i :: 0 <= i < |digits| ==> digits[i] < base
  }

  lemma KeptAt(width: nat, i: nat, count: nat, n: nat)
    requires i < count && n >= width * count
    ensures n - width * i >= width
  {
    assert width * count == width * i + width + width * (count - i - 1);
  }

  lemma KeptWhole(masked: seq<nat>, digits: seq<nat>, width: nat, n: nat)
    requires MasksDigits(masked, digits, width, n) && n >= width * |digits|
    ensures masked == digits
  {
    forall i | 0 <= i < |digits|
      ensures masked[i] == digits[i]
    {
      KeptAt(width, i, |digits|, n);
    }
  }

  lemma ClearAll(x: nat, width: nat)
    requires x < Pow2(width)
    ensures ClearLow(x, width) == 0
  {
    ClearLowIs(x, width);
  }

  lemma MaskedInLast(front: nat, x: nat, width: nat, d: nat)
    requires d <= width
    ensures
      var base := Pow2(width);
      var v := front * base + x;
      front * base + ClearLow(x, d) == v - v % Pow2(d)
  {
    ClearLowIs(x, d);
    PowSum(d, width - d);
    LastDigitCleared(front, x, Pow2(d), Pow2(width - d), Pow2(width));
  }

  lemma MaskedBefore(front: nat, x: nat, width: nat, d: nat)
    requires x < Pow2(width)
    ensures
      var base := Pow2(width);
      var v := front * base + x;
      (front - front % Pow2(d)) * base + ClearLow(x, width) == v - v % Pow2(d + width)
  {
    ClearAll(x, width);
    PowSum(d, width);
    DigitsCleared(front, x, Pow2(d), Pow2(width));
  }

  lemma LastMasked(masked: seq<nat>, digits: seq<nat>, width: nat, n: nat)
    requires MasksDigits(masked, digits, width, n) && digits != [] && n <= width * |digits|
    ensures
      var k, x := |digits| - 1, digits[|digits| - 1];
      && width * |digits| == width * k + width
      && masked[k] == if n >= width * k then ClearLow(x, width * |digits| - n) else ClearLow(x, width)
  {
  }

  /** Masking the digits clears the low bits of the number. */
  lemma {:induction false} MaskedNumber(masked: seq<nat>, digits: seq<nat>, width: nat, n: nat)
    requires MasksDigits(masked, digits, width, n) && AreDigits(digits, Pow2(width)) && n <= width * |digits|
    ensures
      var v := Number(digits, Pow2(width));
      Number(masked, Pow2(width)) == v - v % Pow2(width * |digits| - n)
  {
    if digits != [] {
      var k := |digits| - 1;
      var w, front, x := width * k, Number(digits[..k], Pow2(width)), digits[k];
      LastMasked(masked, digits, width, n);
      if n >= w {
        KeptWhole(masked[..k], digits[..k], width, n);
        MaskedInLast(front, x, width, w + width - n);
      } else {
        MaskedNumber(masked[..k], digits[..k], width, n);
        MaskedBefore(front, x, width, w - n);
        assert w - n + width == width * |digits| - n;
      }
    }
  }

  lemma Powers()
    ensures Pow2(8) == 256 && Pow2(16) == 65536 && Pow2(32) == 0x1_0000_0000
  {
    PowSum(8, 8);
    PowSum(16, 16);
  }

  lemma OctetsMasked(o: seq<nat>, n: nat)
    requires IsOctets(o)
    ensures MasksDigits(Masked(V4(o), n).octets, o, 8, n)
  {
  }

  lemma GroupsMasked(g: seq<nat>, n: nat)
    requires IsV6(g)
    ensures MasksDigits(Masked(V6(g), n).groups, g, 16, n)
  {
  }

  /** The network's address, as a number: the address with its host bits cleared. */
  lemma MaskedValue(a: Addr, n: nat)
    requires a.Valid() && n <= a.Bits()
    ensures Value(Masked(a, n)) == Value(a) - Value(a) % Pow2(a.Bits() - n)
  {
    Powers();
    match a {
      case V4(o) =>
        OctetsMasked(o, n);
        MaskedNumber(Masked(a, n).octets, o, 8, n);
      case V6(g) =>
        GroupsMasked(g, n);
        MaskedNumber(Masked(a, n).groups, g, 16, n);
    }
  }

  lemma {:induction false} NumberInjective(x: seq<nat>, y: seq<nat>, base: nat)
    requires |x| == |y| && AreDigits(x, base) && AreDigits(y, base)
    requires Number(x, base) == Number(y, base)
    ensures x == y
  {
    if x != [] {
      var k := |x| - 1;
      QuotientIs(Number(x[..k], base), base, x[k]);
      QuotientIs(Number(y[..k], base), base, y[k]);
      NumberInjective(x[..k], y[..k], base);
      assert x == x[..k] + [x[k]] && y == y[..k] + [y[k]];
    }
  }

  /** An address is told by its family and its number. */
  lemma ValueInjective(a: Addr, b: Addr)
    requires a.Valid() && b.Valid() && a.Bits() == b.Bits() && Value(a) == Value(b)
    ensures a == b
  {
    match a {
      case V4(o) => NumberInjective(o, b.octets, 256);
      case V6(g) => NumberInjective(g, b.groups, 65536);
    }
  }

  lemma V4Number(o: seq<nat>)
    requires |o| == 4
    ensures Number(o, 256) == 0x100_0000 * o[0] + 0x1_0000 * o[1] + 0x100 * o[2] + o[3]
  {
    var a, b, c := o[..1], o[..2], o[..3];
    assert a[..0] == [] && b[..1] == a && c[..2] == b;
    assert Number(a, 256) == o[0];
    assert Number(b, 256) == 0x100 * o[0] + o[1];
    assert Number(c, 256) == 0x1_0000 * o[0] + 0x100 * o[1] + o[2];
  }

  lemma V6Number(g: seq<nat>)
    requires |g| == 8
    ensures Number(g, 65536) == 0x1_0000_0000 * Number(g[..6], 65536) + 0x1_0000 * g[6] + g[7]
  {
    assert g[..7][..6] == g[..6];
  }

  lemma HighGroups(g: seq<nat>)
    requires IsV6(g)
    ensures Number(g[..6], 65536) == 0xFFFF <==> g[0] == g[1] == g[2] == g[3] == g[4] == 0 && g[5] == 65535
  {
    var a, b, c, d, e, f := g[..1], g[..2], g[..3], g[..4], g[..5], g[..6];
    assert a[..0] == [] && b[..1] == a && c[..2] == b && d[..3] == c && e[..4] == d && f[..5] == e;
    assert Number(a, 65536) == g[0];
    assert Number(b, 65536) == 0 <==> g[0] == g[1] == 0;
    assert Number(c, 65536) == 0 <==> g[0] == g[1] == g[2] == 0;
    assert Number(d, 65536) == 0 <==> g[0] == g[1] == g[2] == g[3] == 0;
    assert Number(e, 65536) == 0 <==> g[0] == g[1] == g[2] == g[3] == g[4] == 0;
  }

  /** Which addresses are taken for IPv4, and for which. */
  lemma UnmappedValue(a: Addr)
    requires a.Valid()
    ensures IsMapped(a) ==> Unmapped(a).V4? && Value(Unmapped(a)) == Value(a) % 0x1_0000_0000
    ensures !IsMapped(a) ==> Unmapped(a) == a
  {
    if a.V6? {
      var g := a.groups;
      V6Number(g);
      HighGroups(g);
      QuotientIs(Number(g[..6], 65536), 0x1_0000_0000, 0x1_0000 * g[6] + g[7]);
      if IsMapped(a) {
        V4Number(Unmapped(a).octets);
      }
    }
  }

  // --------------------------------------------------------------- normalising an entry

  /** A mask length: digits only, below the library's overflow bound. */
  function ParseLength(s: string): Option<nat> {
    if s != "" && (forall i :: 0 <= i < |s| ==> IsDigit(s[i])) && DecimalValue(s) < 0xFFFFFF then
      Some(DecimalValue(s))
    else None
  }

  /** Before and after the first slash. */
  function CutSlash(s: string): Option<(string, string)> {
    var n := Span(c => c != '/', s);
    if n < |s| then Some((s[..n], s[n + 1..])) else None
  }

  function BlockText(a: Addr, n: nat): string
    requires a.Valid()
  {
    Format(a) + ("/" + Decimal(n))
  }

  /** The network of a block, printed; a mapped network is printed as IPv4. */
  function NetworkText(a: Addr, n: nat): string
    requires a.Valid() && n <= a.Bits()
  {
    var network := Masked(a, n);
    var shown := Unmapped(network);
    BlockText(shown, if shown.V4? && network.V6? && n >= 96 then n - 96 else n)
  }

  function ParseCidr(entry: string): Option<string> {
    match CutSlash(entry)
    case None => None
    case Some((addr, mask)) =>
      match ParseAddr(addr)
      case None => None
      case Some(a) =>
        match ParseLength(mask)
        case None => None
        case Some(n) => if n <= a.Bits() then Some(NetworkText(a, n)) else None
  }

  /** A block or a single address in CIDR notation, or None for anything else. */
  function NormalizeEntry(entry: string): Option<string> {
    match ParseCidr(entry)
    case Some(text) => Some(text)
    case None =>
      match ParseAddr(entry)
      case None => None
      case Some(a) => var shown := Unmapped(a); Some(BlockText(shown, shown.Bits()))
  }

  lemma SlashCuts(addr: string, mask: string)
    requires Without(addr, '/')
    ensures CutSlash(addr + ("/" + mask)) == Some((addr, mask))
  {
    SpanOf(c => c != '/', addr, "/" + mask);
    assert (addr + ("/" + mask))[|addr| + 1..] == mask;
  }

  lemma LengthParses(n: nat)
    requires n <= 128
    ensures ParseLength(Decimal(n)) == Some(n)
  {
    DecimalRoundTrip(n);
  }

  lemma BlockTextParses(a: Addr, n: nat)
    requires a.Valid() && n <= a.Bits()
    ensures ParseCidr(BlockText(a, n)) == Some(NetworkText(a, n))
  {
    assert Without(Format(a), '/') by {
      FormatChars(a);
    }
    SlashCuts(Format(a), Decimal(n));
    AddrRoundTrip(a);
    LengthParses(n);
  }

  /** A canonical block: no host bits, and not an IPv4 one in disguise. */
  ghost predicate Canonical(text: string) {
    exists a: Addr, n: nat :: CanonicalBlock(a, n) && text == BlockText(a, n)
  }

  ghost predicate CanonicalBlock(a: Addr, n: nat) {
    a.Valid() && n <= a.Bits() && Value(a) % Pow2(a.Bits() - n) == 0 && !IsMapped(a)
  }

  lemma CanonicalIsFixed(a: Addr, n: nat)
    requires CanonicalBlock(a, n)
    ensures NormalizeEntry(BlockText(a, n)) == Some(BlockText(a, n))
  {
    BlockTextParses(a, n);
    MaskedValue(a, n);
    ValueInjective(Masked(a, n), a);
    UnmappedValue(a);
  }

  /** What an entry denotes: a single address, or an address and the length of a prefix. */
  ghost predicate Denotes(entry: string, a: Addr, n: nat) {
    && a.Valid() && n <= a.Bits()
    && ((Spells(entry, a) && n == a.Bits()) || exists addr, mask :: SpellsBlock(entry, addr, mask, a, n))
  }

  ghost predicate SpellsBlock(entry: string, addr: string, mask: string, a: Addr, n: nat) {
    entry == addr + ("/" + mask) && Spells(addr, a) && mask != "" && All(IsDigit, mask) && DecimalValue(mask) == n
  }

  /** The block of `m` bits at `b` is the network of the block of `n` bits at `a`: its number is that
      of `a` with the host bits cleared; in an IPv4 network written in IPv6, the last 32 bits of it. */
  ghost predicate IsNetwork(a: Addr, n: nat, b: Addr, m: nat)
    requires n <= a.Bits()
  {
    var v := Value(a) - Value(a) % Pow2(a.Bits() - n);
    b.Valid() &&
    if a.V6? && v / 0x1_0000_0000 == 0xFFFF then b.V4? && Value(b) == v % 0x1_0000_0000 && m == n - 96
    else b.Bits() == a.Bits() && Value(b) == v && m == n
  }

  lemma EvenQuotient(v: nat, q: nat, p: nat, k: nat)
    requires v == q * p && p == 2 * k * 0x1_0000_0000
    ensures v / 0x1_0000_0000 % 2 == 0
  {
    Doubled(q, k, 0x1_0000_0000);
    QuotientIs(2 * (q * k), 0x1_0000_0000, 0);
  }

  lemma Doubled(q: nat, k: nat, m: nat)
    ensures q * (2 * k * m) == 2 * (q * k) * m
  {
  }

  /** Where a network is an IPv4 one, at least 96 bits are kept. */
  lemma MappedNeeds96(v: nat, d: nat)
    requires v % Pow2(d) == 0 && v / 0x1_0000_0000 == 0xFFFF
    ensures d <= 32
  {
    if d > 32 {
      var k := Pow2(d - 33);
      Powers();
      PowSum(d - 33, 32);
      assert Pow2(d) == 2 * k * 0x1_0000_0000;
      QuotientTimes(v, Pow2(d));
      EvenQuotient(v, v / Pow2(d), Pow2(d), k);
    }
  }

  lemma LowBitsBy(v: nat, q: nat, h: nat, l: nat, p: nat, k: nat)
    requires l < p && v == q * (p * k) + (h * p + l)
    ensures v % p == l
  {
    Combined(q, h, l, p, k);
    QuotientIs(q * k + h, p, l);
  }

  lemma LowBits(v: nat, p: nat, k: nat)
    requires p > 0 && k > 0 && v % p == 0
    ensures p * k > 0 && v % (p * k) % p == 0
  {
    BelowProduct(0, 0, p, k);
    var m := p * k;
    var q, r := v / m, v % m;
    QuotientTimes(v, m);
    QuotientTimes(r, p);
    LowBitsBy(v, q, r / p, r % p, p, k);
  }

  lemma ClearedIsDivisible(v: nat, p: nat)
    requires p > 0
    ensures (v - v % p) % p == 0
  {
    QuotientIs(v / p, p, 0);
  }

  ghost predicate Shows(a: Addr, n: nat, b: Addr, m: nat)
    requires n <= a.Bits()
  {
    IsNetwork(a, n, b, m) && CanonicalBlock(b, m)
  }

  lemma MappedShown(a: Addr, n: nat, network: Addr)
    requires a.Valid() && n <= a.Bits() && network == Masked(a, n) && IsMapped(network)
    requires Value(network) == Value(a) - Value(a) % Pow2(a.Bits() - n)
    requires Value(network) % Pow2(a.Bits() - n) == 0
    ensures n >= 96 && Shows(a, n, Unmapped(network), n - 96)
  {
    var d, v := a.Bits() - n, Value(network);
    UnmappedValue(network);
    MappedNeeds96(v, d);
    Powers();
    PowSum(d, 32 - d);
    LowBits(v, Pow2(d), Pow2(32 - d));
  }

  /** The shown network: its bits, and that none of its host bits are set. */
  lemma NetworkShown(a: Addr, n: nat) returns (b: Addr, m: nat)
    requires a.Valid() && n <= a.Bits()
    ensures Shows(a, n, b, m) && NetworkText(a, n) == BlockText(b, m)
  {
    var network := Masked(a, n);
    MaskedValue(a, n);
    ClearedIsDivisible(Value(a), Pow2(a.Bits() - n));
    UnmappedValue(network);
    b, m := Unmapped(network), n;
    if IsMapped(network) {
      MappedShown(a, n, network);
      m := n - 96;
    }
  }

  lemma NetworkIsOne(a: Addr, n: nat, b: Addr, m: nat, b': Addr, m': nat)
    requires n <= a.Bits() && IsNetwork(a, n, b, m) && IsNetwork(a, n, b', m')
    ensures b == b' && m == m'
  {
    ValueInjective(b, b');
  }

  lemma SingleIsNetwork(a: Addr)
    requires a.Valid()
    ensures var b := Unmapped(a); BlockText(b, b.Bits()) == NetworkText(a, a.Bits())
  {
    MaskedValue(a, a.Bits());
    ValueInjective(Masked(a, a.Bits()), a);
  }

  lemma CutSlashIs(entry: string)
    requires CutSlash(entry).Some?
    ensures var (addr, mask) := CutSlash(entry).value; entry == addr + ("/" + mask)
  {
  }

  lemma CidrIsDenoted(entry: string)
    requires ParseCidr(entry).Some?
    ensures exists a: Addr, n: nat :: Denotes(entry, a, n) && ParseCidr(entry).value == NetworkText(a, n)
  {
    CutSlashIs(entry);
    var (addr, mask) := CutSlash(entry).value;
    var a, n := ParseAddr(addr).value, ParseLength(mask).value;
    ParseAddrIff(addr, a);
    assert SpellsBlock(entry, addr, mask, a, n);
    assert Denotes(entry, a, n);
  }

  lemma NoSlashNoCidr(entry: string)
    requires Without(entry, '/')
    ensures ParseCidr(entry) == None
  {
  }

  lemma SingleIsNormalized(entry: string, a: Addr)
    requires a.Valid() && Spells(entry, a)
    ensures NormalizeEntry(entry) == Some(NetworkText(a, a.Bits()))
  {
    SpelledHasNoSlash(entry, a);
    NoSlashNoCidr(entry);
    ParseAddrIff(entry, a);
    SingleIsNetwork(a);
  }

  lemma BlockIsNormalized(entry: string, addr: string, mask: string, a: Addr, n: nat)
    requires a.Valid() && n <= a.Bits() && SpellsBlock(entry, addr, mask, a, n)
    ensures NormalizeEntry(entry) == Some(NetworkText(a, n))
  {
    SpelledHasNoSlash(addr, a);
    SlashCuts(addr, mask);
    ParseAddrIff(addr, a);
  }

  lemma DenotedIsNormalized(entry: string, a: Addr, n: nat)
    requires Denotes(entry, a, n)
    ensures NormalizeEntry(entry) == Some(NetworkText(a, n))
  {
    if Spells(entry, a) && n == a.Bits() {
      SingleIsNormalized(entry, a);
    } else {
      var addr, mask :| SpellsBlock(entry, addr, mask, a, n);
      BlockIsNormalized(entry, addr, mask, a, n);
    }
  }

  lemma NormalizedIsDenoted(entry: string)
    requires NormalizeEntry(entry).Some?
    ensures exists a: Addr, n: nat :: Denotes(entry, a, n) && NormalizeEntry(entry).value == NetworkText(a, n)
  {
    match ParseCidr(entry) {
      case Some(_) => CidrIsDenoted(entry);
      case None =>
        var a := ParseAddr(entry).value;
        ParseAddrIff(entry, a);
        SingleIsNetwork(a);
        assert Denotes(entry, a, a.Bits());
    }
  }

  ghost predicate IsNetworkText(a: Addr, n: nat, text: string)
    requires n <= a.Bits()
  {
    exists b: Addr, m: nat :: IsNetwork(a, n, b, m) && text == BlockText(b, m)
  }

  lemma NetworkTextIff(a: Addr, n: nat, text: string)
    requires a.Valid() && n <= a.Bits()
    ensures text == NetworkText(a, n) <==> IsNetworkText(a, n, text)
  {
    var b, m := NetworkShown(a, n);
    if IsNetworkText(a, n, text) {
      var b': Addr, m': nat :| IsNetwork(a, n, b', m') && text == BlockText(b', m');
      NetworkIsOne(a, n, b, m, b', m');
    }
  }

  /** Exactly the texts that denote an address or a block are accepted, and each becomes the text of
      its network. */
  lemma NormalizedIsNetwork(entry: string, text: string)
    ensures NormalizeEntry(entry) == Some(text) <==>
            exists a: Addr, n: nat :: Denotes(entry, a, n) && IsNetworkText(a, n, text)
  {
    if NormalizeEntry(entry) == Some(text) {
      NormalizedIsDenoted(entry);
      var a: Addr, n: nat :| Denotes(entry, a, n) && text == NetworkText(a, n);
      NetworkTextIff(a, n, text);
    }
    if a: Addr, n: nat :| Denotes(entry, a, n) && IsNetworkText(a, n, text) {
      DenotedIsNormalized(entry, a, n);
      NetworkTextIff(a, n, text);
    }
  }

  /** Normalising gives a canonical block ... */
  lemma NormalizedIsCanonical(entry: string)
    requires NormalizeEntry(entry).Some?
    ensures Canonical(NormalizeEntry(entry).value)
  {
    NormalizedIsDenoted(entry);
    var a: Addr, n: nat :| Denotes(entry, a, n) && NormalizeEntry(entry).value == NetworkText(a, n);
    var b, m := NetworkShown(a, n);
  }

  /** ... and normalising that again changes nothing. */
  lemma NormalizedIsFixed(entry: string)
    requires NormalizeEntry(entry).Some?
    ensures NormalizeEntry(NormalizeEntry(entry).value) == NormalizeEntry(entry)
  {
    NormalizedIsCanonical(entry);
    var a: Addr, n: nat :| CanonicalBlock(a, n) && NormalizeEntry(entry).value == BlockText(a, n);
    CanonicalIsFixed(a, n);
  }

  lemma SmallDecimals()
    ensures Decimal(10) == "10"
    ensures Decimal(0) == "0" && Decimal(1) == "1" && Decimal(2) == "2" && Decimal(3) == "3" && Decimal(8) == "8"
  {
    assert Decimal(10) == Decimal(1) + [Digit(0)];
  }

  lemma PrivateBlockIsSpelled()
    ensures Denotes("10.1.2.3/8", V4([10, 1, 2, 3]), 8)
  {
    SmallDecimals();
    var addr, mask := "10.1.2.3", "8";
    assert addr == "10" + "." + "1" + "." + "2" + "." + "3";
    assert "10.1.2.3/8" == addr + ("/" + mask);
    assert DecimalValue(mask) == 8 by {
      DecimalRoundTrip(8);
    }
    assert SpellsBlock("10.1.2.3/8", addr, mask, V4([10, 1, 2, 3]), 8);
  }

  lemma PrivateBlockText()
    ensures BlockText(V4([10, 0, 0, 0]), 8) == "10.0.0.0/8"
  {
    SmallDecimals();
    var f := FormatV4([10, 0, 0, 0]);
    assert f == "10" + "." + ("0" + "." + ("0" + "." + "0"));
    assert f == "10.0.0.0";
    assert f + ("/" + "8") == "10.0.0.0/8";
  }

  lemma PrivateNetwork()
    ensures IsNetwork(V4([10, 1, 2, 3]), 8, V4([10, 0, 0, 0]), 8)
  {
    V4Number([10, 1, 2, 3]);
    V4Number([10, 0, 0, 0]);
    Powers();
    PowSum(8, 16);
  }

  lemma NetworkIsNormalized(entry: string, a: Addr, n: nat, b: Addr, m: nat)
    requires Denotes(entry, a, n) && IsNetwork(a, n, b, m)
    ensures NormalizeEntry(entry) == Some(BlockText(b, m))
  {
    NormalizedIsNetwork(entry, BlockText(b, m));
  }

  /** The host bits of an entry do not stay. */
  lemma HostBitsAreCleared(entry: string)
    requires entry == "10.1.2.3/8"
    ensures NormalizeEntry(entry) == Some("10.0.0.0/8")
  {
    PrivateBlockIsSpelled();
    PrivateBlockText();
    PrivateNetwork();
    NetworkIsNormalized(entry, V4([10, 1, 2, 3]), 8, V4([10, 0, 0, 0]), 8);
  }

  predicate IsBlockChar(c: char) { IsAddrChar(c) || c == '/' }

  lemma BlockChars(a: Addr, n: nat)
    requires a.Valid()
    ensures BlockText(a, n) != "" && All(IsBlockChar, BlockText(a, n))
  {
    FormatChars(a);
    assert All(IsBlockChar, Format(a)) && All(IsBlockChar, Decimal(n));
  }

  /** Nothing of a normalised entry can leave its place in the file. */
  lemma NormalizedIsOneWord(entry: string)
    requires NormalizeEntry(entry).Some?
    ensures NormalizeEntry(entry).value != "" && All(IsBlockChar, NormalizeEntry(entry).value)
  {
    NormalizedIsCanonical(entry);
    var a: Addr, n: nat :| CanonicalBlock(a, n) && NormalizeEntry(entry).value == BlockText(a, n);
    BlockChars(a, n);
  }
}
