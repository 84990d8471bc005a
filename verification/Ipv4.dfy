/** IPv4 addresses and prefixes as Go's net/netip reads and writes them. */
module Ipv4 {
  import opened Options
  import opened Text
  import Decimal

  type Addr = n: nat | n < 0x1_0000_0000

  const MAX_BITS: nat := 32

  function Pow2(n: nat): (p: nat)
    ensures p >= 1
  {
    if n == 0 then 1 else 2 * Pow2(n - 1)
  }

  datatype Prefix = Prefix(addr: Addr, bits: nat)

  // Number of addresses under a prefix of n bits.
  function Span(n: nat): (p: nat)
    requires n <= MAX_BITS
    ensures p >= 1
  {
    Pow2(MAX_BITS - n)
  }

  // The prefix of n bits that holds an address.
  function Cover(a: Addr, n: nat): Prefix
    requires n <= MAX_BITS
  {
    Prefix(Floor(a, Span(n)), n)
  }

  function Floor(a: Addr, m: nat): Addr
    requires m >= 1
  {
    a - a % m
  }

  // No bit set beyond the prefix length.
  predicate IsMasked(p: Prefix) {
    p.bits <= MAX_BITS && p.addr % Span(p.bits) == 0
  }

  function Masked(p: Prefix): Prefix
    requires p.bits <= MAX_BITS
  {
    Cover(p.addr, p.bits)
  }

  function Host(a: Addr): Prefix {
    Prefix(a, MAX_BITS)
  }

  predicate Holds(p: Prefix, a: Addr)
    requires p.bits <= MAX_BITS
  {
    p.addr <= a < p.addr + Span(p.bits)
  }

  lemma CoverMasked(a: Addr, n: nat)
    requires n <= MAX_BITS
    ensures IsMasked(Cover(a, n)) && Holds(Cover(a, n), a)
  {
    FloorMod(a, Span(n));
  }

  lemma FloorMod(a: nat, m: nat)
    requires m >= 1
    ensures (a - a % m) % m == 0 && a % m < m
  {
    var q := a / m;
    assert a - a % m == q * m;
    MultipleMod(q, m);
  }

  lemma MultipleMod(q: nat, m: nat)
    requires m >= 1
    ensures (q * m) % m == 0
  {
    QuotientUnique(q * m, m, q);
  }

  lemma ProductMonotone(x: nat, y: nat, m: nat)
    ensures x <= y ==> x * m <= y * m
  {
    if x <= y {
      assert y * m == x * m + (y - x) * m;
    }
  }

  lemma SameQuotient(d: nat, r: nat, m: nat, q: nat)
    requires r < m && q * m <= d * m + r < q * m + m
    ensures d == q
  {
    assert (d + 1) * m == d * m + m && (q + 1) * m == q * m + m;
    ProductMonotone(d + 1, q, m);
    ProductMonotone(q + 1, d, m);
  }

  lemma QuotientUnique(a: nat, m: nat, q: nat)
    requires m >= 1 && q * m <= a < q * m + m
    ensures a / m == q && a % m == a - q * m
  {
    var d, r := a / m, a % m;
    assert a == d * m + r && 0 <= r < m;
    SameQuotient(d, r, m, q);
  }

  lemma FloorOf(a: nat, base: nat, m: nat)
    requires m >= 1 && base % m == 0 && base <= a < base + m
    ensures a - a % m == base
  {
    var q := base / m;
    assert base == q * m;
    QuotientUnique(a, m, q);
  }

  // A masked prefix holds an address exactly when it is the address's cover of its length.
  lemma HoldsIsCover(p: Prefix, a: Addr)
    requires IsMasked(p)
    ensures Holds(p, a) <==> p == Cover(a, p.bits)
  {
    hide Span, Pow2;
    CoverMasked(a, p.bits);
    if Holds(p, a) {
      FloorOf(a, p.addr, Span(p.bits));
    }
  }

  // ------------------------------------------------------------- text

  function Octet(a: Addr, i: nat): nat
    requires i < 4
    ensures Octet(a, i) <= 255
  {
    if i == 0 then a / 0x100 / 0x100 / 0x100
    else if i == 1 then a / 0x100 / 0x100 % 0x100
    else if i == 2 then a / 0x100 % 0x100
    else a % 0x100
  }

  function PrintAddr(a: Addr): string {
    Join([Decimal.Itoa(Octet(a, 0)), Decimal.Itoa(Octet(a, 1)), Decimal.Itoa(Octet(a, 2)), Decimal.Itoa(Octet(a, 3))],
        '.')
  }

  predicate IsOctet(s: string) {
    Decimal.Canonical(s) && |s| <= 3 && Decimal.Value(s) <= 255
  }

  // Dotted quad: four octets without leading zeros.
  function ParseQuad(s: string): Option<Addr> {
    var parts := Split(s, '.');
    if |parts| == 4 && IsOctet(parts[0]) && IsOctet(parts[1]) && IsOctet(parts[2]) && IsOctet(parts[3]) then
      Some(Decimal.Value(parts[0]) * 0x100_0000 + Decimal.Value(parts[1]) * 0x1_0000
           + Decimal.Value(parts[2]) * 0x100 + Decimal.Value(parts[3]))
    else None
  }

  datatype IP = V4(addr: Addr) | V6

  // IPv6 syntax is not modelled; which texts it accepts is a parameter.
  datatype V6Syntax = V6Syntax(isAddr: string -> bool, isPrefix: string -> bool)

  // netip.ParseAddr decides the family by the first of '.', ':' and '%'.
  function FamilyMark(s: string): char {
    if s == "" then ' '
    else if s[0] in ".:%" then s[0]
    else FamilyMark(s[1..])
  }

  function ParseAddr(v6: V6Syntax, s: string): Option<IP> {
    var mark := FamilyMark(s);
    if mark == '.' then
      match ParseQuad(s)
      case Some(a) => Some(V4(a))
      case None => None
    else if mark == ':' && v6.isAddr(s) then Some(V6)
    else None
  }

  datatype Net = Net4(prefix: Prefix) | Net6

  function LastSlash(s: string): (i: int)
    ensures -1 <= i < |s|
    ensures i >= 0 ==> s[i] == '/' && '/' !in s[i + 1..]
    ensures i < 0 ==> '/' !in s
  {
    if s == "" then -1
    else if s[|s| - 1] == '/' then |s| - 1
    else
      var i := LastSlash(s[..|s| - 1]);
      assert i >= 0 ==> s[i + 1..] == s[..|s| - 1][i + 1..] + [s[|s| - 1]];
      assert s == s[..|s| - 1] + [s[|s| - 1]];
      i
  }

  // netip.ParsePrefix: the length has no sign and no leading zero.
  function ParsePrefix(v6: V6Syntax, s: string): (r: Option<Net>)
    ensures r.Some? && r.value.Net4? ==> r.value.prefix.bits <= MAX_BITS
  {
    var i := LastSlash(s);
    if i < 0 then None
    else
      var bits := s[i + 1..];
      match ParseAddr(v6, s[..i])
      case None => None
      case Some(V6) => if v6.isPrefix(s) then Some(Net6) else None
      case Some(V4(a)) =>
        if |bits| > 1 && !('1' <= bits[0] <= '9') then None
        else
          var n := Decimal.Atoi(bits);
          if !n.ok || n.value < 0 || n.value > MAX_BITS then None else Some(Net4(Prefix(a, n.value)))
  }

  function PrintPrefix(p: Prefix): string {
    PrintAddr(p.addr) + "/" + Decimal.Itoa(p.bits)
  }

  lemma ItoaOctet(n: nat)
    requires n <= 255
    ensures IsOctet(Decimal.Itoa(n)) && Decimal.Value(Decimal.Itoa(n)) == n && '.' !in Decimal.Itoa(n)
  {
    Decimal.ItoaReads(n);
    if n >= 10 {
      if n >= 100 {
        assert n / 10 / 10 < 10;
        assert |Decimal.Itoa(n / 10)| == 2;
      }
    }
    forall i | 0 <= i < |Decimal.Itoa(n)|
      ensures Decimal.Itoa(n)[i] != '.'
    {
      assert Decimal.IsDigit(Decimal.Itoa(n)[i]);
    }
  }

  lemma OctetsOf(a: Addr)
    ensures Octet(a, 0) * 0x100_0000 + Octet(a, 1) * 0x1_0000 + Octet(a, 2) * 0x100 + Octet(a, 3) == a
  {
    var b := a / 0x100;
    var c := b / 0x100;
    assert a == b * 0x100 + a % 0x100 && b == c * 0x100 + b % 0x100 && c == c / 0x100 * 0x100 + c % 0x100;
  }

  lemma Byte(high: nat, low: nat)
    requires low <= 255
    ensures (high * 0x100 + low) / 0x100 == high && (high * 0x100 + low) % 0x100 == low
  {
  }

  lemma OctetsUnique(w: nat, x: nat, y: nat, z: nat)
    requires w <= 255 && x <= 255 && y <= 255 && z <= 255
    ensures var a: Addr := w * 0x100_0000 + x * 0x1_0000 + y * 0x100 + z;
            Octet(a, 0) == w && Octet(a, 1) == x && Octet(a, 2) == y && Octet(a, 3) == z
  {
    Byte(w, x);
    Byte(w * 0x100 + x, y);
    Byte((w * 0x100 + x) * 0x100 + y, z);
    assert w * 0x100_0000 + x * 0x1_0000 + y * 0x100 + z == ((w * 0x100 + x) * 0x100 + y) * 0x100 + z;
  }

  lemma QuadReads(a: Addr)
    ensures ParseQuad(PrintAddr(a)) == Some(a)
  {
    var parts := [Decimal.Itoa(Octet(a, 0)), Decimal.Itoa(Octet(a, 1)), Decimal.Itoa(Octet(a, 2)),
        Decimal.Itoa(Octet(a, 3))];
    ItoaOctet(Octet(a, 0));
    ItoaOctet(Octet(a, 1));
    ItoaOctet(Octet(a, 2));
    ItoaOctet(Octet(a, 3));
    SplitJoin(parts, '.');
    OctetsOf(a);
  }

  // A dotted quad that parses is the one its address prints as.
  lemma QuadPrints(s: string)
    requires ParseQuad(s).Some?
    ensures PrintAddr(ParseQuad(s).value) == s
  {
    hide Octet, Split, Decimal.Itoa, Decimal.Value;
    var parts := Split(s, '.');
    JoinSplit(s, '.');
    OctetsUnique(Decimal.Value(parts[0]), Decimal.Value(parts[1]), Decimal.Value(parts[2]), Decimal.Value(parts[3]));
    Decimal.ValuePrints(parts[0]);
    Decimal.ValuePrints(parts[1]);
    Decimal.ValuePrints(parts[2]);
    Decimal.ValuePrints(parts[3]);
    assert parts == [parts[0], parts[1], parts[2], parts[3]];
  }

  predicate QuadChar(c: char) {
    Decimal.IsDigit(c) || c == '.'
  }

  // A printed address starts with digits up to its first dot.
  lemma {:induction false} DigitsThenDot(d: string, rest: string)
    requires Decimal.AllDigits(d)
    ensures FamilyMark(d + ['.'] + rest) == '.'
  {
    var s := d + ['.'] + rest;
    if d != "" {
      assert Decimal.IsDigit(s[0]);
      assert s[1..] == d[1..] + ['.'] + rest;
      DigitsThenDot(d[1..], rest);
    }
  }

  lemma {:induction false} JoinQuadChars(parts: seq<string>)
    requires forall i | 0 <= i < |parts| :: Decimal.AllDigits(parts[i])
    ensures forall i | 0 <= i < |Join(parts, '.')| :: QuadChar(Join(parts, '.')[i])
  {
    if |parts| > 1 {
      JoinQuadChars(parts[1..]);
    }
  }

  lemma PrintedAddr(v6: V6Syntax, a: Addr)
    ensures ParseAddr(v6, PrintAddr(a)) == Some(V4(a))
    ensures forall i | 0 <= i < |PrintAddr(a)| :: QuadChar(PrintAddr(a)[i])
    ensures PrintAddr(a) != ""
  {
    QuadReads(a);
    var parts := [Decimal.Itoa(Octet(a, 0)), Decimal.Itoa(Octet(a, 1)), Decimal.Itoa(Octet(a, 2)),
        Decimal.Itoa(Octet(a, 3))];
    Decimal.ItoaReads(Octet(a, 0));
    Decimal.ItoaReads(Octet(a, 1));
    Decimal.ItoaReads(Octet(a, 2));
    Decimal.ItoaReads(Octet(a, 3));
    JoinQuadChars(parts);
    DigitsThenDot(parts[0], Join(parts[1..], '.'));
  }

  lemma ParsedAddr(v6: V6Syntax, s: string)
    requires ParseAddr(v6, s).Some? && ParseAddr(v6, s).value.V4?
    ensures PrintAddr(ParseAddr(v6, s).value.addr) == s
  {
    QuadPrints(s);
  }

  lemma SmallAtoi(n: nat)
    requires n <= 128
    ensures Decimal.Atoi(Decimal.Itoa(n)) == Decimal.Parsed(n, true)
    ensures |Decimal.Itoa(n)| > 1 ==> '1' <= Decimal.Itoa(n)[0] <= '9'
  {
    Decimal.ItoaReads(n);
    Decimal.AtoiReads(n);
    assert Decimal.IsDigit(Decimal.Itoa(n)[0]);
  }

  lemma {:induction false} LastSlashOf(p: string, q: string)
    requires '/' !in q
    ensures LastSlash(p + "/" + q) == |p|
  {
    if q != "" {
      var s := p + "/" + q;
      assert s[..|s| - 1] == p + "/" + q[..|q| - 1];
      LastSlashOf(p, q[..|q| - 1]);
    }
  }

  lemma PrefixReads(v6: V6Syntax, p: Prefix)
    requires p.bits <= MAX_BITS
    ensures ParsePrefix(v6, PrintPrefix(p)) == Some(Net4(p))
  {
    hide PrintAddr, ParseAddr, Decimal.Itoa, Decimal.Atoi, LastSlash;
    var host, bits := PrintAddr(p.addr), Decimal.Itoa(p.bits);
    SmallAtoi(p.bits);
    NumeralHasNoSlash(p.bits);
    LastSlashOf(host, bits);
    PrefixParts(host, bits);
    PrintedAddr(v6, p.addr);
  }

  // A length of two digits at most, without sign or leading zero, prints as it reads.
  lemma LengthPrints(bits: string)
    requires |bits| <= 1 || '1' <= bits[0] <= '9'
    requires Decimal.Atoi(bits).ok && Decimal.Atoi(bits).value >= 0
    ensures Decimal.Itoa(Decimal.Atoi(bits).value) == bits
  {
    hide Decimal.Itoa, Decimal.Value;
    Decimal.ValuePrints(bits);
  }

  // Conversely an IPv4 prefix that parses is the one it prints as: nothing else is read.
  lemma PrefixPrints(v6: V6Syntax, s: string)
    requires ParsePrefix(v6, s).Some? && ParsePrefix(v6, s).value.Net4?
    ensures PrintPrefix(ParsePrefix(v6, s).value.prefix) == s
  {
    hide PrintAddr, ParseAddr, Decimal.Itoa, Decimal.Atoi;
    var i := LastSlash(s);
    var host, bits := s[..i], s[i + 1..];
    ParsedAddr(v6, host);
    LengthPrints(bits);
    assert s == host + "/" + bits;
  }

  lemma PrefixParts(host: string, bits: string)
    ensures (host + "/" + bits)[..|host|] == host && (host + "/" + bits)[|host| + 1..] == bits
  {
  }

  lemma NumeralHasNoSlash(n: nat)
    ensures '/' !in Decimal.Itoa(n)
  {
    hide Decimal.Itoa;
    Decimal.ItoaReads(n);
    forall i | 0 <= i < |Decimal.Itoa(n)|
      ensures Decimal.Itoa(n)[i] != '/'
    {
      assert Decimal.IsDigit(Decimal.Itoa(n)[i]);
    }
  }

  lemma PrintedHead(a: Addr) returns (digits: string, rest: string)
    ensures Decimal.AllDigits(digits) && PrintAddr(a) == digits + ['.'] + rest
  {
    hide Octet;
    var parts := [Decimal.Itoa(Octet(a, 0)), Decimal.Itoa(Octet(a, 1)), Decimal.Itoa(Octet(a, 2)),
        Decimal.Itoa(Octet(a, 3))];
    Decimal.ItoaReads(Octet(a, 0));
    digits, rest := parts[0], Join(parts[1..], '.');
  }

  lemma PrefixIsNoAddr(v6: V6Syntax, p: Prefix)
    requires p.bits <= MAX_BITS
    ensures ParseAddr(v6, PrintPrefix(p)).None?
  {
    hide PrintAddr, ParseQuad, Decimal.Itoa;
    var bits := Decimal.Itoa(p.bits);
    var s := PrintPrefix(p);
    var digits, rest := PrintedHead(p.addr);
    assert s == digits + ['.'] + (rest + "/" + bits);
    DigitsThenDot(digits, rest + "/" + bits);
    assert s[|PrintAddr(p.addr)|] == '/' && !QuadChar(s[|PrintAddr(p.addr)|]);
    if ParseQuad(s).Some? {
      QuadPrints(s);
      PrintedAddr(v6, ParseQuad(s).value);
    }
  }
}
