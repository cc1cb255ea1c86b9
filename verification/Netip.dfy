/** Addresses and prefixes of the two families, as Go's net/netip computes with
    them (CIDR notation, section 3.1 of RFC 4632). */
module Netip {
  import opened Common
  import opened Text

  datatype Family = V4 | V6

  function Width(f: Family): nat {
    if f == V4 then 32 else 128
  }

  function Pow2(n: nat): (r: nat)
    ensures r > 0
  {
    if n == 0 then 1 else 2 * Pow2(n - 1)
  }

  datatype Addr = Addr(family: Family, value: nat) {
    predicate Valid() { value < Pow2(Width(family)) }
  }

  datatype Prefix = Prefix(family: Family, base: nat, bits: nat) {
    predicate Valid() {
      bits <= Width(family) && base < Pow2(Width(family))
    }

    /** Width of the part a host may vary. */
    function HostBits(): nat
      requires Valid()
    {
      Width(family) - bits
    }

    /** The parse check `prefix.Addr() == prefix.Masked().Addr()`. */
    predicate Masked()
      requires Valid()
    {
      base % Pow2(HostBits()) == 0
    }

    predicate Contains(a: Addr)
      requires Valid()
    {
      a.family == family && Network(a.value, HostBits()) == Network(base, HostBits())
    }

    /** `Overlaps`: the bases agree on the shorter of the two lengths. */
    predicate Overlaps(o: Prefix)
      requires Valid() && o.Valid()
    {
      family == o.family &&
      var hostBits := if HostBits() < o.HostBits() then o.HostBits() else HostBits();
      Network(base, hostBits) == Network(o.base, hostBits)
    }

    /** Every address of `o` is one of this prefix. */
    ghost predicate Covers(o: Prefix)
      requires Valid() && o.Valid()
    {
      forall a: Addr :: a.Valid() && o.Contains(a) ==> Contains(a)
    }
  }

  /** The leading bits that remain when `hostBits` trailing ones are dropped. */
  function Network(value: nat, hostBits: nat): nat {
    Quotient(value, Pow2(hostBits))
  }

  function Quotient(x: nat, d: nat): (q: nat)
    requires d > 0
  {
    x / d
  }

  lemma {:induction false} PowAdd(m: nat, n: nat)
    ensures Pow2(m + n) == Pow2(m) * Pow2(n)
  {
    if m > 0 {
      PowAdd(m - 1, n);
      assert Pow2(m + n) == 2 * Pow2(m - 1 + n);
    }
  }

  lemma PowMonotone(m: nat, n: nat)
    requires m <= n
    ensures Pow2(m) <= Pow2(n)
  {
    PowAdd(m, n - m);
    assert Pow2(m) * 1 <= Pow2(m) * Pow2(n - m);
  }

  lemma MulMonotone(a: int, b: int, d: nat)
    requires a <= b
    ensures a * d <= b * d
  {
    assert (b - a) * d >= 0;
    assert (b - a) * d == b * d - a * d;
  }

  lemma DivUnique(x: nat, d: nat, q: int, r: int)
    requires d > 0 && x == q * d + r && 0 <= r < d
    ensures x / d == q && x % d == r
  {
    var q', r' := x / d, x % d;
    assert x == q' * d + r' && 0 <= r' < d;
    QuotientUnique(d, q, r, q', r');
  }

  lemma QuotientUnique(d: nat, q: int, r: int, q': int, r': int)
    requires 0 <= r < d && 0 <= r' < d && q * d + r == q' * d + r'
    ensures q == q' && r == r'
  {
    assert (q + 1) * d == q * d + d;
    assert (q' + 1) * d == q' * d + d;
    if q < q' {
      MulMonotone(q + 1, q', d);
    } else if q' < q {
      MulMonotone(q' + 1, q, d);
    }
  }

  lemma RemainderBound(r: nat, r': nat, a: nat, b: nat)
    requires r < a && r' < b
    ensures r' * a + r < a * b
  {
    MulMonotone(r' + 1, b, a);
    assert (r' + 1) * a == r' * a + a;
  }

  lemma DivDiv(x: nat, a: nat, b: nat)
    requires a > 0 && b > 0
    ensures a * b > 0
    ensures x / (a * b) == (x / a) / b
  {
    var q, r := Quotient(x, a), x % a;
    var q', r' := Quotient(q, b), q % b;
    Euclid(x, a, q, r);
    Euclid(q, b, q', r');
    RemainderBound(r, r', a, b);
    Distribute(q', b, r', a);
    DivUnique(x, a * b, q', r' * a + r);
  }

  lemma Euclid(x: nat, d: nat, q: nat, r: int)
    requires d > 0 && q == x / d && r == x % d
    ensures x == q * d + r && 0 <= r < d
  {
  }

  lemma Distribute(q: int, b: int, r: int, a: int)
    ensures (q * b + r) * a == q * (a * b) + r * a
  {
    assert (q * b) * a == q * (a * b);
  }

  /** Dropping more bits keeps agreement. */
  lemma Coarser(x: nat, y: nat, fine: nat, coarse: nat)
    requires fine <= coarse
    requires Network(x, fine) == Network(y, fine)
    ensures Network(x, coarse) == Network(y, coarse)
  {
    hide Pow2;
    PowAdd(fine, coarse - fine);
    DivDiv(x, Pow2(fine), Pow2(coarse - fine));
    DivDiv(y, Pow2(fine), Pow2(coarse - fine));
  }

  /** The prefix's own base address. */
  function First(p: Prefix): Addr { Addr(p.family, p.base) }

  lemma FirstContained(p: Prefix)
    requires p.Valid()
    ensures First(p).Valid() && p.Contains(First(p))
  {
  }

  lemma OverlapCovers(p: Prefix, o: Prefix)
    requires p.Valid() && o.Valid() && p.Overlaps(o) && p.bits <= o.bits
    ensures p.Covers(o)
  {
    forall a: Addr | a.Valid() && o.Contains(a) ensures p.Contains(a) {
      Coarser(a.value, o.base, o.HostBits(), p.HostBits());
    }
  }

  lemma SharedOverlaps(p: Prefix, o: Prefix, a: Addr)
    requires p.Valid() && o.Valid() && p.Contains(a) && o.Contains(a)
    ensures p.Overlaps(o)
  {
    if p.HostBits() <= o.HostBits() {
      Coarser(a.value, p.base, p.HostBits(), o.HostBits());
    } else {
      Coarser(a.value, o.base, o.HostBits(), p.HostBits());
    }
  }

  /** Prefixes are laminar: to overlap, to share an address, and for one to
      cover the other are the same thing. */
  lemma Laminar(p: Prefix, o: Prefix)
    requires p.Valid() && o.Valid()
    ensures p.Overlaps(o) <==> exists a: Addr :: a.Valid() && p.Contains(a) && o.Contains(a)
    ensures p.Overlaps(o) <==> p.Covers(o) || o.Covers(p)
    ensures p.Overlaps(o) <==> o.Overlaps(p)
  {
    if p.Overlaps(o) {
      if p.bits <= o.bits {
        OverlapCovers(p, o);
        FirstContained(o);
        assert p.Contains(First(o));
      } else {
        OverlapCovers(o, p);
        FirstContained(p);
        assert o.Contains(First(p));
      }
    }
    if a: Addr :| a.Valid() && p.Contains(a) && o.Contains(a) {
      SharedOverlaps(p, o, a);
    }
    if p.Covers(o) {
      FirstContained(o);
      SharedOverlaps(p, o, First(o));
    }
    if o.Covers(p) {
      FirstContained(p);
      SharedOverlaps(p, o, First(p));
    }
  }

  /** Addresses of a masked prefix are one run from its base. */
  lemma ContainsRange(p: Prefix, a: Addr)
    requires p.Valid() && p.Masked()
    ensures p.Contains(a) <==> a.family == p.family && p.base <= a.value < p.base + Pow2(p.HostBits())
  {
    hide Pow2;
    var d := Pow2(p.HostBits());
    assert p.base == (p.base / d) * d + 0;
    RangeOfQuotient(a.value, p.base / d, d);
  }

  lemma RangeOfQuotient(x: nat, q: nat, d: nat)
    requires d > 0
    ensures x / d == q <==> q * d <= x < q * d + d
  {
    if q * d <= x < q * d + d {
      DivUnique(x, d, q, x - q * d);
    }
  }

  /** A longer masked prefix that covers nothing more is the same prefix. */
  lemma CoversBits(p: Prefix, o: Prefix)
    requires p.Valid() && o.Valid() && p.Masked() && o.Masked() && p.Covers(o)
    ensures p.family == o.family && p.bits <= o.bits
  {
    FirstContained(o);
    assert p.Contains(First(o));
    if o.bits < p.bits {
      var k, d := p.HostBits(), Pow2(p.HostBits());
      PowMonotone(k + 1, o.HostBits());
      LastInRange(o);
      ContainsRange(p, First(o));
      var last := Addr(o.family, o.base + Pow2(o.HostBits()) - 1);
      ContainsRange(o, last);
      assert p.Contains(last);
      ContainsRange(p, last);
      assert false;
    }
  }

  /** A masked prefix ends inside its family's address space. */
  lemma LastInRange(p: Prefix)
    requires p.Valid() && p.Masked()
    ensures p.base + Pow2(p.HostBits()) <= Pow2(Width(p.family))
  {
    hide Pow2;
    PowAdd(p.HostBits(), p.bits);
    assert p.HostBits() + p.bits == Width(p.family);
    Quotients(p.base, Pow2(p.bits), Pow2(p.HostBits()));
  }

  lemma Quotients(x: nat, e: nat, d: nat)
    requires d > 0 && x % d == 0 && x < d * e
    ensures x + d <= d * e
  {
    var q := x / d;
    assert x == q * d;
    if e <= q {
      MulMonotone(e, q, d);
    } else {
      MulMonotone(q + 1, e, d);
      assert (q + 1) * d == q * d + d;
    }
  }

  // ----- the text form

  /** net/netip's text functions: its parser, its formatter, and whether a text
      is an address. They belong to the Go library and enter as values. */
  datatype Codec = Codec(parse: string -> Option<Prefix>, format: Prefix -> string, isAddr: string -> bool)

  /** What the library promises: a formatted prefix parses back to itself, its
      text has no separator and no space in it, and a parsed prefix is in range. */
  ghost predicate Faithful(c: Codec) {
    && (forall p: Prefix :: p.Valid() ==> c.parse(c.format(p)) == Some(p))
    && (forall p: Prefix :: p.Valid() ==> Plain(c.format(p)) && NoSpace(c.format(p)))
    && (forall s: string :: c.parse(s).Some? ==> c.parse(s).value.Valid())
  }

  /** `ParseSubnet`: a CIDR with no host bits set. */
  function ParseSubnet(c: Codec, subnet: string): Option<Prefix> {
    match c.parse(TrimSpace(subnet))
    case None => None
    case Some(p) => if p.Valid() && p.Masked() then Some(p) else None
  }

  predicate GoodPrefix(p: Prefix) {
    p.Valid() && p.Masked()
  }

  lemma ParsedGood(c: Codec, x: string)
    ensures ParseSubnet(c, x).Some? ==> GoodPrefix(ParseSubnet(c, x).value)
  {
  }

  lemma ParseFormat(c: Codec, p: Prefix)
    requires Faithful(c) && GoodPrefix(p)
    ensures ParseSubnet(c, c.format(p)) == Some(p)
  {
    var s := c.format(p);
    assert Plain(s) && NoSpace(s);
    assert TrimSpace(s) == s;
  }

  // ----- the promises can be met

  function Copies(c: char, n: nat): string {
    seq(n, _ => c)
  }

  lemma {:induction false} CopiesCount(c: char, n: nat)
    ensures multiset(Copies(c, n))[c] == n
    ensures forall d :: d != c ==> multiset(Copies(c, n))[d] == 0
  {
    if n > 0 {
      CopiesCount(c, n - 1);
      assert Copies(c, n) == Copies(c, n - 1) + [c];
    }
  }

  /** A unary text form: one mark per unit of base and of length. */
  function UnaryFormat(p: Prefix): string {
    [if p.family == V4 then '4' else '6'] + Copies('b', p.base) + Copies('l', p.bits)
  }

  function UnaryParse(s: string): Option<Prefix> {
    if s == "" then None
    else
      var p := Prefix(if s[0] == '4' then V4 else V6, multiset(s)['b'], multiset(s)['l']);
      if p.Valid() then Some(p) else None
  }

  lemma UnaryRoundTrip(p: Prefix)
    requires p.Valid()
    ensures UnaryParse(UnaryFormat(p)) == Some(p)
  {
    hide Pow2, Copies;
    CopiesCount('b', p.base);
    CopiesCount('l', p.bits);
    var head := [if p.family == V4 then '4' else '6'];
    assert multiset(UnaryFormat(p)) == multiset(head) + multiset(Copies('b', p.base)) + multiset(Copies('l', p.bits));
  }

  /** Some codec is faithful, so nothing that rests on one is empty. */
  lemma FaithfulCodecExists() returns (c: Codec)
    ensures Faithful(c)
  {
    hide Pow2, Copies;
    c := Codec(UnaryParse, UnaryFormat, _ => true);
    forall p: Prefix | p.Valid() ensures c.parse(c.format(p)) == Some(p) && Plain(c.format(p)) && NoSpace(c.format(p)) {
      UnaryRoundTrip(p);
      UnaryPlain(p);
    }
  }

  lemma UnaryPlain(p: Prefix)
    ensures Plain(UnaryFormat(p)) && NoSpace(UnaryFormat(p))
  {
  }
}
