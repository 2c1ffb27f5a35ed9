/**
 Address blocks in prefix notation (section 3.1 of RFC 4632).

 A masked prefix is a number of leading bits and the number they spell; its block is every
 address that starts with them. Any two blocks are nested or disjoint. Address space is
 accounted in units: single addresses for IPv4, /64 networks for IPv6.
 */
module Cidr {

  datatype Family = V4 | V6 {
    function Width(): nat { if V4? then 32 else 128 }

    /** Number of leading bits that name one accounting unit. */
    function UnitBits(): nat { if V4? then 32 else 64 }
  }

  function Pow2(n: nat): (r: nat)
    ensures r >= 1
  {
    if n == 0 then 1 else 2 * Pow2(n - 1)
  }

  /** The number without its low `n` bits. */
  function Shift(a: nat, n: nat): nat { if n == 0 then a else Shift(a / 2, n - 1) }

  /** The number with `n` zero bits appended. */
  function Append(a: nat, n: nat): nat { if n == 0 then a else 2 * Append(a, n - 1) }

  datatype Prefix = Prefix(fam: Family, value: nat, bits: nat) {

    predicate Valid() { bits <= fam.Width() && value < Pow2(bits) }

    function HostBits(): nat { if bits <= fam.Width() then fam.Width() - bits else 0 }

    /** First address of the block. */
    function Base(): nat { Append(value, HostBits()) }

    /** First address after the block. */
    function End(): nat { Base() + Pow2(HostBits()) }

    /** Membership as the address library tests it: equal leading bits. */
    predicate Contains(address: nat) { Shift(address, HostBits()) == value }

    /** The test the sweep uses to decide that this block encloses `q`. */
    predicate Encloses(q: Prefix) { Contains(q.Base()) && bits <= q.bits }

    /** The bits of this prefix lead those of `q`. */
    predicate Leads(q: Prefix) {
      fam == q.fam && bits <= q.bits && Shift(q.value, q.bits - bits) == value
    }
  }

  /** A prefix as announced: an address, possibly with host bits, and a length. */
  datatype Announcement = Announcement(fam: Family, address: nat, bits: nat) {
    predicate Parsed() { bits <= fam.Width() && address < Pow2(fam.Width()) }

    function Masked(): (p: Prefix)
      requires Parsed()
      ensures p.Valid() && p.Contains(address)
    {
      ShiftBound(address, fam.Width() - bits, bits);
      Prefix(fam, Shift(address, fam.Width() - bits), bits)
    }
  }

  // ----- bits

  lemma {:induction false} ShiftBound(a: nat, n: nat, m: nat)
    requires a < Pow2(n + m)
    ensures Shift(a, n) < Pow2(m)
  {
    if n == 0 {
    } else {
      ShiftBound(a / 2, n - 1, m);
    }
  }

  lemma {:induction false} ShiftShift(a: nat, m: nat, n: nat)
    ensures Shift(Shift(a, m), n) == Shift(a, m + n)
  {
    if m == 0 {
    } else {
      ShiftShift(a / 2, m - 1, n);
    }
  }

  lemma {:induction false} ShiftAppend(a: nat, m: nat, n: nat)
    ensures Shift(Append(a, m), m + n) == Shift(a, n)
  {
    if m == 0 {
    } else {
      ShiftAppend(a, m - 1, n);
    }
  }

  /** The numbers with given leading bits form an interval. */
  lemma {:induction false} ShiftInterval(a: nat, v: nat, n: nat)
    ensures Shift(a, n) == v <==> Append(v, n) <= a < Append(v, n) + Pow2(n)
  {
    if n == 0 {
    } else {
      ShiftInterval(a / 2, v, n - 1);
    }
  }

  lemma {:induction false} Pow2Monotone(a: nat, b: nat)
    requires a <= b
    ensures Pow2(a) <= Pow2(b)
    ensures a < b ==> 2 * Pow2(a) <= Pow2(b)
  {
    if a == b {
    } else {
      Pow2Monotone(a, b - 1);
    }
  }

  lemma {:induction false} AppendBound(v: nat, m: nat, n: nat)
    requires v < Pow2(m)
    ensures Append(v, n) + Pow2(n) <= Pow2(m + n)
  {
    if n == 0 {
    } else {
      AppendBound(v, m, n - 1);
    }
  }

  lemma {:induction false} AppendMore(a: nat, m: nat, n: nat)
    ensures Append(a, m + n) == Append(Append(a, m), n)
  {
    if n == 0 {
    } else {
      AppendMore(a, m, n - 1);
    }
  }

  lemma {:induction false} AppendPow2(m: nat, n: nat)
    ensures Append(Pow2(m), n) == Pow2(m + n)
  {
    if n == 0 {
    } else {
      AppendPow2(m, n - 1);
    }
  }

  lemma {:induction false} AppendAdds(a: nat, b: nat, n: nat)
    ensures Append(a + b, n) == Append(a, n) + Append(b, n)
  {
    if n == 0 {
    } else {
      AppendAdds(a, b, n - 1);
    }
  }

  lemma {:induction false} AppendOrder(a: nat, b: nat, n: nat)
    ensures a <= b <==> Append(a, n) <= Append(b, n)
  {
    if n == 0 {
    } else {
      AppendOrder(a, b, n - 1);
    }
  }

  lemma Pow2Byte(n: nat)
    ensures Pow2(n + 8) == 256 * Pow2(n)
  {
    assert Pow2(n + 2) == 4 * Pow2(n) && Pow2(n + 4) == 4 * Pow2(n + 2) && Pow2(n + 6) == 4 * Pow2(n + 4);
  }

  lemma Pow2Of32()
    ensures Pow2(32) == 0x1_0000_0000
  {
    Pow2Byte(0);
    Pow2Byte(8);
    Pow2Byte(16);
    Pow2Byte(24);
  }

  lemma Pow2Values()
    ensures Pow2(32) == 0x1_0000_0000 && Pow2(63) == 0x8000_0000_0000_0000 && Pow2(64) == 0x1_0000_0000_0000_0000
  {
    Pow2Of32();
    Pow2Byte(32);
    Pow2Byte(40);
    Pow2Byte(48);
    Pow2Byte(56);
    assert Pow2(64) == 2 * Pow2(63);
  }

  // ----- blocks

  lemma ContainsIsInterval(p: Prefix, address: nat)
    ensures p.Contains(address) <==> p.Base() <= address < p.End()
  {
    ShiftInterval(address, p.value, p.HostBits());
  }

  /** Masking the first address of a block to its length gives the block back. */
  lemma MaskedBase(p: Prefix)
    requires p.Valid()
    ensures var a := Announcement(p.fam, p.Base(), p.bits); a.Parsed() && a.Masked() == p
  {
    AppendBound(p.value, p.bits, p.HostBits());
    ShiftAppend(p.value, p.HostBits(), 0);
  }

  /** The sweep's enclosing test compares leading bits. */
  lemma EnclosesIsLeads(p: Prefix, q: Prefix)
    requires p.Valid() && q.Valid() && p.fam == q.fam
    ensures p.Encloses(q) <==> p.Leads(q)
  {
    if p.bits <= q.bits { ShiftAppend(q.value, q.HostBits(), q.bits - p.bits); }
  }

  lemma LeadsTransitive(p: Prefix, q: Prefix, r: Prefix)
    requires p.Leads(q) && q.Leads(r)
    ensures p.Leads(r)
  {
    ShiftShift(r.value, r.bits - q.bits, q.bits - p.bits);
  }

  /** Where one prefix leads another, its block covers the other's. */
  lemma LeadsCovers(p: Prefix, q: Prefix)
    requires p.Valid() && q.Valid() && p.Leads(q)
    ensures p.Base() <= q.Base() && q.End() <= p.End()
  {
    var d, h := q.bits - p.bits, q.HostBits();
    ShiftInterval(q.value, p.value, d);
    AppendMore(p.value, d, h);
    AppendPow2(d, h);
    AppendOrder(Append(p.value, d), q.value, h);
    AppendOrder(q.value + 1, Append(p.value, d) + Pow2(d), h);
    AppendAdds(q.value, 1, h);
    AppendPow2(0, h);
    AppendAdds(Append(p.value, d), Pow2(d), h);
  }

  /** The laminar law: two blocks that share an address are nested, the shorter prefix around the longer. */
  lemma Laminar(p: Prefix, q: Prefix, address: nat)
    requires p.Valid() && q.Valid() && p.fam == q.fam && p.bits <= q.bits
    requires p.Contains(address) && q.Contains(address)
    ensures p.Leads(q)
  {
    ShiftShift(address, q.HostBits(), q.bits - p.bits);
  }

  // ----- accounting units

  /** A unit belongs to a prefix when the prefix leads the unit's own bits. */
  predicate HasUnit(p: Prefix, u: nat) {
    p.bits <= p.fam.UnitBits() && Shift(u, p.fam.UnitBits() - p.bits) == p.value
  }

  ghost function UnitSet(p: Prefix): set<nat> {
    set u: nat | 0 <= u < Pow2(p.fam.UnitBits()) && HasUnit(p, u)
  }

  /** The block of addresses that is one unit. */
  function UnitBlock(f: Family, u: nat): Prefix { Prefix(f, u, f.UnitBits()) }

  /** That is: exactly when every address of the unit lies in the prefix. */
  lemma UnitMeansAllAddresses(p: Prefix, u: nat)
    requires p.Valid() && u < Pow2(p.fam.UnitBits())
    ensures HasUnit(p, u) <==>
            forall a :: UnitBlock(p.fam, u).Base() <= a < UnitBlock(p.fam, u).End() ==> p.Contains(a)
  {
    var unit := UnitBlock(p.fam, u);
    if HasUnit(p, u) {
      LeadsCovers(p, unit);
      forall a | unit.Base() <= a < unit.End() ensures p.Contains(a) { ContainsIsInterval(p, a); }
    }
    if forall a :: unit.Base() <= a < unit.End() ==> p.Contains(a) {
      assert p.Contains(unit.Base());
      ContainsIsInterval(unit, unit.Base());
      if p.bits <= unit.bits {
        Laminar(p, unit, unit.Base());
      } else {
        Laminar(unit, p, unit.Base());
        ContainsIsInterval(p, unit.Base());
        ContainsIsInterval(p, unit.End() - 1);
        Pow2Monotone(p.HostBits(), unit.HostBits());
      }
    }
  }

  lemma LeadsUnits(p: Prefix, q: Prefix)
    requires p.Leads(q)
    ensures UnitSet(q) <= UnitSet(p)
  {
    forall u | u in UnitSet(q) ensures u in UnitSet(p) {
      ShiftShift(u, p.fam.UnitBits() - q.bits, q.bits - p.bits);
    }
  }

  lemma ApartUnits(p: Prefix, q: Prefix)
    requires p.fam == q.fam && p.bits <= q.bits && !p.Leads(q)
    ensures UnitSet(p) !! UnitSet(q)
  {
    forall u | u in UnitSet(q) ensures u !in UnitSet(p) {
      ShiftShift(u, p.fam.UnitBits() - q.bits, q.bits - p.bits);
    }
  }

  /** Neither block is inside the other. */
  predicate Apart(p: Prefix, q: Prefix) { !p.Leads(q) && !q.Leads(p) }

  lemma ApartDisjoint(p: Prefix, q: Prefix)
    requires p.fam == q.fam && Apart(p, q)
    ensures UnitSet(p) !! UnitSet(q)
  {
    if p.bits <= q.bits { ApartUnits(p, q); } else { ApartUnits(q, p); }
  }

  lemma {:induction false} IntervalSize(s: set<nat>, lo: nat, hi: nat)
    requires lo <= hi
    requires forall u :: u in s <==> lo <= u < hi
    ensures |s| == hi - lo
    decreases hi - lo
  {
    if lo == hi {
      assert s == {};
    } else {
      IntervalSize(s - {lo}, lo + 1, hi);
    }
  }

  /** A prefix no longer than a unit holds 2^(UnitBits - bits) units; a longer one holds none. */
  lemma UnitSetSize(p: Prefix)
    requires p.Valid()
    ensures |UnitSet(p)| == if p.bits <= p.fam.UnitBits() then Pow2(p.fam.UnitBits() - p.bits) else 0
  {
    if p.bits <= p.fam.UnitBits() {
      var d := p.fam.UnitBits() - p.bits;
      AppendBound(p.value, p.bits, d);
      forall u: nat { ShiftInterval(u, p.value, d); }
      IntervalSize(UnitSet(p), Append(p.value, d), Append(p.value, d) + Pow2(d));
    } else {
      assert UnitSet(p) == {};
    }
  }
}
