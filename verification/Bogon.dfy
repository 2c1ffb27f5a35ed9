/**
 Address space that must never be probed or stored (internal/routing/bogon/bogon.go).
 */
module Bogon {
  import opened Cidr

  const BOGONS: seq<Prefix> := [
    Prefix(V4, 0, 8),                               // 0.0.0.0/8
    Prefix(V4, 10, 8),                              // 10.0.0.0/8
    Prefix(V4, 100 * 4 + 1, 10),                    // 100.64.0.0/10
    Prefix(V4, 127, 8),                             // 127.0.0.0/8
    Prefix(V4, 169 * 256 + 254, 16),                // 169.254.0.0/16
    Prefix(V4, 172 * 16 + 1, 12),                   // 172.16.0.0/12
    Prefix(V4, 192 * 65536, 24),                    // 192.0.0.0/24
    Prefix(V4, 192 * 65536 + 2, 24),                // 192.0.2.0/24
    Prefix(V4, 192 * 256 + 168, 16),                // 192.168.0.0/16
    Prefix(V4, 198 * 128 + 9, 15),                  // 198.18.0.0/15
    Prefix(V4, 198 * 65536 + 51 * 256 + 100, 24),   // 198.51.100.0/24
    Prefix(V4, 203 * 65536 + 113, 24),              // 203.0.113.0/24
    Prefix(V4, 14, 4),                              // 224.0.0.0/4
    Prefix(V4, 15, 4),                              // 240.0.0.0/4
    DOCUMENTATION,                                  // 2001:db8::/32
    Prefix(V6, 0x2001_0002_0000, 48),               // 2001:2::/48
    Prefix(V6, 0x3fff0, 20)                         // 3fff::/20
  ]

  const DOCUMENTATION := Prefix(V6, 0x2001_0db8, 32)
  const GLOBAL6 := Prefix(V6, 1, 3)                 // 2000::/3

  /** Two blocks overlap when their common leading bits agree. */
  predicate Overlaps(p: Prefix, q: Prefix) {
    && p.fam == q.fam
    && if p.bits <= q.bits then Shift(q.value, q.bits - p.bits) == p.value
       else Shift(p.value, p.bits - q.bits) == q.value
  }

  predicate IsBogon(p: Prefix) {
    || (p.fam.V6? && !Overlaps(GLOBAL6, p))
    || exists i :: 0 <= i < |BOGONS| && Overlaps(BOGONS[i], p)
  }

  predicate TooLong(p: Prefix) { if p.fam.V4? then p.bits > 24 else p.bits > 48 }

  // ----- what the filter guarantees

  lemma Powers()
    ensures Pow2(3) == 8 && Pow2(4) == 16 && Pow2(8) == 256 && Pow2(10) == 1024 && Pow2(12) == 4096
    ensures Pow2(15) == 32768 && Pow2(16) == 65536 && Pow2(20) == 0x10_0000 && Pow2(24) == 0x100_0000
    ensures Pow2(32) == 0x1_0000_0000 && Pow2(48) == 0x1_0000_0000_0000
  {
    assert Pow2(4) == 16;
    Pow2Byte(0);
    Pow2Byte(2);
    Pow2Byte(4);
    Pow2Byte(7);
    Pow2Byte(8);
    Pow2Byte(12);
    Pow2Byte(16);
    Pow2Byte(24);
    Pow2Byte(32);
    Pow2Byte(40);
  }

  lemma TableIsValid()
    ensures GLOBAL6.Valid() && forall i :: 0 <= i < |BOGONS| ==> BOGONS[i].Valid()
  {
    Powers();
  }

  /** Overlapping is sharing an address. */
  lemma OverlapsIsSharing(p: Prefix, q: Prefix)
    requires p.Valid() && q.Valid() && p.fam == q.fam
    ensures Overlaps(p, q) <==> exists a :: p.Contains(a) && q.Contains(a)
  {
    if Overlaps(p, q) {
      var long := if p.bits <= q.bits then q else p;
      var short := if p.bits <= q.bits then p else q;
      LeadsCovers(short, long);
      ContainsIsInterval(long, long.Base());
      ContainsIsInterval(short, long.Base());
      assert p.Contains(long.Base()) && q.Contains(long.Base());
    }
    if a :| p.Contains(a) && q.Contains(a) {
      if p.bits <= q.bits { Laminar(p, q, a); } else { Laminar(q, p, a); }
    }
  }

  /** A block leads another if the other's leading bits fall in its interval. */
  lemma LeadsByInterval(p: Prefix, q: Prefix, n: nat)
    requires p.fam == q.fam && p.value == 1 && q.bits == p.bits + n
    requires Pow2(n) <= q.value < 2 * Pow2(n)
    ensures p.Leads(q)
  {
    ShiftInterval(q.value, 1, n);
    AppendPow2(0, n);
  }

  lemma DocumentationIsGlobal()
    ensures GLOBAL6.Leads(DOCUMENTATION)
  {
    Pow2Byte(5);
    Pow2Byte(13);
    Pow2Byte(21);
    LeadsByInterval(GLOBAL6, DOCUMENTATION, 29);
  }

  /** An IPv6 prefix that meets 2000::/3 but no listed block lies inside 2000::/3. */
  lemma InsideGlobal(p: Prefix)
    requires p.fam.V6? && !IsBogon(p)
    ensures GLOBAL6.Leads(p)
  {
    assert BOGONS[14] == DOCUMENTATION;
    DocumentationIsGlobal();
    if p.bits < GLOBAL6.bits {
      LeadsTransitive(p, GLOBAL6, DOCUMENTATION);
      assert false;
    }
  }

  /**
   A prefix passes the filter exactly when it shares no address with a listed block of its
   family and, for IPv6, lies wholly inside 2000::/3, although only overlap with 2000::/3 is tested.
   */
  lemma BogonClosure(p: Prefix)
    requires p.Valid()
    ensures !IsBogon(p) <==>
            && (forall i, a :: 0 <= i < |BOGONS| && BOGONS[i].fam == p.fam && p.Contains(a) ==> !BOGONS[i].Contains(a))
            && (p.fam.V6? ==> GLOBAL6.Leads(p))
  {
    TableIsValid();
    forall i | 0 <= i < |BOGONS| && BOGONS[i].fam == p.fam
      ensures Overlaps(BOGONS[i], p) <==> exists a :: BOGONS[i].Contains(a) && p.Contains(a)
    {
      OverlapsIsSharing(BOGONS[i], p);
    }
    if p.fam.V6? && !IsBogon(p) { InsideGlobal(p); }
  }

  /** The default route never passes the filter. */
  lemma DefaultRouteIsBogon(p: Prefix)
    requires p.Valid() && p.bits == 0
    ensures IsBogon(p)
  {
    var i := if p.fam.V4? then 0 else 14;
    TableIsValid();
    ShiftBound(BOGONS[i].value, BOGONS[i].bits, 0);
    assert Overlaps(BOGONS[i], p);
  }

  /** Probe address of a prefix: its network address plus one. */
  function TargetAddress(p: Prefix): nat { p.Base() + 1 }

  /** The probe address of a prefix that is not too long lies inside that prefix, hence in no listed block. */
  lemma TargetInsidePrefix(p: Prefix)
    requires p.Valid() && !IsBogon(p) && !TooLong(p)
    ensures p.Contains(TargetAddress(p))
    ensures forall i :: 0 <= i < |BOGONS| && BOGONS[i].fam == p.fam ==> !BOGONS[i].Contains(TargetAddress(p))
  {
    Pow2Monotone(0, p.HostBits());
    ContainsIsInterval(p, TargetAddress(p));
    BogonClosure(p);
  }
}
