/**
 What the filter of Bogon means address by address: the blocks it lists, written as the
 ranges of IPv4 addresses and the leading groups of IPv6 addresses.
 */
module Reserved {
  import opened Cidr
  import opened Bogon

  // ----- notation

  /** The reserved IPv4 ranges, first to last address. */
  predicate Reserved4(x: nat) {
    || 0x0000_0000 <= x <= 0x00ff_ffff  // 0.0.0.0 to 0.255.255.255
    || 0x0a00_0000 <= x <= 0x0aff_ffff  // 10.0.0.0 to 10.255.255.255
    || 0x6440_0000 <= x <= 0x647f_ffff  // 100.64.0.0 to 100.127.255.255
    || 0x7f00_0000 <= x <= 0x7fff_ffff  // 127.0.0.0 to 127.255.255.255
    || 0xa9fe_0000 <= x <= 0xa9fe_ffff  // 169.254.0.0 to 169.254.255.255
    || 0xac10_0000 <= x <= 0xac1f_ffff  // 172.16.0.0 to 172.31.255.255
    || 0xc000_0000 <= x <= 0xc000_00ff  // 192.0.0.0 to 192.0.0.255
    || 0xc000_0200 <= x <= 0xc000_02ff  // 192.0.2.0 to 192.0.2.255
    || 0xc0a8_0000 <= x <= 0xc0a8_ffff  // 192.168.0.0 to 192.168.255.255
    || 0xc612_0000 <= x <= 0xc613_ffff  // 198.18.0.0 to 198.19.255.255
    || 0xc633_6400 <= x <= 0xc633_64ff  // 198.51.100.0 to 198.51.100.255
    || 0xcb00_7100 <= x <= 0xcb00_71ff  // 203.0.113.0 to 203.0.113.255
    || 0xe000_0000 <= x <= 0xefff_ffff  // 224.0.0.0 to 239.255.255.255
    || 0xf000_0000 <= x <= 0xffff_ffff  // 240.0.0.0 to 255.255.255.255
  }

  /** The 16-bit group `k` of an IPv6 address, the first being group 0. */
  function Group(x: nat, k: nat): nat
    requires k < 8
  {
    Shift(x, 112 - 16 * k) % 0x1_0000
  }

  /** Global unicast, 2000:: to 3fff:ffff:..., */
  predicate Global6(x: nat) { 0x2000 <= Shift(x, 112) < 0x4000 }

  /** and in it 2001:db8::, 2001:2:0:: and the first sixteenth of 3fff::. */
  predicate Reserved6(x: nat) {
    || (Shift(x, 112) == 0x2001 && Group(x, 1) == 0x0db8)
    || (Shift(x, 112) == 0x2001 && Group(x, 1) == 0x0002 && Group(x, 2) == 0)
    || (Shift(x, 112) == 0x3fff && Group(x, 1) < 0x1000)
  }

  predicate Probeable(f: Family, x: nat) { if f.V4? then !Reserved4(x) else Global6(x) && !Reserved6(x) }

  // ----- dropping low bits is dividing

  lemma {:induction false} Nibble(x: nat, n: nat)
    ensures Shift(x, n + 4) == Shift(x, n) / 16
  {
    var y := Shift(x, n);
    ShiftShift(x, n, 4);
    assert Shift(y, 4) == Shift(y / 2, 3) && Shift(y / 2, 3) == Shift(y / 2 / 2, 2);
    assert Shift(y / 2 / 2, 2) == y / 2 / 2 / 2 / 2;
  }

  lemma {:induction false} Byte(x: nat, n: nat)
    ensures Shift(x, n + 8) == Shift(x, n) / 0x100
  {
    Nibble(x, n);
    Nibble(x, n + 4);
  }

  lemma {:induction false} Word(x: nat, n: nat)
    ensures Shift(x, n + 16) == Shift(x, n) / 0x1_0000
  {
    Byte(x, n);
    Byte(x, n + 8);
  }

  lemma {:induction false} Bit(x: nat, n: nat)
    ensures Shift(x, n + 1) == Shift(x, n) / 2
  {
    ShiftShift(x, n, 1);
  }

  // ----- IPv4

  /** The lengths the table uses, as divisions. */
  lemma {:induction false} Slash24(x: nat)
    ensures Shift(x, 8) == x / 0x100
  {
    Byte(x, 0);
  }

  lemma {:induction false} Slash16(x: nat)
    ensures Shift(x, 16) == x / 0x1_0000 && Shift(x, 17) == x / 0x2_0000
  {
    Word(x, 0);
    Bit(x, 16);
  }

  lemma {:induction false} Slash12(x: nat)
    ensures Shift(x, 20) == x / 0x10_0000 && Shift(x, 22) == x / 0x40_0000
  {
    Slash16(x);
    Nibble(x, 16);
    Bit(x, 20);
    Bit(x, 21);
  }

  lemma {:induction false} Slash8(x: nat)
    ensures Shift(x, 24) == x / 0x100_0000 && Shift(x, 28) == x / 0x1000_0000
  {
    Slash16(x);
    Byte(x, 16);
    Nibble(x, 24);
  }

  // blocks of these lengths, as intervals

  lemma {:induction false} Block4(p: Prefix, x: nat)
    requires p.fam == V4 && p.bits == 4
    ensures p.Contains(x) <==> 0x1000_0000 * p.value <= x < 0x1000_0000 * p.value + 0x1000_0000
  {
    Slash8(x);
  }

  lemma {:induction false} Block8(p: Prefix, x: nat)
    requires p.fam == V4 && p.bits == 8
    ensures p.Contains(x) <==> 0x100_0000 * p.value <= x < 0x100_0000 * p.value + 0x100_0000
  {
    Slash8(x);
  }

  lemma {:induction false} Block10(p: Prefix, x: nat)
    requires p.fam == V4 && p.bits == 10
    ensures p.Contains(x) <==> 0x40_0000 * p.value <= x < 0x40_0000 * p.value + 0x40_0000
  {
    Slash12(x);
  }

  lemma {:induction false} Block12(p: Prefix, x: nat)
    requires p.fam == V4 && p.bits == 12
    ensures p.Contains(x) <==> 0x10_0000 * p.value <= x < 0x10_0000 * p.value + 0x10_0000
  {
    Slash12(x);
  }

  lemma {:induction false} Block15(p: Prefix, x: nat)
    requires p.fam == V4 && p.bits == 15
    ensures p.Contains(x) <==> 0x2_0000 * p.value <= x < 0x2_0000 * p.value + 0x2_0000
  {
    Slash16(x);
  }

  lemma {:induction false} Block16(p: Prefix, x: nat)
    requires p.fam == V4 && p.bits == 16
    ensures p.Contains(x) <==> 0x1_0000 * p.value <= x < 0x1_0000 * p.value + 0x1_0000
  {
    Slash16(x);
  }

  lemma {:induction false} Block24(p: Prefix, x: nat)
    requires p.fam == V4 && p.bits == 24
    ensures p.Contains(x) <==> 0x100 * p.value <= x < 0x100 * p.value + 0x100
  {
    Slash24(x);
  }

  // the listed IPv4 blocks are the ranges written out

  lemma {:induction false} Listed8(x: nat)
    ensures BOGONS[0].fam == V4 && (BOGONS[0].Contains(x) <==> 0x0000_0000 <= x <= 0x00ff_ffff)
    ensures BOGONS[1].fam == V4 && (BOGONS[1].Contains(x) <==> 0x0a00_0000 <= x <= 0x0aff_ffff)
    ensures BOGONS[3].fam == V4 && (BOGONS[3].Contains(x) <==> 0x7f00_0000 <= x <= 0x7fff_ffff)
  {
    Block8(BOGONS[0], x);
    Block8(BOGONS[1], x);
    Block8(BOGONS[3], x);
  }

  lemma {:induction false} Listed10To12(x: nat)
    ensures BOGONS[2].fam == V4 && (BOGONS[2].Contains(x) <==> 0x6440_0000 <= x <= 0x647f_ffff)
    ensures BOGONS[5].fam == V4 && (BOGONS[5].Contains(x) <==> 0xac10_0000 <= x <= 0xac1f_ffff)
  {
    Block10(BOGONS[2], x);
    Block12(BOGONS[5], x);
  }

  lemma {:induction false} Listed15To16(x: nat)
    ensures BOGONS[4].fam == V4 && (BOGONS[4].Contains(x) <==> 0xa9fe_0000 <= x <= 0xa9fe_ffff)
    ensures BOGONS[8].fam == V4 && (BOGONS[8].Contains(x) <==> 0xc0a8_0000 <= x <= 0xc0a8_ffff)
    ensures BOGONS[9].fam == V4 && (BOGONS[9].Contains(x) <==> 0xc612_0000 <= x <= 0xc613_ffff)
  {
    Block16(BOGONS[4], x);
    Block16(BOGONS[8], x);
    Block15(BOGONS[9], x);
  }

  lemma {:induction false} Listed24(x: nat)
    ensures BOGONS[6].fam == V4 && (BOGONS[6].Contains(x) <==> 0xc000_0000 <= x <= 0xc000_00ff)
    ensures BOGONS[7].fam == V4 && (BOGONS[7].Contains(x) <==> 0xc000_0200 <= x <= 0xc000_02ff)
    ensures BOGONS[10].fam == V4 && (BOGONS[10].Contains(x) <==> 0xc633_6400 <= x <= 0xc633_64ff)
    ensures BOGONS[11].fam == V4 && (BOGONS[11].Contains(x) <==> 0xcb00_7100 <= x <= 0xcb00_71ff)
  {
    Block24(BOGONS[6], x);
    Block24(BOGONS[7], x);
    Block24(BOGONS[10], x);
    Block24(BOGONS[11], x);
  }

  lemma {:induction false} Listed4Bits(x: nat)
    ensures BOGONS[12].fam == V4 && (BOGONS[12].Contains(x) <==> 0xe000_0000 <= x <= 0xefff_ffff)
    ensures BOGONS[13].fam == V4 && (BOGONS[13].Contains(x) <==> 0xf000_0000 <= x <= 0xffff_ffff)
  {
    Block4(BOGONS[12], x);
    Block4(BOGONS[13], x);
  }

  lemma {:induction false} Listed4(x: nat)
    ensures Reserved4(x) <==> exists i :: 0 <= i < |BOGONS| && BOGONS[i].fam == V4 && BOGONS[i].Contains(x)
  {
    Listed8(x);
    Listed10To12(x);
    Listed15To16(x);
    Listed24(x);
    Listed4Bits(x);
    if i :| 0 <= i < |BOGONS| && BOGONS[i].fam == V4 && BOGONS[i].Contains(x) {
      assert i in {0, 1, 2, 3, 4, 5, 6, 7, 8, 9, 10, 11, 12, 13};
    }
  }

  // ----- IPv6

  lemma {:induction false} GlobalIsBlock(x: nat)
    ensures Global6(x) <==> GLOBAL6.Contains(x)
  {
    Byte(x, 112);
    Nibble(x, 120);
    Bit(x, 124);
  }

  lemma {:induction false} DocumentationIsBlock(x: nat)
    ensures BOGONS[14].Contains(x) <==> Shift(x, 112) == 0x2001 && Group(x, 1) == 0x0db8
  {
    Word(x, 96);
  }

  lemma {:induction false} BenchmarkIsBlock(x: nat)
    ensures BOGONS[15].Contains(x) <==> Shift(x, 112) == 0x2001 && Group(x, 1) == 0x0002 && Group(x, 2) == 0
  {
    Word(x, 96);
    Word(x, 80);
  }

  lemma {:induction false} ExampleIsBlock(x: nat)
    ensures BOGONS[16].Contains(x) <==> Shift(x, 112) == 0x3fff && Group(x, 1) < 0x1000
  {
    Word(x, 96);
    Byte(x, 96);
    Nibble(x, 104);
  }

  lemma Listed6(x: nat)
    ensures Reserved6(x) <==> exists i :: 0 <= i < |BOGONS| && BOGONS[i].fam == V6 && BOGONS[i].Contains(x)
  {
    DocumentationIsBlock(x);
    BenchmarkIsBlock(x);
    ExampleIsBlock(x);
    assert BOGONS[14].fam == V6 && BOGONS[15].fam == V6 && BOGONS[16].fam == V6;
  }

  // ----- the filter

  /** A block lies inside 2000::/3 exactly when each of its addresses does. */
  lemma InsideExactly(p: Prefix)
    requires p.Valid() && p.fam == V6
    ensures GLOBAL6.Leads(p) <==> forall x :: p.Contains(x) ==> GLOBAL6.Contains(x)
  {
    TableIsValid();
    if GLOBAL6.Leads(p) {
      LeadsCovers(GLOBAL6, p);
      forall x | p.Contains(x) ensures GLOBAL6.Contains(x) {
        ContainsIsInterval(p, x);
        ContainsIsInterval(GLOBAL6, x);
      }
    }
    if forall x :: p.Contains(x) ==> GLOBAL6.Contains(x) { InsideLeads(p); }
  }

  lemma InsideLeads(p: Prefix)
    requires p.Valid() && p.fam == V6 && forall x :: p.Contains(x) ==> GLOBAL6.Contains(x)
    ensures GLOBAL6.Leads(p)
  {
    TableIsValid();
    var first, last := p.Base(), p.End() - 1;
    ContainsIsInterval(p, first);
    ContainsIsInterval(p, last);
    assert GLOBAL6.Contains(first) && GLOBAL6.Contains(last);
    if p.bits < GLOBAL6.bits {
      ContainsIsInterval(GLOBAL6, first);
      ContainsIsInterval(GLOBAL6, last);
      Pow2Monotone(GLOBAL6.HostBits(), p.HostBits());
    } else {
      Laminar(GLOBAL6, p, first);
    }
  }

  /** A prefix passes the filter exactly when every one of its addresses may be probed. */
  lemma FilterExactly(p: Prefix)
    requires p.Valid()
    ensures !IsBogon(p) <==> forall x :: p.Contains(x) ==> Probeable(p.fam, x)
  {
    BogonClosure(p);
    forall x ensures Probeable(p.fam, x) <==> Passes(p.fam, x) { ProbeableIsPassing(p.fam, x); }
    if p.fam == V6 { InsideExactly(p); }
  }

  /** In terms of the table: in no listed block, and an IPv6 address inside 2000::/3. */
  ghost predicate Passes(f: Family, x: nat) {
    && (forall i :: 0 <= i < |BOGONS| && BOGONS[i].fam == f ==> !BOGONS[i].Contains(x))
    && (f.V6? ==> GLOBAL6.Contains(x))
  }

  lemma ProbeableIsPassing(f: Family, x: nat)
    ensures Probeable(f, x) <==> Passes(f, x)
  {
    if f.V4? {
      Listed4(x);
    } else {
      Listed6(x);
      GlobalIsBlock(x);
    }
  }

  /** Flagged as too long: fewer than 256 addresses, or fewer than 65536 networks of /64. */
  lemma TooLongExactly(p: Prefix)
    requires p.Valid()
    ensures TooLong(p) <==> |UnitSet(p)| < if p.fam.V4? then 0x100 else 0x1_0000
  {
    UnitSetSize(p);
    Powers();
    if p.bits <= p.fam.UnitBits() {
      var d, limit: nat := p.fam.UnitBits() - p.bits, if p.fam.V4? then 8 else 16;
      if d < limit { Pow2Monotone(d, limit); } else { Pow2Monotone(limit, d); }
    }
  }
}
