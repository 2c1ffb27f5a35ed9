/**
 Probe-target selection (`deriveTargets` of internal/builder/builder.go): one candidate per
 address, ranked inside its country, then taken country by country within two caps.
 */
module Targets {
  import opened Basics
  import opened Cidr
  import Bogon

  /** A candidate: the first usable address of a prefix one of the provider's networks announces. */
  datatype Candidate = Candidate(provider: string, fam: Family, base: nat, masklen: nat, peers: nat, prefixId: nat, country: string) {
    function Address(): (Family, nat) { (fam, base + 1) }
  }

  type Order = (Candidate, Candidate) -> bool

  // ----- ranking a finite set

  ghost predicate StrictTotal(s: set<Candidate>, lt: Order) {
    && (forall a :: a in s ==> !lt(a, a))
    && (forall a, b :: a in s && b in s && a != b ==> lt(a, b) || lt(b, a))
    && (forall a, b, c :: a in s && b in s && c in s && lt(a, b) && lt(b, c) ==> lt(a, c))
  }

  ghost function Ahead(s: set<Candidate>, lt: Order, r: Candidate): set<Candidate> {
    set q | q in s && lt(q, r)
  }

  /** `row_number` of a candidate in the order. */
  ghost function RowNumber(s: set<Candidate>, lt: Order, r: Candidate): nat { 1 + |Ahead(s, lt, r)| }

  ghost function Top(s: set<Candidate>, lt: Order, n: nat): set<Candidate> {
    set r | r in s && RowNumber(s, lt, r) <= n
  }

  lemma RowNumberGrows(s: set<Candidate>, lt: Order, q: Candidate, r: Candidate)
    requires StrictTotal(s, lt) && q in s && r in s && lt(q, r)
    ensures RowNumber(s, lt, q) < RowNumber(s, lt, r)
  {
    assert q in Ahead(s, lt, r) && q !in Ahead(s, lt, q);
    SubsetSize(Ahead(s, lt, q), Ahead(s, lt, r));
  }

  lemma {:induction false} Last(s: set<Candidate>, lt: Order) returns (m: Candidate)
    requires StrictTotal(s, lt) && s != {}
    ensures m in s && forall x :: x in s && x != m ==> lt(x, m)
    decreases |s|
  {
    var x :| x in s;
    if s == {x} {
      m := x;
    } else {
      assert s - {x} != {};
      var y := Last(s - {x}, lt);
      m := if lt(x, y) then y else x;
      forall z | z in s && z != m ensures lt(z, m) {
        if z != x && z != y { assert lt(z, y); }
      }
    }
  }

  /** The first `n` rows of an order are exactly `n` rows, or all of them. */
  lemma {:induction false} TopSize(s: set<Candidate>, lt: Order, n: nat)
    requires StrictTotal(s, lt)
    ensures |Top(s, lt, n)| == if |s| < n then |s| else n
    decreases |s|
  {
    if s == {} {
      assert Top(s, lt, n) == {};
    } else {
      var m := Last(s, lt);
      TopSize(s - {m}, lt, n);
      TopWithout(s, lt, n, m);
    }
  }

  /** Taking away the last row of an order changes no other row number. */
  lemma TopWithout(s: set<Candidate>, lt: Order, n: nat, m: Candidate)
    requires StrictTotal(s, lt) && m in s && forall x :: x in s && x != m ==> lt(x, m)
    ensures Top(s, lt, n) == Top(s - {m}, lt, n) + if |s| <= n then {m} else {}
  {
    var rest := s - {m};
    assert Ahead(s, lt, m) == rest;
    forall r | r in rest ensures RowNumber(s, lt, r) == RowNumber(rest, lt, r) {
      assert lt(r, m) && !lt(m, r);
      assert Ahead(s, lt, r) == Ahead(rest, lt, r);
    }
  }

  // ----- one target per address

  predicate Preferred(a: Candidate, b: Candidate) {
    || a.masklen < b.masklen
    || (a.masklen == b.masklen && a.peers > b.peers)
    || (a.masklen == b.masklen && a.peers == b.peers && a.prefixId < b.prefixId)
  }

  /** `distinct on (address)`: the preferred candidate of each address. */
  ghost function Deduplicated(all: set<Candidate>): set<Candidate> {
    set r | r in all && forall q :: q in all && q.Address() == r.Address() ==> !Preferred(q, r)
  }

  ghost predicate DistinctIds(all: set<Candidate>) {
    forall a, b :: a in all && b in all && a.prefixId == b.prefixId ==> a == b
  }

  lemma DeduplicatedAddresses(all: set<Candidate>, a: Candidate, b: Candidate)
    requires DistinctIds(all) && a in Deduplicated(all) && b in Deduplicated(all) && a.Address() == b.Address()
    ensures a == b
  {
  }

  /** Every address keeps a target, and none less specific was passed over for it. */
  lemma EveryAddressKept(all: set<Candidate>, q: Candidate) returns (r: Candidate)
    requires DistinctIds(all) && q in all
    ensures r in Deduplicated(all) && r.Address() == q.Address()
    ensures r.masklen <= q.masklen
    ensures r.masklen == q.masklen ==> r.peers >= q.peers
    ensures r.masklen == q.masklen && r.peers == q.peers ==> r.prefixId <= q.prefixId
  {
    var same := set x | x in all && x.Address() == q.Address();
    var worse: Order := (a, b) => Preferred(b, a);
    assert q in same;
    assert StrictTotal(same, worse);
    r := Last(same, worse);
    forall x | x in all && x.Address() == r.Address() ensures !Preferred(x, r) {
      assert x == r || worse(x, r);
    }
    assert r == q || worse(q, r);
  }

  // ----- ranking within a provider and family

  /** Larger prefixes first, then the more widely seen, then by address. */
  predicate Better(a: Candidate, b: Candidate) {
    || a.masklen < b.masklen
    || (a.masklen == b.masklen && a.peers > b.peers)
    || (a.masklen == b.masklen && a.peers == b.peers && a.base < b.base)
  }

  /** One provider's deduplicated candidates of one family. */
  ghost function Partition(all: set<Candidate>, provider: string, f: Family): set<Candidate> {
    set r | r in Deduplicated(all) && r.provider == provider && r.fam == f
  }

  ghost predicate DistinctBases(s: set<Candidate>) {
    forall a, b :: a in s && b in s && a.base == b.base ==> a == b
  }

  lemma PartitionHasDistinctBases(all: set<Candidate>, provider: string, f: Family)
    requires DistinctIds(all)
    ensures DistinctBases(Partition(all, provider, f))
  {
    forall a, b | a in Partition(all, provider, f) && b in Partition(all, provider, f) && a.base == b.base ensures a == b {
      DeduplicatedAddresses(all, a, b);
    }
  }

  ghost function InCountry(s: set<Candidate>, c: string): set<Candidate> { set r | r in s && r.country == c }

  ghost function CountryRank(s: set<Candidate>, r: Candidate): nat { RowNumber(InCountry(s, r.country), Better, r) }

  /** Round robin: every country's best candidate before any country's second best. */
  ghost function RoundRobin(s: set<Candidate>): Order {
    (a: Candidate, b: Candidate) =>
      CountryRank(s, a) < CountryRank(s, b) || (CountryRank(s, a) == CountryRank(s, b) && Better(a, b))
  }

  ghost function WithinCountryCap(s: set<Candidate>, perCountry: nat): set<Candidate> {
    set r | r in s && CountryRank(s, r) <= perCountry
  }

  ghost function Chosen(s: set<Candidate>, perProvider: nat, perCountry: nat): set<Candidate> {
    Top(WithinCountryCap(s, perCountry), RoundRobin(s), perProvider)
  }

  /** The country cap falls back to the provider cap. */
  function CountryCap(maxPerCountry: int, maxPerProvider: nat): nat {
    if maxPerCountry <= 0 then maxPerProvider else maxPerCountry
  }

  /** The targets derived for one provider and family from all candidates of a snapshot. */
  ghost function Derived(all: set<Candidate>, provider: string, f: Family, maxPerProvider: nat, maxPerCountry: int): set<Candidate> {
    Chosen(Partition(all, provider, f), maxPerProvider, CountryCap(maxPerCountry, maxPerProvider))
  }

  lemma BetterIsTotal(s: set<Candidate>)
    requires DistinctBases(s)
    ensures StrictTotal(s, Better)
  {
  }

  lemma RoundRobinIsTotal(s: set<Candidate>, part: set<Candidate>)
    requires DistinctBases(s) && part <= s
    ensures StrictTotal(part, RoundRobin(s))
  {
    BetterIsTotal(s);
  }

  /** Both caps are respected, and the provider's budget is used up while eligible candidates remain. */
  lemma CapsRespected(s: set<Candidate>, perProvider: nat, perCountry: nat, c: string)
    requires DistinctBases(s)
    ensures var e := WithinCountryCap(s, perCountry);
            |Chosen(s, perProvider, perCountry)| == if |e| < perProvider then |e| else perProvider
    ensures |InCountry(Chosen(s, perProvider, perCountry), c)| <= perCountry
  {
    RoundRobinIsTotal(s, WithinCountryCap(s, perCountry));
    TopSize(WithinCountryCap(s, perCountry), RoundRobin(s), perProvider);
    var home := InCountry(s, c);
    BetterIsTotal(home);
    TopSize(home, Better, perCountry);
    SubsetSize(InCountry(Chosen(s, perProvider, perCountry), c), Top(home, Better, perCountry));
  }

  lemma EarlierIsChosen(s: set<Candidate>, perProvider: nat, perCountry: nat, q: Candidate, r: Candidate)
    requires DistinctBases(s) && r in Chosen(s, perProvider, perCountry)
    requires q in s && CountryRank(s, q) <= perCountry && RoundRobin(s)(q, r)
    ensures q in Chosen(s, perProvider, perCountry)
  {
    var e := WithinCountryCap(s, perCountry);
    RoundRobinIsTotal(s, e);
    RowNumberGrows(e, RoundRobin(s), q, r);
  }

  /** A country's picks are its best-ranked candidates. */
  lemma BestOfCountryChosen(s: set<Candidate>, perProvider: nat, perCountry: nat, q: Candidate, r: Candidate)
    requires DistinctBases(s) && r in Chosen(s, perProvider, perCountry)
    requires q in s && q.country == r.country && Better(q, r)
    ensures q in Chosen(s, perProvider, perCountry)
  {
    BetterIsTotal(InCountry(s, r.country));
    RowNumberGrows(InCountry(s, r.country), Better, q, r);
    EarlierIsChosen(s, perProvider, perCountry, q, r);
  }

  /** A country with `k` picks has one whose rank in the country is at least `k`. */
  lemma DeepPick(s: set<Candidate>, perProvider: nat, perCountry: nat, c: string, k: nat) returns (r: Candidate)
    requires DistinctBases(s) && k > 0 && |InCountry(Chosen(s, perProvider, perCountry), c)| >= k
    ensures r in Chosen(s, perProvider, perCountry) && r.country == c && CountryRank(s, r) >= k
  {
    var picks := InCountry(Chosen(s, perProvider, perCountry), c);
    var home := InCountry(s, c);
    BetterIsTotal(home);
    TopSize(home, Better, k - 1);
    if forall x :: x in picks ==> CountryRank(s, x) < k {
      SubsetSize(picks, Top(home, Better, k - 1));
    }
    r :| r in picks && CountryRank(s, r) >= k;
  }

  /**
   Fairness: if one country gets `k` targets, every other gets at least `k - 1`, unless it
   runs out of candidates or reaches its cap first.
   */
  lemma Fairness(s: set<Candidate>, perProvider: nat, perCountry: nat, c: string, d: string, k: nat)
    requires DistinctBases(s) && k > 0 && |InCountry(Chosen(s, perProvider, perCountry), c)| >= k
    ensures var due := if k - 1 < perCountry then k - 1 else perCountry;
            |InCountry(Chosen(s, perProvider, perCountry), d)| >= if |InCountry(s, d)| < due then |InCountry(s, d)| else due
  {
    var r := DeepPick(s, perProvider, perCountry, c, k);
    var due := if k - 1 < perCountry then k - 1 else perCountry;
    var home := InCountry(s, d);
    BetterIsTotal(home);
    TopSize(home, Better, due);
    forall q | q in Top(home, Better, due) ensures q in InCountry(Chosen(s, perProvider, perCountry), d) {
      EarlierIsChosen(s, perProvider, perCountry, q, r);
    }
    SubsetSize(Top(home, Better, due), InCountry(Chosen(s, perProvider, perCountry), d));
  }

  ghost function Countries(s: set<Candidate>): set<string> { set r | r in s :: r.country }

  lemma FirstOfCountry(s: set<Candidate>, a: Candidate, b: Candidate)
    requires DistinctBases(s) && a in s && b in s && a.country == b.country
    requires CountryRank(s, a) == CountryRank(s, b)
    ensures a == b
  {
    var home := InCountry(s, a.country);
    BetterIsTotal(home);
    if a != b {
      if Better(a, b) { RowNumberGrows(home, Better, a, b); } else { RowNumberGrows(home, Better, b, a); }
    }
  }

  lemma {:induction false} OnePerCountry(firsts: set<Candidate>, cs: set<string>)
    requires forall a, b :: a in firsts && b in firsts && a.country == b.country ==> a == b
    requires forall a :: a in firsts ==> a.country in cs
    ensures |firsts| <= |cs|
    decreases |firsts|
  {
    if firsts == {} {
    } else {
      var a :| a in firsts;
      OnePerCountry(firsts - {a}, cs - {a.country});
    }
  }

  lemma FirstIsChosen(s: set<Candidate>, perProvider: nat, perCountry: nat, r: Candidate)
    requires DistinctBases(s) && perCountry >= 1 && |Countries(s)| <= perProvider
    requires r in s && CountryRank(s, r) == 1
    ensures r in Chosen(s, perProvider, perCountry)
  {
    var e := WithinCountryCap(s, perCountry);
    var ahead := Ahead(e, RoundRobin(s), r);
    forall a | a in ahead ensures CountryRank(s, a) == 1 && a.country in Countries(s) - {r.country} {
      if a.country == r.country { FirstOfCountry(s, a, r); }
    }
    forall a, b | a in ahead && b in ahead && a.country == b.country ensures a == b { FirstOfCountry(s, a, b); }
    OnePerCountry(ahead, Countries(s) - {r.country});
    assert r.country in Countries(s);
  }

  /** When the budget covers the number of countries, every country is served. */
  lemma EveryCountryServed(s: set<Candidate>, perProvider: nat, perCountry: nat, c: string)
    requires DistinctBases(s) && perCountry >= 1 && |Countries(s)| <= perProvider && c in Countries(s)
    ensures InCountry(Chosen(s, perProvider, perCountry), c) != {}
  {
    var home := InCountry(s, c);
    var x :| x in s && x.country == c;
    assert x in home;
    BetterIsTotal(home);
    TopSize(home, Better, 1);
    var r :| r in Top(home, Better, 1);
    FirstIsChosen(s, perProvider, perCountry, r);
    assert r in InCountry(Chosen(s, perProvider, perCountry), c);
  }

  // ----- the whole query

  /** No address is chosen twice, not even for two providers. */
  lemma AddressChosenOnce(all: set<Candidate>, provider: string, f: Family, provider': string, f': Family,
                          maxPerProvider: nat, maxPerCountry: int, a: Candidate, b: Candidate)
    requires DistinctIds(all) && a.Address() == b.Address()
    requires a in Derived(all, provider, f, maxPerProvider, maxPerCountry)
    requires b in Derived(all, provider', f', maxPerProvider, maxPerCountry)
    ensures a == b && provider == provider' && f == f'
  {
    DeduplicatedAddresses(all, a, b);
  }

  /**
   What the query promises of one provider and family: the budget is respected, and if it
   covers the countries left after deduplication, each of them has a target.
   */
  lemma DerivedServesCountries(all: set<Candidate>, provider: string, f: Family, maxPerProvider: nat, maxPerCountry: int, c: string)
    requires DistinctIds(all)
    ensures |Derived(all, provider, f, maxPerProvider, maxPerCountry)| <= maxPerProvider
    ensures maxPerCountry > 0 ==> |InCountry(Derived(all, provider, f, maxPerProvider, maxPerCountry), c)| <= maxPerCountry
    ensures var cs := Countries(Partition(all, provider, f));
            |cs| <= maxPerProvider && c in cs ==> InCountry(Derived(all, provider, f, maxPerProvider, maxPerCountry), c) != {}
  {
    var s, cap := Partition(all, provider, f), CountryCap(maxPerCountry, maxPerProvider);
    PartitionHasDistinctBases(all, provider, f);
    CapsRespected(s, maxPerProvider, cap, c);
    if |Countries(s)| <= maxPerProvider && c in Countries(s) {
      assert |Countries(s)| > 0;
      EveryCountryServed(s, maxPerProvider, cap, c);
    }
  }

  /** A country's derived targets are its best-ranked deduplicated candidates. */
  lemma DerivedBestFirst(all: set<Candidate>, provider: string, f: Family, maxPerProvider: nat, maxPerCountry: int, q: Candidate, r: Candidate)
    requires DistinctIds(all) && r in Derived(all, provider, f, maxPerProvider, maxPerCountry)
    requires q in Partition(all, provider, f) && q.country == r.country
    requires || q.masklen < r.masklen
             || (q.masklen == r.masklen && q.peers > r.peers)
             || (q.masklen == r.masklen && q.peers == r.peers && q.base < r.base)
    ensures q in Derived(all, provider, f, maxPerProvider, maxPerCountry)
  {
    PartitionHasDistinctBases(all, provider, f);
    BestOfCountryChosen(Partition(all, provider, f), maxPerProvider, CountryCap(maxPerCountry, maxPerProvider), q, r);
  }

  /** The candidates of the same country that are shorter, or equally long and seen by more peers, or equal in both with a lower address. */
  ghost function AheadAtHome(s: set<Candidate>, r: Candidate): set<Candidate> {
    set q | q in s && q.country == r.country &&
      (|| q.masklen < r.masklen
       || (q.masklen == r.masklen && q.peers > r.peers)
       || (q.masklen == r.masklen && q.peers == r.peers && q.base < r.base))
  }

  /**
   Across countries: a candidate with fewer others ahead of it at home is taken first, and
   with equally many the shorter prefix, then the more widely seen, then the lower address.
   */
  lemma DerivedInTurn(all: set<Candidate>, provider: string, f: Family, maxPerProvider: nat, maxPerCountry: int, q: Candidate, r: Candidate)
    requires DistinctIds(all) && r in Derived(all, provider, f, maxPerProvider, maxPerCountry)
    requires q in Partition(all, provider, f)
    requires var s := Partition(all, provider, f);
             || |AheadAtHome(s, q)| < |AheadAtHome(s, r)|
             || (|AheadAtHome(s, q)| == |AheadAtHome(s, r)| &&
                 (|| q.masklen < r.masklen
                  || (q.masklen == r.masklen && q.peers > r.peers)
                  || (q.masklen == r.masklen && q.peers == r.peers && q.base < r.base)))
    ensures q in Derived(all, provider, f, maxPerProvider, maxPerCountry)
  {
    var s := Partition(all, provider, f);
    PartitionHasDistinctBases(all, provider, f);
    RankAtHome(s, q);
    RankAtHome(s, r);
    EarlierIsChosen(s, maxPerProvider, CountryCap(maxPerCountry, maxPerProvider), q, r);
  }

  lemma RankAtHome(s: set<Candidate>, r: Candidate)
    ensures CountryRank(s, r) == 1 + |AheadAtHome(s, r)|
  {
    assert Ahead(InCountry(s, r.country), Better, r) == AheadAtHome(s, r);
  }

  /** The cap is the configured one, or the provider's budget where none is configured; short of the budget every country is filled up to it. */
  lemma DerivedFillsUp(all: set<Candidate>, provider: string, f: Family, maxPerProvider: nat, maxPerCountry: int, c: string)
    requires DistinctIds(all) && |Derived(all, provider, f, maxPerProvider, maxPerCountry)| < maxPerProvider
    ensures var cap := if maxPerCountry <= 0 then maxPerProvider else maxPerCountry;
            var has := |InCountry(Partition(all, provider, f), c)|;
            |InCountry(Derived(all, provider, f, maxPerProvider, maxPerCountry), c)| == if has < cap then has else cap
  {
    var s, cap := Partition(all, provider, f), CountryCap(maxPerCountry, maxPerProvider);
    PartitionHasDistinctBases(all, provider, f);
    FillsUp(s, maxPerProvider, cap, c);
  }

  lemma FillsUp(s: set<Candidate>, perProvider: nat, perCountry: nat, c: string)
    requires DistinctBases(s) && |Chosen(s, perProvider, perCountry)| < perProvider
    ensures var has := |InCountry(s, c)|;
            |InCountry(Chosen(s, perProvider, perCountry), c)| == if has < perCountry then has else perCountry
  {
    var e, home := WithinCountryCap(s, perCountry), InCountry(s, c);
    CapsRespected(s, perProvider, perCountry, c);
    SubsetSize(Chosen(s, perProvider, perCountry), e);
    BetterIsTotal(home);
    TopSize(home, Better, perCountry);
    assert InCountry(e, c) == Top(home, Better, perCountry);
  }

  /** If one country gets `k` derived targets, every other gets `k - 1`, or all it has, or its cap. */
  lemma DerivedFairly(all: set<Candidate>, provider: string, f: Family, maxPerProvider: nat, maxPerCountry: int, c: string, d: string, k: nat)
    requires DistinctIds(all) && k > 0 && |InCountry(Derived(all, provider, f, maxPerProvider, maxPerCountry), c)| >= k
    ensures var cap := CountryCap(maxPerCountry, maxPerProvider);
            var due := if k - 1 < cap then k - 1 else cap;
            var has := |InCountry(Partition(all, provider, f), d)|;
            |InCountry(Derived(all, provider, f, maxPerProvider, maxPerCountry), d)| >= if has < due then has else due
  {
    PartitionHasDistinctBases(all, provider, f);
    Fairness(Partition(all, provider, f), maxPerProvider, CountryCap(maxPerCountry, maxPerProvider), c, d, k);
  }

  /** The candidate stands for a prefix that passed the filter and is not flagged as too long. */
  ghost predicate Represents(r: Candidate, p: Prefix) {
    && p.Valid() && r.fam == p.fam && r.base == p.Base() && r.masklen == p.bits
    && !Bogon.IsBogon(p) && !Bogon.TooLong(p)
  }

  ghost predicate FromFilter(r: Candidate) { exists p :: Represents(r, p) }

  /** Every derived target lies inside its own prefix and in no listed block. */
  lemma DerivedIsProbeable(all: set<Candidate>, provider: string, f: Family, maxPerProvider: nat, maxPerCountry: int, r: Candidate)
    requires forall x :: x in all ==> FromFilter(x)
    requires r in Derived(all, provider, f, maxPerProvider, maxPerCountry)
    ensures r in all && exists p :: Represents(r, p) && p.Contains(r.Address().1)
    ensures forall i :: 0 <= i < |Bogon.BOGONS| && Bogon.BOGONS[i].fam == r.fam ==> !Bogon.BOGONS[i].Contains(r.Address().1)
  {
    assert r in Partition(all, provider, f);
    CandidateIsProbeable(r);
  }

  lemma CandidateIsProbeable(r: Candidate)
    requires FromFilter(r)
    ensures exists p :: Represents(r, p) && p.Contains(r.Address().1)
    ensures forall i :: 0 <= i < |Bogon.BOGONS| && Bogon.BOGONS[i].fam == r.fam ==> !Bogon.BOGONS[i].Contains(r.Address().1)
  {
    var p :| Represents(r, p);
    Bogon.TargetInsidePrefix(p);
  }
}
