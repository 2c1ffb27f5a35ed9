/**
 The country distribution of every provider in a snapshot (`distribute`).
 */
module Distribution {
  import opened Basics
  import opened Cidr
  import opened Accounting
  import opened Sweep
  import Bogon

  type Uint64 = x: nat | x < UINT64

  datatype Row = Row(prefix: Announcement, origin: nat, provider: string)

  datatype CountryStat = CountryStat(ipv4Addresses: Uint64, ipv6Net64s: Uint64, prefixCountV4: nat, prefixCountV6: nat) {
    function Space(f: Family): Uint64 { if f.V4? then ipv4Addresses else ipv6Net64s }

    function Prefixes(f: Family): nat { if f.V4? then prefixCountV4 else prefixCountV6 }

    function AddSpace(f: Family, u: nat): CountryStat {
      WrapBound(Space(f) + u);
      if f.V4? then this.(ipv4Addresses := Add64(ipv4Addresses, u)) else this.(ipv6Net64s := Add64(ipv6Net64s, u))
    }

    function AddPrefix(f: Family): CountryStat {
      if f.V4? then this.(prefixCountV4 := prefixCountV4 + 1) else this.(prefixCountV6 := prefixCountV6 + 1)
    }
  }

  const NO_STAT := CountryStat(0, 0, 0, 0)

  type Stats = map<Code, CountryStat>
  type Key = (string, Family)

  function Stat(s: Stats, c: Code): CountryStat { if c in s then s[c] else NO_STAT }

  // ----- meaning

  ghost predicate Loaded(rows: seq<Row>) {
    forall i :: 0 <= i < |rows| ==> rows[i].prefix.Parsed()
  }

  /** The distinct masked prefixes a provider announces in one family. */
  ghost function AnnouncedBy(rows: seq<Row>, k: Key): set<Prefix>
    requires Loaded(rows)
  {
    set i | 0 <= i < |rows| && rows[i].provider == k.0 && rows[i].prefix.fam == k.1 :: rows[i].prefix.Masked()
  }

  ghost function Providers(rows: seq<Row>): set<string> {
    set i | 0 <= i < |rows| && rows[i].provider != "" :: rows[i].provider
  }

  ghost predicate ValidSet(ps: set<Prefix>, f: Family) {
    forall p :: p in ps ==> p.Valid() && p.fam == f
  }

  /** No prefix of the set is of length zero. */
  ghost predicate Plain(ps: set<Prefix>) { forall p :: p in ps ==> p.bits >= 1 }

  /** The prefixes of the set that reach into a country. */
  ghost function Reaching(ps: set<Prefix>, f: Family, ranger: Ranger, place: Placement, c: Code): set<Prefix>
    requires ValidSet(ps, f) && Consistent(place, ranger)
  {
    set p | p in ps && Reaches(p, ranger(p), c)
  }

  /**
   The figures of one family are right for a set of prefixes: distinct units of the union in
   the country, modulo the width of the counter, and the number of prefixes reaching into it.
   */
  ghost predicate Right(st: CountryStat, f: Family, ps: set<Prefix>, ranger: Ranger, place: Placement, c: Code)
    requires ValidSet(ps, f) && Consistent(place, ranger)
  {
    && st.Space(f) == Wrap(CountIn(Space(ps, f), f, place, c))
    && st.Prefixes(f) == |Reaching(ps, f, ranger, place, c)|
  }

  // ----- grouping

  lemma AnnouncedIsValid(rows: seq<Row>, k: Key)
    requires Loaded(rows)
    ensures ValidSet(AnnouncedBy(rows, k), k.1)
  {
    forall p | p in AnnouncedBy(rows, k) ensures p.Valid() && p.fam == k.1 {
      var i :| 0 <= i < |rows| && rows[i].provider == k.0 && rows[i].prefix.fam == k.1 && rows[i].prefix.Masked() == p;
      assert p == rows[i].prefix.Masked();
    }
  }

  method Group(rows: seq<Row>) returns (g: map<Key, set<Prefix>>)
    requires Loaded(rows)
    ensures forall k :: k in g <==> k.0 != "" && AnnouncedBy(rows, k) != {}
    ensures forall k :: k in g ==> g[k] == AnnouncedBy(rows, k)
  {
    g := map[];
    for n := 0 to |rows|
      invariant forall k :: Grouped(g, rows[..n], k)
    {
      var row := rows[n];
      ghost var before, after := g, rows[..n + 1];
      if row.provider != "" {
        var key := (row.provider, row.prefix.fam);
        var have := if key in g then g[key] else {};
        g := g[key := have + {row.prefix.Masked()}];
      }
      forall k ensures Grouped(g, after, k) {
        assert Grouped(before, rows[..n], k);
        AnnouncedStep(rows, n, k);
      }
    }
    assert rows[..|rows|] == rows;
    forall k ensures k in g <==> k.0 != "" && AnnouncedBy(rows, k) != {} { assert Grouped(g, rows, k); }
    forall k | k in g ensures g[k] == AnnouncedBy(rows, k) { assert Grouped(g, rows, k); }
  }

  ghost predicate Grouped(g: map<Key, set<Prefix>>, rows: seq<Row>, k: Key)
    requires Loaded(rows)
  {
    && (k in g <==> k.0 != "" && AnnouncedBy(rows, k) != {})
    && (k in g ==> g[k] == AnnouncedBy(rows, k))
  }

  lemma AnnouncedStep(rows: seq<Row>, n: nat, k: Key)
    requires Loaded(rows) && n < |rows|
    ensures AnnouncedBy(rows[..n + 1], k) ==
            AnnouncedBy(rows[..n], k) + if k == (rows[n].provider, rows[n].prefix.fam) then {rows[n].prefix.Masked()} else {}
  {
    var before, after := rows[..n], rows[..n + 1];
    forall p | p in AnnouncedBy(after, k)
      ensures p in AnnouncedBy(before, k) || (k == (rows[n].provider, rows[n].prefix.fam) && p == rows[n].prefix.Masked())
    {
      var i :| 0 <= i < n + 1 && after[i].provider == k.0 && after[i].prefix.fam == k.1 && after[i].prefix.Masked() == p;
      if i < n { assert before[i] == after[i]; }
    }
    forall p | p in AnnouncedBy(before, k) ensures p in AnnouncedBy(after, k) {
      var i :| 0 <= i < n && before[i].provider == k.0 && before[i].prefix.fam == k.1 && before[i].prefix.Masked() == p;
      assert after[i] == before[i];
    }
    if k == (rows[n].provider, rows[n].prefix.fam) {
      assert after[n] == rows[n];
    }
  }

  // ----- adding one group's figures

  method AddSpaces(stats0: Stats, f: Family, m: CountryMap) returns (stats: Stats)
    ensures forall c :: Stat(stats, c) ==
              if Get(m, c) == 0 then Stat(stats0, c) else Stat(stats0, c).AddSpace(f, Get(m, c))
    ensures forall c :: c in stats <==> c in stats0 || Get(m, c) != 0
  {
    stats := stats0;
    var todo := m.Keys;
    while todo != {}
      invariant todo <= m.Keys
      invariant forall c :: Stat(stats, c) ==
                  if c in todo || Get(m, c) == 0 then Stat(stats0, c) else Stat(stats0, c).AddSpace(f, Get(m, c))
      invariant forall c :: c in stats <==> c in stats0 || (c !in todo && Get(m, c) != 0)
      decreases todo
    {
      var code :| code in todo;
      if m[code] != 0 {
        stats := stats[code := Stat(stats, code).AddSpace(f, m[code])];
      }
      todo := todo - {code};
    }
  }

  method AddPrefixes(stats0: Stats, f: Family, codes: set<Code>) returns (stats: Stats)
    ensures forall c :: Stat(stats, c) == if c in codes then Stat(stats0, c).AddPrefix(f) else Stat(stats0, c)
    ensures stats.Keys == stats0.Keys + codes
  {
    stats := stats0;
    var todo := codes;
    while todo != {}
      invariant todo <= codes
      invariant forall c :: Stat(stats, c) == if c in codes - todo then Stat(stats0, c).AddPrefix(f) else Stat(stats0, c)
      invariant stats.Keys == stats0.Keys + (codes - todo)
      decreases todo
    {
      var code :| code in todo;
      stats := stats[code := Stat(stats, code).AddPrefix(f)];
      todo := todo - {code};
    }
  }

  /** Number of maps from `i` on that have the key. */
  ghost function KeyTally(m: seq<CountryMap>, i: nat, c: Code): nat
    requires i <= |m|
    decreases |m| - i
  {
    if i == |m| then 0 else (if c in m[i] then 1 else 0) + KeyTally(m, i + 1, c)
  }

  function Other(f: Family): Family { if f.V4? then V6 else V4 }

  ghost predicate Added(st: CountryStat, st0: CountryStat, f: Family, space: nat, prefixes: nat) {
    && st.Space(f) == Wrap(st0.Space(f) + space)
    && st.Prefixes(f) == st0.Prefixes(f) + prefixes
    && st.Space(Other(f)) == st0.Space(Other(f)) && st.Prefixes(Other(f)) == st0.Prefixes(Other(f))
  }

  method AddGroup(stats0: Stats, f: Family, own: seq<CountryMap>, exclusive: seq<CountryMap>) returns (stats: Stats)
    requires |own| == |exclusive|
    requires forall j, c :: 0 <= j < |own| && Get(exclusive[j], c) != 0 ==> c in own[j]
    ensures forall c :: Added(Stat(stats, c), Stat(stats0, c), f, Tally(exclusive, 0, c), KeyTally(own, 0, c))
    ensures forall c :: c in stats <==> c in stats0 || KeyTally(own, 0, c) > 0
  {
    stats := stats0;
    for i := 0 to |own|
      invariant forall c :: Booked(stats, stats0, f, own, exclusive, i, c)
    {
      ghost var before, n := stats, i + 1;
      var mid := AddSpaces(stats, f, exclusive[i]);
      stats := AddPrefixes(mid, f, own[i].Keys);
      forall c ensures Booked(stats, stats0, f, own, exclusive, n, c) {
        BookedStep(before, mid, stats, stats0, f, own, exclusive, i, c);
      }
    }
    forall c ensures Added(Stat(stats, c), Stat(stats0, c), f, Tally(exclusive, 0, c), KeyTally(own, 0, c))
                  && (c in stats <==> c in stats0 || KeyTally(own, 0, c) > 0) {
      BookedAll(stats, stats0, f, own, exclusive, c);
    }
  }

  lemma BookedAll(stats: Stats, stats0: Stats, f: Family, own: seq<CountryMap>, exclusive: seq<CountryMap>, c: Code)
    requires |own| == |exclusive| && Booked(stats, stats0, f, own, exclusive, |own|, c)
    ensures Added(Stat(stats, c), Stat(stats0, c), f, Tally(exclusive, 0, c), KeyTally(own, 0, c))
    ensures c in stats <==> c in stats0 || KeyTally(own, 0, c) > 0
  {
  }

  lemma BookedStep(before: Stats, mid: Stats, after: Stats, stats0: Stats, f: Family,
                   own: seq<CountryMap>, exclusive: seq<CountryMap>, i: nat, c: Code)
    requires i < |own| == |exclusive| && Booked(before, stats0, f, own, exclusive, i, c)
    requires Get(exclusive[i], c) != 0 ==> c in own[i]
    requires Stat(mid, c) == if Get(exclusive[i], c) == 0 then Stat(before, c) else Stat(before, c).AddSpace(f, Get(exclusive[i], c))
    requires Stat(after, c) == if c in own[i] then Stat(mid, c).AddPrefix(f) else Stat(mid, c)
    requires c in after <==> c in before || c in own[i]
    ensures Booked(after, stats0, f, own, exclusive, i + 1, c)
  {
    StepAdded(Stat(before, c), Stat(mid, c), Stat(after, c), Stat(stats0, c), f, own, exclusive, i, c);
  }

  /** What is in the table and what the maps from `i` on still bring make up the whole, and no country is missed. */
  ghost predicate Booked(stats: Stats, stats0: Stats, f: Family, own: seq<CountryMap>, exclusive: seq<CountryMap>, i: nat, c: Code)
    requires i <= |own| == |exclusive|
  {
    && RemainingAdded(Stat(stats, c), Stat(stats0, c), f, own, exclusive, i, c)
    && (Listed(stats, own, i, c) <==> Listed(stats0, own, 0, c))
  }

  /** A country has a row, or gets one from the prefixes still to be added. */
  ghost predicate Listed(stats: Stats, own: seq<CountryMap>, i: nat, c: Code)
    requires i <= |own|
  {
    c in stats || KeyTally(own, i, c) > 0
  }

  ghost predicate RemainingAdded(st: CountryStat, st0: CountryStat, f: Family,
                                 own: seq<CountryMap>, exclusive: seq<CountryMap>, i: nat, c: Code)
    requires i <= |own| == |exclusive|
  {
    && Wrap(st.Space(f) + Tally(exclusive, i, c)) == Wrap(st0.Space(f) + Tally(exclusive, 0, c))
    && st.Prefixes(f) + KeyTally(own, i, c) == st0.Prefixes(f) + KeyTally(own, 0, c)
    && st.Space(Other(f)) == st0.Space(Other(f)) && st.Prefixes(Other(f)) == st0.Prefixes(Other(f))
  }

  lemma {:induction false} StepFigures(before: CountryStat, mid: CountryStat, after: CountryStat, f: Family, u: nat, reached: bool)
    requires mid == if u == 0 then before else before.AddSpace(f, u)
    requires after == if reached then mid.AddPrefix(f) else mid
    ensures after.Space(f) == (if u == 0 then before.Space(f) else Add64(before.Space(f), u))
    ensures after.Prefixes(f) == before.Prefixes(f) + if reached then 1 else 0
    ensures after.Space(Other(f)) == before.Space(Other(f)) && after.Prefixes(Other(f)) == before.Prefixes(Other(f))
  {
  }

  lemma {:induction false} StepSpace(before: Uint64, u: nat, after: Uint64, rest: nat)
    requires after == if u == 0 then before else Add64(before, u)
    ensures Wrap(after + rest) == Wrap(before + (u + rest))
  {
    if u != 0 { WrapAdds(before + u, rest); }
  }

  lemma {:induction false} StepAdded(before: CountryStat, mid: CountryStat, after: CountryStat, st0: CountryStat, f: Family,
                  own: seq<CountryMap>, exclusive: seq<CountryMap>, i: nat, c: Code)
    requires i < |own| == |exclusive|
    requires RemainingAdded(before, st0, f, own, exclusive, i, c)
    requires mid == if Get(exclusive[i], c) == 0 then before else before.AddSpace(f, Get(exclusive[i], c))
    requires after == if c in own[i] then mid.AddPrefix(f) else mid
    ensures RemainingAdded(after, st0, f, own, exclusive, i + 1, c)
  {
    StepFigures(before, mid, after, f, Get(exclusive[i], c), c in own[i]);
    StepSpace(before.Space(f), Get(exclusive[i], c), after.Space(f), Tally(exclusive, i + 1, c));
  }

  // ----- a whole group

  ghost predicate Distinct(s: seq<Prefix>) { forall j, k :: 0 <= j < k < |s| ==> s[j] != s[k] }

  lemma FromStep(s: seq<Prefix>, i: nat)
    requires i < |s|
    ensures From(s, i) == From(s, i + 1) + {s[i]}
  {
  }

  lemma MeetInsert<T>(a: set<T>, x: T, hit: set<T>)
    requires x !in a
    ensures |(a + {x}) * hit| == |a * hit| + if x in hit then 1 else 0
  {
    assert (a + {x}) * hit == if x in hit then a * hit + {x} else a * hit;
  }

  /** The prefix does not come again, and its map has the key just if it is in the set. */
  ghost predicate Marks(s: seq<Prefix>, own: seq<CountryMap>, hit: set<Prefix>, c: Code, j: nat)
    requires |own| == |s|
  {
    j < |s| ==> s[j] !in From(s, j + 1) && (c in own[j] <==> s[j] in hit)
  }

  /** The tally over distinct prefixes is the size of a set of them. */
  lemma {:induction false} KeyTallyIsSize(s: seq<Prefix>, own: seq<CountryMap>, i: nat, hit: set<Prefix>, c: Code)
    requires |own| == |s| && i <= |s| && forall j :: Marks(s, own, hit, c, j)
    ensures KeyTally(own, i, c) == |From(s, i) * hit|
    decreases |s| - i
  {
    if i == |s| {
      assert From(s, i) == {};
    } else {
      KeyTallyIsSize(s, own, i + 1, hit, c);
      assert Marks(s, own, hit, c, i);
      FromStep(s, i);
      MeetInsert(From(s, i + 1), s[i], hit);
    }
  }

  lemma KeyTallyIsReaching(s: seq<Prefix>, own: seq<CountryMap>, f: Family, ranger: Ranger, place: Placement, c: Code)
    requires OneFamily(s, f) && Consistent(place, ranger) && |own| == |s|
    requires CountsOwn(s, own, ranger, f, place) && Distinct(s) && Plain(From(s, 0))
    ensures KeyTally(own, 0, c) == |Reaching(From(s, 0), f, ranger, place, c)|
  {
    var hit := Reaching(From(s, 0), f, ranger, place, c);
    forall j: nat ensures Marks(s, own, hit, c, j) {
      if j < |s| { assert OwnMap(own[j], s[j], ranger, place) && s[j] in From(s, 0); }
    }
    KeyTallyIsSize(s, own, 0, hit, c);
    assert From(s, 0) * hit == hit;
  }

  method Listing(ps: set<Prefix>) returns (a: array<Prefix>)
    ensures fresh(a)
    ensures forall p :: p in a[..] <==> p in ps
    ensures Distinct(a[..])
  {
    var s: seq<Prefix> := [];
    var todo := ps;
    while todo != {}
      invariant todo <= ps
      invariant forall p :: p in s <==> p in ps - todo
      invariant Distinct(s)
      decreases todo
    {
      var p :| p in todo;
      s := s + [p];
      todo := todo - {p};
    }
    a := new Prefix[|s|](i requires 0 <= i < |s| => s[i]);
    assert a[..] == s;
  }

  lemma DistinctRearranged(s: seq<Prefix>, t: seq<Prefix>)
    requires multiset(s) == multiset(t)
    requires Distinct(s)
    ensures Distinct(t)
  {
    forall j, k | 0 <= j < k < |t| && t[j] == t[k] ensures false {
      assert t == t[..j] + [t[j]] + t[j + 1..k] + [t[k]] + t[k + 1..];
      assert multiset(t)[t[j]] >= 2;
      AtMostOnce(s, t[j]);
    }
  }

  lemma {:induction false} AtMostOnce(s: seq<Prefix>, p: Prefix)
    requires Distinct(s)
    ensures multiset(s)[p] <= 1
  {
    if s == [] {
    } else {
      AtMostOnce(s[1..], p);
      assert s == [s[0]] + s[1..];
      if s[0] == p { assert p !in s[1..]; }
    }
  }

  /** What the sweep's maps add up to for a listing of the set without repetition. */
  lemma GroupFigures(s: seq<Prefix>, ps: set<Prefix>, own: seq<CountryMap>, exclusive: seq<CountryMap>, f: Family,
                     ranger: Ranger, place: Placement, c: Code)
    requires ValidSet(ps, f) && OneFamily(s, f) && Consistent(place, ranger) && |own| == |exclusive| == |s|
    requires CountsOwn(s, own, ranger, f, place) && CountsExclusive(s, exclusive, f, place)
    requires Distinct(s) && From(s, 0) == ps && Plain(ps)
    ensures Tally(exclusive, 0, c) == CountIn(Space(ps, f), f, place, c)
    ensures KeyTally(own, 0, c) == |Reaching(ps, f, ranger, place, c)|
  {
    forall j | 0 <= j < |s| ensures s[j].bits >= 1 { assert s[j] in From(s, 0); }
    Conservation(s, exclusive, 0, f, place, c);
    KeyTallyIsReaching(s, own, f, ranger, place, c);
  }

  lemma ListedIsFrom(s: seq<Prefix>, ps: set<Prefix>)
    requires forall p :: p in s <==> p in ps
    ensures From(s, 0) == ps
  {
  }

  /** The sweep's figures of a group, for a set without prefixes of length zero. */
  ghost predicate GroupRight(own: seq<CountryMap>, exclusive: seq<CountryMap>, f: Family, ps: set<Prefix>,
                             ranger: Ranger, place: Placement, c: Code)
    requires ValidSet(ps, f) && Consistent(place, ranger)
  {
    && Tally(exclusive, 0, c) == CountIn(Space(ps, f), f, place, c)
    && KeyTally(own, 0, c) == |Reaching(ps, f, ranger, place, c)|
  }

  lemma ListedFamily(s: seq<Prefix>, ps: set<Prefix>, f: Family)
    requires ValidSet(ps, f) && forall p :: p in s <==> p in ps
    ensures OneFamily(s, f)
  {
    forall i | 0 <= i < |s| ensures s[i] in ps { assert s[i] in s; }
  }

  /** Sweeps one provider's prefixes of one family. */
  method SweepGroup(f: Family, ps: set<Prefix>, ranger: Ranger, ghost place: Placement)
    returns (own: seq<CountryMap>, exclusive: seq<CountryMap>)
    requires ValidSet(ps, f) && Consistent(place, ranger)
    ensures KeysWithin(exclusive, own)
    ensures Plain(ps) ==> forall c :: GroupRight(own, exclusive, f, ps, ranger, place, c)
  {
    var a := Listing(ps);
    ghost var listed := a[..];
    ListedFamily(listed, ps, f);
    own, exclusive := ExclusiveUnits(a, ranger, f, place);
    DistinctRearranged(listed, a[..]);
    SameElements(listed, a[..]);
    ListedIsFrom(a[..], ps);
    if Plain(ps) {
      forall c ensures GroupRight(own, exclusive, f, ps, ranger, place, c) {
        GroupFigures(a[..], ps, own, exclusive, f, ranger, place, c);
      }
    }
  }

  // ----- the distribution

  /** For each group without prefixes of length zero, and each country: distinct units located there, and prefixes reaching into it. */
  type Figures = (Key, Code) -> Option<(nat, nat)>

  ghost predicate Describes(fig: Figures, rows: seq<Row>, k: Key, ranger: Ranger, place: Placement)
    requires Loaded(rows) && Consistent(place, ranger)
  {
    && ValidSet(AnnouncedBy(rows, k), k.1)
    && forall c :: fig(k, c) == FiguresAt(rows, ranger, place, k, c)
  }

  /** A country has a row only if some announced prefix reaches into it. */
  ghost predicate Populated(stats: Stats) {
    forall c :: c in stats ==> stats[c].prefixCountV4 + stats[c].prefixCountV6 > 0
  }

  /** The table holds the figures of the processed families; the others are still zero. */
  ghost predicate TableRight(stats: Stats, provider: string, done: set<Key>, fig: Figures) {
    forall f: Family, c :: FiguresRight(Stat(stats, c), (provider, f), done, fig, c)
  }

  ghost predicate FiguresRight(st: CountryStat, k: Key, done: set<Key>, fig: Figures, c: Code) {
    if k in done then fig(k, c).Some? ==> st.Space(k.1) == Wrap(fig(k, c).value.0) && st.Prefixes(k.1) == fig(k, c).value.1
    else st.Space(k.1) == 0 && st.Prefixes(k.1) == 0
  }

  /** Adds the figures of one provider and family to the provider's table. */
  method AddAnnounced(stats0: Stats, k: Key, ps: set<Prefix>, ranger: Ranger,
                      ghost rows: seq<Row>, ghost done: set<Key>, ghost place: Placement, ghost fig: Figures)
    returns (stats: Stats)
    requires Loaded(rows) && Consistent(place, ranger) && Describes(fig, rows, k, ranger, place)
    requires ps == AnnouncedBy(rows, k) && k !in done && TableRight(stats0, k.0, done, fig) && Populated(stats0)
    ensures TableRight(stats, k.0, done + {k}, fig) && Populated(stats)
  {
    var own, exclusive := SweepGroup(k.1, ps, ranger, place);
    stats := AddGroup(stats0, k.1, own, exclusive);
    forall c ensures FiguresAre(own, exclusive, fig(k, c), c) {
      assert fig(k, c) == FiguresAt(rows, ranger, place, k, c);
      if Plain(ps) { assert GroupRight(own, exclusive, k.1, ps, ranger, place, c); }
    }
    TableAfter(stats0, stats, k, done, own, exclusive, fig);
    PopulatedAfter(stats0, stats, k.1, own, exclusive);
  }

  lemma PopulatedAfter(stats0: Stats, stats: Stats, f: Family, own: seq<CountryMap>, exclusive: seq<CountryMap>)
    requires Populated(stats0)
    requires forall c :: Added(Stat(stats, c), Stat(stats0, c), f, Tally(exclusive, 0, c), KeyTally(own, 0, c))
    requires forall c :: c in stats <==> c in stats0 || KeyTally(own, 0, c) > 0
    ensures Populated(stats)
  {
    forall c | c in stats ensures stats[c].prefixCountV4 + stats[c].prefixCountV6 > 0 {
      var g := Other(f);
      assert Added(Stat(stats, c), Stat(stats0, c), f, Tally(exclusive, 0, c), KeyTally(own, 0, c));
      assert stats[c].Prefixes(f) == Stat(stats0, c).Prefixes(f) + KeyTally(own, 0, c);
      assert stats[c].Prefixes(g) == Stat(stats0, c).Prefixes(g);
    }
  }

  lemma TableAfter(stats0: Stats, stats: Stats, k: Key, done: set<Key>, own: seq<CountryMap>, exclusive: seq<CountryMap>, fig: Figures)
    requires k !in done && TableRight(stats0, k.0, done, fig)
    requires forall c :: Added(Stat(stats, c), Stat(stats0, c), k.1, Tally(exclusive, 0, c), KeyTally(own, 0, c))
    requires forall c :: FiguresAre(own, exclusive, fig(k, c), c)
    ensures TableRight(stats, k.0, done + {k}, fig)
  {
    forall f: Family, c ensures FiguresRight(Stat(stats, c), (k.0, f), done + {k}, fig, c) {
      assert FiguresRight(Stat(stats0, c), (k.0, f), done, fig, c);
      assert FiguresRight(Stat(stats0, c), (k.0, k.1), done, fig, c);
      assert Added(Stat(stats, c), Stat(stats0, c), k.1, Tally(exclusive, 0, c), KeyTally(own, 0, c));
      assert FiguresAre(own, exclusive, fig(k, c), c);
    }
  }

  ghost predicate FiguresAre(own: seq<CountryMap>, exclusive: seq<CountryMap>, fig: Option<(nat, nat)>, c: Code) {
    fig.Some? ==> fig.value == (Tally(exclusive, 0, c), KeyTally(own, 0, c))
  }

  ghost predicate RightSoFar(out: map<string, Stats>, done: set<Key>, fig: Figures) {
    && (forall provider :: provider in out <==> (provider, V4) in done || (provider, V6) in done)
    && (forall provider :: provider in out ==> TableRight(out[provider], provider, done, fig) && Populated(out[provider]))
  }

  lemma OthersKeep(out: map<string, Stats>, stats: Stats, k: Key, done: set<Key>, fig: Figures)
    requires RightSoFar(out, done, fig) && TableRight(stats, k.0, done + {k}, fig) && Populated(stats)
    ensures RightSoFar(out[k.0 := stats], done + {k}, fig)
  {
    forall provider | provider in out && provider != k.0
      ensures TableRight(out[provider], provider, done + {k}, fig)
    {
      forall f: Family, c ensures FiguresRight(Stat(out[provider], c), (provider, f), done + {k}, fig, c) {
        assert FiguresRight(Stat(out[provider], c), (provider, f), done, fig, c);
      }
    }
    forall provider
      ensures provider in out[k.0 := stats] <==> (provider, V4) in done + {k} || (provider, V6) in done + {k}
    {
      match k.1 { case V4 => assert k == (k.0, V4); case V6 => assert k == (k.0, V6); }
    }
  }

  /**
   Every provider's country table, over the groups in any order.
   */
  method DistributeGroups(rows: seq<Row>, groups: map<Key, set<Prefix>>, ranger: Ranger, ghost place: Placement, ghost fig: Figures)
    returns (out: map<string, Stats>)
    requires Loaded(rows) && Consistent(place, ranger)
    requires forall k :: k in groups ==> groups[k] == AnnouncedBy(rows, k) && Describes(fig, rows, k, ranger, place)
    ensures RightSoFar(out, groups.Keys, fig)
  {
    out := map[];
    var todo := groups.Keys;
    while todo != {}
      invariant todo <= groups.Keys
      invariant RightSoFar(out, groups.Keys - todo, fig)
      decreases todo
    {
      var k :| k in todo;
      ghost var done := groups.Keys - todo;
      var stats0: Stats := if k.0 in out then out[k.0] else map[];
      var stats := AddAnnounced(stats0, k, groups[k], ranger, rows, done, place, fig);
      OthersKeep(out, stats, k, done, fig);
      out := out[k.0 := stats];
      todo := todo - {k};
      assert groups.Keys - todo == done + {k};
    }
  }

  lemma ProvidersAreGrouped(rows: seq<Row>, provider: string)
    requires Loaded(rows)
    ensures provider in Providers(rows) <==>
            provider != "" && (AnnouncedBy(rows, (provider, V4)) != {} || AnnouncedBy(rows, (provider, V6)) != {})
  {
    if provider in Providers(rows) {
      var i :| 0 <= i < |rows| && rows[i].provider == provider;
      assert rows[i].prefix.Masked() in AnnouncedBy(rows, (provider, rows[i].prefix.fam));
    }
  }

  lemma NothingAnnounced(f: Family, ranger: Ranger, place: Placement, c: Code)
    requires Consistent(place, ranger)
    ensures CountIn(Space({}, f), f, place, c) == 0 && Reaching({}, f, ranger, place, c) == {}
  {
    assert Space({}, f) == {};
    assert Located({}, f, place, c) == {};
  }

  lemma FiguresAreRight(rows: seq<Row>, k: Key, done: set<Key>, st: CountryStat, ranger: Ranger, place: Placement, fig: Figures, c: Code)
    requires Loaded(rows) && Consistent(place, ranger) && Describes(fig, rows, k, ranger, place)
    requires k in done || AnnouncedBy(rows, k) == {}
    requires FiguresRight(st, k, done, fig, c)
    ensures Plain(AnnouncedBy(rows, k)) ==> Right(st, k.1, AnnouncedBy(rows, k), ranger, place, c)
  {
    if k !in done { NothingAnnounced(k.1, ranger, place, c); }
    assert fig(k, c) == FiguresAt(rows, ranger, place, k, c);
  }

  ghost function FiguresAt(rows: seq<Row>, ranger: Ranger, place: Placement, k: Key, c: Code): Option<(nat, nat)> {
    if Loaded(rows) && Consistent(place, ranger) && ValidSet(AnnouncedBy(rows, k), k.1) && Plain(AnnouncedBy(rows, k))
    then Some((CountIn(Space(AnnouncedBy(rows, k), k.1), k.1, place, c), |Reaching(AnnouncedBy(rows, k), k.1, ranger, place, c)|))
    else None
  }

  ghost function FiguresOf(rows: seq<Row>, ranger: Ranger, place: Placement): (fig: Figures)
    requires Loaded(rows) && Consistent(place, ranger)
    ensures forall k :: Describes(fig, rows, k, ranger, place)
  {
    assert forall k :: ValidSet(AnnouncedBy(rows, k), k.1) by { forall k: Key { AnnouncedIsValid(rows, k); } }
    (k: Key, c: Code) => FiguresAt(rows, ranger, place, k, c)
  }

  /** The figures of a provider, as the result states them. */
  ghost predicate RightTable(stats: Stats, rows: seq<Row>, provider: string, ranger: Ranger, place: Placement)
    requires Loaded(rows) && Consistent(place, ranger)
  {
    Populated(stats) && forall f: Family, c :: RightAt(stats, rows, (provider, f), ranger, place, c)
  }

  ghost predicate RightAt(stats: Stats, rows: seq<Row>, k: Key, ranger: Ranger, place: Placement, c: Code)
    requires Loaded(rows) && Consistent(place, ranger)
  {
    && ValidSet(AnnouncedBy(rows, k), k.1)
    && (Plain(AnnouncedBy(rows, k)) ==> Right(Stat(stats, c), k.1, AnnouncedBy(rows, k), ranger, place, c))
  }

  lemma TablesAreRight(rows: seq<Row>, groups: map<Key, set<Prefix>>, out: map<string, Stats>,
                       ranger: Ranger, place: Placement, fig: Figures, provider: string)
    requires Loaded(rows) && Consistent(place, ranger) && provider in out
    requires forall k :: Describes(fig, rows, k, ranger, place)
    requires forall k :: k in groups <==> k.0 != "" && AnnouncedBy(rows, k) != {}
    requires RightSoFar(out, groups.Keys, fig)
    ensures RightTable(out[provider], rows, provider, ranger, place)
  {
    forall f: Family, c ensures RightAt(out[provider], rows, (provider, f), ranger, place, c) {
      assert Describes(fig, rows, (provider, f), ranger, place);
      assert FiguresRight(Stat(out[provider], c), (provider, f), groups.Keys, fig, c);
      FiguresAreRight(rows, (provider, f), groups.Keys, Stat(out[provider], c), ranger, place, fig, c);
    }
  }

  /**
   Every provider's country table. For each provider, family and country the counter holds
   the number of distinct announced units located there, modulo the width of the counter,
   provided no announced prefix of that provider and family is of length zero.
   */
  method Distribute(rows: seq<Row>, ranger: Ranger, ghost place: Placement) returns (out: map<string, Stats>)
    requires Loaded(rows) && Consistent(place, ranger)
    ensures RightResult(out, rows, ranger, place)
  {
    var groups := Group(rows);
    ghost var fig := FiguresOf(rows, ranger, place);
    out := DistributeGroups(rows, groups, ranger, place, fig);
    forall provider ensures provider in out <==> provider in Providers(rows) { ProvidersAreGrouped(rows, provider); }
    forall provider | provider in out ensures RightTable(out[provider], rows, provider, ranger, place) {
      TablesAreRight(rows, groups, out, ranger, place, fig, provider);
    }
  }

  // ----- consequences

  ghost predicate PlainProvider(rows: seq<Row>, provider: string)
    requires Loaded(rows)
  {
    Plain(AnnouncedBy(rows, (provider, V4))) && Plain(AnnouncedBy(rows, (provider, V6)))
  }

  lemma SameFigures(rows: seq<Row>, rows': seq<Row>, provider: string, stats: Stats, stats': Stats,
                    ranger: Ranger, place: Placement, c: Code)
    requires Loaded(rows) && Loaded(rows') && Consistent(place, ranger) && PlainProvider(rows, provider)
    requires forall f: Family :: AnnouncedBy(rows, (provider, f)) == AnnouncedBy(rows', (provider, f))
    requires RightTable(stats, rows, provider, ranger, place) && RightTable(stats', rows', provider, ranger, place)
    ensures Stat(stats, c) == Stat(stats', c)
  {
    assert RightAt(stats, rows, (provider, V4), ranger, place, c) && RightAt(stats', rows', (provider, V4), ranger, place, c);
    assert RightAt(stats, rows, (provider, V6), ranger, place, c) && RightAt(stats', rows', (provider, V6), ranger, place, c);
    assert Stat(stats, c).Space(V4) == Stat(stats', c).Space(V4) && Stat(stats, c).Space(V6) == Stat(stats', c).Space(V6);
    assert Stat(stats, c).Prefixes(V4) == Stat(stats', c).Prefixes(V4) && Stat(stats, c).Prefixes(V6) == Stat(stats', c).Prefixes(V6);
  }

  lemma SameTable(stats: Stats, stats': Stats)
    requires Populated(stats) && Populated(stats') && forall c :: Stat(stats, c) == Stat(stats', c)
    ensures stats == stats'
  {
    forall c ensures c in stats <==> c in stats' { assert Stat(stats, c) == Stat(stats', c); }
    forall c | c in stats ensures stats[c] == stats'[c] { assert Stat(stats, c) == Stat(stats', c); }
  }

  /** The whole result, as `Distribute` states it. */
  ghost predicate RightResult(out: map<string, Stats>, rows: seq<Row>, ranger: Ranger, place: Placement)
    requires Loaded(rows) && Consistent(place, ranger)
  {
    && out.Keys == Providers(rows)
    && forall provider :: provider in out ==> RightTable(out[provider], rows, provider, ranger, place)
  }

  /** Only the set of (provider, masked prefix) pairs matters: not order, repetition, origin or the order groups are visited in. */
  lemma OrderIndependent(rows: seq<Row>, rows': seq<Row>, out: map<string, Stats>, out': map<string, Stats>,
                         ranger: Ranger, place: Placement)
    requires Loaded(rows) && Loaded(rows') && Consistent(place, ranger)
    requires forall k: Key :: k.0 != "" ==> AnnouncedBy(rows, k) == AnnouncedBy(rows', k)
    requires RightResult(out, rows, ranger, place) && RightResult(out', rows', ranger, place)
    ensures out.Keys == out'.Keys
    ensures forall provider :: provider in out && PlainProvider(rows, provider) ==> out[provider] == out'[provider]
  {
    forall provider ensures provider in out <==> provider in out' {
      ProvidersAreGrouped(rows, provider);
      ProvidersAreGrouped(rows', provider);
    }
    forall provider | provider in out && PlainProvider(rows, provider) ensures out[provider] == out'[provider] {
      assert provider in Providers(rows);
      forall c { SameFigures(rows, rows', provider, out[provider], out'[provider], ranger, place, c); }
      SameTable(out[provider], out'[provider]);
    }
  }

  // ----- rows that passed the filter

  /** Saturates an unsigned count into the signed range the database stores. */
  function ClampInt64(v: Uint64): (r: int)
    ensures r <= v && r < UINT64 / 2
    ensures r < v ==> r == UINT64 / 2 - 1
  {
    if v > 0x7fff_ffff_ffff_ffff then 0x7fff_ffff_ffff_ffff else v
  }

  ghost predicate Filtered(rows: seq<Row>) {
    Loaded(rows) && forall i :: 0 <= i < |rows| ==> !Bogon.IsBogon(rows[i].prefix.Masked())
  }

  lemma FilteredPrefix(rows: seq<Row>, k: Key, p: Prefix)
    requires Filtered(rows) && p in AnnouncedBy(rows, k)
    ensures p.Valid() && p.fam == k.1 && !Bogon.IsBogon(p)
  {
    var i :| 0 <= i < |rows| && rows[i].provider == k.0 && rows[i].prefix.fam == k.1 && rows[i].prefix.Masked() == p;
    assert p == rows[i].prefix.Masked();
  }

  /** No prefix of length zero passes the filter, so every table is right. */
  lemma FilteredIsPlain(rows: seq<Row>, k: Key)
    requires Filtered(rows)
    ensures Plain(AnnouncedBy(rows, k))
  {
    forall p | p in AnnouncedBy(rows, k) ensures p.bits >= 1 {
      FilteredPrefix(rows, k, p);
      if p.bits == 0 { Bogon.DefaultRouteIsBogon(p); }
    }
  }

  /** The block every filtered prefix of a family lies in. */
  ghost function Room(f: Family): Prefix { if f.V4? then Prefix(V4, 0, 0) else Bogon.GLOBAL6 }

  lemma InRoom(p: Prefix)
    requires p.Valid() && !Bogon.IsBogon(p)
    ensures Room(p.fam).Leads(p)
  {
    if p.fam.V4? { ShiftBound(p.value, p.bits, 0); } else { Bogon.InsideGlobal(p); }
  }

  /** Number of bits of a count of units inside 2000::/3, the larger of the two rooms. */
  const ROOM_BITS: nat := 61

  lemma RoomSize(f: Family)
    ensures |UnitSet(Room(f))| <= Pow2(ROOM_BITS)
  {
    Bogon.TableIsValid();
    UnitSetSize(Room(f));
    if f.V4? { Pow2Monotone(32, ROOM_BITS); }
  }

  lemma RoomFits()
    ensures Pow2(ROOM_BITS) < 0x7fff_ffff_ffff_ffff
  {
    Pow2Values();
    Pow2Monotone(ROOM_BITS, 62);
    Pow2Monotone(62, 63);
  }

  lemma FilteredSpaceInRoom(rows: seq<Row>, k: Key)
    requires Filtered(rows)
    ensures Space(AnnouncedBy(rows, k), k.1) <= UnitSet(Room(k.1))
  {
    var ps := AnnouncedBy(rows, k);
    forall u | u in Space(ps, k.1) ensures u in UnitSet(Room(k.1)) {
      var p :| p in ps && u in UnitSet(p);
      FilteredPrefix(rows, k, p);
      InRoom(p);
      LeadsUnits(Room(k.1), p);
    }
  }

  /** All announced space that passed the filter fits in 2^61 units. */
  lemma FilteredSpaceBound(rows: seq<Row>, k: Key)
    requires Filtered(rows)
    ensures |Space(AnnouncedBy(rows, k), k.1)| <= Pow2(ROOM_BITS)
  {
    FilteredSpaceInRoom(rows, k);
    SubsetSize(Space(AnnouncedBy(rows, k), k.1), UnitSet(Room(k.1)));
    RoomSize(k.1);
  }

  lemma FilteredCountBound(rows: seq<Row>, k: Key, place: Placement, c: Code)
    requires Filtered(rows)
    ensures CountIn(Space(AnnouncedBy(rows, k), k.1), k.1, place, c) < 0x7fff_ffff_ffff_ffff
  {
    FilteredSpaceBound(rows, k);
    RoomFits();
    SubsetSize(Located(Space(AnnouncedBy(rows, k), k.1), k.1, place, c), Space(AnnouncedBy(rows, k), k.1));
  }

  lemma {:induction false} SmallIsExact(v: Uint64, count: nat)
    requires v == Wrap(count) && count < 0x7fff_ffff_ffff_ffff
    ensures ClampInt64(v) == v == count
  {
  }

  /** For rows that passed the filter no counter wraps and none saturates: the stored number is the count. */
  lemma FilteredIsExact(rows: seq<Row>, provider: string, f: Family, stats: Stats, ranger: Ranger, place: Placement, c: Code)
    requires Filtered(rows) && Consistent(place, ranger)
    requires RightTable(stats, rows, provider, ranger, place)
    ensures ClampInt64(Stat(stats, c).Space(f)) == Stat(stats, c).Space(f)
         == CountIn(Space(AnnouncedBy(rows, (provider, f)), f), f, place, c)
  {
    var k := (provider, f);
    FilteredIsPlain(rows, k);
    assert RightAt(stats, rows, k, ranger, place, c);
    FilteredCountBound(rows, k, place, c);
    SmallIsExact(Stat(stats, c).Space(f), CountIn(Space(AnnouncedBy(rows, k), f), f, place, c));
  }

  // ----- rows that did not

  lemma SpaceOfTwo(p: Prefix, q: Prefix)
    requires p.fam == q.fam
    ensures Space({p, q}, p.fam) == UnitSet(p) + UnitSet(q)
  {
    forall u: nat ensures u in Space({p, q}, p.fam) <==> u in UnitSet(p) || u in UnitSet(q) {
      if u in UnitSet(p) { assert Announced({p, q}, u); }
      if u in UnitSet(q) { assert Announced({p, q}, u); }
    }
  }

  lemma SizeOfTwo(p: Prefix, q: Prefix)
    requires p.fam == q.fam && Apart(p, q)
    ensures |Space({p, q}, p.fam)| == |UnitSet(p)| + |UnitSet(q)|
  {
    SpaceOfTwo(p, q);
    ApartDisjoint(p, q);
    DisjointSize(UnitSet(p), UnitSet(q));
  }

  const LOWER_HALF := Prefix(V6, 0, 1)
  const UPPER_HALF := Prefix(V6, 1, 1)

  lemma HalvesSize()
    ensures LOWER_HALF.Valid() && UPPER_HALF.Valid()
    ensures |Space({LOWER_HALF, UPPER_HALF}, V6)| == UINT64
  {
    SizeOfTwo(LOWER_HALF, UPPER_HALF);
    UnitSetSize(LOWER_HALF);
    UnitSetSize(UPPER_HALF);
    Pow2Values();
  }

  function HalfRow(half: Prefix, provider: string): Row { Row(Announcement(V6, half.Base(), 1), 0, provider) }

  lemma HalfMasks(half: Prefix, provider: string)
    requires half == LOWER_HALF || half == UPPER_HALF
    ensures HalfRow(half, provider).prefix.Parsed() && HalfRow(half, provider).prefix.Masked() == half
  {
    HalvesSize();
    MaskedBase(half);
  }

  lemma HalvesAnnounced(provider: string)
    ensures var rows := [HalfRow(LOWER_HALF, provider), HalfRow(UPPER_HALF, provider)];
            Loaded(rows) && AnnouncedBy(rows, (provider, V6)) == {LOWER_HALF, UPPER_HALF}
  {
    var rows := [HalfRow(LOWER_HALF, provider), HalfRow(UPPER_HALF, provider)];
    HalfMasks(LOWER_HALF, provider);
    HalfMasks(UPPER_HALF, provider);
    assert rows[0].prefix.Masked() == LOWER_HALF && rows[1].prefix.Masked() == UPPER_HALF;
  }

  /**
   Without the filter a counter can wrap: a provider that announces the two halves of the IPv6
   space announces 2^64 units, and where they are all unplaced its table says zero.
   */
  lemma HalvesWrap(provider: string, stats: Stats, ranger: Ranger, place: Placement) returns (rows: seq<Row>)
    requires provider != "" && Consistent(place, ranger) && forall u :: place(V6, u) == UNKNOWN_COUNTRY
    ensures Loaded(rows) && |Space(AnnouncedBy(rows, (provider, V6)), V6)| == UINT64
    ensures RightTable(stats, rows, provider, ranger, place) ==> Stat(stats, UNKNOWN_COUNTRY).ipv6Net64s == 0
  {
    rows := [HalfRow(LOWER_HALF, provider), HalfRow(UPPER_HALF, provider)];
    HalvesAnnounced(provider);
    HalvesSize();
    var space := Space(AnnouncedBy(rows, (provider, V6)), V6);
    CountUniform(space, V6, place, UNKNOWN_COUNTRY, UNKNOWN_COUNTRY);
    WrapOver(|space|);
    if RightTable(stats, rows, provider, ranger, place) {
      assert RightAt(stats, rows, (provider, V6), ranger, place, UNKNOWN_COUNTRY);
    }
  }
}
