/**
 The sort-and-sweep computation of exclusive address space (`exclusiveUnits`).

 Prefixes are sorted so that a container comes before what it contains; one pass with a stack
 of enclosing prefixes subtracts each prefix's country map from its direct parent.
 */
module Sweep {
  import opened Cidr
  import opened Accounting

  // ----- the order of the sweep

  predicate Before(p: Prefix, q: Prefix) {
    p.Base() < q.Base() || (p.Base() == q.Base() && p.bits <= q.bits)
  }

  ghost predicate Sorted(s: seq<Prefix>) {
    forall i, j :: 0 <= i < j < |s| ==> Before(s[i], s[j])
  }

  ghost predicate OneFamily(s: seq<Prefix>, f: Family) {
    forall i :: 0 <= i < |s| ==> s[i].Valid() && s[i].fam == f
  }

  function Insert(p: Prefix, s: seq<Prefix>): (r: seq<Prefix>)
    ensures multiset(r) == multiset(s) + multiset{p}
  {
    if s == [] then [p]
    else if Before(p, s[0]) then [p] + s
    else
      assert s == [s[0]] + s[1..];
      [s[0]] + Insert(p, s[1..])
  }

  lemma {:induction false} InsertSorted(p: Prefix, s: seq<Prefix>)
    requires Sorted(s)
    ensures Sorted(Insert(p, s))
  {
    if s != [] && !Before(p, s[0]) {
      InsertSorted(p, s[1..]);
      var r := Insert(p, s[1..]);
      forall i | 0 <= i < |r| ensures Before(s[0], r[i]) {
        assert r[i] in multiset(r);
        assert r[i] == p || r[i] in s[1..];
      }
    }
  }

  /** The library sort, by its contract: a sorted rearrangement. */
  function Sort(s: seq<Prefix>): (r: seq<Prefix>)
    ensures Sorted(r) && multiset(r) == multiset(s)
  {
    if s == [] then [] else
      assert s == [s[0]] + s[1..];
      InsertSorted(s[0], Sort(s[1..]));
      Insert(s[0], Sort(s[1..]))
  }

  lemma SameElements<T>(a: seq<T>, b: seq<T>)
    requires multiset(a) == multiset(b)
    ensures |a| == |b| && forall x :: x in a <==> x in b
  {
    assert |a| == |multiset(a)| && |b| == |multiset(b)|;
    forall x ensures x in a <==> x in b {
      assert x in a <==> x in multiset(a);
      assert x in b <==> x in multiset(b);
    }
  }

  lemma SortKeepsFamily(s: seq<Prefix>, f: Family)
    requires OneFamily(s, f)
    ensures OneFamily(Sort(s), f) && |Sort(s)| == |s|
  {
    SameElements(Sort(s), s);
    forall i | 0 <= i < |Sort(s)| ensures Sort(s)[i] in s { assert Sort(s)[i] in Sort(s); }
  }

  /** In sweep order two prefixes overlap exactly when the earlier leads the later. */
  lemma EarlierLeads(p: Prefix, q: Prefix)
    requires p.Valid() && q.Valid() && p.fam == q.fam && Before(p, q)
    ensures p.Leads(q) ==> UnitSet(q) <= UnitSet(p)
    ensures !p.Leads(q) ==> UnitSet(p) !! UnitSet(q)
  {
    if p.Leads(q) {
      LeadsUnits(p, q);
    } else {
      if q.Leads(p) { LeadsCovers(q, p); }
      ApartDisjoint(p, q);
    }
  }

  /** Whatever leads a later prefix leads everything sorted in between. */
  lemma LeadsBetween(p: Prefix, q: Prefix, r: Prefix)
    requires p.Valid() && q.Valid() && r.Valid() && p.fam == q.fam == r.fam
    requires Before(p, q) && Before(q, r) && p.Leads(r)
    ensures p.Leads(q)
  {
    LeadsCovers(p, r);
    ContainsIsInterval(p, q.Base());
    ContainsIsInterval(q, q.Base());
    if p.bits <= q.bits {
      Laminar(p, q, q.Base());
    } else {
      Laminar(q, p, q.Base());
      LeadsCovers(q, p);
    }
  }

  // ----- exclusive space

  /** A prefix at an index strictly between `j` and `n` holds the unit. */
  ghost predicate Taken(s: seq<Prefix>, j: int, n: int, u: nat)
    requires 0 <= j && n <= |s|
  {
    exists k :: j < k < n && u in UnitSet(s[k])
  }

  /** The units of `s[j]` that no prefix sorted after it, up to `n`, holds. */
  ghost function Exclusive(s: seq<Prefix>, j: int, n: int): set<nat>
    requires 0 <= j < |s| && n <= |s|
  {
    set u | u in UnitSet(s[j]) && !Taken(s, j, n, u)
  }

  lemma ExclusiveKept(s: seq<Prefix>, j: int, i: int, f: Family)
    requires Sorted(s) && OneFamily(s, f) && 0 <= j < i < |s|
    requires !s[j].Leads(s[i]) || exists k :: j < k < i && s[k].Leads(s[i])
    ensures Exclusive(s, j, i + 1) == Exclusive(s, j, i)
  {
    forall u | u in UnitSet(s[j]) && u in UnitSet(s[i]) ensures Taken(s, j, i, u) {
      EarlierLeads(s[j], s[i]);
      var k :| j < k < i && s[k].Leads(s[i]);
      EarlierLeads(s[k], s[i]);
    }
  }

  /** The direct parent still owns all of the child's space, and gives up exactly that. */
  lemma ExclusiveGiven(s: seq<Prefix>, j: int, i: int, f: Family)
    requires Sorted(s) && OneFamily(s, f) && 0 <= j < i < |s|
    requires s[j].Leads(s[i]) && forall k :: j < k < i ==> !s[k].Leads(s[i])
    ensures UnitSet(s[i]) <= Exclusive(s, j, i)
    ensures Exclusive(s, j, i + 1) == Exclusive(s, j, i) - UnitSet(s[i])
  {
    EarlierLeads(s[j], s[i]);
    forall u | u in UnitSet(s[i]) ensures !Taken(s, j, i, u) {
      forall k | j < k < i ensures u !in UnitSet(s[k]) {
        EarlierLeads(s[k], s[i]);
      }
    }
    forall u ensures Taken(s, j, i + 1, u) <==> Taken(s, j, i, u) || u in UnitSet(s[i]) {
    }
  }

  /** Of distinct prefixes, each owns its space minus all strictly more specific ones. */
  lemma ExclusiveIsMinusMoreSpecific(s: seq<Prefix>, j: int, f: Family, u: nat)
    requires Sorted(s) && OneFamily(s, f) && 0 <= j < |s|
    requires forall i, k :: 0 <= i < k < |s| ==> s[i] != s[k]
    ensures u in Exclusive(s, j, |s|) <==>
            u in UnitSet(s[j]) &&
            forall k :: 0 <= k < |s| && s[j].Leads(s[k]) && s[k] != s[j] ==> u !in UnitSet(s[k])
  {
    forall k | 0 <= k < |s| && s[j].Leads(s[k]) && s[k] != s[j] ensures j < k {
      if k < j {
        LeadsCovers(s[j], s[k]);
        assert false;
      }
    }
    forall k | j < k < |s| && u in UnitSet(s[k]) && u in UnitSet(s[j]) ensures s[j].Leads(s[k]) {
      EarlierLeads(s[j], s[k]);
    }
  }

  // ----- conservation

  /** Some prefix of the set holds the unit. */
  ghost predicate Announced(ps: set<Prefix>, u: nat) {
    exists p :: p in ps && u in UnitSet(p)
  }

  /** The distinct units of a family that a set of prefixes announces. */
  ghost function Space(ps: set<Prefix>, f: Family): set<nat> {
    set u: nat | 0 <= u < Pow2(f.UnitBits()) && Announced(ps, u)
  }

  ghost function SpaceFrom(s: seq<Prefix>, i: nat, f: Family): set<nat>
    requires i <= |s|
  {
    Space(From(s, i), f)
  }

  ghost function From(s: seq<Prefix>, i: nat): set<Prefix>
    requires i <= |s|
  {
    set k | i <= k < |s| :: s[k]
  }

  lemma SpaceFromStep(s: seq<Prefix>, i: nat, f: Family)
    requires OneFamily(s, f) && i < |s|
    ensures SpaceFrom(s, i, f) == Exclusive(s, i, |s|) + SpaceFrom(s, i + 1, f)
    ensures Exclusive(s, i, |s|) !! SpaceFrom(s, i + 1, f)
  {
    var here, later := From(s, i), From(s, i + 1);
    forall u: nat ensures Announced(later, u) <==> Taken(s, i, |s|, u) {
      if Announced(later, u) {
        var p :| p in later && u in UnitSet(p);
        var k :| i + 1 <= k < |s| && s[k] == p;
        assert u in UnitSet(s[k]);
      }
      if Taken(s, i, |s|, u) {
        var k :| i < k < |s| && u in UnitSet(s[k]);
        assert s[k] in later;
      }
    }
    assert here == {s[i]} + later;
    forall u: nat ensures Announced(here, u) <==> u in UnitSet(s[i]) || Announced(later, u) {
      if u in UnitSet(s[i]) { assert s[i] in here; }
      if Announced(later, u) {
        var p :| p in later && u in UnitSet(p);
        assert p in here;
      }
    }
  }

  /** Exclusive counts of one country, summed over all prefixes from `i` on. */
  ghost function Tally(m: seq<CountryMap>, i: nat, c: Code): nat
    requires i <= |m|
    decreases |m| - i
  {
    if i == |m| then 0 else Get(m[i], c) + Tally(m, i + 1, c)
  }

  ghost predicate CountsExclusive(s: seq<Prefix>, m: seq<CountryMap>, f: Family, place: Placement)
    requires OneFamily(s, f) && |m| == |s|
  {
    forall j :: 0 <= j < |s| && s[j].bits >= 1 ==> Counts(m[j], Exclusive(s, j, |s|), f, place)
  }

  /** Conservation: the exclusive counts add up to the distinct units of the union, country by country. */
  lemma {:induction false} Conservation(s: seq<Prefix>, m: seq<CountryMap>, i: nat, f: Family, place: Placement, c: Code)
    requires OneFamily(s, f) && |m| == |s| && CountsExclusive(s, m, f, place) && i <= |s|
    requires forall j :: i <= j < |s| ==> s[j].bits >= 1
    ensures Tally(m, i, c) == CountIn(SpaceFrom(s, i, f), f, place, c)
    decreases |s| - i
  {
    if i == |s| {
      assert Located(SpaceFrom(s, i, f), f, place, c) == {};
    } else {
      Conservation(s, m, i + 1, f, place, c);
      SpaceFromStep(s, i, f);
      CountSplit(Exclusive(s, i, |s|), SpaceFrom(s, i + 1, f), f, place, c);
      assert Get(m[i], c) == CountIn(Exclusive(s, i, |s|), f, place, c);
    }
  }

  // ----- the sweep

  /** Subtracts a child's map from its parent's, key by key, dropping entries the child takes all of. */
  method Subtract(parent: CountryMap, child: CountryMap) returns (m: CountryMap)
    ensures forall c :: Get(m, c) == if Get(parent, c) > Get(child, c) then Get(parent, c) - Get(child, c) else 0
    ensures forall c :: c in m <==> c in parent && (c in child ==> Get(parent, c) > Get(child, c))
  {
    m := parent;
    var todo := child.Keys;
    while todo != {}
      invariant todo <= child.Keys
      invariant forall c :: Remains(m, parent, child, todo, c)
      decreases todo
    {
      var code :| code in todo;
      ghost var before := m;
      var u, have := child[code], Get(m, code);
      assert Remains(before, parent, child, todo, code);
      if have > u {
        m := m[code := have - u];
      } else {
        m := m - {code};
      }
      forall c ensures Remains(m, parent, child, todo - {code}, c) { assert Remains(before, parent, child, todo, c); }
      todo := todo - {code};
    }
    forall c ensures Get(m, c) == if Get(parent, c) > Get(child, c) then Get(parent, c) - Get(child, c) else 0 {
      assert Remains(m, parent, child, todo, c);
    }
    forall c ensures c in m <==> c in parent && (c in child ==> Get(parent, c) > Get(child, c)) {
      assert Remains(m, parent, child, todo, c);
    }
  }

  /** The entry of a country while some of the child's keys are still to be subtracted. */
  ghost predicate Remains(m: CountryMap, parent: CountryMap, child: CountryMap, todo: set<Code>, c: Code) {
    if c !in child || c in todo then
      (c in m <==> c in parent) && Get(m, c) == Get(parent, c)
    else
      && (c in m <==> c in parent && Get(parent, c) > Get(child, c))
      && Get(m, c) == if Get(parent, c) > Get(child, c) then Get(parent, c) - Get(child, c) else 0
  }

  /** The stack at index `i`: increasing, nested, and holding every earlier prefix that still encloses a later one. */
  ghost predicate Chain(s: seq<Prefix>, stack: seq<nat>, i: nat, f: Family)
    requires i <= |s| && OneFamily(s, f)
  {
    && (forall a :: 0 <= a < |stack| ==> stack[a] < i)
    && (forall a, b :: 0 <= a < b < |stack| ==> stack[a] < stack[b] && s[stack[a]].Leads(s[stack[b]]))
    && (forall j, k :: 0 <= j < i <= k < |s| && s[j].Leads(s[k]) ==> j in stack)
  }

  lemma PopKeepsChain(s: seq<Prefix>, stack: seq<nat>, i: nat, f: Family)
    requires Sorted(s) && OneFamily(s, f) && i < |s| && stack != [] && Chain(s, stack, i, f)
    requires !s[stack[|stack| - 1]].Leads(s[i])
    ensures Chain(s, stack[..|stack| - 1], i, f)
  {
    var top := stack[|stack| - 1];
    forall j, k | 0 <= j < i <= k < |s| && s[j].Leads(s[k]) ensures j in stack[..|stack| - 1] {
      if j == top {
        if i < k { LeadsBetween(s[j], s[i], s[k]); }
        assert false;
      }
    }
  }

  /** After popping, the stack is exactly the chain of prefixes enclosing the current one. */
  lemma ChainLeadsCurrent(s: seq<Prefix>, stack: seq<nat>, i: nat, f: Family)
    requires Sorted(s) && OneFamily(s, f) && i < |s| && Chain(s, stack, i, f)
    requires stack != [] ==> s[stack[|stack| - 1]].Leads(s[i])
    ensures forall j :: 0 <= j < i ==> (j in stack <==> s[j].Leads(s[i]))
    ensures stack != [] ==> forall j :: stack[|stack| - 1] < j < i ==> !s[j].Leads(s[i])
  {
    forall a | 0 <= a < |stack| ensures s[stack[a]].Leads(s[i]) {
      if a < |stack| - 1 {
        LeadsTransitive(s[stack[a]], s[stack[|stack| - 1]], s[i]);
      }
    }
  }

  lemma PushKeepsChain(s: seq<Prefix>, stack: seq<nat>, i: nat, f: Family)
    requires Sorted(s) && OneFamily(s, f) && i < |s| && Chain(s, stack, i, f)
    requires stack != [] ==> s[stack[|stack| - 1]].Leads(s[i])
    ensures Chain(s, stack + [i], i + 1, f)
  {
    ChainLeadsCurrent(s, stack, i, f);
    var next := stack + [i];
    forall j, k | 0 <= j < i + 1 <= k < |s| && s[j].Leads(s[k]) ensures j in next {
      if j < i { assert j in stack; } else { assert next[|stack|] == i; }
    }
    forall a, b | 0 <= a < b < |next| ensures next[a] < next[b] && s[next[a]].Leads(s[next[b]]) {
      if b == |stack| { assert next[a] in stack; }
    }
  }

  ghost predicate SweptTo(s: seq<Prefix>, m: seq<CountryMap>, i: nat, f: Family, place: Placement)
    requires OneFamily(s, f) && |m| == |s| && i <= |s|
  {
    forall j :: 0 <= j < |s| ==> SweptAt(s, m[j], j, i, f, place)
  }

  /** A prefix already met has the space nothing after it takes so far, one still to come its whole space. */
  ghost predicate SweptAt(s: seq<Prefix>, m: CountryMap, j: nat, i: nat, f: Family, place: Placement)
    requires j < |s| && i <= |s|
  {
    s[j].bits >= 1 ==> Counts(m, if j < i then Exclusive(s, j, i) else UnitSet(s[j]), f, place)
  }

  /** Effect of one step of the sweep on the direct parent. */
  lemma ParentGives(s: seq<Prefix>, j: nat, m: CountryMap, m': CountryMap, i: nat, f: Family, place: Placement)
    requires Sorted(s) && OneFamily(s, f) && j < i < |s|
    requires s[j].Leads(s[i]) && forall k :: j < k < i ==> !s[k].Leads(s[i])
    requires Counts(m, Exclusive(s, j, i), f, place)
    requires forall c :: Get(m', c) == Get(m, c) - CountIn(UnitSet(s[i]), f, place, c)
    ensures Counts(m', Exclusive(s, j, i + 1), f, place)
  {
    ExclusiveGiven(s, j, i, f);
    forall c ensures Get(m', c) == CountIn(Exclusive(s, j, i + 1), f, place, c) {
      CountMinus(Exclusive(s, j, i), UnitSet(s[i]), f, place, c);
      assert Get(m, c) == CountIn(Exclusive(s, j, i), f, place, c);
    }
  }

  /** Only the direct parent loses space: any other prefix that encloses the current one has lost it already. */
  lemma OthersKeep(s: seq<Prefix>, stack: seq<nat>, j: nat, i: nat, f: Family)
    requires Sorted(s) && OneFamily(s, f) && j < i < |s| && Chain(s, stack, i, f)
    requires forall k :: 0 <= k < i ==> (k in stack <==> s[k].Leads(s[i]))
    requires stack == [] || j != stack[|stack| - 1]
    ensures Exclusive(s, j, i + 1) == Exclusive(s, j, i)
  {
    if s[j].Leads(s[i]) {
      var a :| 0 <= a < |stack| && stack[a] == j;
      var parent := stack[|stack| - 1];
      assert parent in stack && j < parent && s[parent].Leads(s[i]);
    }
    ExclusiveKept(s, j, i, f);
  }

  /** Effect of one step of the sweep on every prefix already met. */
  lemma SweepStep(s: seq<Prefix>, stack: seq<nat>, m: seq<CountryMap>, m': seq<CountryMap>, i: nat, f: Family, place: Placement)
    requires Sorted(s) && OneFamily(s, f) && |m| == |m'| == |s| && i < |s|
    requires Chain(s, stack, i, f) && SweptTo(s, m, i, f, place)
    requires stack != [] ==> s[stack[|stack| - 1]].Leads(s[i])
    requires stack == [] ==> m' == m
    requires stack != [] ==>
               var parent := stack[|stack| - 1];
               && (forall j :: 0 <= j < |s| && j != parent ==> m'[j] == m[j])
               && (s[parent].bits >= 1 ==>
                     forall c :: Get(m'[parent], c) == Get(m[parent], c) - CountIn(UnitSet(s[i]), f, place, c))
    ensures SweptTo(s, m', i + 1, f, place)
  {
    ChainLeadsCurrent(s, stack, i, f);
    forall j | 0 <= j < |s| ensures SweptAt(s, m'[j], j, i + 1, f, place) {
      assert SweptAt(s, m[j], j, i, f, place);
      if j == i {
        assert Exclusive(s, i, i + 1) == UnitSet(s[i]);
      } else if j < i && s[j].bits >= 1 {
        if stack != [] && j == stack[|stack| - 1] {
          ParentGives(s, j, m[j], m'[j], i, f, place);
        } else {
          OthersKeep(s, stack, j, i, f);
        }
      }
    }
  }

  lemma ParentOwnsChild(s: seq<Prefix>, stack: seq<nat>, m: seq<CountryMap>, i: nat, f: Family, place: Placement)
    requires Sorted(s) && OneFamily(s, f) && |m| == |s| && i < |s|
    requires Chain(s, stack, i, f) && SweptTo(s, m, i, f, place)
    requires stack != [] && s[stack[|stack| - 1]].Leads(s[i]) && s[stack[|stack| - 1]].bits >= 1
    ensures forall c :: CountIn(UnitSet(s[i]), f, place, c) <= Get(m[stack[|stack| - 1]], c)
  {
    ChainLeadsCurrent(s, stack, i, f);
    var parent := stack[|stack| - 1];
    ExclusiveGiven(s, parent, i, f);
    forall c ensures CountIn(UnitSet(s[i]), f, place, c) <= Get(m[parent], c) {
      CountMinus(Exclusive(s, parent, i), UnitSet(s[i]), f, place, c);
      assert Get(m[parent], c) == CountIn(Exclusive(s, parent, i), f, place, c);
    }
  }

  method Pop(s: seq<Prefix>, stack0: seq<nat>, i: nat, ghost f: Family) returns (stack: seq<nat>)
    requires Sorted(s) && OneFamily(s, f) && i < |s| && Chain(s, stack0, i, f)
    ensures Chain(s, stack, i, f)
    ensures stack != [] ==> s[stack[|stack| - 1]].Leads(s[i])
  {
    stack := stack0;
    while |stack| > 0
      invariant Chain(s, stack, i, f)
    {
      var top := s[stack[|stack| - 1]];
      EnclosesIsLeads(top, s[i]);
      if top.Encloses(s[i]) {
        break;
      }
      PopKeepsChain(s, stack, i, f);
      stack := stack[..|stack| - 1];
    }
  }

  /** The map counts the prefix's whole space just if it is not of length zero; its keys are then the countries it reaches into. */
  ghost predicate OwnMap(m: CountryMap, p: Prefix, ranger: Ranger, place: Placement)
    requires p.Valid() && Consistent(place, ranger)
  {
    && (Counts(m, UnitSet(p), p.fam, place) <==> p.bits >= 1)
    && KeysRight(p, ranger(p), m)
  }

  ghost predicate CountsOwn(s: seq<Prefix>, m: seq<CountryMap>, ranger: Ranger, f: Family, place: Placement)
    requires OneFamily(s, f) && Consistent(place, ranger) && |m| == |s|
  {
    forall j :: 0 <= j < |s| ==> OwnMap(m[j], s[j], ranger, place)
  }

  method OwnUnits(sorted: seq<Prefix>, ranger: Ranger, ghost f: Family, ghost place: Placement)
    returns (own: seq<CountryMap>)
    requires OneFamily(sorted, f) && Consistent(place, ranger)
    ensures |own| == |sorted| && CountsOwn(sorted, own, ranger, f, place)
  {
    own := [];
    for i := 0 to |sorted|
      invariant |own| == i
      invariant forall j :: 0 <= j < i ==> OwnMap(own[j], sorted[j], ranger, place)
    {
      var m := CountryUnits(sorted[i], ranger(sorted[i]), place);
      assert OwnMap(m, sorted[i], ranger, place);
      own := own + [m];
    }
  }

  /** Every entry is for a country of the prefix's own map. */
  ghost predicate KeysWithin(m: seq<CountryMap>, own: seq<CountryMap>) {
    |m| == |own| && forall j :: 0 <= j < |m| ==> m[j].Keys <= own[j].Keys
  }

  /** Takes the space of prefix `i` from its direct parent, the top of the stack. */
  method TakeFromParent(sorted: seq<Prefix>, stack: seq<nat>, own: CountryMap, before: seq<CountryMap>, i: nat,
                        ghost f: Family, ghost place: Placement)
    returns (exclusive: seq<CountryMap>)
    requires Sorted(sorted) && OneFamily(sorted, f) && |before| == |sorted| && i < |sorted|
    requires Chain(sorted, stack, i, f) && SweptTo(sorted, before, i, f, place)
    requires stack != [] ==> sorted[stack[|stack| - 1]].Leads(sorted[i])
    requires sorted[i].bits >= 1 ==> Counts(own, UnitSet(sorted[i]), f, place)
    ensures |exclusive| == |sorted| && SweptTo(sorted, exclusive, i + 1, f, place)
    ensures KeysWithin(exclusive, before)
  {
    exclusive := before;
    if |stack| > 0 {
      var parent := stack[|stack| - 1];
      var m := Subtract(exclusive[parent], own);
      if sorted[parent].bits >= 1 {
        ParentOwnsChild(sorted, stack, before, i, f, place);
        ExactlyTaken(before[parent], own, m, UnitSet(sorted[i]), f, place);
      }
      exclusive := exclusive[parent := m];
    }
    SweepStep(sorted, stack, before, exclusive, i, f, place);
  }

  /** Where the parent owns all of the child's space, an entry is dropped only on exact equality. */
  lemma ExactlyTaken(parent: CountryMap, child: CountryMap, m: CountryMap, space: set<nat>, f: Family, place: Placement)
    requires Counts(child, space, f, place) && forall c :: CountIn(space, f, place, c) <= Get(parent, c)
    requires forall c :: Get(m, c) == if Get(parent, c) > Get(child, c) then Get(parent, c) - Get(child, c) else 0
    requires forall c :: c in m <==> c in parent && (c in child ==> Get(parent, c) > Get(child, c))
    ensures forall c :: Get(m, c) == Get(parent, c) - CountIn(space, f, place, c)
    ensures forall c :: c in parent && c !in m ==> Get(parent, c) == Get(child, c)
  {
    forall c ensures Get(m, c) == Get(parent, c) - CountIn(space, f, place, c)
                  && (c in parent && c !in m ==> Get(parent, c) == Get(child, c)) {
      assert Get(child, c) == CountIn(space, f, place, c);
    }
  }

  /** One prefix of the sweep: pop what does not enclose it, take its space from its parent, push it. */
  method SweepOne(sorted: seq<Prefix>, own: CountryMap, i: nat, stack0: seq<nat>, before: seq<CountryMap>,
                  ghost f: Family, ghost place: Placement)
    returns (stack: seq<nat>, exclusive: seq<CountryMap>)
    requires Sorted(sorted) && OneFamily(sorted, f) && |before| == |sorted| && i < |sorted|
    requires Chain(sorted, stack0, i, f) && SweptTo(sorted, before, i, f, place)
    requires sorted[i].bits >= 1 ==> Counts(own, UnitSet(sorted[i]), f, place)
    ensures Chain(sorted, stack, i + 1, f)
    ensures |exclusive| == |sorted| && SweptTo(sorted, exclusive, i + 1, f, place) && KeysWithin(exclusive, before)
  {
    stack := Pop(sorted, stack0, i, f);
    exclusive := TakeFromParent(sorted, stack, own, before, i, f, place);
    PushKeepsChain(sorted, stack, i, f);
    stack := stack + [i];
  }

  lemma WithinTwice(a: seq<CountryMap>, b: seq<CountryMap>, c: seq<CountryMap>)
    requires KeysWithin(a, b) && KeysWithin(b, c)
    ensures KeysWithin(a, c)
  {
  }

  /** One pass over the sorted prefixes; each that is not of length zero ends with the space nothing after it takes. */
  method SweepStack(sorted: seq<Prefix>, own: seq<CountryMap>, ghost f: Family, ghost place: Placement)
    returns (exclusive: seq<CountryMap>)
    requires Sorted(sorted) && OneFamily(sorted, f) && |own| == |sorted|
    requires forall j :: 0 <= j < |own| && sorted[j].bits >= 1 ==> Counts(own[j], UnitSet(sorted[j]), f, place)
    ensures |exclusive| == |sorted| && CountsExclusive(sorted, exclusive, f, place)
    ensures KeysWithin(exclusive, own)
  {
    exclusive := own;
    var stack: seq<nat> := [];
    for i := 0 to |sorted|
      invariant |exclusive| == |sorted| && KeysWithin(exclusive, own)
      invariant Chain(sorted, stack, i, f)
      invariant SweptTo(sorted, exclusive, i, f, place)
    {
      ghost var before := exclusive;
      stack, exclusive := SweepOne(sorted, own[i], i, stack, exclusive, f, place);
      WithinTwice(exclusive, before, own);
    }
  }

  /**
   Per-country counts of the space each prefix covers exclusively, right for every prefix that
   is not of length zero. The argument array is left in sweep order, which is the order of both results.
   */
  method ExclusiveUnits(prefixes: array<Prefix>, ranger: Ranger, ghost f: Family, ghost place: Placement)
    returns (own: seq<CountryMap>, exclusive: seq<CountryMap>)
    requires OneFamily(prefixes[..], f) && Consistent(place, ranger)
    modifies prefixes
    ensures Sorted(prefixes[..]) && multiset(prefixes[..]) == multiset(old(prefixes[..]))
    ensures OneFamily(prefixes[..], f) && |own| == |exclusive| == |prefixes[..]|
    ensures CountsOwn(prefixes[..], own, ranger, f, place)
    ensures CountsExclusive(prefixes[..], exclusive, f, place) && KeysWithin(exclusive, own)
  {
    var sorted := Sort(prefixes[..]);
    SortKeepsFamily(prefixes[..], f);
    own := OwnUnits(sorted, ranger, f, place);
    exclusive := SweepStack(sorted, own, f, place);
    forall i | 0 <= i < prefixes.Length { prefixes[i] := sorted[i]; }
    assert prefixes[..] == sorted;
  }
}
