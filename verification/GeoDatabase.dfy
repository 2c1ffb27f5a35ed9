/**
 A GeoIP database as a binary trie over address bits, and the range split it answers with
 (internal/routing/geo/geo.go). Every such database meets the contract the accounting needs.
 */
module GeoDatabase {
  import opened Cidr
  import opened Accounting

  /** A record with an empty country code is present but places nothing. */
  datatype Trie = Empty | Record(country: Code) | Node(lo: Trie, hi: Trie)

  /** The two halves of a block: one more leading bit. */
  function Low(p: Prefix): Prefix { Prefix(p.fam, 2 * p.value, p.bits + 1) }

  function High(p: Prefix): Prefix { Prefix(p.fam, 2 * p.value + 1, p.bits + 1) }

  /** The half of `p` that leads what `p` leads. */
  lemma Halves(p: Prefix, q: Prefix)
    requires p.Leads(q) && p.bits < q.bits
    ensures Low(p).Leads(q) <==> !High(p).Leads(q)
  {
    ShiftShift(q.value, q.bits - p.bits - 1, 1);
    assert Shift(Shift(q.value, q.bits - p.bits - 1), 1) == Shift(q.value, q.bits - p.bits - 1) / 2;
  }

  lemma HalvesAreLed(p: Prefix)
    ensures p.Leads(Low(p)) && p.Leads(High(p)) && Apart(Low(p), High(p))
  {
    assert Shift(2 * p.value, 1) == p.value && Shift(2 * p.value + 1, 1) == p.value;
  }

  /** One of the two blocks lies inside the other. */
  predicate Nested(node: Prefix, q: Prefix) {
    node.Valid() && q.Valid() && if node.bits < q.bits then node.Leads(q) else q.Leads(node)
  }

  /** The pieces of query `q` recorded in the subtrie at block `node`, clamped to the query. */
  function Ranges(t: Trie, node: Prefix, q: Prefix): seq<Range>
    requires Nested(node, q)
    decreases t
  {
    match t
    case Empty => []
    case Record(country) => [Range(if node.bits < q.bits then q else node, country != "", country)]
    case Node(lo, hi) =>
      if node.bits == node.fam.Width() then []
      else
        HalvesNest(node, q);
        if node.bits < q.bits then
          if Low(node).Leads(q) then Ranges(lo, Low(node), q) else Ranges(hi, High(node), q)
        else
          Ranges(lo, Low(node), q) + Ranges(hi, High(node), q)
  }

  lemma HalvesNest(node: Prefix, q: Prefix)
    requires Nested(node, q) && node.bits < node.fam.Width()
    ensures Low(node).Valid() && High(node).Valid()
    ensures node.bits < q.bits && Low(node).Leads(q) ==> Nested(Low(node), q)
    ensures node.bits < q.bits && !Low(node).Leads(q) ==> High(node).Leads(q) && Nested(High(node), q)
    ensures node.bits >= q.bits ==> Nested(Low(node), q) && Nested(High(node), q)
  {
    HalvesAreLed(node);
    if node.bits < q.bits {
      Halves(node, q);
    } else {
      LeadsTransitive(q, node, Low(node));
      LeadsTransitive(q, node, High(node));
    }
  }

  // ----- the placement a database defines

  /** The country of a unit: that of the record holding the whole unit, if any. */
  function Place(t: Trie, node: Prefix, u: nat): Code {
    match t
    case Empty => UNKNOWN_COUNTRY
    case Record(country) => if country != "" then country else UNKNOWN_COUNTRY
    case Node(lo, hi) =>
      if node.bits >= node.fam.UnitBits() then UNKNOWN_COUNTRY
      else if HasUnit(Low(node), u) then Place(lo, Low(node), u)
      else Place(hi, High(node), u)
  }

  function PlacementAt(t: Trie, node: Prefix): Placement {
    (f: Family, u: nat) => Place(t, node, u)
  }

  function Region(node: Prefix, q: Prefix): Prefix { if node.bits < q.bits then q else node }

  /** A unit inside a block that is shorter than a unit lies in one half of it. */
  lemma UnitInHalf(p: Prefix, u: nat)
    requires p.bits < p.fam.UnitBits() && u in UnitSet(p)
    ensures HasUnit(Low(p), u) <==> !HasUnit(High(p), u)
  {
    Halves(p, UnitBlock(p.fam, u));
  }

  // ----- the split meets the accounting contract

  /** An answer that is right for one placement is right for any other that agrees on the region. */
  lemma SamePlacement(a: Placement, b: Placement, p: Prefix, rs: seq<Range>)
    requires p.Valid() && Answers(a, p, rs)
    requires forall u :: u in UnitSet(p) ==> a(p.fam, u) == b(p.fam, u)
    ensures Answers(b, p, rs)
  {
    forall i | 0 <= i < |rs| ensures PieceOf(b, p, rs[i]) {
      assert PieceOf(a, p, rs[i]);
      LeadsUnits(p, rs[i].prefix);
    }
  }

  lemma AcrossHalves(p: Prefix, a: Prefix, b: Prefix)
    requires Low(p).Leads(a) && High(p).Leads(b)
    ensures Apart(a, b)
  {
    if a.Leads(b) {
      LeadsTransitive(Low(p), a, b);
      LeadsTransitive(p, Low(p), b) by { HalvesAreLed(p); }
      Halves(p, b);
    }
    if b.Leads(a) {
      LeadsTransitive(High(p), b, a);
      LeadsTransitive(p, High(p), a) by { HalvesAreLed(p); }
      Halves(p, a);
    }
  }

  /** The answers for the two halves of a block together answer for the block. */
  lemma JoinHalves(place: Placement, p: Prefix, lo: seq<Range>, hi: seq<Range>)
    requires p.Valid() && Low(p).Valid() && High(p).Valid()
    requires Answers(place, Low(p), lo) && Answers(place, High(p), hi)
    requires forall u :: u in UnitSet(p) && u !in UnitSet(Low(p)) && u !in UnitSet(High(p)) ==>
               place(p.fam, u) == UNKNOWN_COUNTRY
    ensures Answers(place, p, lo + hi)
  {
    HalvesAreLed(p);
    var rs := lo + hi;
    forall i | 0 <= i < |rs| ensures PieceOf(place, p, rs[i]) {
      if i < |lo| {
        assert PieceOf(place, Low(p), lo[i]);
        LeadsTransitive(p, Low(p), rs[i].prefix);
      } else {
        assert PieceOf(place, High(p), hi[i - |lo|]);
        LeadsTransitive(p, High(p), rs[i].prefix);
      }
    }
    forall i, j | 0 <= i < j < |rs| ensures Apart(rs[i].prefix, rs[j].prefix) {
      if i < |lo| <= j {
        assert PieceOf(place, Low(p), lo[i]) && PieceOf(place, High(p), hi[j - |lo|]);
        AcrossHalves(p, rs[i].prefix, rs[j].prefix);
      }
    }
    forall u | u in UnitSet(p) && u !in PieceUnits(p, rs) ensures place(p.fam, u) == UNKNOWN_COUNTRY {
      LeftOut(lo, hi, u);
    }
  }

  lemma LeftOut(lo: seq<Range>, hi: seq<Range>, u: nat)
    requires forall i :: 0 <= i < |lo| ==> lo[i].prefix.Valid()
    requires forall i :: 0 <= i < |hi| ==> hi[i].prefix.Valid()
    ensures InPiece(lo, u) || InPiece(hi, u) ==> InPiece(lo + hi, u)
  {
    var rs := lo + hi;
    if InPiece(lo, u) {
      var i :| 0 <= i < |lo| && u in UnitSet(lo[i].prefix);
      assert rs[i] == lo[i];
    }
    if InPiece(hi, u) {
      var i :| 0 <= i < |hi| && u in UnitSet(hi[i].prefix);
      assert rs[|lo| + i] == hi[i];
    }
  }

  lemma Alone(place: Placement, p: Prefix, country: Code)
    requires p.Valid()
    requires forall u :: u in UnitSet(p) ==> place(p.fam, u) == Range(p, country != "", country).Label()
    ensures Answers(place, p, [Range(p, country != "", country)])
  {
    var rs := [Range(p, country != "", country)];
    forall u | u in UnitSet(p) ensures InPiece(rs, u) { assert u in UnitSet(rs[0].prefix); }
  }

  /** On a half of a block, the half's placement is the block's. */
  lemma HalfPlacement(lo: Trie, hi: Trie, node: Prefix, p: Prefix, u: nat)
    requires Low(node).Leads(p) || High(node).Leads(p)
    requires u in UnitSet(p)
    ensures Low(node).Leads(p) ==> Place(Node(lo, hi), node, u) == Place(lo, Low(node), u)
    ensures High(node).Leads(p) ==> Place(Node(lo, hi), node, u) == Place(hi, High(node), u)
  {
    HalvesAreLed(node);
    var half := if Low(node).Leads(p) then Low(node) else High(node);
    LeadsUnits(half, p);
    LeadsUnits(node, half);
    UnitInHalf(node, u);
    if High(node).Leads(p) { LeadsUnits(High(node), p); }
  }

  /** The split of a query answers for the part of the query inside the subtrie's block. */
  lemma {:induction false} RangesAnswer(t: Trie, node: Prefix, q: Prefix)
    requires Nested(node, q)
    ensures Answers(PlacementAt(t, node), Region(node, q), Ranges(t, node, q))
    decreases t, 1
  {
    var place, region := PlacementAt(t, node), Region(node, q);
    match t
    case Empty =>
    case Record(country) => Alone(place, region, country);
    case Node(lo, hi) =>
      if node.bits < node.fam.Width() {
        HalvesNest(node, q);
        if node.bits < q.bits {
          var t', half := if Low(node).Leads(q) then lo else hi, if Low(node).Leads(q) then Low(node) else High(node);
          RangesAnswer(t', half, q);
          SameBlock(half, q);
          forall u | u in UnitSet(q) ensures PlacementAt(t', half)(q.fam, u) == place(q.fam, u) {
            HalfPlacement(lo, hi, node, q, u);
          }
          SamePlacement(PlacementAt(t', half), place, q, Ranges(t', half, q));
        } else {
          BothHalves(lo, hi, node, q);
        }
      }
  }

  lemma LeadsItself(p: Prefix)
    ensures p.Leads(p)
  {
  }

  lemma SameBlock(half: Prefix, q: Prefix)
    requires Nested(half, q) && half.bits <= q.bits && half.Leads(q)
    ensures Region(half, q) == q
  {
  }

  /** An answer for the lower half under its own trie is one under the node's. */
  lemma LowAnswer(lo: Trie, hi: Trie, node: Prefix, rs: seq<Range>)
    requires Low(node).Valid() && Answers(PlacementAt(lo, Low(node)), Low(node), rs)
    ensures Answers(PlacementAt(Node(lo, hi), node), Low(node), rs)
  {
    LeadsItself(Low(node));
    forall u | u in UnitSet(Low(node)) ensures PlacementAt(lo, Low(node))(node.fam, u) == PlacementAt(Node(lo, hi), node)(node.fam, u) {
      HalfPlacement(lo, hi, node, Low(node), u);
    }
    SamePlacement(PlacementAt(lo, Low(node)), PlacementAt(Node(lo, hi), node), Low(node), rs);
  }

  lemma HighAnswer(lo: Trie, hi: Trie, node: Prefix, rs: seq<Range>)
    requires High(node).Valid() && Answers(PlacementAt(hi, High(node)), High(node), rs)
    ensures Answers(PlacementAt(Node(lo, hi), node), High(node), rs)
  {
    LeadsItself(High(node));
    forall u | u in UnitSet(High(node)) ensures PlacementAt(hi, High(node))(node.fam, u) == PlacementAt(Node(lo, hi), node)(node.fam, u) {
      HalfPlacement(lo, hi, node, High(node), u);
    }
    SamePlacement(PlacementAt(hi, High(node)), PlacementAt(Node(lo, hi), node), High(node), rs);
  }

  lemma BothHalves(lo: Trie, hi: Trie, node: Prefix, q: Prefix)
    requires Nested(node, q) && q.bits <= node.bits < node.fam.Width()
    ensures Answers(PlacementAt(Node(lo, hi), node), node, Ranges(Node(lo, hi), node, q))
    decreases Node(lo, hi), 0
  {
    HalvesNest(node, q);
    var place := PlacementAt(Node(lo, hi), node);
    RangesAnswer(lo, Low(node), q);
    RangesAnswer(hi, High(node), q);
    LowAnswer(lo, hi, node, Ranges(lo, Low(node), q));
    HighAnswer(lo, hi, node, Ranges(hi, High(node), q));
    forall u | u in UnitSet(node) && u !in UnitSet(Low(node)) && u !in UnitSet(High(node))
      ensures place(node.fam, u) == UNKNOWN_COUNTRY
    {
      if node.bits < node.fam.UnitBits() { UnitInHalf(node, u); }
    }
    JoinHalves(place, node, Ranges(lo, Low(node), q), Ranges(hi, High(node), q));
  }

  // ----- a database for both families

  datatype Database = Database(v4: Trie, v6: Trie) {
    function TrieOf(f: Family): Trie { if f.V4? then v4 else v6 }
  }

  function Root(f: Family): Prefix { Prefix(f, 0, 0) }

  lemma RootNests(q: Prefix)
    requires q.Valid()
    ensures Nested(Root(q.fam), q) && Region(Root(q.fam), q) == q
  {
    ShiftBound(q.value, q.bits, 0);
  }

  function RangerOf(db: Database): Ranger {
    (p: Prefix) => if p.Valid() then RootNests(p); Ranges(db.TrieOf(p.fam), Root(p.fam), p) else []
  }

  function PlacementOf(db: Database): Placement {
    (f: Family, u: nat) => Place(db.TrieOf(f), Root(f), u)
  }

  /** Every database answers consistently with one unit-to-country function, whatever is asked of it. */
  lemma DatabaseIsConsistent(db: Database)
    ensures Consistent(PlacementOf(db), RangerOf(db))
  {
    forall p: Prefix | p.Valid() ensures Answers(PlacementOf(db), p, RangerOf(db)(p)) {
      RootNests(p);
      RangesAnswer(db.TrieOf(p.fam), Root(p.fam), p);
      SamePlacement(PlacementAt(db.TrieOf(p.fam), Root(p.fam)), PlacementOf(db), p, RangerOf(db)(p));
    }
  }

  /** Without a database every unit is unplaced. */
  lemma NoDatabaseIsConsistent()
    ensures Consistent((f: Family, u: nat) => UNKNOWN_COUNTRY, (p: Prefix) => [])
  {
  }
}
