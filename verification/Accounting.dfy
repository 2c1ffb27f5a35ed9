/**
 Per-country address-space accounting of one provider's announced prefixes
 (internal/builder/distribution.go).

 The meaning of every count is a set of accounting units: how many distinct units of the
 announced space have a given country. `place` is the one unit-to-country function that the
 GeoIP answers are consistent with.
 */
module Accounting {
  import opened Basics
  import opened Cidr

  const UNKNOWN_COUNTRY := "ZZ"
  const UINT64 := 0x1_0000_0000_0000_0000

  type Code = string
  type CountryMap = map<Code, nat>
  type Placement = (Family, nat) -> Code

  /** One piece of a GeoIP answer: a block and, when the record places it, its country. */
  datatype Range = Range(prefix: Prefix, ok: bool, country: Code) {
    function Label(): Code { if ok then country else UNKNOWN_COUNTRY }
  }

  /** The GeoIP capability. A missing database is the ranger that answers with no pieces. */
  type Ranger = Prefix -> seq<Range>

  function Get(m: CountryMap, c: Code): nat { if c in m then m[c] else 0 }

  /** What a 64-bit counter holds of a number: the remainder by its range. */
  function Wrap(x: nat): nat { if x < UINT64 then x else Wrap(x - UINT64) }

  /** Addition of unsigned 64-bit counters, with wrap-around. */
  function Add64(a: nat, b: nat): nat { Wrap(a + b) }

  lemma {:induction false} WrapIsRemainder(x: nat)
    ensures Wrap(x) == x % UINT64
  {
    if x < UINT64 {
    } else {
      WrapIsRemainder(x - UINT64);
    }
  }

  lemma {:induction false} WrapBound(x: nat)
    ensures Wrap(x) < UINT64 && Wrap(x) <= x
  {
    if x < UINT64 {
    } else {
      WrapBound(x - UINT64);
    }
  }

  /** Wrapping early makes no difference. */
  lemma {:induction false} WrapAdds(x: nat, u: nat)
    ensures Add64(Wrap(x), u) == Wrap(x + u)
  {
    if x < UINT64 {
    } else {
      WrapAdds(x - UINT64, u);
    }
  }

  // ----- weights

  /** Accounting weight of a prefix; it saturates on a prefix of length zero. */
  function Units(p: Prefix): nat
    requires p.Valid()
  {
    if p.fam.V6? && p.bits > 64 then 0
    else if p.bits == 0 then UINT64 - 1
    else Pow2(p.fam.UnitBits() - p.bits)
  }

  /** The weight is the number of units of the prefix exactly when the prefix is not of length zero. */
  lemma UnitsCountsSpace(p: Prefix)
    requires p.Valid()
    ensures Units(p) == |UnitSet(p)| <==> p.bits >= 1
  {
    UnitSetSize(p);
    Pow2Values();
  }

  lemma UnitsBound(p: Prefix)
    requires p.Valid() && p.bits >= 1
    ensures Units(p) < UINT64
  {
    Pow2Values();
    if !(p.fam.V6? && p.bits > 64) {
      Pow2Monotone(p.fam.UnitBits() - p.bits, 63);
    }
  }

  // ----- counting units by country

  ghost function Located(s: set<nat>, f: Family, place: Placement, c: Code): set<nat> {
    set u | u in s && place(f, u) == c
  }

  ghost function CountIn(s: set<nat>, f: Family, place: Placement, c: Code): nat {
    |Located(s, f, place, c)|
  }

  lemma CountSplit(s: set<nat>, t: set<nat>, f: Family, place: Placement, c: Code)
    requires s !! t
    ensures CountIn(s + t, f, place, c) == CountIn(s, f, place, c) + CountIn(t, f, place, c)
  {
    assert Located(s + t, f, place, c) == Located(s, f, place, c) + Located(t, f, place, c);
  }

  lemma CountMinus(s: set<nat>, t: set<nat>, f: Family, place: Placement, c: Code)
    requires t <= s
    ensures CountIn(t, f, place, c) <= CountIn(s, f, place, c)
    ensures CountIn(s - t, f, place, c) == CountIn(s, f, place, c) - CountIn(t, f, place, c)
  {
    assert s == (s - t) + t;
    CountSplit(s - t, t, f, place, c);
  }

  lemma CountUniform(s: set<nat>, f: Family, place: Placement, code: Code, c: Code)
    requires forall u :: u in s ==> place(f, u) == code
    ensures CountIn(s, f, place, c) == if c == code then |s| else 0
  {
    assert Located(s, f, place, c) == if c == code then s else {};
  }

  // ----- the contract of a GeoIP answer

  /**
   What `Ranges` promises for a query: pieces clamped to the query, pairwise apart, each
   wholly of its own country; a unit of the query that no piece holds is unplaced.
   */
  ghost predicate Answers(place: Placement, p: Prefix, rs: seq<Range>)
    requires p.Valid()
  {
    && ValidPieces(rs) && (forall i :: 0 <= i < |rs| ==> PieceOf(place, p, rs[i]))
    && (forall i, j :: 0 <= i < j < |rs| ==> Apart(rs[i].prefix, rs[j].prefix))
    && (forall u :: u in UnitSet(p) && u !in PieceUnits(p, rs) ==> place(p.fam, u) == UNKNOWN_COUNTRY)
  }

  ghost predicate PieceOf(place: Placement, p: Prefix, r: Range)
    requires p.Valid()
  {
    && r.prefix.Valid() && p.Leads(r.prefix)
    && forall u :: u in UnitSet(r.prefix) ==> place(p.fam, u) == r.Label()
  }

  predicate ValidPieces(rs: seq<Range>) { forall i :: 0 <= i < |rs| ==> rs[i].prefix.Valid() }

  ghost function PieceUnits(p: Prefix, rs: seq<Range>): set<nat>
    requires ValidPieces(rs)
  {
    set u: nat | 0 <= u < Pow2(p.fam.UnitBits()) && InPiece(rs, u)
  }

  ghost predicate InPiece(rs: seq<Range>, u: nat)
    requires ValidPieces(rs)
  {
    exists i :: 0 <= i < |rs| && u in UnitSet(rs[i].prefix)
  }

  ghost predicate Consistent(place: Placement, ranger: Ranger) {
    forall p: Prefix :: p.Valid() ==> Answers(place, p, ranger(p))
  }

  // ----- countryUnits

  /** Total weight of the first `k` pieces. */
  function PieceSum(rs: seq<Range>, k: nat): nat
    requires k <= |rs| && ValidPieces(rs)
  {
    if k == 0 then 0 else PieceSum(rs, k - 1) + Units(rs[k - 1].prefix)
  }

  /**
   The announcement of `p` reaches into country `c`: a piece of `c` is met before the pieces
   already met fill `p`, or space is left over and `c` is the unknown country.
   */
  ghost predicate Reaches(p: Prefix, rs: seq<Range>, c: Code)
    requires p.Valid() && ValidPieces(rs)
  {
    Met(rs, |rs|, Units(p), c) || (c == UNKNOWN_COUNTRY && PieceSum(rs, |rs|) < Units(p))
  }

  /** Some piece of country `c` among the first `k` was met before the prefix was full. */
  ghost predicate Met(rs: seq<Range>, k: nat, total: nat, c: Code)
    requires k <= |rs| && ValidPieces(rs)
  {
    exists i :: 0 <= i < k && rs[i].Label() == c && (i == 0 || PieceSum(rs, i) < total)
  }

  lemma MetNext(rs: seq<Range>, k: nat, total: nat)
    requires k < |rs| && ValidPieces(rs) && (k == 0 || PieceSum(rs, k) < total)
    ensures forall c :: Met(rs, k + 1, total, c) <==> Met(rs, k, total, c) || c == rs[k].Label()
  {
    assert Met(rs, k + 1, total, rs[k].Label());
  }

  lemma {:induction false} PieceSumMonotone(rs: seq<Range>, j: nat, k: nat)
    requires j <= k <= |rs| && ValidPieces(rs)
    ensures PieceSum(rs, j) <= PieceSum(rs, k)
  {
    if j == k {
    } else {
      PieceSumMonotone(rs, j, k - 1);
    }
  }

  lemma MetAll(p: Prefix, rs: seq<Range>, k: nat, c: Code)
    requires p.Valid() && k <= |rs| && ValidPieces(rs)
    requires k == |rs| || (k > 0 && PieceSum(rs, k) >= Units(p))
    ensures Reaches(p, rs, c) <==>
            Met(rs, k, Units(p), c) || (c == UNKNOWN_COUNTRY && PieceSum(rs, k) < Units(p))
  {
    PieceSumMonotone(rs, k, |rs|);
    forall i | k <= i < |rs| ensures PieceSum(rs, k) <= PieceSum(rs, i) {
      PieceSumMonotone(rs, k, i);
    }
  }

  // ----- pieces as sets of units

  /** No piece is of length zero, so that every piece weighs as many units as it holds. */
  ghost predicate Proper(rs: seq<Range>) { forall i :: 0 <= i < |rs| ==> rs[i].prefix.bits >= 1 }

  lemma {:induction false} InPieceStep(rs: seq<Range>, k: nat, u: nat)
    requires k < |rs| && ValidPieces(rs)
    ensures InPiece(rs[..k + 1], u) <==> InPiece(rs[..k], u) || u in UnitSet(rs[k].prefix)
  {
    var before, after := rs[..k], rs[..k + 1];
    assert forall i :: 0 <= i < k ==> before[i] == after[i] == rs[i];
    assert after[k] == rs[k];
    if InPiece(before, u) {
      var i :| 0 <= i < k && u in UnitSet(before[i].prefix);
      assert u in UnitSet(after[i].prefix);
    }
    if InPiece(after, u) {
      var i :| 0 <= i < k + 1 && u in UnitSet(after[i].prefix);
      if i < k { assert u in UnitSet(before[i].prefix); }
    }
  }

  lemma PieceAlone(place: Placement, p: Prefix, rs: seq<Range>, k: nat, u: nat)
    requires p.Valid() && Answers(place, p, rs) && k < |rs|
    requires u in UnitSet(rs[k].prefix)
    ensures !InPiece(rs[..k], u)
  {
    var before := rs[..k];
    forall i | 0 <= i < k ensures u !in UnitSet(before[i].prefix) {
      assert PieceOf(place, p, rs[i]) && PieceOf(place, p, rs[k]);
      ApartDisjoint(rs[i].prefix, rs[k].prefix);
    }
  }

  lemma PieceAdds(place: Placement, p: Prefix, rs: seq<Range>, k: nat)
    requires p.Valid() && Answers(place, p, rs) && k < |rs|
    ensures PieceUnits(p, rs[..k + 1]) == PieceUnits(p, rs[..k]) + UnitSet(rs[k].prefix)
    ensures PieceUnits(p, rs[..k]) !! UnitSet(rs[k].prefix)
    ensures UnitSet(rs[k].prefix) <= UnitSet(p)
  {
    assert PieceOf(place, p, rs[k]);
    LeadsUnits(p, rs[k].prefix);
    forall u { InPieceStep(rs, k, u); }
    forall u | u in UnitSet(rs[k].prefix) ensures u !in PieceUnits(p, rs[..k]) {
      PieceAlone(place, p, rs, k, u);
    }
  }

  lemma NoPieces(p: Prefix, rs: seq<Range>)
    requires ValidPieces(rs)
    ensures PieceUnits(p, rs[..0]) == {}
  {
  }

  lemma DisjointSize(s: set<nat>, t: set<nat>)
    requires s !! t
    ensures |s + t| == |s| + |t|
  {
  }

  lemma {:induction false} PieceStep(place: Placement, p: Prefix, rs: seq<Range>, k: nat)
    requires p.Valid() && Answers(place, p, rs) && Proper(rs) && k < |rs|
    requires PieceUnits(p, rs[..k]) <= UnitSet(p) && |PieceUnits(p, rs[..k])| == PieceSum(rs, k)
    ensures PieceUnits(p, rs[..k + 1]) <= UnitSet(p) && |PieceUnits(p, rs[..k + 1])| == PieceSum(rs, k + 1)
  {
    PieceAdds(place, p, rs, k);
    UnitsCountsSpace(rs[k].prefix);
    DisjointSize(PieceUnits(p, rs[..k]), UnitSet(rs[k].prefix));
  }

  lemma {:induction false} PiecesSoFar(place: Placement, p: Prefix, rs: seq<Range>, k: nat)
    requires p.Valid() && Answers(place, p, rs) && Proper(rs) && k <= |rs|
    ensures PieceUnits(p, rs[..k]) <= UnitSet(p) && |PieceUnits(p, rs[..k])| == PieceSum(rs, k)
  {
    if k == 0 {
      NoPieces(p, rs);
    } else {
      PiecesSoFar(place, p, rs, k - 1);
      PieceStep(place, p, rs, k - 1);
    }
  }

  lemma {:induction false} PieceSumBound(place: Placement, p: Prefix, rs: seq<Range>, k: nat)
    requires p.Valid() && Answers(place, p, rs) && Proper(rs) && k <= |rs|
    ensures PieceSum(rs, k) <= |UnitSet(p)|
    ensures PieceSum(rs, k) == |UnitSet(p)| ==> PieceUnits(p, rs[..k]) == UnitSet(p)
  {
    PiecesSoFar(place, p, rs, k);
    SubsetSize(PieceUnits(p, rs[..k]), UnitSet(p));
  }

  // ----- maps that count sets of units

  ghost predicate Counts(m: CountryMap, s: set<nat>, f: Family, place: Placement) {
    forall c :: Get(m, c) == CountIn(s, f, place, c)
  }

  /** The map counts the set modulo the width of its counters. */
  ghost predicate CountsMod(m: CountryMap, s: set<nat>, f: Family, place: Placement) {
    forall c :: Get(m, c) == Wrap(CountIn(s, f, place, c))
  }

  lemma SmallCounts(m: CountryMap, s: set<nat>, f: Family, place: Placement)
    requires CountsMod(m, s, f, place) && |s| < UINT64
    ensures Counts(m, s, f, place)
  {
    forall c ensures Get(m, c) == CountIn(s, f, place, c) {
      SubsetSize(Located(s, f, place, c), s);
    }
  }

  lemma {:induction false} CountsAdd(m: CountryMap, s: set<nat>, t: set<nat>, f: Family, place: Placement, code: Code)
    requires CountsMod(m, s, f, place) && s !! t
    requires forall u :: u in t ==> place(f, u) == code
    ensures CountsMod(m[code := Add64(Get(m, code), |t|)], s + t, f, place)
  {
    var m' := m[code := Add64(Get(m, code), |t|)];
    forall c ensures Get(m', c) == Wrap(CountIn(s + t, f, place, c)) {
      CountSplit(s, t, f, place, c);
      CountUniform(t, f, place, code, c);
      WrapAdds(CountIn(s, f, place, c), |t|);
    }
  }

  lemma CountsPiece(place: Placement, p: Prefix, rs: seq<Range>, k: nat, m: CountryMap)
    requires p.Valid() && Answers(place, p, rs) && Proper(rs) && k < |rs|
    requires CountsMod(m, PieceUnits(p, rs[..k]), p.fam, place)
    ensures CountsMod(m[rs[k].Label() := Add64(Get(m, rs[k].Label()), Units(rs[k].prefix))],
                      PieceUnits(p, rs[..k + 1]), p.fam, place)
  {
    PieceAdds(place, p, rs, k);
    assert PieceOf(place, p, rs[k]);
    UnitsCountsSpace(rs[k].prefix);
    CountsAdd(m, PieceUnits(p, rs[..k]), UnitSet(rs[k].prefix), p.fam, place, rs[k].Label());
  }

  /** The units that no piece holds. */
  ghost function Unplaced(p: Prefix, rs: seq<Range>): set<nat>
    requires p.Valid() && ValidPieces(rs)
  {
    UnitSet(p) - PieceUnits(p, rs)
  }

  lemma {:induction false} UnplacedCount(place: Placement, p: Prefix, rs: seq<Range>)
    requires p.Valid() && Answers(place, p, rs) && Proper(rs)
    ensures UnitSet(p) == PieceUnits(p, rs) + Unplaced(p, rs)
    ensures |Unplaced(p, rs)| == |UnitSet(p)| - PieceSum(rs, |rs|)
    ensures forall u :: u in Unplaced(p, rs) ==> place(p.fam, u) == UNKNOWN_COUNTRY
  {
    assert rs[..|rs|] == rs;
    PiecesSoFar(place, p, rs, |rs|);
    DisjointSize(PieceUnits(p, rs), Unplaced(p, rs));
    assert UnitSet(p) == PieceUnits(p, rs) + Unplaced(p, rs);
  }

  // ----- the result for a prefix that is not of length zero

  lemma ProperAnswer(place: Placement, p: Prefix, rs: seq<Range>)
    requires p.Valid() && p.bits >= 1 && Answers(place, p, rs)
    ensures Proper(rs)
  {
    forall i | 0 <= i < |rs| ensures rs[i].prefix.bits >= 1 { assert PieceOf(place, p, rs[i]); }
  }

  lemma {:induction false} WithinTotal(place: Placement, p: Prefix, rs: seq<Range>, k: nat)
    requires p.Valid() && p.bits >= 1 && Answers(place, p, rs) && k <= |rs|
    ensures PieceSum(rs, k) <= Units(p) < UINT64
  {
    ProperAnswer(place, p, rs);
    UnitsBound(p);
    UnitsCountsSpace(p);
    PieceSumBound(place, p, rs, k);
  }

  /** When the pieces met so far fill the prefix, they are all of its units. */
  lemma FilledCounts(place: Placement, p: Prefix, rs: seq<Range>, k: nat, m: CountryMap)
    requires p.Valid() && p.bits >= 1 && Answers(place, p, rs) && k <= |rs| && PieceSum(rs, k) == Units(p)
    requires CountsMod(m, PieceUnits(p, rs[..k]), p.fam, place)
    ensures Counts(m, UnitSet(p), p.fam, place)
  {
    ProperAnswer(place, p, rs);
    UnitsBound(p);
    UnitsCountsSpace(p);
    PieceSumBound(place, p, rs, k);
    SmallCounts(m, UnitSet(p), p.fam, place);
  }

  lemma RestCounts(place: Placement, p: Prefix, rs: seq<Range>, m: CountryMap)
    requires p.Valid() && p.bits >= 1 && Answers(place, p, rs) && PieceSum(rs, |rs|) <= Units(p)
    requires CountsMod(m, PieceUnits(p, rs), p.fam, place)
    ensures Counts(m[UNKNOWN_COUNTRY := Add64(Get(m, UNKNOWN_COUNTRY), Units(p) - PieceSum(rs, |rs|))],
                   UnitSet(p), p.fam, place)
  {
    ProperAnswer(place, p, rs);
    UnitsBound(p);
    UnitsCountsSpace(p);
    UnplacedCount(place, p, rs);
    CountsAdd(m, PieceUnits(p, rs), Unplaced(p, rs), p.fam, place, UNKNOWN_COUNTRY);
    SmallCounts(m[UNKNOWN_COUNTRY := Add64(Get(m, UNKNOWN_COUNTRY), |Unplaced(p, rs)|)], UnitSet(p), p.fam, place);
  }

  // ----- the result for a prefix of length zero

  /** The saturated weight is not the number of units of the whole space, in either family. */
  lemma WholeSpace(p: Prefix)
    requires p.Valid() && p.bits == 0
    ensures Units(p) == UINT64 - 1 && |UnitSet(p)| <= UINT64 && |UnitSet(p)| != UINT64 - 1
  {
    UnitSetSize(p);
    Pow2Values();
  }

  /** A piece of length zero is the whole answer. */
  lemma WholePiece(place: Placement, p: Prefix, rs: seq<Range>)
    requires p.Valid() && Answers(place, p, rs) && !Proper(rs)
    ensures p.bits == 0 && |rs| == 1 && rs[0].prefix == p
  {
    var i :| 0 <= i < |rs| && rs[i].prefix.bits == 0;
    assert PieceOf(place, p, rs[i]);
    var j := if i == 0 && |rs| > 1 then 1 else 0;
    assert PieceOf(place, p, rs[j]);
    ShiftBound(rs[j].prefix.value, rs[j].prefix.bits, 0);
    assert rs[i].prefix.Leads(rs[j].prefix);
  }

  lemma {:induction false} WholePieceFills(place: Placement, p: Prefix, rs: seq<Range>)
    requires p.Valid() && Answers(place, p, rs) && !Proper(rs)
    ensures Wrap(PieceSum(rs, |rs|)) == Units(p)
  {
    WholePiece(place, p, rs);
    WholeSpace(p);
    assert PieceSum(rs, 1) == PieceSum(rs, 0) + Units(rs[0].prefix);
  }

  lemma WholePieceMiscounts(place: Placement, p: Prefix, rs: seq<Range>, m: CountryMap)
    requires p.Valid() && Answers(place, p, rs) && |rs| == 1 && rs[0].prefix == p && p.bits == 0
    requires Get(m, rs[0].Label()) == UINT64 - 1
    ensures !Counts(m, UnitSet(p), p.fam, place)
  {
    WholeSpace(p);
    assert PieceOf(place, p, rs[0]);
    CountUniform(UnitSet(p), p.fam, place, rs[0].Label(), rs[0].Label());
  }

  lemma {:induction false} WrapOver(x: nat)
    requires UINT64 <= x < 2 * UINT64
    ensures Wrap(x) == x - UINT64
  {
    assert Wrap(x - UINT64) == x - UINT64;
  }

  /** Adding the rest to a saturated weight never gives the true count: without wrap-around it is one short ... */
  lemma {:induction false} MismatchBelow(z: nat, placed: nat, all: nat)
    requires z <= placed <= all && placed < UINT64 && all != UINT64 - 1
    ensures Add64(Wrap(z), UINT64 - 1 - Wrap(placed)) != z + (all - placed)
  {
    assert Wrap(z) == z && Wrap(placed) == placed;
    var sum := z + (UINT64 - 1 - placed);
    assert Wrap(sum) == sum;
  }

  /** ... and after wrap-around the rest added is the largest number there is. */
  lemma {:induction false} MismatchWrapped(z: nat)
    requires z <= UINT64
    ensures Add64(Wrap(z), UINT64 - 1) != z
  {
    if z == 0 || z == UINT64 {
      if z == UINT64 { WrapOver(z); }
      assert Wrap(z) == 0;
      assert Wrap(UINT64 - 1) == UINT64 - 1;
    } else {
      assert Wrap(z) == z;
      WrapOver(z + (UINT64 - 1));
    }
  }

  lemma {:induction false} Mismatch(z: nat, placed: nat, all: nat)
    requires z <= placed <= all <= UINT64 && all != UINT64 - 1
    ensures Wrap(placed) < UINT64
    ensures Add64(Wrap(z), UINT64 - 1 - Wrap(placed)) != z + (all - placed)
  {
    if placed < UINT64 {
      MismatchBelow(z, placed, all);
    } else {
      WrapOver(placed);
      MismatchWrapped(z);
    }
  }

  lemma {:induction false} RestMiscounts(place: Placement, p: Prefix, rs: seq<Range>, m: CountryMap)
    requires p.Valid() && p.bits == 0 && Answers(place, p, rs) && Proper(rs)
    requires CountsMod(m, PieceUnits(p, rs), p.fam, place)
    ensures Wrap(PieceSum(rs, |rs|)) < UINT64
    ensures !Counts(m[UNKNOWN_COUNTRY := Add64(Get(m, UNKNOWN_COUNTRY), UINT64 - 1 - Wrap(PieceSum(rs, |rs|)))],
                    UnitSet(p), p.fam, place)
  {
    WholeSpace(p);
    UnplacedTrue(place, p, rs);
    Mismatch(CountIn(PieceUnits(p, rs), p.fam, place, UNKNOWN_COUNTRY), PieceSum(rs, |rs|), |UnitSet(p)|);
    WrongEntry(m, UNKNOWN_COUNTRY, Add64(Get(m, UNKNOWN_COUNTRY), UINT64 - 1 - Wrap(PieceSum(rs, |rs|))), UnitSet(p), p.fam, place);
  }

  lemma WrongEntry(m: CountryMap, c: Code, n: nat, s: set<nat>, f: Family, place: Placement)
    requires n != CountIn(s, f, place, c)
    ensures !Counts(m[c := n], s, f, place)
  {
    assert Get(m[c := n], c) == n;
  }

  /** The true count of the unknown country. */
  lemma {:induction false} UnplacedTrue(place: Placement, p: Prefix, rs: seq<Range>)
    requires p.Valid() && Answers(place, p, rs) && Proper(rs)
    ensures var z := CountIn(PieceUnits(p, rs), p.fam, place, UNKNOWN_COUNTRY);
            && z <= PieceSum(rs, |rs|) <= |UnitSet(p)|
            && CountIn(UnitSet(p), p.fam, place, UNKNOWN_COUNTRY) == z + (|UnitSet(p)| - PieceSum(rs, |rs|))
  {
    UnplacedCount(place, p, rs);
    CountSplit(PieceUnits(p, rs), Unplaced(p, rs), p.fam, place, UNKNOWN_COUNTRY);
    CountUniform(Unplaced(p, rs), p.fam, place, UNKNOWN_COUNTRY, UNKNOWN_COUNTRY);
    assert rs[..|rs|] == rs;
    PiecesSoFar(place, p, rs, |rs|);
    SubsetSize(Located(PieceUnits(p, rs), p.fam, place, UNKNOWN_COUNTRY), PieceUnits(p, rs));
  }

  lemma MissingCountry(done: set<nat>, all: set<nat>, f: Family, place: Placement) returns (c: Code)
    requires done <= all && |done| < |all|
    ensures CountIn(done, f, place, c) < CountIn(all, f, place, c)
  {
    var u :| u in all && u !in done by {
      if all <= done { SubsetSize(all, done); }
    }
    c := place(f, u);
    SubsetSize(Located(done, f, place, c) + {u}, Located(all, f, place, c));
  }

  /** A unit that was not counted is missing from its country. */
  lemma {:induction false} MissingMiscounts(place: Placement, p: Prefix, rs: seq<Range>, k: nat, m: CountryMap)
    requires p.Valid() && Answers(place, p, rs) && Proper(rs) && k <= |rs| && PieceSum(rs, k) < |UnitSet(p)|
    requires CountsMod(m, PieceUnits(p, rs[..k]), p.fam, place)
    ensures !Counts(m, UnitSet(p), p.fam, place)
  {
    var done := PieceUnits(p, rs[..k]);
    PiecesSoFar(place, p, rs, k);
    var c := MissingCountry(done, UnitSet(p), p.fam, place);
    WrapBound(CountIn(done, p.fam, place, c));
    assert Get(m, c) == Wrap(CountIn(done, p.fam, place, c));
  }

  lemma {:induction false} FullMiscounts(place: Placement, p: Prefix, rs: seq<Range>, k: nat, m: CountryMap)
    requires p.Valid() && p.bits == 0 && Answers(place, p, rs) && Proper(rs) && k <= |rs|
    requires Wrap(PieceSum(rs, k)) == UINT64 - 1 && CountsMod(m, PieceUnits(p, rs[..k]), p.fam, place)
    ensures !Counts(m, UnitSet(p), p.fam, place)
  {
    WholeSpace(p);
    PieceSumBound(place, p, rs, k);
    MissingMiscounts(place, p, rs, k, m);
  }

  // ----- the loop

  /** What holds when `k` pieces have been attributed. */
  ghost predicate Attributed(place: Placement, p: Prefix, rs: seq<Range>, k: nat, covered: nat, m: CountryMap)
    requires p.Valid() && Answers(place, p, rs) && k <= |rs|
  {
    && covered == Wrap(PieceSum(rs, k))
    && (if Proper(rs) then CountsMod(m, PieceUnits(p, rs[..k]), p.fam, place)
        else k <= 1 && (if k == 0 then m == map[] else Get(m, rs[0].Label()) == UINT64 - 1))
  }

  lemma NoneAttributed(place: Placement, p: Prefix, rs: seq<Range>)
    requires p.Valid() && Answers(place, p, rs)
    ensures Attributed(place, p, rs, 0, 0, map[])
  {
    NoPieces(p, rs);
    assert forall c :: Located({}, p.fam, place, c) == {};
  }

  lemma {:induction false} NextAttributed(place: Placement, p: Prefix, rs: seq<Range>, k: nat, covered: nat, m: CountryMap)
    requires p.Valid() && Answers(place, p, rs) && k < |rs| && Attributed(place, p, rs, k, covered, m)
    ensures var code, u := rs[k].Label(), Units(rs[k].prefix);
            && Add64(covered, u) <= Units(p)
            && Attributed(place, p, rs, k + 1, Add64(covered, u), m[code := Add64(Get(m, code), u)])
  {
    WrapAdds(PieceSum(rs, k), Units(rs[k].prefix));
    WrapBound(PieceSum(rs, k + 1));
    if p.bits >= 1 { WithinTotal(place, p, rs, k + 1); } else { WholeSpace(p); }
    if Proper(rs) {
      CountsPiece(place, p, rs, k, m);
    } else {
      WholePiece(place, p, rs);
      WholeSpace(p);
    }
  }

  lemma {:induction false} EndFull(place: Placement, p: Prefix, rs: seq<Range>, k: nat, covered: nat, m: CountryMap)
    requires p.Valid() && Answers(place, p, rs) && k <= |rs| && Attributed(place, p, rs, k, covered, m)
    requires covered >= Units(p)
    ensures Counts(m, UnitSet(p), p.fam, place) <==> p.bits >= 1
  {
    if p.bits >= 1 {
      ProperAnswer(place, p, rs);
      WithinTotal(place, p, rs, k);
      FilledCounts(place, p, rs, k, m);
    } else {
      WholeSpace(p);
      WrapBound(PieceSum(rs, k));
      if Proper(rs) {
        FullMiscounts(place, p, rs, k, m);
      } else {
        WholePiece(place, p, rs);
        WholePieceMiscounts(place, p, rs, m);
      }
    }
  }

  lemma {:induction false} EndRest(place: Placement, p: Prefix, rs: seq<Range>, covered: nat, m: CountryMap)
    requires p.Valid() && Answers(place, p, rs) && Attributed(place, p, rs, |rs|, covered, m)
    requires covered < Units(p)
    ensures Counts(m[UNKNOWN_COUNTRY := Add64(Get(m, UNKNOWN_COUNTRY), Units(p) - covered)], UnitSet(p), p.fam, place) <==> p.bits >= 1
  {
    assert rs[..|rs|] == rs;
    if !Proper(rs) {
      WholePieceFills(place, p, rs);
      assert false;
    }
    if p.bits >= 1 {
      WithinTotal(place, p, rs, |rs|);
      RestCounts(place, p, rs, m);
    } else {
      WholeSpace(p);
      RestMiscounts(place, p, rs, m);
    }
  }

  /** The keys are the countries met so far. */
  ghost predicate Keyed(p: Prefix, rs: seq<Range>, k: nat, m: CountryMap)
    requires p.Valid() && ValidPieces(rs) && k <= |rs|
  {
    p.bits >= 1 ==> forall c :: c in m <==> Met(rs, k, Units(p), c)
  }

  lemma NextKeyed(place: Placement, p: Prefix, rs: seq<Range>, k: nat, covered: nat, m: CountryMap, n: nat)
    requires p.Valid() && Answers(place, p, rs) && k < |rs| && covered == Wrap(PieceSum(rs, k)) && Keyed(p, rs, k, m)
    requires k == 0 || covered < Units(p)
    ensures Keyed(p, rs, k + 1, m[rs[k].Label() := n])
  {
    if p.bits >= 1 {
      WithinTotal(place, p, rs, k);
      MetNext(rs, k, Units(p));
    }
  }

  ghost predicate KeysRight(p: Prefix, rs: seq<Range>, m: CountryMap)
    requires p.Valid() && ValidPieces(rs)
  {
    p.bits >= 1 ==> forall c :: c in m <==> Reaches(p, rs, c)
  }

  lemma EndKeyed(place: Placement, p: Prefix, rs: seq<Range>, k: nat, covered: nat, m: CountryMap, rest: nat)
    requires p.Valid() && Answers(place, p, rs) && k <= |rs| && covered == Wrap(PieceSum(rs, k)) && Keyed(p, rs, k, m)
    requires k == |rs| || (k > 0 && covered >= Units(p))
    ensures covered >= Units(p) ==> KeysRight(p, rs, m)
    ensures covered < Units(p) ==> KeysRight(p, rs, m[UNKNOWN_COUNTRY := rest])
  {
    if p.bits >= 1 {
      WithinTotal(place, p, rs, k);
      forall c ensures Reaches(p, rs, c) <==> Met(rs, k, Units(p), c) || (c == UNKNOWN_COUNTRY && covered < Units(p)) {
        MetAll(p, rs, k, c);
      }
    }
  }

  /** Attributes piece `k`. */
  method AttributePiece(p: Prefix, rs: seq<Range>, k: nat, total: nat, covered0: nat, out0: CountryMap, ghost place: Placement)
    returns (covered: nat, out: CountryMap)
    requires p.Valid() && Answers(place, p, rs) && k < |rs| && total == Units(p) && (k == 0 || covered0 < total)
    requires Attributed(place, p, rs, k, covered0, out0) && Keyed(p, rs, k, out0)
    ensures Attributed(place, p, rs, k + 1, covered, out) && Keyed(p, rs, k + 1, out)
  {
    var code := rs[k].Label();
    var u: int := Units(rs[k].prefix);
    NextAttributed(place, p, rs, k, covered0, out0);
    u := if Add64(covered0, u) > total then total - covered0 else u;
    assert u == Units(rs[k].prefix);  // the defensive clamp never fires
    NextKeyed(place, p, rs, k, covered0, out0, Add64(Get(out0, code), u));
    out := out0[code := Add64(Get(out0, code), u)];
    covered := Add64(covered0, u);
  }

  /** Attributes what is left to the unknown country. */
  method AttributeRest(p: Prefix, rs: seq<Range>, ghost k: nat, total: nat, covered: nat, out0: CountryMap, ghost place: Placement)
    returns (out: CountryMap)
    requires p.Valid() && Answers(place, p, rs) && k <= |rs| && total == Units(p)
    requires Attributed(place, p, rs, k, covered, out0) && Keyed(p, rs, k, out0)
    requires k == |rs| || (k > 0 && covered >= total)
    ensures Counts(out, UnitSet(p), p.fam, place) <==> p.bits >= 1
    ensures KeysRight(p, rs, out)
  {
    if covered < total {
      var rest := Add64(Get(out0, UNKNOWN_COUNTRY), total - covered);
      EndKeyed(place, p, rs, k, covered, out0, rest);
      EndRest(place, p, rs, covered, out0);
      out := out0[UNKNOWN_COUNTRY := rest];
    } else {
      EndKeyed(place, p, rs, k, covered, out0, 0);
      EndFull(place, p, rs, k, covered, out0);
      out := out0;
    }
  }

  /**
   Attributes every unit of `p` to a country. The result counts, for each country, the units
   of `p` placed there, with unplaced units under the unknown country, exactly when `p` is not
   of length zero; its keys are then the countries the announcement reaches into.
   */
  method CountryUnits(p: Prefix, rs: seq<Range>, ghost place: Placement) returns (out: CountryMap)
    requires p.Valid() && Answers(place, p, rs)
    ensures Counts(out, UnitSet(p), p.fam, place) <==> p.bits >= 1
    ensures KeysRight(p, rs, out)
  {
    var total := Units(p);
    out := map[];
    var covered: nat := 0;
    var k := 0;
    NoneAttributed(place, p, rs);
    while k < |rs| && (k == 0 || covered < total)
      invariant 0 <= k <= |rs| && Attributed(place, p, rs, k, covered, out) && Keyed(p, rs, k, out)
    {
      covered, out := AttributePiece(p, rs, k, total, covered, out, place);
      k := k + 1;
    }
    out := AttributeRest(p, rs, k, total, covered, out, place);
  }
}
