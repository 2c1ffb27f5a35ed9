/**
 Publication of routing snapshots: database status, artifact store and current pointer, as
 changed by builds, rollbacks and prunes that may stop after any step
 (internal/builder/builder.go, internal/artifact/publisher.go).
 */
module Publication {
  import opened Basics

  datatype Status = Building | Published | Superseded

  /**
   `prefixes`: prefix rows exist; `recorded`: artifact identity was recorded after upload and
   readback; `touched`: a prune has begun to delete the snapshot's rows.
   */
  datatype Snapshot = Snapshot(status: Status, prefixes: bool, recorded: bool, touched: bool)

  type Table = map<nat, Snapshot>

  /** Snapshots are named by id; the version string is in one-to-one correspondence with it. */
  datatype World = World(snaps: Table, objects: set<nat>, manifests: set<nat>, pointer: Option<nat>)

  predicate Is(w: World, v: nat, st: Status) { v in w.snaps && w.snaps[v].status == st }

  /** Published now or before: ids of snapshots that have left the building state. */
  function Released(w: World): set<nat> { set v | v in w.snaps && w.snaps[v].status != Building }

  function SupersededOnes(w: World): set<nat> { set v | v in w.snaps && w.snaps[v].status == Superseded }

  function NewerThan(s: set<nat>, v: nat): set<nat> { set x | x in s && x > v }

  /** One transaction: whatever else is published becomes superseded, and `v` is published. */
  function Flipped(snaps: Table, v: nat): Table {
    map x | x in snaps ::
      if x == v then snaps[x].(status := Published)
      else if snaps[x].status == Published then snaps[x].(status := Superseded)
      else snaps[x]
  }

  /** Superseded snapshots beyond the newest `retain`. */
  function Victims(w: World, retain: nat): set<nat> {
    set v | v in SupersededOnes(w) && |NewerThan(SupersededOnes(w), v)| >= retain
  }

  /** The table after a prune has deleted the rows of the given snapshots. */
  function Stripped(snaps: Table, gone: set<nat>): Table {
    map x | x in snaps :: if x in gone then snaps[x].(touched := true, prefixes := false) else snaps[x]
  }

  /** The stored names after the objects of the given snapshots were deleted, where that worked. */
  function Dropped(stored: set<nat>, gone: set<nat>, undeletable: set<nat>): set<nat> { stored - (gone - undeletable) }

  /** Store objects whose deletion fails. */
  datatype Stuck = Stuck(objects: set<nat>, manifests: set<nat>)

  /** Everything after a prune of the given snapshots has run to its end. */
  function PrunedAll(w: World, gone: set<nat>, stuck: Stuck): World {
    World(Stripped(w.snaps, gone), Dropped(w.objects, gone, stuck.objects), Dropped(w.manifests, gone, stuck.manifests), w.pointer)
  }

  /** Everything after a build of snapshot `v` has run to its end. */
  function Built(w: World, v: nat, hasRows: bool, retain: nat, stuck: Stuck): World {
    var live := Live(w, v, hasRows);
    PrunedAll(live, Victims(live, retain), stuck)
  }

  /** The new snapshot is stored, recorded, published and pointed at. */
  function Live(w: World, v: nat, hasRows: bool): World {
    World(Flipped(w.snaps[v := Snapshot(Building, hasRows, true, false)], v), w.objects + {v}, w.manifests + {v}, Some(v))
  }

  /** The store without the objects of one snapshot, where deleting them works. */
  function StoreDropped(w: World, v: nat, stuck: Stuck): World {
    w.(objects := if v in stuck.objects then w.objects else w.objects - {v},
       manifests := if v in stuck.manifests then w.manifests else w.manifests - {v})
  }

  function Edit(w: World, v: nat, s: Snapshot): World { w.(snaps := w.snaps[v := s]) }

  function TouchedRows(w: World, v: nat): World
    requires v in w.snaps
  {
    Edit(w, v, w.snaps[v].(touched := true))
  }

  function PrefixesDeleted(w: World, v: nat): World
    requires v in w.snaps
  {
    Edit(w, v, w.snaps[v].(touched := true, prefixes := false))
  }

  /** The three stores behind a publisher, and its operations. */
  class Publisher {
    var snaps: Table
    var objects: set<nat>
    var manifests: set<nat>
    var pointer: Option<nat>
    var next: nat

    /** Between two operations the invariant of the step machine holds. */
    ghost predicate Valid(retain: nat)
      reads this
    {
      Inv(State(View(), Idle, next), retain)
    }

    function View(): World
      reads this
    {
      World(snaps, objects, manifests, pointer)
    }

    constructor ()
      ensures View() == World(map[], {}, {}, None) && next == 0
      ensures forall retain :: Valid(retain)
    {
      snaps, objects, manifests, pointer, next := map[], {}, {}, None, 0;
    }

    /** A whole build: load, upload and record, publish the row, rewrite current.json, prune. */
    method Run(hasRows: bool, retain: nat, stuck: Stuck)
      requires Valid(retain)
      modifies this
      ensures Valid(retain)
      ensures View() == Built(old(View()), old(next), hasRows, retain, stuck) && next == old(next) + 1
      ensures old(ReleasedIsRecorded(View())) ==> ReleasedIsRecorded(View())
      ensures OnePublished(View()) && Is(View(), old(next), Published) && snaps[old(next)].recorded && snaps[old(next)].prefixes == hasRows
      ensures pointer == Some(old(next)) && Stored(View(), old(next))
    {
      var v := next;
      snaps, next := snaps[v := Snapshot(Building, hasRows, false, false)], next + 1;
      Publish(v);
      PublishSnapshot(v);
      SetCurrent(v);
      assert View() == Live(old(View()), v, hasRows);
      Prune(retain, stuck);
      BuildKeeps(State(old(View()), Idle, v), hasRows, retain, stuck);
      BuildKeepsRecorded(old(View()), v, hasRows, retain, stuck);
      BuildEndsLive(old(View()), v, hasRows, retain, stuck);
    }

    /** Uploads artifact and manifest, then records the artifact on the snapshot; current.json stays. */
    method Publish(v: nat)
      requires v in snaps
      modifies this
      ensures View() == old(View()).(snaps := old(snaps)[v := old(snaps)[v].(recorded := true)],
                                     objects := old(objects) + {v}, manifests := old(manifests) + {v})
      ensures next == old(next)
    {
      objects := objects + {v};
      manifests := manifests + {v};
      snaps := snaps[v := snaps[v].(recorded := true)];
    }

    /** Afterwards the snapshot is the only published one; whatever else was published is superseded. */
    method PublishSnapshot(v: nat)
      modifies this`snaps
      ensures OnePublished(View()) && (v in snaps ==> Is(View(), v, Published))
      ensures forall x :: x != v ==> (Is(View(), x, Superseded) <==> old(Is(View(), x, Superseded) || Is(View(), x, Published)))
      ensures forall x :: x != v ==> (Is(View(), x, Building) <==> old(Is(View(), x, Building)))
      ensures snaps == Flipped(old(snaps), v)
    {
      snaps := Flipped(snaps, v);
    }

    method SetCurrent(v: nat)
      modifies this`pointer
      ensures pointer == Some(v)
      ensures PointerGood(View()) <==> Stored(old(View()), v)
    {
      pointer := Some(v);
    }

    /** Fails for an unknown version and for one whose prefix rows are gone; the status it reads is not checked. */
    method RollbackTo(v: nat) returns (ok: bool)
      modifies this`snaps, this`pointer
      ensures ok == (v in old(snaps) && old(snaps)[v].prefixes)
      ensures View() == if ok then old(View()).(snaps := Flipped(old(snaps), v), pointer := Some(v)) else old(View())
      ensures forall retain :: old(Valid(retain)) && (ok ==> Stored(old(View()), v)) ==> Valid(retain)
      ensures forall retain ::
                old(Valid(retain) && ReleasedIsRecorded(View())) && (ok ==> old(snaps)[v].status != Building) ==>
                  Valid(retain) && ReleasedIsRecorded(View())
    {
      forall retain: nat | Valid(retain) && v in snaps && snaps[v].prefixes && Stored(View(), v)
        ensures Inv(State(View().(snaps := Flipped(snaps, v), pointer := Some(v)), Idle, next), retain)
      {
        RollbackKeeps(State(View(), Idle, next), v, retain);
      }
      if v !in snaps || !snaps[v].prefixes { return false; }
      snaps := Flipped(snaps, v);
      SetCurrent(v);
      ok := true;
    }

    /** Deletes the rows of one snapshot, then its store objects; one that cannot be deleted is left. */
    method PruneOne(v: nat, stuck: Stuck)
      requires v in snaps
      modifies this`snaps, this`objects, this`manifests
      ensures View() == PrunedAll(old(View()), {v}, stuck)
    {
      snaps := snaps[v := snaps[v].(touched := true)];
      snaps := snaps[v := snaps[v].(prefixes := false)];
      if v !in stuck.objects { objects := objects - {v}; }
      if v !in stuck.manifests { manifests := manifests - {v}; }
      assert snaps == Stripped(old(snaps), {v});
    }

    /** Prunes every superseded snapshot beyond the newest `retain`. */
    method Prune(retain: nat, stuck: Stuck)
      modifies this`snaps, this`objects, this`manifests
      ensures exists gone: set<nat> :: PrunesOldest(old(View()), View(), gone, retain, stuck)
      ensures View() == PrunedAll(old(View()), Victims(old(View()), retain), stuck)
    {
      var todo := Victims(View(), retain);
      ghost var done: set<nat> := {};
      PrunedNone(View(), stuck);
      while todo != {}
        invariant todo !! done && todo + done == Victims(old(View()), retain)
        invariant View() == PrunedAll(old(View()), done, stuck)
        decreases todo
      {
        var v :| v in todo;
        PrunedMore(old(View()), done, v, stuck);
        PruneOne(v, stuck);
        todo, done := todo - {v}, done + {v};
      }
      assert done == Victims(old(View()), retain);
      VictimsAreOldest(old(View()), retain, stuck);
    }
  }

  // ----- which snapshots a prune takes

  /** All but the newest `retain` superseded snapshots lose their rows, and their store objects where deletion works; nothing else changes. */
  ghost predicate PrunesOldest(w: World, w': World, gone: set<nat>, retain: nat, stuck: Stuck) {
    && gone <= SupersededOnes(w)
    && |SupersededOnes(w) - gone| == (if |SupersededOnes(w)| < retain then |SupersededOnes(w)| else retain)
    && (forall x, y :: x in SupersededOnes(w) && x !in gone && y in gone ==> x > y)
    && w'.snaps.Keys == w.snaps.Keys && w'.pointer == w.pointer
    && (forall v :: v in gone ==>
          && Is(w', v, Superseded) && !w'.snaps[v].prefixes
          && (v in w'.objects <==> v in w.objects && v in stuck.objects)
          && (v in w'.manifests <==> v in w.manifests && v in stuck.manifests))
    && (forall v :: v in w.snaps && v !in gone ==> w'.snaps[v] == w.snaps[v])
    && (forall v :: v !in gone ==> (v in w'.objects <==> v in w.objects) && (v in w'.manifests <==> v in w.manifests))
  }

  lemma {:induction false} Oldest(s: set<nat>) returns (m: nat)
    requires s != {}
    ensures m in s && forall x :: x in s && x != m ==> x > m
    decreases |s|
  {
    var x :| x in s;
    if s == {x} {
      m := x;
    } else {
      assert s - {x} != {};
      var y := Oldest(s - {x});
      m := if x < y then x else y;
      forall z | z in s && z != m ensures z > m {
        if z != x && z != y { assert z in s - {x}; }
      }
    }
  }

  ghost function NewestOf(s: set<nat>, n: nat): set<nat> { set v | v in s && |NewerThan(s, v)| < n }

  lemma {:induction false} NewestSize(s: set<nat>, n: nat)
    ensures |NewestOf(s, n)| == if |s| < n then |s| else n
    decreases |s|
  {
    if s == {} {
      assert NewestOf(s, n) == {};
    } else {
      var m := Oldest(s);
      NewestSize(s - {m}, n);
      NewestWithout(s, n, m);
    }
  }

  /** Taking away the oldest changes no other position. */
  lemma NewestWithout(s: set<nat>, n: nat, m: nat)
    requires m in s && forall x :: x in s && x != m ==> x > m
    ensures NewestOf(s, n) == NewestOf(s - {m}, n) + if |s| <= n then {m} else {}
  {
    var rest := s - {m};
    assert NewerThan(s, m) == rest;
    forall v | v in rest ensures NewerThan(s, v) == NewerThan(rest, v) {}
  }

  lemma VictimsSplit(w: World, retain: nat)
    ensures SupersededOnes(w) - Victims(w, retain) == NewestOf(SupersededOnes(w), retain)
    ensures forall x, y :: x in SupersededOnes(w) && x !in Victims(w, retain) && y in Victims(w, retain) ==> x > y
  {
    var s, gone := SupersededOnes(w), Victims(w, retain);
    forall x, y | x in s && x !in gone && y in gone ensures x > y {
      if x <= y { SubsetSize(NewerThan(s, y), NewerThan(s, x)); }
    }
  }

  lemma VictimsAreOldest(w: World, retain: nat, stuck: Stuck)
    ensures PrunesOldest(w, PrunedAll(w, Victims(w, retain), stuck), Victims(w, retain), retain, stuck)
  {
    VictimsSplit(w, retain);
    NewestSize(SupersededOnes(w), retain);
  }

  // ----- one actor at a time, stopping anywhere

  /** What the one running build or rollback has done so far. */
  datatype Actor =
    | Idle
    | Loaded(id: nat)
    | ObjectUp(id: nat)
    | ManifestUp(id: nat)
    | Recorded(id: nat)
    | NowPublished(id: nat)
    | Pointed(id: nat)
    | Pruning(id: nat, victims: set<nat>)
    | RolledBack(id: nat)

  datatype State = State(world: World, actor: Actor, next: nat)

  datatype Event =
    | Load(hasRows: bool)
    | UploadObject
    | UploadManifest
    | Record
    | PublishRow
    | Point
    | BeginPrune
    | PruneRows(v: nat)
    | PrunePrefixes(v: nat)
    | DeleteObject(v: nat)
    | DeleteManifest(v: nat)
    | Rollback(v: nat)
    | Stop

  ghost predicate Next(s: State, e: Event, s': State, retain: nat) {
    var w, a := s.world, s.actor;
    match e
    case Load(hasRows) =>
      a == Idle && s' == State(Edit(w, s.next, Snapshot(Building, hasRows, false, false)), Loaded(s.next), s.next + 1)
    case UploadObject =>
      a.Loaded? && s' == s.(world := w.(objects := w.objects + {a.id}), actor := ObjectUp(a.id))
    case UploadManifest =>
      a.ObjectUp? && s' == s.(world := w.(manifests := w.manifests + {a.id}), actor := ManifestUp(a.id))
    case Record =>
      a.ManifestUp? && a.id in w.snaps &&
      s' == s.(world := Edit(w, a.id, w.snaps[a.id].(recorded := true)), actor := Actor.Recorded(a.id))
    case PublishRow =>
      a.Recorded? && s' == s.(world := w.(snaps := Flipped(w.snaps, a.id)), actor := NowPublished(a.id))
    case Point =>
      || (a.NowPublished? && s' == s.(world := w.(pointer := Some(a.id)), actor := Pointed(a.id)))
      || (a.RolledBack? && s' == s.(world := w.(pointer := Some(a.id)), actor := Idle))
    case BeginPrune =>
      a.Pointed? && s' == s.(actor := Pruning(a.id, Victims(w, retain)))
    case PruneRows(v) =>
      a.Pruning? && v in a.victims && v in w.snaps && s' == s.(world := TouchedRows(w, v))
    case PrunePrefixes(v) =>
      a.Pruning? && v in a.victims && v in w.snaps && w.snaps[v].touched && s' == s.(world := PrefixesDeleted(w, v))
    case DeleteObject(v) =>
      a.Pruning? && v in a.victims && v in w.snaps && w.snaps[v].touched && !w.snaps[v].prefixes &&
      s' == s.(world := w.(objects := w.objects - {v}))
    case DeleteManifest(v) =>
      a.Pruning? && v in a.victims && v in w.snaps && w.snaps[v].touched && !w.snaps[v].prefixes &&
      s' == s.(world := w.(manifests := w.manifests - {v}))
    case Rollback(v) =>
      a == Idle && v in w.snaps && w.snaps[v].prefixes &&
      s' == s.(world := w.(snaps := Flipped(w.snaps, v)), actor := RolledBack(v))
    case Stop => s' == s.(actor := Idle)
  }

  // ----- the invariant

  ghost predicate OnePublished(w: World) {
    forall x, y :: Is(w, x, Published) && Is(w, y, Published) ==> x == y
  }

  ghost predicate Stored(w: World, v: nat) { v in w.objects && v in w.manifests }

  ghost predicate PointerGood(w: World) { w.pointer.Some? ==> Stored(w, w.pointer.value) }

  /** A recorded artifact outlives the snapshot's prefix rows. */
  ghost predicate ArtifactsKept(w: World) {
    forall v :: v in w.snaps && w.snaps[v].recorded && w.snaps[v].prefixes ==> Stored(w, v)
  }

  /** Every snapshot a prune touched is behind more than `retain` released ones. */
  ghost predicate PrunedIsOld(w: World, retain: nat) {
    forall v :: v in w.snaps && w.snaps[v].touched ==>
      w.snaps[v].status != Building && |NewerThan(Released(w), v)| > retain
  }

  /** A snapshot whose rows a prune has taken is never the published one. */
  ghost predicate PrunedIsUnpublished(w: World) {
    forall v :: v in w.snaps && w.snaps[v].touched && !w.snaps[v].prefixes ==> w.snaps[v].status == Superseded
  }

  ghost predicate ActorInv(s: State, retain: nat) {
    var w := s.world;
    match s.actor
    case Idle => true
    case Loaded(id) => Fresh(w, id)
    case ObjectUp(id) => Fresh(w, id) && id in w.objects
    case ManifestUp(id) => Fresh(w, id) && Stored(w, id)
    case Recorded(id) => Fresh(w, id) && Stored(w, id) && w.snaps[id].recorded
    case NowPublished(id) => Is(w, id, Published) && Stored(w, id) && Newest(w, id)
    case Pointed(id) => Is(w, id, Published) && w.pointer == Some(id) && Newest(w, id)
    case Pruning(id, victims) =>
      && Is(w, id, Published) && w.pointer == Some(id) && Newest(w, id)
      && forall v :: v in victims ==> Is(w, v, Superseded) && |NewerThan(SupersededOnes(w), v)| >= retain
    case RolledBack(id) => Is(w, id, Published) && Stored(w, id)
  }

  ghost predicate Fresh(w: World, id: nat) { Is(w, id, Building) && !w.snaps[id].touched && Newest(w, id) }

  ghost predicate Newest(w: World, id: nat) { forall v :: v in w.snaps ==> v <= id }

  ghost predicate Inv(s: State, retain: nat) {
    && OnePublished(s.world) && PointerGood(s.world) && ArtifactsKept(s.world)
    && PrunedIsOld(s.world, retain) && PrunedIsUnpublished(s.world)
    && ActorInv(s, retain)
    && (forall v :: v in s.world.snaps ==> v < s.next)
  }

  /** A rollback goes to a version whose manifest and artifact are in the store. */
  ghost predicate Guarded(s: State, e: Event) {
    e.Rollback? ==> Stored(s.world, e.v)
  }

  // ----- every step keeps it

  ghost predicate SameStatuses(w: World, w': World) {
    w'.snaps.Keys == w.snaps.Keys && forall v :: v in w.snaps ==> w'.snaps[v].status == w.snaps[v].status
  }

  lemma SameSets(w: World, w': World)
    requires SameStatuses(w, w')
    ensures Released(w') == Released(w) && SupersededOnes(w') == SupersededOnes(w)
    ensures OnePublished(w) ==> OnePublished(w')
  {
    forall v, st ensures Is(w', v, st) <==> Is(w, v, st) {}
  }

  lemma FlipReleases(w: World, v: nat)
    requires v in w.snaps
    ensures Released(w.(snaps := Flipped(w.snaps, v))) == Released(w) + {v}
  {
  }

  /** Publishing a snapshot that is stored, or at least not pruned, keeps everything about the tables. */
  lemma FlipKeeps(w: World, v: nat, retain: nat)
    requires v in w.snaps && (w.snaps[v].touched ==> w.snaps[v].prefixes)
    requires PointerGood(w) && ArtifactsKept(w) && PrunedIsOld(w, retain) && PrunedIsUnpublished(w)
    ensures var w' := w.(snaps := Flipped(w.snaps, v));
            && OnePublished(w') && PointerGood(w') && ArtifactsKept(w') && PrunedIsOld(w', retain) && PrunedIsUnpublished(w')
            && Is(w', v, Published)
  {
    var w' := w.(snaps := Flipped(w.snaps, v));
    FlipKeepsOld(w, v, retain);
  }

  lemma FlipKeepsOld(w: World, v: nat, retain: nat)
    requires v in w.snaps && PrunedIsOld(w, retain)
    ensures PrunedIsOld(w.(snaps := Flipped(w.snaps, v)), retain)
  {
    var w' := w.(snaps := Flipped(w.snaps, v));
    FlipReleases(w, v);
    forall x | x in w'.snaps && w'.snaps[x].touched ensures |NewerThan(Released(w'), x)| > retain {
      SubsetSize(NewerThan(Released(w), x), NewerThan(Released(w'), x));
    }
  }

  lemma LoadKeeps(s: State, hasRows: bool, s': State, retain: nat)
    requires Inv(s, retain) && Next(s, Load(hasRows), s', retain)
    ensures Inv(s', retain)
  {
    assert Released(s'.world) == Released(s.world);
    forall v, st ensures v != s.next ==> (Is(s'.world, v, st) <==> Is(s.world, v, st)) {}
    forall v | v in s'.world.snaps && s'.world.snaps[v].touched
      ensures s'.world.snaps[v].status != Building && |NewerThan(Released(s'.world), v)| > retain
    {
      assert v in s.world.snaps && s'.world.snaps[v] == s.world.snaps[v];
    }
  }

  lemma UploadKeeps(s: State, e: Event, s': State, retain: nat)
    requires Inv(s, retain) && Next(s, e, s', retain) && (e.UploadObject? || e.UploadManifest? || e.Record?)
    ensures Inv(s', retain)
  {
    SameSets(s.world, s'.world);
  }

  lemma PublishKeeps(s: State, e: Event, s': State, retain: nat)
    requires Inv(s, retain) && Next(s, e, s', retain) && Guarded(s, e) && (e.PublishRow? || e.Rollback?)
    ensures Inv(s', retain)
  {
    FlipKeeps(s.world, if e.PublishRow? then s.actor.id else e.v, retain);
  }

  lemma PointKeeps(s: State, s': State, retain: nat)
    requires Inv(s, retain) && Next(s, Point, s', retain)
    ensures Inv(s', retain)
  {
    SameSets(s.world, s'.world);
  }

  /** The published snapshot is newer than every victim, so a victim is behind one more than `retain`. */
  lemma VictimIsOld(w: World, id: nat, v: nat, retain: nat)
    requires Is(w, id, Published) && Newest(w, id) && Is(w, v, Superseded)
    requires |NewerThan(SupersededOnes(w), v)| >= retain
    ensures |NewerThan(Released(w), v)| > retain
  {
    var newer := NewerThan(SupersededOnes(w), v);
    assert id !in newer && newer + {id} <= NewerThan(Released(w), v);
    SubsetSize(newer + {id}, NewerThan(Released(w), v));
  }

  /** While pruning, the statuses stay, so the victims stay victims and the published snapshot stays newest. */
  lemma ActorKeepsPruning(s: State, s': State, retain: nat)
    requires s.actor.Pruning? && ActorInv(s, retain) && SameStatuses(s.world, s'.world)
    requires s'.actor == s.actor && s'.world.pointer == s.world.pointer
    ensures ActorInv(s', retain)
  {
    SameSets(s.world, s'.world);
    forall v | v in s.actor.victims
      ensures Is(s'.world, v, Superseded) && |NewerThan(SupersededOnes(s'.world), v)| >= retain
    {
      assert Is(s.world, v, Superseded);
    }
    assert Is(s.world, s.actor.id, Published);
  }

  lemma PruneRowsKeep(s: State, e: Event, s': State, retain: nat)
    requires Inv(s, retain) && Next(s, e, s', retain) && (e.PruneRows? || e.PrunePrefixes?)
    ensures Inv(s', retain)
  {
    assert Is(s.world, e.v, Superseded);
    VictimIsOld(s.world, s.actor.id, e.v, retain);
    RowsPruned(s.world, s'.world, e.v, retain);
    ActorKeepsPruning(s, s', retain);
  }

  lemma RowsPruned(w: World, w': World, v: nat, retain: nat)
    requires OnePublished(w) && PointerGood(w) && ArtifactsKept(w) && PrunedIsOld(w, retain) && PrunedIsUnpublished(w)
    requires Is(w, v, Superseded) && |NewerThan(Released(w), v)| > retain
    requires w' == TouchedRows(w, v) || w' == PrefixesDeleted(w, v)
    ensures OnePublished(w') && PointerGood(w') && ArtifactsKept(w') && PrunedIsOld(w', retain) && PrunedIsUnpublished(w')
  {
    SameSets(w, w');
  }

  lemma PruneStoreKeeps(s: State, e: Event, s': State, retain: nat)
    requires Inv(s, retain) && Next(s, e, s', retain) && (e.DeleteObject? || e.DeleteManifest?)
    ensures Inv(s', retain)
  {
    SameSets(s.world, s'.world);
    assert Is(s.world, e.v, Superseded) && Is(s.world, s.actor.id, Published);
    ActorKeepsPruning(s, s', retain);
  }

  lemma NextKeeps(s: State, e: Event, s': State, retain: nat)
    requires Inv(s, retain) && Next(s, e, s', retain) && Guarded(s, e)
    ensures Inv(s', retain)
  {
    match e
    case Load(hasRows) => LoadKeeps(s, hasRows, s', retain);
    case UploadObject => UploadKeeps(s, e, s', retain);
    case UploadManifest => UploadKeeps(s, e, s', retain);
    case Record => UploadKeeps(s, e, s', retain);
    case PublishRow => PublishKeeps(s, e, s', retain);
    case Rollback(v) => PublishKeeps(s, e, s', retain);
    case Point => PointKeeps(s, s', retain);
    case BeginPrune =>
    case PruneRows(v) => PruneRowsKeep(s, e, s', retain);
    case PrunePrefixes(v) => PruneRowsKeep(s, e, s', retain);
    case DeleteObject(v) => PruneStoreKeeps(s, e, s', retain);
    case DeleteManifest(v) => PruneStoreKeeps(s, e, s', retain);
    case Stop =>
  }

  const START := State(World(map[], {}, {}, None), Idle, 0)

  ghost predicate IsRun(states: seq<State>, events: seq<Event>, retain: nat) {
    && |states| == |events| + 1 && states[0] == START
    && forall i :: 0 <= i < |events| ==> Next(states[i], events[i], states[i + 1], retain)
  }

  /** In every run whose rollbacks go to stored versions, the invariant holds throughout. */
  lemma {:induction false} RunKeeps(states: seq<State>, events: seq<Event>, retain: nat, n: nat)
    requires IsRun(states, events, retain) && n < |states|
    requires forall i :: 0 <= i < |events| ==> Guarded(states[i], events[i])
    ensures Inv(states[n], retain)
  {
    if n == 0 {
    } else {
      RunKeeps(states, events, retain, n - 1);
      NextKeeps(states[n - 1], events[n - 1], states[n], retain);
    }
  }

  /**
   At every point of such a run: at most one snapshot is published, none that lost its rows
   to a prune is, and current.json refers to a version whose manifest and artifact are in the store.
   */
  lemma PublicationSafe(states: seq<State>, events: seq<Event>, retain: nat, n: nat)
    requires IsRun(states, events, retain) && n < |states|
    requires forall i :: 0 <= i < |events| ==> Guarded(states[i], events[i])
    ensures var w := states[n].world;
            && (forall x, y :: Is(w, x, Published) && Is(w, y, Published) ==> x == y)
            && (forall v :: Is(w, v, Published) && w.snaps[v].touched ==> w.snaps[v].prefixes)
            && (w.pointer.Some? ==> w.pointer.value in w.manifests && w.pointer.value in w.objects)
  {
    RunKeeps(states, events, retain, n);
  }

  /** The newest `retain` superseded snapshots have never been touched by any prune, so a rollback finds them whole. */
  lemma RetainedAreWhole(states: seq<State>, events: seq<Event>, retain: nat, n: nat, v: nat)
    requires IsRun(states, events, retain) && n < |states|
    requires forall i :: 0 <= i < |events| ==> Guarded(states[i], events[i])
    requires Is(states[n].world, v, Superseded) && |NewerThan(SupersededOnes(states[n].world), v)| < retain
    ensures !states[n].world.snaps[v].touched
  {
    RunKeeps(states, events, retain, n);
    var w := states[n].world;
    var newer := NewerThan(Released(w), v);
    assert forall x :: x in newer ==> Is(w, x, Published) || x in NewerThan(SupersededOnes(w), v);
    if published :| Is(w, published, Published) {
      assert newer <= NewerThan(SupersededOnes(w), v) + {published};
      SubsetSize(newer, NewerThan(SupersededOnes(w), v) + {published});
    } else {
      assert newer <= NewerThan(SupersededOnes(w), v);
      SubsetSize(newer, NewerThan(SupersededOnes(w), v));
    }
  }

  // ----- rollbacks that check the status

  /** A rollback goes to a snapshot that was released before, or whose artifact was at least recorded. */
  ghost predicate Checked(s: State, e: Event) {
    e.Rollback? ==> e.v in s.world.snaps && (s.world.snaps[e.v].status != Building || s.world.snaps[e.v].recorded)
  }

  /** Every snapshot that has left the building state had its artifact recorded. */
  ghost predicate ReleasedIsRecorded(w: World) {
    forall v :: v in w.snaps && w.snaps[v].status != Building ==> w.snaps[v].recorded
  }

  lemma CheckedIsGuarded(s: State, e: Event, s': State, retain: nat)
    requires Inv(s, retain) && ReleasedIsRecorded(s.world) && Next(s, e, s', retain) && Checked(s, e)
    ensures Guarded(s, e)
  {
  }

  lemma RecordedKept(s: State, e: Event, s': State, retain: nat)
    requires Inv(s, retain) && ReleasedIsRecorded(s.world) && Next(s, e, s', retain) && Checked(s, e)
    ensures ReleasedIsRecorded(s'.world)
  {
  }

  ghost predicate IsCheckedRun(states: seq<State>, events: seq<Event>, retain: nat) {
    IsRun(states, events, retain) && forall i :: 0 <= i < |events| ==> Checked(states[i], events[i])
  }

  lemma {:induction false} CheckedRunKeeps(states: seq<State>, events: seq<Event>, retain: nat, n: nat)
    requires IsCheckedRun(states, events, retain) && n < |states|
    ensures Inv(states[n], retain) && ReleasedIsRecorded(states[n].world)
  {
    if n == 0 {
    } else {
      CheckedRunKeeps(states, events, retain, n - 1);
      CheckedIsGuarded(states[n - 1], events[n - 1], states[n], retain);
      NextKeeps(states[n - 1], events[n - 1], states[n], retain);
      RecordedKept(states[n - 1], events[n - 1], states[n], retain);
    }
  }

  /** Checking the status that is read would be enough: every run whose rollbacks do so is safe throughout. */
  lemma CheckedRunSafe(states: seq<State>, events: seq<Event>, retain: nat, n: nat)
    requires IsCheckedRun(states, events, retain) && n < |states|
    ensures var w := states[n].world;
            && (forall x, y :: Is(w, x, Published) && Is(w, y, Published) ==> x == y)
            && (forall v :: Is(w, v, Published) && w.snaps[v].touched ==> w.snaps[v].prefixes)
            && (w.pointer.Some? ==> w.pointer.value in w.manifests && w.pointer.value in w.objects)
  {
    CheckedRunKeeps(states, events, retain, n);
  }

  // ----- rollback to a held build

  /** The build of this snapshot has uploaded its manifest, which it does after the artifact. */
  ghost predicate Uploaded(states: seq<State>, events: seq<Event>, n: nat, v: nat)
    requires n <= |events| <= |states|
  {
    exists i :: 0 <= i < n && UploadsManifest(states[i], events[i], v)
  }

  ghost predicate UploadsManifest(s: State, e: Event, v: nat) { e == UploadManifest && s.actor == ObjectUp(v) }

  /** The store holds nothing of snapshots yet to come, and nobody is building them. */
  ghost predicate NoneAhead(s: State) {
    && (forall v :: v in s.world.objects ==> v < s.next)
    && (forall v :: v in s.world.manifests ==> v < s.next)
    && (s.actor != Idle ==> s.actor.id < s.next)
  }

  lemma NoneAheadKept(s: State, e: Event, s': State, retain: nat)
    requires NoneAhead(s) && (forall v :: v in s.world.snaps ==> v < s.next) && Next(s, e, s', retain)
    ensures NoneAhead(s')
  {
  }

  /** A snapshot still building has its manifest in the store just if `uploaded` says so, and then its artifact too. */
  ghost predicate StoreFollows(w: World, v: nat, uploaded: bool) {
    Is(w, v, Building) ==> (v in w.manifests <==> uploaded) && (v in w.manifests ==> v in w.objects)
  }

  lemma StoreFollowsNext(s: State, e: Event, s': State, retain: nat, v: nat, uploaded: bool)
    requires Inv(s, retain) && NoneAhead(s) && Next(s, e, s', retain)
    requires StoreFollows(s.world, v, uploaded) && (uploaded ==> v < s.next)
    ensures StoreFollows(s'.world, v, uploaded || UploadsManifest(s, e, v))
  {
    if e.Load? && v == s.next { assert v !in s.world.manifests; }
  }

  lemma {:induction false} StoreFollowsRun(states: seq<State>, events: seq<Event>, retain: nat, n: nat, v: nat)
    requires IsCheckedRun(states, events, retain) && n < |states|
    ensures NoneAhead(states[n]) && (Uploaded(states, events, n, v) ==> v < states[n].next)
    ensures StoreFollows(states[n].world, v, Uploaded(states, events, n, v))
  {
    if n == 0 {
    } else {
      StoreFollowsRun(states, events, retain, n - 1, v);
      StoreFollowsAt(states, events, retain, n - 1, v, Uploaded(states, events, n - 1, v));
      UploadedNext(states, events, n - 1, v);
    }
  }

  lemma StoreFollowsAt(states: seq<State>, events: seq<Event>, retain: nat, n: nat, v: nat, uploaded: bool)
    requires IsCheckedRun(states, events, retain) && n < |events|
    requires NoneAhead(states[n]) && StoreFollows(states[n].world, v, uploaded) && (uploaded ==> v < states[n].next)
    ensures NoneAhead(states[n + 1]) && (uploaded || UploadsManifest(states[n], events[n], v) ==> v < states[n + 1].next)
    ensures StoreFollows(states[n + 1].world, v, uploaded || UploadsManifest(states[n], events[n], v))
  {
    CheckedRunKeeps(states, events, retain, n);
    NoneAheadKept(states[n], events[n], states[n + 1], retain);
    StoreFollowsNext(states[n], events[n], states[n + 1], retain, v, uploaded);
  }

  lemma UploadedNext(states: seq<State>, events: seq<Event>, n: nat, v: nat)
    requires n < |events| <= |states|
    ensures Uploaded(states, events, n + 1, v) <==> Uploaded(states, events, n, v) || UploadsManifest(states[n], events[n], v)
  {
  }

  /**
   After any run of checked rollbacks, one more rollback that checks nothing leaves a good
   pointer exactly when its target was released before or the upload of its build had finished.
   */
  lemma RollbackPointerExactly(states: seq<State>, events: seq<Event>, retain: nat, n: nat, v: nat, s1: State, s2: State)
    requires IsCheckedRun(states, events, retain) && n < |states|
    requires Next(states[n], Rollback(v), s1, retain) && Next(s1, Point, s2, retain)
    ensures PointerGood(s2.world) <==> states[n].world.snaps[v].status != Building || Uploaded(states, events, n, v)
  {
    CheckedRunKeeps(states, events, retain, n);
    StoreFollowsRun(states, events, retain, n, v);
  }

  /** A snapshot held back in the building state can be rolled back to, and then current.json refers to nothing. */
  lemma RollbackToHeldBuild(retain: nat) returns (states: seq<State>, events: seq<Event>)
    ensures IsRun(states, events, retain)
    ensures !PointerGood(states[|events|].world)
  {
    events := [Load(true), Stop, Rollback(0), Point];
    var loaded := World(map[0 := Snapshot(Building, true, false, false)], {}, {}, None);
    var flipped := loaded.(snaps := Flipped(loaded.snaps, 0));
    states := [START, State(loaded, Loaded(0), 1), State(loaded, Idle, 1), State(flipped, RolledBack(0), 1),
               State(flipped.(pointer := Some(0)), Idle, 1)];
  }

  // ----- whole operations

  ghost predicate IsPath(states: seq<State>, events: seq<Event>, retain: nat) {
    && |states| == |events| + 1
    && forall i :: 0 <= i < |events| ==> Next(states[i], events[i], states[i + 1], retain) && Guarded(states[i], events[i])
  }

  lemma {:induction false} PathKeeps(states: seq<State>, events: seq<Event>, retain: nat, n: nat)
    requires IsPath(states, events, retain) && n < |states| && Inv(states[0], retain)
    ensures Inv(states[n], retain)
  {
    if n == 0 {
    } else {
      PathKeeps(states, events, retain, n - 1);
      NextKeeps(states[n - 1], events[n - 1], states[n], retain);
    }
  }

  lemma RollbackKeeps(s: State, v: nat, retain: nat)
    requires Inv(s, retain) && s.actor == Idle && v in s.world.snaps && s.world.snaps[v].prefixes && Stored(s.world, v)
    ensures Inv(s.(world := s.world.(snaps := Flipped(s.world.snaps, v), pointer := Some(v))), retain)
  {
    var s1 := State(s.world.(snaps := Flipped(s.world.snaps, v)), RolledBack(v), s.next);
    var s2 := s.(world := s.world.(snaps := Flipped(s.world.snaps, v), pointer := Some(v)));
    PathKeeps([s, s1, s2], [Rollback(v), Point], retain, 2);
  }

  lemma RowsPrunedKeep(s: State, v: nat, retain: nat)
    requires Inv(s, retain) && s.actor.Pruning? && v in s.actor.victims && v in s.world.snaps
    ensures Inv(s.(world := PrefixesDeleted(s.world, v)), retain)
  {
    var s1, s2 := s.(world := TouchedRows(s.world, v)), s.(world := PrefixesDeleted(s.world, v));
    PathKeeps([s, s1, s2], [PruneRows(v), PrunePrefixes(v)], retain, 2);
  }

  lemma StorePrunedKeeps(s: State, v: nat, stuck: Stuck, retain: nat)
    requires Inv(s, retain) && s.actor.Pruning? && v in s.actor.victims && v in s.world.snaps
    requires s.world.snaps[v].touched && !s.world.snaps[v].prefixes
    ensures Inv(s.(world := StoreDropped(s.world, v, stuck)), retain)
  {
    var s1 := if v in stuck.objects then s else s.(world := s.world.(objects := s.world.objects - {v}));
    if v !in stuck.objects { NextKeeps(s, DeleteObject(v), s1, retain); }
    if v !in stuck.manifests {
      NextKeeps(s1, DeleteManifest(v), s1.(world := s1.world.(manifests := s1.world.manifests - {v})), retain);
    }
  }

  /** Pruning one victim to its end is steps of the machine, the deletions where they work. */
  lemma PruneOneKeeps(s: State, v: nat, stuck: Stuck, retain: nat)
    requires Inv(s, retain) && s.actor.Pruning? && v in s.actor.victims && v in s.world.snaps
    ensures Inv(s.(world := PrunedAll(s.world, {v}, stuck)), retain)
  {
    RowsPrunedKeep(s, v, retain);
    StorePrunedKeeps(s.(world := PrefixesDeleted(s.world, v)), v, stuck, retain);
    PrunedOne(s.world, v, stuck);
  }

  lemma PrunedOne(w: World, v: nat, stuck: Stuck)
    requires v in w.snaps
    ensures PrunedAll(w, {v}, stuck) == StoreDropped(PrefixesDeleted(w, v), v, stuck)
  {
    assert Stripped(w.snaps, {v}) == PrefixesDeleted(w, v).snaps;
  }

  lemma PrunedNone(w: World, stuck: Stuck)
    ensures PrunedAll(w, {}, stuck) == w
  {
    assert Stripped(w.snaps, {}) == w.snaps;
  }

  lemma PrunedMore(w: World, gone: set<nat>, v: nat, stuck: Stuck)
    ensures PrunedAll(PrunedAll(w, gone, stuck), {v}, stuck) == PrunedAll(w, gone + {v}, stuck)
  {
  }

  lemma {:induction false} PruneAllKeeps(s: State, gone: set<nat>, stuck: Stuck, retain: nat)
    requires Inv(s, retain) && s.actor.Pruning? && gone <= s.actor.victims && gone <= s.world.snaps.Keys
    ensures Inv(s.(world := PrunedAll(s.world, gone, stuck)), retain)
    decreases gone
  {
    if gone == {} {
      PrunedNone(s.world, stuck);
    } else {
      var v :| v in gone;
      PruneAllKeeps(s, gone - {v}, stuck, retain);
      PruneOneKeeps(s.(world := PrunedAll(s.world, gone - {v}, stuck)), v, stuck, retain);
      PrunedMore(s.world, gone - {v}, v, stuck);
      assert gone - {v} + {v} == gone;
    }
  }

  /** A build that runs to its end is a run of the machine, and so keeps the invariant. */
  lemma BuildKeeps(s: State, hasRows: bool, retain: nat, stuck: Stuck)
    requires Inv(s, retain) && s.actor == Idle
    ensures Inv(State(Built(s.world, s.next, hasRows, retain, stuck), Idle, s.next + 1), retain)
  {
    var live := Live(s.world, s.next, hasRows);
    var gone := Victims(live, retain);
    var pruning := State(live, Pruning(s.next, gone), s.next + 1);
    PublishedBuild(s, hasRows, retain);
    NextKeeps(State(live, Pointed(s.next), s.next + 1), BeginPrune, pruning, retain);
    PruneAllKeeps(pruning, gone, stuck, retain);
    var done := pruning.(world := PrunedAll(live, gone, stuck));
    NextKeeps(done, Stop, done.(actor := Idle), retain);
  }

  /** The new snapshot is not superseded, so the prune at the end of its build leaves it alone. */
  lemma BuildEndsLive(w: World, v: nat, hasRows: bool, retain: nat, stuck: Stuck)
    ensures var w' := Built(w, v, hasRows, retain, stuck);
            && Is(w', v, Published) && w'.snaps[v].recorded && w'.snaps[v].prefixes == hasRows
            && w'.pointer == Some(v) && Stored(w', v)
  {
    var live := Live(w, v, hasRows);
    assert v !in Victims(live, retain);
  }

  lemma BuildKeepsRecorded(w: World, v: nat, hasRows: bool, retain: nat, stuck: Stuck)
    ensures ReleasedIsRecorded(w) ==> ReleasedIsRecorded(Built(w, v, hasRows, retain, stuck))
  {
  }

  /** The world after a build has loaded its rows, uploaded both objects and recorded them. */
  function UploadedWorld(w: World, v: nat, hasRows: bool): World {
    World(w.snaps[v := Snapshot(Building, hasRows, true, false)], w.objects + {v}, w.manifests + {v}, w.pointer)
  }

  lemma UploadedBuild(s: State, hasRows: bool, retain: nat)
    requires Inv(s, retain) && s.actor == Idle
    ensures Inv(State(UploadedWorld(s.world, s.next, hasRows), Actor.Recorded(s.next), s.next + 1), retain)
  {
    var v, w := s.next, s.world;
    var w1 := Edit(w, v, Snapshot(Building, hasRows, false, false));
    var w2 := w1.(objects := w.objects + {v});
    var w3 := w2.(manifests := w.manifests + {v});
    var w4 := UploadedWorld(w, v, hasRows);
    assert w4.snaps == w1.snaps[v := Snapshot(Building, hasRows, true, false)];
    PathKeeps([s, State(w1, Loaded(v), v + 1), State(w2, ObjectUp(v), v + 1), State(w3, ManifestUp(v), v + 1),
               State(w4, Actor.Recorded(v), v + 1)],
              [Load(hasRows), UploadObject, UploadManifest, Record], retain, 4);
  }

  lemma PublishedBuild(s: State, hasRows: bool, retain: nat)
    requires Inv(s, retain) && s.actor == Idle
    ensures Inv(State(Live(s.world, s.next, hasRows), Pointed(s.next), s.next + 1), retain)
  {
    var v, w := s.next, UploadedWorld(s.world, s.next, hasRows);
    UploadedBuild(s, hasRows, retain);
    var live := w.(snaps := Flipped(w.snaps, v));
    PathKeeps([State(w, Actor.Recorded(v), v + 1), State(live, NowPublished(v), v + 1),
               State(live.(pointer := Some(v)), Pointed(v), v + 1)], [PublishRow, Point], retain, 2);
  }
}
