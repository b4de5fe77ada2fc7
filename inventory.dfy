/** The three item passes. Each drains its own table of pending intents and
    moves items between the floor (`positions`), a backpack (`backpack`) and
    an equipment slot (`equipped`); the use pass also applies the item's
    effects. A pass that would abort the program (an `unwrap`, `expect` or
    index out of bounds in the source) returns `ok == false`, and promises
    nothing about the state it leaves behind. */
module Inventory {
  import opened Ecs
  import opened Maps
  import opened Components

  function Elems(s: seq<Entity>): set<Entity>
  {
    set e | e in s
  }

  /** The values `m` holds for the keys `ks`, in the order of `ks`. */
  function ValuesAt<V>(ks: seq<Entity>, m: map<Entity, V>): (r: seq<V>)
    requires forall k :: k in ks ==> k in m
    ensures |r| == |ks| && forall i :: 0 <= i < |ks| ==> r[i] == m[ks[i]]
  {
    if ks == [] then [] else ValuesAt(ks[..|ks| - 1], m) + [m[ks[|ks| - 1]]]
  }

  /** The intents of a storage in the order its join visits their holders. */
  function Pending<V>(intents: map<Entity, V>): seq<V>
  {
    JoinOrderMembers(intents.Keys);
    ValuesAt(InJoinOrder(intents.Keys), intents)
  }

  // ---------------------------------------------------------------------
  // Pickup

  /** The items the pickups `ps` name. */
  function PickedItems(ps: seq<WantsToPickupItem>): (r: set<Entity>)
    ensures forall k :: 0 <= k < |ps| ==> ps[k].item in r
  {
    if ps == [] then {}
    else
      var p := ps[|ps| - 1];
      PickedItems(ps[..|ps| - 1]) + {p.item}
  }

  /** No later pickup in `ps` names the item of pickup k. */
  predicate LastPickupOf(ps: seq<WantsToPickupItem>, k: int)
    requires 0 <= k < |ps|
  {
    forall j :: k < j < |ps| ==> ps[j].item != ps[k].item
  }

  /** The backpack storage after the pickups `ps`, in order. */
  function Stowed(backpack: map<Entity, Entity>, ps: seq<WantsToPickupItem>): map<Entity, Entity>
    decreases |ps|
  {
    if ps == [] then backpack
    else
      var p := ps[|ps| - 1];
      Stowed(backpack, ps[..|ps| - 1])[p.item := p.collectedBy]
  }

  /** The picked items join the backpack storage, and every item nobody
      picks up keeps its owner. */
  lemma {:induction false} StowedKeepsOthers(backpack: map<Entity, Entity>, ps: seq<WantsToPickupItem>)
    ensures Stowed(backpack, ps).Keys == backpack.Keys + PickedItems(ps)
    ensures forall e :: e in backpack && e !in PickedItems(ps) ==> Stowed(backpack, ps)[e] == backpack[e]
    decreases |ps|
  {
    if ps != [] {
      StowedKeepsOthers(backpack, ps[..|ps| - 1]);
    }
  }

  /** Every picked item ends up owned by the collector of the last pickup
      that names it. */
  lemma {:induction false} LastPickupWins(backpack: map<Entity, Entity>, ps: seq<WantsToPickupItem>, k: int)
    requires 0 <= k < |ps| && LastPickupOf(ps, k)
    ensures ps[k].item in Stowed(backpack, ps) && Stowed(backpack, ps)[ps[k].item] == ps[k].collectedBy
    decreases |ps|
  {
    var front := ps[..|ps| - 1];
    if k < |front| {
      assert LastPickupOf(front, k);
      LastPickupWins(backpack, front, k);
    }
  }

  /** Every item the player picks up has a name for the log. */
  predicate PickupsNamed(ps: seq<WantsToPickupItem>, player: Entity, names: map<Entity, string>)
  {
    forall k :: 0 <= k < |ps| && ps[k].collectedBy == player ==> ps[k].item in names
  }

  /** The log lines of the pickups made by the player, in order. */
  function PickupLog(ps: seq<WantsToPickupItem>, player: Entity, names: map<Entity, string>): seq<LogEntry>
    requires PickupsNamed(ps, player, names)
  {
    if ps == [] then []
    else
      var p := ps[|ps| - 1];
      PickupLog(ps[..|ps| - 1], player, names) +
      if p.collectedBy == player then [YouPickUp(names[p.item])] else []
  }

  /** The storages after the first i pickups of `ps`, starting from
      `positions0`, `backpack0` and `log0`. */
  ghost predicate PickedUpFirst(i: int, ps: seq<WantsToPickupItem>, player: Entity, names: map<Entity, string>,
                                positions0: map<Entity, Point>, backpack0: map<Entity, Entity>, log0: seq<LogEntry>,
                                positions: map<Entity, Point>, backpack: map<Entity, Entity>, log: seq<LogEntry>)
    requires 0 <= i <= |ps|
  {
    && PickupsNamed(ps[..i], player, names)
    && positions == positions0 - PickedItems(ps[..i])
    && backpack == Stowed(backpack0, ps[..i])
    && log == log0 + PickupLog(ps[..i], player, names)
  }

  lemma PickupStart(ps: seq<WantsToPickupItem>, player: Entity, names: map<Entity, string>,
                    positions0: map<Entity, Point>, backpack0: map<Entity, Entity>, log0: seq<LogEntry>)
    ensures PickedUpFirst(0, ps, player, names, positions0, backpack0, log0, positions0, backpack0, log0)
  {
    assert ps[..0] == [];
  }

  lemma PickupStep(i: int, ps: seq<WantsToPickupItem>, player: Entity, names: map<Entity, string>,
                   positions0: map<Entity, Point>, backpack0: map<Entity, Entity>, log0: seq<LogEntry>,
                   positions: map<Entity, Point>, backpack: map<Entity, Entity>, log: seq<LogEntry>)
    requires 0 <= i < |ps|
    requires PickedUpFirst(i, ps, player, names, positions0, backpack0, log0, positions, backpack, log)
    requires ps[i].collectedBy == player ==> ps[i].item in names
    ensures PickedUpFirst(i + 1, ps, player, names, positions0, backpack0, log0,
                          positions - {ps[i].item}, backpack[ps[i].item := ps[i].collectedBy],
                          log + if ps[i].collectedBy == player then [YouPickUp(names[ps[i].item])] else [])
  {
    var p := ps[i];
    assert ps[..i + 1][..i] == ps[..i];
    assert ps[..i + 1][i] == p;
    assert PickedItems(ps[..i + 1]) == PickedItems(ps[..i]) + {p.item};
    assert (positions0 - PickedItems(ps[..i])) - {p.item} == positions0 - (PickedItems(ps[..i]) + {p.item});
    var entry := if p.collectedBy == player then [YouPickUp(names[p.item])] else [];
    assert log0 + PickupLog(ps[..i], player, names) + entry == log0 + (PickupLog(ps[..i], player, names) + entry);
  }

  /** One pass of the pickup loop: the item leaves the floor for the
      collector's backpack, and the player's pickups are logged by name. */
  method PickUp(w: World, pickup: WantsToPickupItem) returns (ok: bool)
    modifies w`positions, w`backpack, w`log
    ensures ok <==> (pickup.collectedBy == w.player ==> pickup.item in w.names)
    ensures ok ==>
      && w.positions == old(w.positions) - {pickup.item}
      && w.backpack == old(w.backpack)[pickup.item := pickup.collectedBy]
      && w.log == old(w.log) + if pickup.collectedBy == w.player then [YouPickUp(w.names[pickup.item])] else []
  {
    w.positions := w.positions - {pickup.item};
    w.backpack := w.backpack[pickup.item := pickup.collectedBy];
    if pickup.collectedBy == w.player {
      if pickup.item !in w.names {
        return false;
      }
      w.log := w.log + [YouPickUp(w.names[pickup.item])];
    }
    ok := true;
  }

  /** Picking up items that are not equipped keeps every item in at most
      one place. */
  lemma PickupKeepsOnePlace(positions: map<Entity, Point>, backpack: map<Entity, Entity>,
                            equipped: map<Entity, Equipped>, ps: seq<WantsToPickupItem>)
    requires AtMostOnePlace(positions, backpack, equipped)
    requires PickedItems(ps) !! equipped.Keys
    ensures AtMostOnePlace(positions - PickedItems(ps), Stowed(backpack, ps), equipped)
  {
    StowedKeepsOthers(backpack, ps);
  }

  /** `ItemCollectionSystem::run`. Every pending pickup, in join order, takes
      its item off the floor and puts it in the collector's backpack; a line
      is logged only when the collector is the player, and the player picking
      up an unnamed item aborts. The pickup table ends empty. */
  method CollectItems(w: World) returns (ok: bool)
    modifies w`positions, w`backpack, w`log, w`wantsPickup
    ensures ok <==> PickupsNamed(Pending(old(w.wantsPickup)), w.player, w.names)
    ensures ok ==>
      var ps := Pending(old(w.wantsPickup));
      && w.positions == old(w.positions) - PickedItems(ps)
      && w.backpack == Stowed(old(w.backpack), ps)
      && w.log == old(w.log) + PickupLog(ps, w.player, w.names)
      && w.wantsPickup == map[]
  {
    var holders := InJoinOrder(w.wantsPickup.Keys);
    JoinOrderMembers(w.wantsPickup.Keys);
    ghost var ps := Pending(w.wantsPickup);
    PickupStart(ps, w.player, w.names, w.positions, w.backpack, w.log);
    var i := 0;
    while i < |holders|
      invariant 0 <= i <= |holders| == |ps|
      invariant w.wantsPickup == old(w.wantsPickup)
      invariant PickedUpFirst(i, ps, w.player, w.names, old(w.positions), old(w.backpack), old(w.log),
                              w.positions, w.backpack, w.log)
    {
      var pickup := w.wantsPickup[holders[i]];
      assert pickup == ps[i];
      ghost var positions, backpack, log := w.positions, w.backpack, w.log;
      ok := PickUp(w, pickup);
      if !ok {
        return;
      }
      PickupStep(i, ps, w.player, w.names, old(w.positions), old(w.backpack), old(w.log), positions, backpack, log);
      i := i + 1;
    }
    assert ps[..i] == ps;
    w.wantsPickup := map[];
    ok := true;
  }

  // ---------------------------------------------------------------------
  // Drop

  /** A pending drop, as the join yields it: the dropper and its intent. */
  datatype Drop = Drop(dropper: Entity, item: Entity)

  function DropsOf(droppers: seq<Entity>, intents: map<Entity, Entity>): (r: seq<Drop>)
    requires forall k :: k in droppers ==> k in intents
    ensures |r| == |droppers| && forall i :: 0 <= i < |droppers| ==> r[i] == Drop(droppers[i], intents[droppers[i]])
  {
    if droppers == [] then []
    else
      var d := droppers[|droppers| - 1];
      DropsOf(droppers[..|droppers| - 1], intents) + [Drop(d, intents[d])]
  }

  /** The drop intents in the order the join visits their droppers. */
  function PendingDrops(intents: map<Entity, Entity>): seq<Drop>
  {
    JoinOrderMembers(intents.Keys);
    DropsOf(InJoinOrder(intents.Keys), intents)
  }

  /** The items the drops `ds` name. */
  function DroppedItems(ds: seq<Drop>): (r: set<Entity>)
    ensures forall k :: 0 <= k < |ds| ==> ds[k].item in r
  {
    if ds == [] then {}
    else DroppedItems(ds[..|ds| - 1]) + {ds[|ds| - 1].item}
  }

  /** The position storage after the drops `ds`, in order: each item is put
      where its dropper stands at that moment. None when some dropper has no
      position at its turn. */
  function Dropped(positions: map<Entity, Point>, ds: seq<Drop>): Option<map<Entity, Point>>
    decreases |ds|
  {
    if ds == [] then Some(positions)
    else
      var d := ds[|ds| - 1];
      match Dropped(positions, ds[..|ds| - 1])
      case None => None
      case Some(now) =>
        if d.dropper in now then Some(now[d.item := now[d.dropper]]) else None
  }

  /** The dropped items join the position storage; everything else keeps
      its position. */
  lemma {:induction false} DroppedKeepsOthers(positions: map<Entity, Point>, ds: seq<Drop>)
    requires Dropped(positions, ds).Some?
    ensures Dropped(positions, ds).value.Keys == positions.Keys + DroppedItems(ds)
    ensures forall e :: e in positions && e !in DroppedItems(ds) ==> Dropped(positions, ds).value[e] == positions[e]
    decreases |ds|
  {
    if ds != [] {
      DroppedKeepsOthers(positions, ds[..|ds| - 1]);
    }
  }

  /** Once a dropper has had nowhere to stand, the pass has failed for good. */
  lemma {:induction false} DroppedStaysNone(positions: map<Entity, Point>, ds: seq<Drop>, n: nat)
    requires n <= |ds| && Dropped(positions, ds[..n]).None?
    ensures Dropped(positions, ds).None?
    decreases |ds| - n
  {
    if n < |ds| {
      assert ds[..n + 1][..n] == ds[..n];
      DroppedStaysNone(positions, ds, n + 1);
    } else {
      assert ds[..n] == ds;
    }
  }

  /** No later drop in `ds` names the item of drop k. */
  predicate LastDropOf(ds: seq<Drop>, k: int)
    requires 0 <= k < |ds|
  {
    forall j :: k < j < |ds| ==> ds[j].item != ds[k].item
  }

  /** When no dropper is itself one of the dropped items (droppers are
      creatures), the drops succeed exactly when every dropper stands
      somewhere, and each item lands on the tile of the last creature that
      drops it. */
  lemma {:induction false} DroppedAtDropper(positions: map<Entity, Point>, ds: seq<Drop>)
    requires forall k :: 0 <= k < |ds| ==> ds[k].dropper !in DroppedItems(ds)
    ensures Dropped(positions, ds).Some? <==> forall k :: 0 <= k < |ds| ==> ds[k].dropper in positions
    ensures Dropped(positions, ds).Some? ==>
      forall k :: 0 <= k < |ds| && LastDropOf(ds, k) ==>
        ds[k].item in Dropped(positions, ds).value &&
        Dropped(positions, ds).value[ds[k].item] == positions[ds[k].dropper]
    decreases |ds|
  {
    if ds != [] {
      var n := |ds| - 1;
      var d := ds[n];
      var front := ds[..n];
      assert forall k :: 0 <= k < n ==> front[k] == ds[k];
      DroppedAtDropper(positions, front);
      match Dropped(positions, front)
      case None =>
      case Some(now) =>
        DroppedKeepsOthers(positions, front);
        assert d.dropper !in DroppedItems(front);
        if d.dropper in positions {
          assert now[d.dropper] == positions[d.dropper];
          forall k | 0 <= k < |ds| && LastDropOf(ds, k)
            ensures ds[k].item in Dropped(positions, ds).value
            ensures Dropped(positions, ds).value[ds[k].item] == positions[ds[k].dropper]
          {
            if k < n {
              assert LastDropOf(front, k);
            }
          }
        }
    }
  }

  /** Every item the player drops has a name for the log. */
  predicate DropsNamed(ds: seq<Drop>, player: Entity, names: map<Entity, string>)
  {
    forall k :: 0 <= k < |ds| && ds[k].dropper == player ==> ds[k].item in names
  }

  function DropLog(ds: seq<Drop>, player: Entity, names: map<Entity, string>): seq<LogEntry>
    requires DropsNamed(ds, player, names)
  {
    if ds == [] then []
    else
      var d := ds[|ds| - 1];
      DropLog(ds[..|ds| - 1], player, names) +
      if d.dropper == player then [YouDrop(names[d.item])] else []
  }

  /** Dropping items that are not equipped keeps every item in at most one
      place. */
  lemma DropKeepsOnePlace(positions: map<Entity, Point>, backpack: map<Entity, Entity>,
                          equipped: map<Entity, Equipped>, ds: seq<Drop>)
    requires AtMostOnePlace(positions, backpack, equipped)
    requires Dropped(positions, ds).Some? && DroppedItems(ds) !! equipped.Keys
    ensures AtMostOnePlace(Dropped(positions, ds).value, backpack - DroppedItems(ds), equipped)
  {
    DroppedKeepsOthers(positions, ds);
  }

  /** The storages after the first i drops of `ds`. */
  ghost predicate DroppedFirst(i: int, ds: seq<Drop>, player: Entity, names: map<Entity, string>,
                               positions0: map<Entity, Point>, backpack0: map<Entity, Entity>, log0: seq<LogEntry>,
                               positions: map<Entity, Point>, backpack: map<Entity, Entity>, log: seq<LogEntry>)
    requires 0 <= i <= |ds|
  {
    && DropsNamed(ds[..i], player, names)
    && Dropped(positions0, ds[..i]) == Some(positions)
    && backpack == backpack0 - DroppedItems(ds[..i])
    && log == log0 + DropLog(ds[..i], player, names)
  }

  lemma DropStart(ds: seq<Drop>, player: Entity, names: map<Entity, string>,
                  positions0: map<Entity, Point>, backpack0: map<Entity, Entity>, log0: seq<LogEntry>)
    ensures DroppedFirst(0, ds, player, names, positions0, backpack0, log0, positions0, backpack0, log0)
  {
    assert ds[..0] == [];
  }

  lemma DropStep(i: int, ds: seq<Drop>, player: Entity, names: map<Entity, string>,
                 positions0: map<Entity, Point>, backpack0: map<Entity, Entity>, log0: seq<LogEntry>,
                 positions: map<Entity, Point>, backpack: map<Entity, Entity>, log: seq<LogEntry>)
    requires 0 <= i < |ds|
    requires DroppedFirst(i, ds, player, names, positions0, backpack0, log0, positions, backpack, log)
    ensures ds[i].dropper !in positions ==> Dropped(positions0, ds).None?
    ensures ds[i].dropper in positions && (ds[i].dropper == player ==> ds[i].item in names) ==>
      DroppedFirst(i + 1, ds, player, names, positions0, backpack0, log0,
                   positions[ds[i].item := positions[ds[i].dropper]], backpack - {ds[i].item},
                   log + if ds[i].dropper == player then [YouDrop(names[ds[i].item])] else [])
  {
    var d := ds[i];
    assert ds[..i + 1][..i] == ds[..i];
    assert ds[..i + 1][i] == d;
    if d.dropper !in positions {
      DroppedStaysNone(positions0, ds, i + 1);
    } else if d.dropper == player ==> d.item in names {
      assert DroppedItems(ds[..i + 1]) == DroppedItems(ds[..i]) + {d.item};
      assert (backpack0 - DroppedItems(ds[..i])) - {d.item} == backpack0 - (DroppedItems(ds[..i]) + {d.item});
      var entry := if d.dropper == player then [YouDrop(names[d.item])] else [];
      assert log0 + DropLog(ds[..i], player, names) + entry == log0 + (DropLog(ds[..i], player, names) + entry);
    }
  }

  /** One pass of the drop loop: the item goes to the dropper's tile and
      leaves the backpack; the player's drops are logged by name. */
  method DropOne(w: World, d: Drop) returns (ok: bool)
    modifies w`positions, w`backpack, w`log
    ensures ok <==> d.dropper in old(w.positions) && (d.dropper == w.player ==> d.item in w.names)
    ensures ok ==>
      && w.positions == old(w.positions)[d.item := old(w.positions)[d.dropper]]
      && w.backpack == old(w.backpack) - {d.item}
      && w.log == old(w.log) + if d.dropper == w.player then [YouDrop(w.names[d.item])] else []
  {
    if d.dropper !in w.positions {
      return false;
    }
    var dropperPos := w.positions[d.dropper];
    w.positions := w.positions[d.item := dropperPos];
    w.backpack := w.backpack - {d.item};
    if d.dropper == w.player {
      if d.item !in w.names {
        return false;
      }
      w.log := w.log + [YouDrop(w.names[d.item])];
    }
    ok := true;
  }

  /** `ItemDropSystem::run`. Every pending drop, in join order, puts the item
      on the dropper's current tile and takes it out of the backpack; a
      dropper with no position aborts, as does the player dropping an
      unnamed item. An equipped item keeps its `Equipped` entry: the pass
      does not unequip. The drop table ends empty. */
  method DropItems(w: World) returns (ok: bool)
    modifies w`positions, w`backpack, w`log, w`wantsDrop
    ensures ok <==>
      && Dropped(old(w.positions), PendingDrops(old(w.wantsDrop))).Some?
      && DropsNamed(PendingDrops(old(w.wantsDrop)), w.player, w.names)
    ensures ok ==>
      var ds := PendingDrops(old(w.wantsDrop));
      && w.positions == Dropped(old(w.positions), ds).value
      && w.backpack == old(w.backpack) - DroppedItems(ds)
      && w.log == old(w.log) + DropLog(ds, w.player, w.names)
      && w.wantsDrop == map[]
  {
    var droppers := InJoinOrder(w.wantsDrop.Keys);
    JoinOrderMembers(w.wantsDrop.Keys);
    ghost var ds := PendingDrops(w.wantsDrop);
    DropStart(ds, w.player, w.names, w.positions, w.backpack, w.log);
    var i := 0;
    while i < |droppers|
      invariant 0 <= i <= |droppers| == |ds|
      invariant w.wantsDrop == old(w.wantsDrop)
      invariant DroppedFirst(i, ds, w.player, w.names, old(w.positions), old(w.backpack), old(w.log),
                             w.positions, w.backpack, w.log)
    {
      var d := Drop(droppers[i], w.wantsDrop[droppers[i]]);
      assert d == ds[i];
      ghost var positions, backpack, log := w.positions, w.backpack, w.log;
      DropStep(i, ds, w.player, w.names, old(w.positions), old(w.backpack), old(w.log), positions, backpack, log);
      ok := DropOne(w, d);
      if !ok {
        return;
      }
      i := i + 1;
    }
    assert ds[..i] == ds;
    w.wantsDrop := map[];
    ok := true;
  }

  // ---------------------------------------------------------------------
  // Use: targeting

  /** The area-of-effect filter keeps blast tiles strictly inside the map's
      outer ring. */
  predicate Interior(p: Point, width: int, height: int)
  {
    0 < p.x < width - 1 && 0 < p.y < height - 1
  }

  /** `blast_tiles.retain(...)`: the interior tiles of the blast, in order. */
  function InteriorTiles(blast: seq<Point>, width: int, height: int): seq<Point>
  {
    if blast == [] then []
    else
      var p := blast[|blast| - 1];
      InteriorTiles(blast[..|blast| - 1], width, height) + if Interior(p, width, height) then [p] else []
  }

  /** The retained tiles are exactly the interior blast tiles. */
  lemma {:induction false} InteriorTilesFacts(blast: seq<Point>, width: int, height: int)
    ensures forall k :: 0 <= k < |InteriorTiles(blast, width, height)| ==>
      InteriorTiles(blast, width, height)[k] in blast && Interior(InteriorTiles(blast, width, height)[k], width, height)
    ensures forall p :: p in blast && Interior(p, width, height) ==> p in InteriorTiles(blast, width, height)
  {
    if blast != [] {
      var p := blast[|blast| - 1];
      var front := blast[..|blast| - 1];
      assert blast == front + [p];
      InteriorTilesFacts(front, width, height);
      var rest := InteriorTiles(front, width, height);
      var r := InteriorTiles(blast, width, height);
      assert r == rest + if Interior(p, width, height) then [p] else [];
      forall k | 0 <= k < |r|
        ensures r[k] in blast && Interior(r[k], width, height)
      {
        if k < |rest| {
          assert r[k] == rest[k] && rest[k] in front;
        } else {
          assert r[k] == p;
        }
      }
      forall q | q in blast && Interior(q, width, height)
        ensures q in r
      {
        if q != p {
          assert q in front;
        }
      }
    }
  }

  /** The occupants of the given interior tiles, tile after tile. */
  function Occupants(tiles: seq<Point>, content: seq<seq<Entity>>, width: int, height: int): seq<Entity>
    requires |content| == width * height
    requires forall k :: 0 <= k < |tiles| ==> Interior(tiles[k], width, height)
  {
    if tiles == [] then []
    else
      var p := tiles[|tiles| - 1];
      assert Interior(p, width, height);
      IdxInBounds(width, height, p.x, p.y);
      Occupants(tiles[..|tiles| - 1], content, width, height) + content[Idx(width, p.x, p.y)]
  }

  /** Whom an item use hits. With no target tile, the player (even when a
      monster is the user); with a target tile and no area of effect, the occupants of
      that tile, or None when the tile's index is off the grid; with an area
      of effect of radius r, the occupants of the interior tiles that `fov`
      reports around the target. */
  function Targets(player: Entity, target: Option<Point>, radius: Option<int>,
                   content: seq<seq<Entity>>, width: int, height: int,
                   fov: (Point, int) -> seq<Point>): Option<seq<Entity>>
    requires |content| == width * height
  {
    match target
    case None => Some([player])
    case Some(t) =>
      match radius
      case None =>
        var idx := Idx(width, t.x, t.y);
        if 0 <= idx < |content| then Some(content[idx]) else None
      case Some(r) =>
        InteriorTilesFacts(fov(t, r), width, height);
        Some(Occupants(InteriorTiles(fov(t, r), width, height), content, width, height))
  }

  /** The tile content lists `e` on tile p. */
  predicate StandsOn(e: Entity, p: Point, content: seq<seq<Entity>>, width: int)
  {
    0 <= Idx(width, p.x, p.y) < |content| && e in content[Idx(width, p.x, p.y)]
  }

  /** The occupants of some tiles are exactly the entities listed on one of
      them. */
  lemma {:induction false} OccupantsOfTiles(tiles: seq<Point>, content: seq<seq<Entity>>, width: int, height: int, e: Entity)
    requires |content| == width * height
    requires forall k :: 0 <= k < |tiles| ==> Interior(tiles[k], width, height)
    ensures e in Occupants(tiles, content, width, height) <==>
      exists k :: 0 <= k < |tiles| && StandsOn(e, tiles[k], content, width)
  {
    if tiles != [] {
      var n := |tiles| - 1;
      var front := tiles[..n];
      IdxInBounds(width, height, tiles[n].x, tiles[n].y);
      OccupantsOfTiles(front, content, width, height, e);
      var here := content[Idx(width, tiles[n].x, tiles[n].y)];
      assert Occupants(tiles, content, width, height) == Occupants(front, content, width, height) + here;
      if e in Occupants(front, content, width, height) {
        var k :| 0 <= k < |front| && StandsOn(e, front[k], content, width);
        assert tiles[k] == front[k];
      } else if e in here {
        assert StandsOn(e, tiles[n], content, width);
      }
      if exists k :: 0 <= k < |tiles| && StandsOn(e, tiles[k], content, width) {
        var k :| 0 <= k < |tiles| && StandsOn(e, tiles[k], content, width);
        if k < n {
          assert front[k] == tiles[k];
        }
      }
    }
  }

  /** An area-of-effect use hits exactly the entities standing on interior
      blast tiles: occupants of the outer ring or of tiles off the map are
      never targeted. */
  lemma AreaTargetsAreInterior(player: Entity, t: Point, r: int, content: seq<seq<Entity>>,
                               width: int, height: int, fov: (Point, int) -> seq<Point>, e: Entity)
    requires |content| == width * height
    ensures e in Targets(player, Some(t), Some(r), content, width, height, fov).value <==>
      exists p :: p in fov(t, r) && Interior(p, width, height) && StandsOn(e, p, content, width)
  {
    var tiles := InteriorTiles(fov(t, r), width, height);
    InteriorTilesFacts(fov(t, r), width, height);
    OccupantsOfTiles(tiles, content, width, height, e);
    if exists p :: p in fov(t, r) && Interior(p, width, height) && StandsOn(e, p, content, width) {
      var p :| p in fov(t, r) && Interior(p, width, height) && StandsOn(e, p, content, width);
      assert p in tiles;
      var k :| 0 <= k < |tiles| && tiles[k] == p;
    }
  }

  /** The targeting block of `ItemUseSystem::run`: builds the target list
      tile by tile, as `Targets` describes. */
  method SelectTargets(m: Map, fov: (Point, int) -> seq<Point>, player: Entity,
                       target: Option<Point>, radius: Option<int>) returns (ok: bool, targets: seq<Entity>)
    requires m.Valid()
    ensures ok == Targets(player, target, radius, m.tileContent, m.width, m.height, fov).Some?
    ensures ok ==> targets == Targets(player, target, radius, m.tileContent, m.width, m.height, fov).value
  {
    targets := [];
    match target
    case None =>
      targets := targets + [player];
      ok := true;
    case Some(t) =>
      match radius
      case None =>
        var idx := Idx(m.width, t.x, t.y);
        if !(0 <= idx < |m.tileContent|) {
          return false, [];
        }
        var mobs := m.tileContent[idx];
        var k := 0;
        while k < |mobs|
          invariant 0 <= k <= |mobs|
          invariant targets == mobs[..k]
        {
          targets := targets + [mobs[k]];
          k := k + 1;
        }
        assert mobs[..k] == mobs;
        ok := true;
      case Some(r) =>
        var blast := InteriorTiles(fov(t, r), m.width, m.height);
        InteriorTilesFacts(fov(t, r), m.width, m.height);
        var j := 0;
        while j < |blast|
          invariant 0 <= j <= |blast|
          invariant forall k :: 0 <= k < |blast| ==> Interior(blast[k], m.width, m.height)
          invariant targets == Occupants(blast[..j], m.tileContent, m.width, m.height)
        {
          var p := blast[j];
          assert blast[..j + 1][..j] == blast[..j];
          IdxInBounds(m.width, m.height, p.x, p.y);
          var mobs := m.tileContent[Idx(m.width, p.x, p.y)];
          var k := 0;
          while k < |mobs|
            invariant 0 <= k <= |mobs|
            invariant targets == Occupants(blast[..j], m.tileContent, m.width, m.height) + mobs[..k]
          {
            targets := targets + [mobs[k]];
            k := k + 1;
          }
          assert mobs[..k] == mobs;
          j := j + 1;
        }
        assert blast[..j] == blast;
        ok := true;
  }

  // ---------------------------------------------------------------------
  // Use: equip

  /** The entities of `ks` that `owner` wears in `slot`, in order. */
  function Wearing(ks: seq<Entity>, equipped: map<Entity, Equipped>, owner: Entity, slot: Slot): seq<Entity>
    requires forall k :: 0 <= k < |ks| ==> ks[k] in equipped
  {
    if ks == [] then []
    else
      var e := ks[|ks| - 1];
      Wearing(ks[..|ks| - 1], equipped, owner, slot) + if equipped[e] == Equipped(owner, slot) then [e] else []
  }

  lemma {:induction false} WearingMembers(ks: seq<Entity>, equipped: map<Entity, Equipped>, owner: Entity, slot: Slot)
    requires forall k :: 0 <= k < |ks| ==> ks[k] in equipped
    ensures forall e :: e in Wearing(ks, equipped, owner, slot) <==> e in ks && equipped[e] == Equipped(owner, slot)
  {
    if ks != [] {
      var front := ks[..|ks| - 1];
      assert ks == front + [ks[|ks| - 1]];
      WearingMembers(front, equipped, owner, slot);
    }
  }

  /** The items the unequip step finds: those that `owner` wears in `slot`
      and that carry a name (the join runs over equipped and named items),
      in join order. */
  function SlotHolders(equipped: map<Entity, Equipped>, names: map<Entity, string>, owner: Entity, slot: Slot): seq<Entity>
  {
    var worn := InJoinOrder(equipped.Keys * names.Keys);
    JoinOrderMembers(equipped.Keys * names.Keys);
    Wearing(worn, equipped, owner, slot)
  }

  lemma SlotHoldersMembers(equipped: map<Entity, Equipped>, names: map<Entity, string>, owner: Entity, slot: Slot)
    ensures forall e :: e in SlotHolders(equipped, names, owner, slot) <==>
      e in equipped && e in names && equipped[e] == Equipped(owner, slot)
    ensures var r := SlotHolders(equipped, names, owner, slot);
      forall k :: 0 <= k < |r| ==> r[k] in names
  {
    var worn := InJoinOrder(equipped.Keys * names.Keys);
    JoinOrderMembers(equipped.Keys * names.Keys);
    WearingMembers(worn, equipped, owner, slot);
  }

  /** One unequip line per item, in order. */
  function UnequipLog(items: seq<Entity>, names: map<Entity, string>): seq<LogEntry>
    requires forall k :: 0 <= k < |items| ==> items[k] in names
  {
    if items == [] then []
    else UnequipLog(items[..|items| - 1], names) + [YouUnequip(names[items[|items| - 1]])]
  }

  /** `equipped` after each of `items` is taken off, in order. */
  function TakenOff(equipped: map<Entity, Equipped>, items: seq<Entity>): map<Entity, Equipped>
  {
    if items == [] then equipped
    else TakenOff(equipped, items[..|items| - 1]) - {items[|items| - 1]}
  }

  /** `backpack` after each of `items` is put in `owner`'s pack, in order. */
  function Stored(backpack: map<Entity, Entity>, items: seq<Entity>, owner: Entity): map<Entity, Entity>
  {
    if items == [] then backpack
    else Stored(backpack, items[..|items| - 1], owner)[items[|items| - 1] := owner]
  }

  /** Taking items off removes exactly them; storing them adds exactly
      them, each with `owner` as carrier. */
  lemma {:induction false} ReturnedItems(equipped: map<Entity, Equipped>, backpack: map<Entity, Entity>,
                                         items: seq<Entity>, owner: Entity)
    ensures TakenOff(equipped, items) == equipped - Elems(items)
    ensures Stored(backpack, items, owner) == backpack + map e | e in Elems(items) :: owner
  {
    if items != [] {
      var front := items[..|items| - 1];
      assert items == front + [items[|items| - 1]];
      ReturnedItems(equipped, backpack, front, owner);
    }
  }

  /** The equipment storage after `owner` puts `item` on in `slot`: every
      named item the owner wore in that slot comes off. */
  function EquippedAfter(equipped: map<Entity, Equipped>, names: map<Entity, string>,
                         owner: Entity, slot: Slot, item: Entity): map<Entity, Equipped>
  {
    TakenOff(equipped, SlotHolders(equipped, names, owner, slot))[item := Equipped(owner, slot)]
  }

  /** The backpack storage after the same step: what came off goes to the
      owner's backpack, and the item leaves it. */
  function BackpackAfter(backpack: map<Entity, Entity>, equipped: map<Entity, Equipped>, names: map<Entity, string>,
                         owner: Entity, slot: Slot, item: Entity): map<Entity, Entity>
  {
    Stored(backpack, SlotHolders(equipped, names, owner, slot), owner) - {item}
  }

  /** When every worn item is named, equipping leaves the owner with exactly
      the new item in the slot. */
  lemma EquipFillsSlot(equipped: map<Entity, Equipped>, names: map<Entity, string>,
                       owner: Entity, slot: Slot, item: Entity)
    requires equipped.Keys <= names.Keys
    ensures var after := EquippedAfter(equipped, names, owner, slot, item);
      forall e :: e in after && after[e] == Equipped(owner, slot) <==> e == item
  {
    var gone := SlotHolders(equipped, names, owner, slot);
    SlotHoldersMembers(equipped, names, owner, slot);
    ReturnedItems(equipped, map[], gone, owner);
    forall e | e in equipped && equipped[e] == Equipped(owner, slot)
      ensures e in Elems(gone)
    {
      assert e in gone;
    }
  }

  /** Equipping a named item that is not on the floor keeps every item in
      one place, one item per slot and every worn item named. */
  lemma EquipKeepsConsistent(positions: map<Entity, Point>, backpack: map<Entity, Entity>,
                             equipped: map<Entity, Equipped>, names: map<Entity, string>,
                             owner: Entity, slot: Slot, item: Entity)
    requires AtMostOnePlace(positions, backpack, equipped)
    requires SlotsExclusive(equipped) && equipped.Keys <= names.Keys
    requires item !in positions && item in names
    ensures var e2 := EquippedAfter(equipped, names, owner, slot, item);
      && AtMostOnePlace(positions, BackpackAfter(backpack, equipped, names, owner, slot, item), e2)
      && SlotsExclusive(e2)
      && e2.Keys <= names.Keys
  {
    var gone := Elems(SlotHolders(equipped, names, owner, slot));
    var e2 := EquippedAfter(equipped, names, owner, slot, item);
    ReturnedItems(equipped, backpack, SlotHolders(equipped, names, owner, slot), owner);
    SlotHoldersMembers(equipped, names, owner, slot);
    EquipFillsSlot(equipped, names, owner, slot, item);
    assert forall e :: e in gone ==> e in equipped;
    forall a, b | a in e2 && b in e2 && a != b
      ensures e2[a] != e2[b]
    {
      if a != item && b != item {
        assert e2[a] == equipped[a] && e2[b] == equipped[b];
      }
    }
  }

  /** The unequip scan after `i` of the `worn` items. */
  ghost predicate ScannedFirst(i: nat, worn: seq<Entity>, equipped: map<Entity, Equipped>, names: map<Entity, string>,
                               logging: bool, owner: Entity, slot: Slot, log0: seq<LogEntry>,
                               toUnequip: seq<Entity>, log: seq<LogEntry>)
  {
    && i <= |worn|
    && (forall k :: 0 <= k < |worn| ==> worn[k] in equipped && worn[k] in names)
    && toUnequip == Wearing(worn[..i], equipped, owner, slot)
    && (forall k :: 0 <= k < |toUnequip| ==> toUnequip[k] in names)
    && log == log0 + if logging then UnequipLog(toUnequip, names) else []
  }

  lemma ScanStep(i: nat, worn: seq<Entity>, equipped: map<Entity, Equipped>, names: map<Entity, string>,
                 logging: bool, owner: Entity, slot: Slot, log0: seq<LogEntry>,
                 toUnequip: seq<Entity>, log: seq<LogEntry>)
    requires ScannedFirst(i, worn, equipped, names, logging, owner, slot, log0, toUnequip, log) && i < |worn|
    ensures var e := worn[i];
      if equipped[e] == Equipped(owner, slot) then
        ScannedFirst(i + 1, worn, equipped, names, logging, owner, slot, log0, toUnequip + [e],
                     if logging then log + [YouUnequip(names[e])] else log)
      else
        ScannedFirst(i + 1, worn, equipped, names, logging, owner, slot, log0, toUnequip, log)
  {
    var e := worn[i];
    assert worn[..i + 1][..i] == worn[..i];
    if equipped[e] == Equipped(owner, slot) {
      assert (toUnequip + [e])[..|toUnequip|] == toUnequip;
    }
  }

  /** The unequip scan: the slot holders in join order, logged when the
      owner is the player. */
  method FindSlotHolders(w: World, owner: Entity, slot: Slot) returns (toUnequip: seq<Entity>)
    modifies w`log
    ensures toUnequip == SlotHolders(w.equipped, w.names, owner, slot)
    ensures forall k :: 0 <= k < |toUnequip| ==> toUnequip[k] in w.names
    ensures w.log == old(w.log) + if owner == w.player then UnequipLog(toUnequip, w.names) else []
  {
    var worn := InJoinOrder(w.equipped.Keys * w.names.Keys);
    JoinOrderMembers(w.equipped.Keys * w.names.Keys);
    toUnequip := [];
    var i := 0;
    assert worn[..0] == [];
    while i < |worn|
      invariant ScannedFirst(i, worn, w.equipped, w.names, owner == w.player, owner, slot, old(w.log), toUnequip, w.log)
      decreases |worn| - i
    {
      var e := worn[i];
      ScanStep(i, worn, w.equipped, w.names, owner == w.player, owner, slot, old(w.log), toUnequip, w.log);
      if w.equipped[e] == Equipped(owner, slot) {
        if owner == w.player {
          w.log := w.log + [YouUnequip(w.names[e])];
        }
        toUnequip := toUnequip + [e];
      }
      i := i + 1;
    }
    assert worn[..i] == worn;
  }

  /** Takes `items` off and puts them in `owner`'s backpack. */
  method ReturnToBackpack(w: World, items: seq<Entity>, owner: Entity)
    modifies w`equipped, w`backpack
    ensures w.equipped == TakenOff(old(w.equipped), items)
    ensures w.backpack == Stored(old(w.backpack), items, owner)
  {
    var j := 0;
    while j < |items|
      invariant 0 <= j <= |items|
      invariant w.equipped == TakenOff(old(w.equipped), items[..j])
      invariant w.backpack == Stored(old(w.backpack), items[..j], owner)
    {
      var e := items[j];
      assert items[..j + 1][..j] == items[..j];
      w.equipped := w.equipped - {e};
      w.backpack := w.backpack[e := owner];
      j := j + 1;
    }
    assert items[..j] == items;
  }

  /** The equip block of `ItemUseSystem::run`, for an item that fits `slot`.
      The first target is the new owner (no target aborts); the owner's
      named items in the slot come off into the backpack, then the item is
      worn and leaves the backpack. Lines are logged when the owner is the
      player, and the player equipping an unnamed item aborts. */
  method EquipItem(w: World, item: Entity, slot: Slot, targets: seq<Entity>) returns (ok: bool)
    modifies w`equipped, w`backpack, w`log
    ensures ok <==> targets != [] && (targets[0] == w.player ==> item in w.names)
    ensures ok ==>
      var owner := targets[0];
      && w.equipped == EquippedAfter(old(w.equipped), w.names, owner, slot, item)
      && w.backpack == BackpackAfter(old(w.backpack), old(w.equipped), w.names, owner, slot, item)
      && w.log == old(w.log) + EquipLog(old(w.equipped), w.names, w.player, owner, slot, item)
  {
    if targets == [] {
      return false;
    }
    var owner := targets[0];
    ghost var equipped0, backpack0, log0 := w.equipped, w.backpack, w.log;
    var toUnequip := FindSlotHolders(w, owner, slot);
    ghost var unequipLog := w.log[|log0|..];
    assert w.log == log0 + unequipLog;
    ReturnToBackpack(w, toUnequip, owner);
    assert w.equipped == TakenOff(equipped0, toUnequip);
    assert w.backpack == Stored(backpack0, toUnequip, owner);
    w.equipped := w.equipped[item := Equipped(owner, slot)];
    w.backpack := w.backpack - {item};
    if owner == w.player {
      if item !in w.names {
        return false;
      }
      w.log := w.log + [YouEquip(w.names[item])];
      assert w.log == log0 + (unequipLog + [YouEquip(w.names[item])]);
    }
    ok := true;
  }

  /** The lines the equip block logs: one per item taken off, then the
      equip itself, and nothing unless the new owner is the player. */
  function EquipLog(equipped: map<Entity, Equipped>, names: map<Entity, string>, player: Entity,
                    owner: Entity, slot: Slot, item: Entity): seq<LogEntry>
    requires owner == player ==> item in names
  {
    SlotHoldersMembers(equipped, names, owner, slot);
    if owner == player then UnequipLog(SlotHolders(equipped, names, owner, slot), names) + [YouEquip(names[item])]
    else []
  }

  // ---------------------------------------------------------------------
  // Use: damage, healing, confusion

  /** The names a per-target log line needs are all there. */
  predicate NamesForLog(names: map<Entity, string>, item: Entity, targets: seq<Entity>)
  {
    targets == [] || (item in names && forall k :: 0 <= k < |targets| ==> targets[k] in names)
  }

  function QueueOf(sufferDamage: map<Entity, seq<int>>, e: Entity): seq<int>
  {
    if e in sufferDamage then sufferDamage[e] else []
  }

  /** The damage queues after `amount` is queued once per entry of
      `targets`, in order (`SufferDamage::new_damage`). */
  function Queued(sufferDamage: map<Entity, seq<int>>, targets: seq<Entity>, amount: int): map<Entity, seq<int>>
    decreases |targets|
  {
    if targets == [] then sufferDamage
    else
      var t := targets[|targets| - 1];
      var q := Queued(sufferDamage, targets[..|targets| - 1], amount);
      q[t := QueueOf(q, t) + [amount]]
  }

  /** Each entity's queue keeps what it had and gains one entry of `amount`
      per time it is targeted, so hits on the same entity in one turn stack;
      entities never targeted keep their queue. */
  lemma {:induction false} QueuedStacks(sufferDamage: map<Entity, seq<int>>, targets: seq<Entity>, amount: int, e: Entity)
    ensures var r := QueueOf(Queued(sufferDamage, targets, amount), e);
      && QueueOf(sufferDamage, e) <= r
      && |r| == |QueueOf(sufferDamage, e)| + multiset(targets)[e]
      && forall k :: |QueueOf(sufferDamage, e)| <= k < |r| ==> r[k] == amount
    ensures e in Queued(sufferDamage, targets, amount) <==> e in sufferDamage || e in targets
    decreases |targets|
  {
    if targets != [] {
      var n := |targets| - 1;
      var front := targets[..n];
      assert targets == front + [targets[n]];
      QueuedStacks(sufferDamage, front, amount, e);
    }
  }

  function DamageLog(names: map<Entity, string>, item: Entity, targets: seq<Entity>, amount: int): seq<LogEntry>
    requires NamesForLog(names, item, targets)
  {
    seq(|targets|, k requires 0 <= k < |targets| => YouUseOn(names[item], names[targets[k]], amount))
  }

  /** The damage block of `ItemUseSystem::run`: queues `amount` on every
      target, logging each hit when the player is the user. */
  method InflictDamage(w: World, user: Entity, item: Entity, amount: int, targets: seq<Entity>) returns (ok: bool)
    modifies w`sufferDamage, w`log
    ensures ok <==> user != w.player || NamesForLog(w.names, item, targets)
    ensures ok ==> w.sufferDamage == Queued(old(w.sufferDamage), targets, amount)
    ensures ok ==> w.log == old(w.log) + if user == w.player then DamageLog(w.names, item, targets, amount) else []
  {
    var i := 0;
    while i < |targets|
      invariant 0 <= i <= |targets|
      invariant w.sufferDamage == Queued(old(w.sufferDamage), targets[..i], amount)
      invariant user == w.player ==> NamesForLog(w.names, item, targets[..i])
      invariant w.log == old(w.log) + if user == w.player then DamageLog(w.names, item, targets[..i], amount) else []
    {
      var mob := targets[i];
      assert targets[..i + 1][..i] == targets[..i];
      w.sufferDamage := w.sufferDamage[mob := QueueOf(w.sufferDamage, mob) + [amount]];
      if user == w.player {
        if mob !in w.names || item !in w.names {
          return false;
        }
        w.log := w.log + [YouUseOn(w.names[item], w.names[mob], amount)];
      }
      i := i + 1;
    }
    assert targets[..i] == targets;
    ok := true;
  }


  /** One heal: hp rises by `amount` but never above `maxHp`; nothing else
      about the creature changes. */
  function HealedStats(s: CombatStats, amount: int): (r: CombatStats)
    ensures r.hp <= r.maxHp && r.hp <= s.hp + amount
    ensures r.hp == r.maxHp || r.hp == s.hp + amount
    ensures r.maxHp == s.maxHp && r.defense == s.defense && r.power == s.power
  {
    s.(hp := Min(s.maxHp, s.hp + amount))
  }

  /** The amount the heal log line reports: the hp actually gained. */
  function HealReported(s: CombatStats, amount: int): (gain: int)
    ensures gain == HealedStats(s, amount).hp - s.hp
  {
    if s.hp + amount > s.maxHp then s.maxHp - s.hp else amount
  }

  /** The stats after healing each target in turn; targets without stats
      are skipped. */
  function Healed(stats: map<Entity, CombatStats>, targets: seq<Entity>, amount: int): map<Entity, CombatStats>
    decreases |targets|
  {
    if targets == [] then stats
    else
      var t := targets[|targets| - 1];
      var now := Healed(stats, targets[..|targets| - 1], amount);
      if t in now then now[t := HealedStats(now[t], amount)] else now
  }

  /** The amounts the heal log lines report, one per target with stats. */
  function HealGains(stats: map<Entity, CombatStats>, targets: seq<Entity>, amount: int): seq<int>
    decreases |targets|
  {
    if targets == [] then []
    else
      var t := targets[|targets| - 1];
      var front := targets[..|targets| - 1];
      var now := Healed(stats, front, amount);
      HealGains(stats, front, amount) + if t in now then [HealReported(now[t], amount)] else []
  }

  /** Healing touches only the targets' hp, and a healed creature never
      ends above its maximum. */
  lemma {:induction false} HealedWithinMax(stats: map<Entity, CombatStats>, targets: seq<Entity>, amount: int)
    ensures Healed(stats, targets, amount).Keys == stats.Keys
    ensures forall e :: e in stats && e !in targets ==> Healed(stats, targets, amount)[e] == stats[e]
    ensures forall e :: e in stats && e in targets ==> Healed(stats, targets, amount)[e].hp <= stats[e].maxHp
    ensures forall e :: e in stats ==>
      var h := Healed(stats, targets, amount)[e];
      h.maxHp == stats[e].maxHp && h.defense == stats[e].defense && h.power == stats[e].power
    decreases |targets|
  {
    if targets != [] {
      var n := |targets| - 1;
      var front := targets[..n];
      assert targets == front + [targets[n]];
      HealedWithinMax(stats, front, amount);
    }
  }

  /** The heal pass logs a line exactly when some target has stats. */
  lemma {:induction false} HealGainsEmpty(stats: map<Entity, CombatStats>, targets: seq<Entity>, amount: int)
    ensures HealGains(stats, targets, amount) == [] <==> forall k :: 0 <= k < |targets| ==> targets[k] !in stats
    decreases |targets|
  {
    if targets != [] {
      var n := |targets| - 1;
      HealGainsEmpty(stats, targets[..n], amount);
      HealedWithinMax(stats, targets[..n], amount);
    }
  }

  /** Healing keeps every creature at or below its maximum hp. */
  lemma HealKeepsCap(stats: map<Entity, CombatStats>, targets: seq<Entity>, amount: int)
    requires HpCapped(stats)
    ensures HpCapped(Healed(stats, targets, amount))
  {
    HealedWithinMax(stats, targets, amount);
  }

  function DrinkLog(names: map<Entity, string>, item: Entity, gains: seq<int>): seq<LogEntry>
    requires gains == [] || item in names
  {
    if gains == [] then []
    else DrinkLog(names, item, gains[..|gains| - 1]) + [YouDrink(names[item], gains[|gains| - 1])]
  }

  /** The healing block of `ItemUseSystem::run`: every target with combat
      stats is healed, capped at its maximum; targets without stats are
      untouched. When the player is the user, each heal is logged, and an
      unnamed item aborts at the first heal. */
  method HealTargets(w: World, user: Entity, item: Entity, amount: int, targets: seq<Entity>) returns (ok: bool)
    modifies w`stats, w`log
    ensures ok <==> user != w.player || item in w.names || HealGains(old(w.stats), targets, amount) == []
    ensures ok ==> w.stats == Healed(old(w.stats), targets, amount)
    ensures ok ==> (w.log == old(w.log) +
      (if user == w.player then DrinkLog(w.names, item, HealGains(old(w.stats), targets, amount)) else []))
  {
    var i := 0;
    assert targets[..0] == [];
    while i < |targets|
      invariant HealedFirst(i, targets, old(w.stats), amount, user == w.player, w.names, item, old(w.log), w.stats, w.log)
      decreases |targets| - i
    {
      var target := targets[i];
      HealStepFacts(i, targets, old(w.stats), amount, user == w.player, w.names, item, old(w.log), w.stats, w.log);
      if target in w.stats {
        var s := w.stats[target];
        var gain := if s.hp + amount > s.maxHp then s.maxHp - s.hp else amount;
        assert gain == HealReported(s, amount);
        w.stats := w.stats[target := s.(hp := Min(s.maxHp, s.hp + amount))];
        assert w.stats[target] == HealedStats(s, amount);
        if user == w.player {
          if item !in w.names {
            HealGainsStay(old(w.stats), targets, amount, i + 1);
            return false;
          }
          w.log := w.log + [YouDrink(w.names[item], gain)];
        }
      }
      i := i + 1;
    }
    assert targets[..i] == targets;
    ok := true;
  }

  /** The heal loop after `i` targets. */
  ghost predicate HealedFirst(i: nat, targets: seq<Entity>, stats0: map<Entity, CombatStats>, amount: int,
                              logging: bool, names: map<Entity, string>, item: Entity, log0: seq<LogEntry>,
                              stats: map<Entity, CombatStats>, log: seq<LogEntry>)
  {
    && i <= |targets|
    && stats == Healed(stats0, targets[..i], amount)
    && (logging && item !in names ==> HealGains(stats0, targets[..i], amount) == [])
    && log == log0 + (if logging then DrinkLog(names, item, HealGains(stats0, targets[..i], amount)) else [])
  }

  lemma HealStepFacts(i: nat, targets: seq<Entity>, stats0: map<Entity, CombatStats>, amount: int,
                      logging: bool, names: map<Entity, string>, item: Entity, log0: seq<LogEntry>,
                      stats: map<Entity, CombatStats>, log: seq<LogEntry>)
    requires HealedFirst(i, targets, stats0, amount, logging, names, item, log0, stats, log) && i < |targets|
    ensures var t := targets[i];
      if t !in stats then
        HealedFirst(i + 1, targets, stats0, amount, logging, names, item, log0, stats, log)
      else if logging && item !in names then
        HealGains(stats0, targets[..i + 1], amount) != []
      else
        HealedFirst(i + 1, targets, stats0, amount, logging, names, item, log0,
                    stats[t := HealedStats(stats[t], amount)],
                    if logging then log + [YouDrink(names[item], HealReported(stats[t], amount))] else log)
  {
    assert targets[..i + 1][..i] == targets[..i];
    var gains := HealGains(stats0, targets[..i], amount);
    var t := targets[i];
    if t !in stats {
      assert HealGains(stats0, targets[..i + 1], amount) == gains;
      assert Healed(stats0, targets[..i + 1], amount) == stats;
    } else {
      var g := HealReported(stats[t], amount);
      assert HealGains(stats0, targets[..i + 1], amount) == gains + [g];
      if logging && item in names {
        assert (gains + [g])[..|gains|] == gains;
      }
    }
  }

  /** Once a heal has been logged, the gains stay non-empty. */
  lemma {:induction false} HealGainsStay(stats: map<Entity, CombatStats>, targets: seq<Entity>, amount: int, n: nat)
    requires n <= |targets| && HealGains(stats, targets[..n], amount) != []
    ensures HealGains(stats, targets, amount) != []
    decreases |targets| - n
  {
    if n < |targets| {
      assert targets[..n + 1][..n] == targets[..n];
      HealGainsStay(stats, targets, amount, n + 1);
    } else {
      assert targets[..n] == targets;
    }
  }

  function ConfuseLog(names: map<Entity, string>, item: Entity, targets: seq<Entity>): seq<LogEntry>
    requires NamesForLog(names, item, targets)
  {
    seq(|targets|, k requires 0 <= k < |targets| => YouConfuse(names[item], names[targets[k]]))
  }

  /** The confusion storage after each target in turn gets `turns`. */
  function Confused(confusion: map<Entity, int>, targets: seq<Entity>, turns: int): map<Entity, int>
  {
    if targets == [] then confusion
    else Confused(confusion, targets[..|targets| - 1], turns)[targets[|targets| - 1] := turns]
  }

  /** Every target ends confused for exactly `turns`, whatever it had
      before; everyone else keeps their status. */
  lemma {:induction false} ConfusedTargets(confusion: map<Entity, int>, targets: seq<Entity>, turns: int)
    ensures Confused(confusion, targets, turns) == confusion + map t | t in Elems(targets) :: turns
  {
    if targets != [] {
      var front := targets[..|targets| - 1];
      assert targets == front + [targets[|targets| - 1]];
      ConfusedTargets(confusion, front, turns);
    }
  }

  /** The confusion block of `ItemUseSystem::run`: every target gets (or has
      replaced) a `Confusion` of the item's turns. */
  method ConfuseTargets(w: World, user: Entity, item: Entity, turns: int, targets: seq<Entity>) returns (ok: bool)
    modifies w`confusion, w`log
    ensures ok <==> user != w.player || NamesForLog(w.names, item, targets)
    ensures ok ==> w.confusion == Confused(old(w.confusion), targets, turns)
    ensures ok ==> w.log == old(w.log) + if user == w.player then ConfuseLog(w.names, item, targets) else []
  {
    var i := 0;
    while i < |targets|
      invariant 0 <= i <= |targets|
      invariant w.confusion == Confused(old(w.confusion), targets[..i], turns)
      invariant user == w.player ==> NamesForLog(w.names, item, targets[..i])
      invariant w.log == old(w.log) + if user == w.player then ConfuseLog(w.names, item, targets[..i]) else []
    {
      var mob := targets[i];
      assert targets[..i + 1][..i] == targets[..i];
      w.confusion := w.confusion[mob := turns];
      if user == w.player {
        if mob !in w.names || item !in w.names {
          return false;
        }
        w.log := w.log + [YouConfuse(w.names[item], w.names[mob])];
      }
      i := i + 1;
    }
    assert targets[..i] == targets;
    ok := true;
  }

  // ---------------------------------------------------------------------
  // Use: one intent, and the pass

  /** The storages the use pass writes. */
  datatype UseState = UseState(
    equipped: map<Entity, Equipped>,
    backpack: map<Entity, Entity>,
    sufferDamage: map<Entity, seq<int>>,
    stats: map<Entity, CombatStats>,
    confusion: map<Entity, int>,
    killed: set<Entity>,
    log: seq<LogEntry>)

  /** What the use pass only reads: the player, the item facets, the names,
      the map's occupancy and the field-of-view collaborator. */
  datatype UseContext = UseContext(
    player: Entity,
    names: map<Entity, string>,
    equippable: map<Entity, Slot>,
    consumable: set<Entity>,
    healing: map<Entity, int>,
    damage: map<Entity, int>,
    areaOfEffect: map<Entity, int>,
    content: seq<seq<Entity>>,
    width: int,
    height: int,
    fov: (Point, int) -> seq<Point>)

  function Snapshot(w: World): UseState
    reads w`equipped, w`backpack, w`sufferDamage, w`stats, w`confusion, w`killed, w`log
  {
    UseState(w.equipped, w.backpack, w.sufferDamage, w.stats, w.confusion, w.killed, w.log)
  }

  function Context(w: World, m: Map, fov: (Point, int) -> seq<Point>): UseContext
    reads w`names, w`equippable, w`consumable, w`healing, w`damage, w`areaOfEffect, m`tileContent
  {
    UseContext(w.player, w.names, w.equippable, w.consumable, w.healing, w.damage, w.areaOfEffect,
               m.tileContent, m.width, m.height, fov)
  }

  predicate Fits(c: UseContext)
  {
    |c.content| == c.width * c.height
  }

  /** The equip facet on state values; `None` is an abort. */
  function EquipEffect(s: UseState, c: UseContext, item: Entity, slot: Slot, targets: seq<Entity>): Option<UseState>
  {
    if targets == [] || (targets[0] == c.player && item !in c.names) then None
    else
      var owner := targets[0];
      Some(s.(equipped := EquippedAfter(s.equipped, c.names, owner, slot, item),
              backpack := BackpackAfter(s.backpack, s.equipped, c.names, owner, slot, item),
              log := s.log + EquipLog(s.equipped, c.names, c.player, owner, slot, item)))
  }

  function DamageEffect(s: UseState, c: UseContext, user: Entity, item: Entity, amount: int, targets: seq<Entity>): Option<UseState>
  {
    if user == c.player && !NamesForLog(c.names, item, targets) then None
    else
      Some(s.(sufferDamage := Queued(s.sufferDamage, targets, amount),
              log := s.log + if user == c.player then DamageLog(c.names, item, targets, amount) else []))
  }

  function HealEffect(s: UseState, c: UseContext, user: Entity, item: Entity, amount: int, targets: seq<Entity>): Option<UseState>
  {
    var gains := HealGains(s.stats, targets, amount);
    if user == c.player && item !in c.names && gains != [] then None
    else
      Some(s.(stats := Healed(s.stats, targets, amount),
              log := s.log + if user == c.player then DrinkLog(c.names, item, gains) else []))
  }

  function ConfuseEffect(s: UseState, c: UseContext, user: Entity, item: Entity, turns: int, targets: seq<Entity>): Option<UseState>
  {
    if user == c.player && !NamesForLog(c.names, item, targets) then None
    else
      Some(s.(confusion := Confused(s.confusion, targets, turns),
              log := s.log + if user == c.player then ConfuseLog(c.names, item, targets) else []))
  }

  /** Each facet applies only when the item carries it. */
  function EquipStep(s: UseState, c: UseContext, item: Entity, targets: seq<Entity>): Option<UseState>
  {
    if item in c.equippable then EquipEffect(s, c, item, c.equippable[item], targets) else Some(s)
  }

  function DamageStep(s: UseState, c: UseContext, user: Entity, item: Entity, targets: seq<Entity>): Option<UseState>
  {
    if item in c.damage then DamageEffect(s, c, user, item, c.damage[item], targets) else Some(s)
  }

  function HealStep(s: UseState, c: UseContext, user: Entity, item: Entity, targets: seq<Entity>): Option<UseState>
  {
    if item in c.healing then HealEffect(s, c, user, item, c.healing[item], targets) else Some(s)
  }

  /** The confusing item's turns are read from the same storage the facet
      writes, as the state stands when the facet runs. */
  function ConfuseStep(s: UseState, c: UseContext, user: Entity, item: Entity, targets: seq<Entity>): Option<UseState>
  {
    if item in s.confusion then ConfuseEffect(s, c, user, item, s.confusion[item], targets) else Some(s)
  }

  function ConsumeStep(s: UseState, c: UseContext, item: Entity): UseState
  {
    if item in c.consumable then s.(killed := s.killed + {item}) else s
  }

  /** The facets after targeting, in the source's order: equip, damage,
      heal, confuse, then the consumable item is deleted. An abort in one
      facet ends the use. */
  function Effects(s: UseState, c: UseContext, user: Entity, item: Entity, targets: seq<Entity>): Option<UseState>
  {
    match EquipStep(s, c, item, targets)
    case None => None
    case Some(s1) => EffectsFromDamage(s1, c, user, item, targets)
  }

  function EffectsFromDamage(s: UseState, c: UseContext, user: Entity, item: Entity, targets: seq<Entity>): Option<UseState>
  {
    match DamageStep(s, c, user, item, targets)
    case None => None
    case Some(s2) => EffectsFromHeal(s2, c, user, item, targets)
  }

  function EffectsFromHeal(s: UseState, c: UseContext, user: Entity, item: Entity, targets: seq<Entity>): Option<UseState>
  {
    match HealStep(s, c, user, item, targets)
    case None => None
    case Some(s3) => EffectsFromConfusion(s3, c, user, item, targets)
  }

  function EffectsFromConfusion(s: UseState, c: UseContext, user: Entity, item: Entity, targets: seq<Entity>): Option<UseState>
  {
    match ConfuseStep(s, c, user, item, targets)
    case None => None
    case Some(s4) => Some(ConsumeStep(s4, c, item))
  }

  function Radius(c: UseContext, item: Entity): Option<int>
  {
    if item in c.areaOfEffect then Some(c.areaOfEffect[item]) else None
  }

  /** One pass of the loop of `ItemUseSystem::run` on state values: target
      selection, then the facets. */
  function ApplyUse(s: UseState, c: UseContext, user: Entity, use: WantsToUseItem): Option<UseState>
    requires Fits(c)
  {
    match Targets(c.player, use.target, Radius(c, use.item), c.content, c.width, c.height, c.fov)
    case None => None
    case Some(targets) => Effects(s, c, user, use.item, targets)
  }

  /** The uses of `users`, in order, each on the state the previous one left. */
  function ApplyUses(s: UseState, c: UseContext, users: seq<Entity>, intents: map<Entity, WantsToUseItem>): Option<UseState>
    requires Fits(c)
    requires forall k :: 0 <= k < |users| ==> users[k] in intents
  {
    if users == [] then Some(s)
    else
      var last := users[|users| - 1];
      match ApplyUses(s, c, users[..|users| - 1], intents)
      case None => None
      case Some(s') => ApplyUse(s', c, last, intents[last])
  }

  /** The whole use pass on state values: every pending use in join order. */
  function PendingUses(s: UseState, c: UseContext, intents: map<Entity, WantsToUseItem>): Option<UseState>
    requires Fits(c)
  {
    JoinOrderMembers(intents.Keys);
    ApplyUses(s, c, InJoinOrder(intents.Keys), intents)
  }

  /** One use, on the world: select the targets, then apply the facets. */
  method UseItem(w: World, m: Map, fov: (Point, int) -> seq<Point>, user: Entity, use: WantsToUseItem) returns (ok: bool)
    requires m.Valid()
    modifies w`equipped, w`backpack, w`sufferDamage, w`stats, w`confusion, w`killed, w`log
    ensures ok == ApplyUse(old(Snapshot(w)), Context(w, m, fov), user, use).Some?
    ensures ok ==> Snapshot(w) == ApplyUse(old(Snapshot(w)), Context(w, m, fov), user, use).value
  {
    var radius := if use.item in w.areaOfEffect then Some(w.areaOfEffect[use.item]) else None;
    var targets;
    ok, targets := SelectTargets(m, fov, w.player, use.target, radius);
    if !ok {
      return;
    }
    ok := ApplyEffects(w, Context(w, m, fov), user, use.item, targets);
  }

  /** The facets of one use, in the source's order, on the world. */
  method ApplyEffects(w: World, ghost c: UseContext, user: Entity, item: Entity, targets: seq<Entity>) returns (ok: bool)
    requires c.player == w.player && c.names == w.names && c.equippable == w.equippable
    requires c.damage == w.damage && c.healing == w.healing && c.consumable == w.consumable
    modifies w`equipped, w`backpack, w`sufferDamage, w`stats, w`confusion, w`killed, w`log
    ensures ok == Effects(old(Snapshot(w)), c, user, item, targets).Some?
    ensures ok ==> Snapshot(w) == Effects(old(Snapshot(w)), c, user, item, targets).value
  {
    ok := EquipFacet(w, c, item, targets);
    if ok {
      ok := ApplyFromDamage(w, c, user, item, targets);
    }
  }

  method ApplyFromDamage(w: World, ghost c: UseContext, user: Entity, item: Entity, targets: seq<Entity>) returns (ok: bool)
    requires c.player == w.player && c.names == w.names
    requires c.damage == w.damage && c.healing == w.healing && c.consumable == w.consumable
    modifies w`sufferDamage, w`stats, w`confusion, w`killed, w`log
    ensures ok == EffectsFromDamage(old(Snapshot(w)), c, user, item, targets).Some?
    ensures ok ==> Snapshot(w) == EffectsFromDamage(old(Snapshot(w)), c, user, item, targets).value
  {
    ok := DamageFacet(w, c, user, item, targets);
    if ok {
      ok := ApplyFromHeal(w, c, user, item, targets);
    }
  }

  method ApplyFromHeal(w: World, ghost c: UseContext, user: Entity, item: Entity, targets: seq<Entity>) returns (ok: bool)
    requires c.player == w.player && c.names == w.names
    requires c.healing == w.healing && c.consumable == w.consumable
    modifies w`stats, w`confusion, w`killed, w`log
    ensures ok == EffectsFromHeal(old(Snapshot(w)), c, user, item, targets).Some?
    ensures ok ==> Snapshot(w) == EffectsFromHeal(old(Snapshot(w)), c, user, item, targets).value
  {
    ok := HealFacet(w, c, user, item, targets);
    if ok {
      ok := ApplyFromConfusion(w, c, user, item, targets);
    }
  }

  method ApplyFromConfusion(w: World, ghost c: UseContext, user: Entity, item: Entity, targets: seq<Entity>) returns (ok: bool)
    requires c.player == w.player && c.names == w.names && c.consumable == w.consumable
    modifies w`confusion, w`killed, w`log
    ensures ok == EffectsFromConfusion(old(Snapshot(w)), c, user, item, targets).Some?
    ensures ok ==> Snapshot(w) == EffectsFromConfusion(old(Snapshot(w)), c, user, item, targets).value
  {
    ok := ConfuseFacet(w, c, user, item, targets);
    if ok && item in w.consumable {
      w.killed := w.killed + {item};
    }
  }

  /** `if let Some(can_equip) = equippable.get(item)`. */
  method EquipFacet(w: World, ghost c: UseContext, item: Entity, targets: seq<Entity>) returns (ok: bool)
    requires c.player == w.player && c.names == w.names && c.equippable == w.equippable
    modifies w`equipped, w`backpack, w`log
    ensures ok == EquipStep(old(Snapshot(w)), c, item, targets).Some?
    ensures ok ==> Snapshot(w) == EquipStep(old(Snapshot(w)), c, item, targets).value
  {
    ok := true;
    if item in w.equippable {
      ok := EquipItem(w, item, w.equippable[item], targets);
    }
  }

  method DamageFacet(w: World, ghost c: UseContext, user: Entity, item: Entity, targets: seq<Entity>) returns (ok: bool)
    requires c.player == w.player && c.names == w.names && c.damage == w.damage
    modifies w`sufferDamage, w`log
    ensures ok == DamageStep(old(Snapshot(w)), c, user, item, targets).Some?
    ensures ok ==> Snapshot(w) == DamageStep(old(Snapshot(w)), c, user, item, targets).value
  {
    ok := true;
    if item in w.damage {
      ok := InflictDamage(w, user, item, w.damage[item], targets);
    }
  }

  method HealFacet(w: World, ghost c: UseContext, user: Entity, item: Entity, targets: seq<Entity>) returns (ok: bool)
    requires c.player == w.player && c.names == w.names && c.healing == w.healing
    modifies w`stats, w`log
    ensures ok == HealStep(old(Snapshot(w)), c, user, item, targets).Some?
    ensures ok ==> Snapshot(w) == HealStep(old(Snapshot(w)), c, user, item, targets).value
  {
    ok := true;
    if item in w.healing {
      ok := HealTargets(w, user, item, w.healing[item], targets);
    }
  }

  method ConfuseFacet(w: World, ghost c: UseContext, user: Entity, item: Entity, targets: seq<Entity>) returns (ok: bool)
    requires c.player == w.player && c.names == w.names
    modifies w`confusion, w`log
    ensures ok == ConfuseStep(old(Snapshot(w)), c, user, item, targets).Some?
    ensures ok ==> Snapshot(w) == ConfuseStep(old(Snapshot(w)), c, user, item, targets).value
  {
    ok := true;
    if item in w.confusion {
      ok := ConfuseTargets(w, user, item, w.confusion[item], targets);
    }
  }

  /** `ItemUseSystem::run`: every pending use in join order, then the use
      intents are cleared. */
  method UseItems(w: World, m: Map, fov: (Point, int) -> seq<Point>) returns (ok: bool)
    requires m.Valid()
    modifies w`equipped, w`backpack, w`sufferDamage, w`stats, w`confusion, w`killed, w`log, w`wantsUse
    ensures ok == PendingUses(old(Snapshot(w)), Context(w, m, fov), old(w.wantsUse)).Some?
    ensures ok ==> Snapshot(w) == PendingUses(old(Snapshot(w)), Context(w, m, fov), old(w.wantsUse)).value
    ensures ok ==> w.wantsUse == map[]
  {
    var users := InJoinOrder(w.wantsUse.Keys);
    JoinOrderMembers(w.wantsUse.Keys);
    ghost var c, s0 := Context(w, m, fov), Snapshot(w);
    var i := 0;
    while i < |users|
      invariant 0 <= i <= |users|
      invariant c == Context(w, m, fov) && w.wantsUse == old(w.wantsUse)
      invariant ApplyUses(s0, c, users[..i], w.wantsUse) == Some(Snapshot(w))
    {
      var user := users[i];
      UsesStep(s0, c, users, w.wantsUse, i);
      ok := UseItem(w, m, fov, user, w.wantsUse[user]);
      if !ok {
        UsesStayNone(s0, c, users, w.wantsUse, i + 1);
        return;
      }
      i := i + 1;
    }
    assert users[..i] == users;
    w.wantsUse := map[];
    ok := true;
  }

  lemma UsesStep(s: UseState, c: UseContext, users: seq<Entity>, intents: map<Entity, WantsToUseItem>, i: nat)
    requires Fits(c) && forall k :: 0 <= k < |users| ==> users[k] in intents
    requires i < |users| && ApplyUses(s, c, users[..i], intents).Some?
    ensures ApplyUses(s, c, users[..i + 1], intents)
         == ApplyUse(ApplyUses(s, c, users[..i], intents).value, c, users[i], intents[users[i]])
  {
    assert users[..i + 1][..i] == users[..i];
  }

  /** Once a use aborts, the pass aborts. */
  lemma {:induction false} UsesStayNone(s: UseState, c: UseContext, users: seq<Entity>, intents: map<Entity, WantsToUseItem>, n: nat)
    requires Fits(c) && forall k :: 0 <= k < |users| ==> users[k] in intents
    requires n <= |users| && ApplyUses(s, c, users[..n], intents).None?
    ensures ApplyUses(s, c, users, intents).None?
    decreases |users| - n
  {
    if n < |users| {
      assert users[..n + 1][..n] == users[..n];
      UsesStayNone(s, c, users, intents, n + 1);
    } else {
      assert users[..n] == users;
    }
  }

  // ---------------------------------------------------------------------
  // Properties of the use pass

  /** The storage invariants the use pass is meant to keep, given the floor
      positions (which it does not touch). */
  predicate StoresConsistent(positions: map<Entity, Point>, names: map<Entity, string>, s: UseState)
  {
    && AtMostOnePlace(positions, s.backpack, s.equipped)
    && SlotsExclusive(s.equipped)
    && s.equipped.Keys <= names.Keys
    && HpCapped(s.stats)
  }

  /** What a use needs of its item for the invariants to survive it: the
      item is not lying on the floor, and an equippable item has a name
      (the unequip join only finds named items, so an unnamed one could
      never be taken off again). */
  predicate UsableItem(positions: map<Entity, Point>, c: UseContext, item: Entity)
  {
    item !in positions && (item in c.equippable ==> item in c.names)
  }

  lemma EquipStepKeepsConsistent(positions: map<Entity, Point>, s: UseState, c: UseContext,
                                  item: Entity, targets: seq<Entity>)
    requires StoresConsistent(positions, c.names, s) && UsableItem(positions, c, item)
    requires EquipStep(s, c, item, targets).Some?
    ensures StoresConsistent(positions, c.names, EquipStep(s, c, item, targets).value)
  {
    if item in c.equippable {
      EquipKeepsConsistent(positions, s.backpack, s.equipped, c.names, targets[0], c.equippable[item], item);
    }
  }

  lemma HealStepKeepsConsistent(positions: map<Entity, Point>, s: UseState, c: UseContext,
                                user: Entity, item: Entity, targets: seq<Entity>)
    requires StoresConsistent(positions, c.names, s)
    requires HealStep(s, c, user, item, targets).Some?
    ensures StoresConsistent(positions, c.names, HealStep(s, c, user, item, targets).value)
  {
    if item in c.healing {
      HealKeepsCap(s.stats, targets, c.healing[item]);
    }
  }

  lemma EffectsKeepConsistent(positions: map<Entity, Point>, s: UseState, c: UseContext,
                              user: Entity, item: Entity, targets: seq<Entity>)
    requires StoresConsistent(positions, c.names, s) && UsableItem(positions, c, item)
    requires Effects(s, c, user, item, targets).Some?
    ensures StoresConsistent(positions, c.names, Effects(s, c, user, item, targets).value)
  {
    EquipStepKeepsConsistent(positions, s, c, item, targets);
    var s1 := EquipStep(s, c, item, targets).value;
    OtherStepsKeepConsistent(positions, s1, c, user, item, targets);
  }

  lemma OtherStepsKeepConsistent(positions: map<Entity, Point>, s1: UseState, c: UseContext,
                                 user: Entity, item: Entity, targets: seq<Entity>)
    requires StoresConsistent(positions, c.names, s1)
    requires DamageStep(s1, c, user, item, targets).Some?
    requires HealStep(DamageStep(s1, c, user, item, targets).value, c, user, item, targets).Some?
    ensures var s3 := HealStep(DamageStep(s1, c, user, item, targets).value, c, user, item, targets).value;
      && StoresConsistent(positions, c.names, s3)
      && (ConfuseStep(s3, c, user, item, targets).Some? ==>
            StoresConsistent(positions, c.names, ConsumeStep(ConfuseStep(s3, c, user, item, targets).value, c, item)))
  {
    var s2 := DamageStep(s1, c, user, item, targets).value;
    assert s2.equipped == s1.equipped && s2.backpack == s1.backpack && s2.stats == s1.stats;
    HealStepKeepsConsistent(positions, s2, c, user, item, targets);
  }

  /** A use keeps every item in at most one place, one item per slot, every
      worn item named and every creature at or below its maximum hp. */
  lemma UseKeepsConsistent(positions: map<Entity, Point>, s: UseState, c: UseContext, user: Entity, use: WantsToUseItem)
    requires Fits(c) && StoresConsistent(positions, c.names, s) && UsableItem(positions, c, use.item)
    requires ApplyUse(s, c, user, use).Some?
    ensures StoresConsistent(positions, c.names, ApplyUse(s, c, user, use).value)
  {
    var targets := Targets(c.player, use.target, Radius(c, use.item), c.content, c.width, c.height, c.fov).value;
    EffectsKeepConsistent(positions, s, c, user, use.item, targets);
  }

  /** The same over the whole pass. */
  lemma {:induction false} UsesKeepConsistent(positions: map<Entity, Point>, s: UseState, c: UseContext,
                                              users: seq<Entity>, intents: map<Entity, WantsToUseItem>)
    requires Fits(c) && StoresConsistent(positions, c.names, s)
    requires forall k :: 0 <= k < |users| ==> users[k] in intents && UsableItem(positions, c, intents[users[k]].item)
    requires ApplyUses(s, c, users, intents).Some?
    ensures StoresConsistent(positions, c.names, ApplyUses(s, c, users, intents).value)
    decreases |users|
  {
    if users != [] {
      var n := |users| - 1;
      UsesKeepConsistent(positions, s, c, users[..n], intents);
      UseKeepsConsistent(positions, ApplyUses(s, c, users[..n], intents).value, c, users[n], intents[users[n]]);
    }
  }

  /** The facets delete the item exactly when it is consumable. */
  lemma EffectsConsume(s: UseState, c: UseContext, user: Entity, item: Entity, targets: seq<Entity>)
    requires Effects(s, c, user, item, targets).Some?
    ensures Effects(s, c, user, item, targets).value.killed == s.killed + if item in c.consumable then {item} else {}
  {
    var s1 := EquipStep(s, c, item, targets).value;
    assert s1.killed == s.killed;
    var s2 := DamageStep(s1, c, user, item, targets).value;
    assert s2.killed == s.killed;
    var s3 := HealStep(s2, c, user, item, targets).value;
    assert s3.killed == s.killed;
    var s4 := ConfuseStep(s3, c, user, item, targets).value;
    assert s4.killed == s.killed;
  }

  /** A use deletes its item exactly when the item is consumable. */
  lemma UseConsumes(s: UseState, c: UseContext, user: Entity, use: WantsToUseItem)
    requires Fits(c) && ApplyUse(s, c, user, use).Some?
    ensures ApplyUse(s, c, user, use).value.killed == s.killed + if use.item in c.consumable then {use.item} else {}
  {
    var targets := Targets(c.player, use.target, Radius(c, use.item), c.content, c.width, c.height, c.fov).value;
    EffectsConsume(s, c, user, use.item, targets);
  }

  /** The pass deletes exactly the consumable items that were used. */
  lemma {:induction false} UsesConsume(s: UseState, c: UseContext, users: seq<Entity>, intents: map<Entity, WantsToUseItem>)
    requires Fits(c) && forall k :: 0 <= k < |users| ==> users[k] in intents
    requires ApplyUses(s, c, users, intents).Some?
    ensures ApplyUses(s, c, users, intents).value.killed
         == s.killed + set k | 0 <= k < |users| && intents[users[k]].item in c.consumable :: intents[users[k]].item
    decreases |users|
  {
    if users != [] {
      var n := |users| - 1;
      UsesConsume(s, c, users[..n], intents);
      UseConsumes(ApplyUses(s, c, users[..n], intents).value, c, users[n], intents[users[n]]);
      var front := set k | 0 <= k < n && intents[users[..n][k]].item in c.consumable :: intents[users[..n][k]].item;
      var all := set k | 0 <= k < |users| && intents[users[k]].item in c.consumable :: intents[users[k]].item;
      assert all == front + if intents[users[n]].item in c.consumable then {intents[users[n]].item} else {};
    }
  }

  /** A use whose target tile is empty changes nothing but deleting a
      consumable item, unless the item is equippable: then the source
      indexes the empty target list and aborts. */
  lemma MissedUse(s: UseState, c: UseContext, user: Entity, item: Entity)
    ensures item !in c.equippable ==> Effects(s, c, user, item, []) == Some(ConsumeStep(s, c, item))
    ensures item in c.equippable ==> Effects(s, c, user, item, []) == None
  {
    if item !in c.equippable {
      assert s.log + [] == s.log;
      assert DamageStep(s, c, user, item, []) == Some(s) by {
        if item in c.damage {
          assert DamageLog(c.names, item, [], c.damage[item]) == [];
        }
      }
      assert HealStep(s, c, user, item, []) == Some(s) by {
        if item in c.healing {
          assert HealGains(s.stats, [], c.healing[item]) == [];
          assert DrinkLog(c.names, item, []) == [];
        }
      }
      assert ConfuseStep(s, c, user, item, []) == Some(s) by {
        if item in s.confusion {
          assert ConfuseLog(c.names, item, []) == [];
        }
      }
    }
  }

  /** A self-used healing potion on a player at full health: hp stays at
      its maximum, the potion is deleted and one line reports a gain of 0. */
  lemma PotionAtFullHealth(s: UseState, c: UseContext, potion: Entity, defense: int, power: int)
    requires Fits(c) && c.player in s.stats && s.stats[c.player] == CombatStats(10, 10, defense, power)
    requires potion in c.healing && c.healing[potion] == 999 && potion in c.consumable && potion in c.names
    requires potion !in c.equippable && potion !in c.damage && potion !in s.confusion
    ensures var r := ApplyUse(s, c, c.player, WantsToUseItem(potion, None));
      && r.Some?
      && r.value.stats[c.player] == CombatStats(10, 10, defense, power)
      && potion in r.value.killed
      && r.value.log == s.log + [YouDrink(c.names[potion], 0)]
  {
    var targets := [c.player];
    assert [c.player][..0] == [];
    assert HealGains(s.stats, targets, 999) == [0];
    assert [0][..0] == [];
    assert DrinkLog(c.names, potion, [0]) == [YouDrink(c.names[potion], 0)];
    assert EquipStep(s, c, potion, targets) == Some(s);
    assert DamageStep(s, c, c.player, potion, targets) == Some(s);
    var s3 := s.(stats := Healed(s.stats, targets, 999), log := s.log + [YouDrink(c.names[potion], 0)]);
    assert HealStep(s, c, c.player, potion, targets) == Some(s3);
    assert s3.stats[c.player] == CombatStats(10, 10, defense, power);
    assert ConfuseStep(s3, c, c.player, potion, targets) == Some(s3);
  }
}
