# Roguelike turn core in Dafny

This project models the core of a turn-based dungeon crawler written in Rust on an
entity-component store. It covers three parts:

- **The item passes** (`src/inventory_system.rs`):
  - *Collection* takes items off the floor into backpacks.
  - *Use* resolves a target list and then applies the item's facets in a fixed
    order: equip, damage, heal, confuse, then delete a consumable.
  - *Drop* puts backpack items on the dropper's tile.
- **The map-building helpers** (`src/map_builders/common.rs`):
  - carving rooms and tunnels into the row-major tile grid;
  - pruning floor that cannot be reached from the start, and picking the most
    distant tile as the exit;
  - grouping spawnable floor tiles into regions by a noise cell value.
- **The turn loop** (`src/main.rs`): the `RunState` machine that `tick` steps once
  per frame, and the pass order of `run_systems`.

Modules:

- `Ecs` (`ecs.dfy`): entity ids, `Option`, points, and the join order. A join over
  component storages visits entities in ascending id; this is `InJoinOrder`.
- `Components` (`components.dfy`): the component records, and `class World`, whose
  fields are the storages (`map`s keyed by entity) and the game log.
- `Maps` (`maps.dfy`): tile types, row-major indexing, and `class Map`, which holds
  the tile array and the per-tile occupant lists.
- `Inventory` (`inventory.dfy`): the three item passes.
  - Each pass is a method over a `World`. Its loop runs in join order.
  - Each method is proved against a function on values (`Stowed`, `Dropped`,
    `PendingUses`, ...), and the properties are proved as lemmas on those
    functions.
  - The use pass is specified by `ApplyUse`/`ApplyUses` over a `UseState` value.
    One small method per facet (`EquipFacet`, `DamageFacet`, ...) keeps each proof
    short.
- `MapCommon` (`map_common.dfy`): the carving, pruning and grouping loops. They
  work in place on the `Map`'s tile array.
- `Turn` (`turn.dfy`): `RunState`, the transition function, the pass pipeline, and
  `class State` with `RunSystems` and `Tick`. The item-collection step of
  `RunSystems` runs the modelled `CollectItems` on the world.

Conventions:

- An `unwrap`/`expect` that fails is an abort of the whole pass. Every method that
  can abort returns `ok`, and the contract states exactly when `ok` holds. It
  promises the new state only when `ok` holds.
- An entity deletion is recorded by adding the entity to `World.killed`. The store
  defers deletion until its maintenance step, so the rest of the pass still sees
  the entity.

## Model

| member | source | states |
|---|---|---|
| Ecs.JoinOrderMembers | src/inventory_system.rs:24 | the join over a storage visits each entity holding the component exactly once |
| Ecs.JoinOrderAscends | src/inventory_system.rs:24 | the join visits entities in strictly ascending id order |
| Inventory.PickUp | src/inventory_system.rs:25-43 | one pickup takes the item off the floor, puts it in the collector's backpack, and logs "you pick up" with the item's name only when the collector is the player; it aborts exactly when the player picks up an unnamed item |
| Inventory.CollectItems | src/inventory_system.rs:20-47 | the collection pass succeeds exactly when every player pickup names its item; then positions lose the picked items, the backpack is `Stowed`, the log gains one line per player pickup in join order, and the pickup table is empty |
| Inventory.StowedKeepsOthers | src/inventory_system.rs:24-33 | after the pickups the backpack holds its old items plus exactly the picked ones; items nobody picks up keep their owner |
| Inventory.LastPickupWins | src/inventory_system.rs:24-33 | an item picked up several times ends with the collector of its last pickup in join order |
| Inventory.PickupKeepsOnePlace | src/inventory_system.rs:24-33 | if every item lies in at most one place (floor, backpack, equipped) and no picked item is equipped, the same holds after the pickups |
| Inventory.DropOne | src/inventory_system.rs:255-267 | one drop puts the item on the dropper's tile, takes it out of the backpack, and logs a line for the player; it aborts exactly when the dropper has no position or the player drops an unnamed item |
| Inventory.DropItems | src/inventory_system.rs:243-270 | the drop pass succeeds exactly when every dropper stands somewhere at its turn and every player drop is named; then positions are `Dropped`, the backpack loses the dropped items, the log gains the player's lines, and the drop table is empty |
| Inventory.DroppedKeepsOthers | src/inventory_system.rs:254-260 | after the drops the position storage holds its old entities plus exactly the dropped items; every other position is unchanged |
| Inventory.DroppedStaysNone | src/inventory_system.rs:255 | once one dropper has no position, the whole pass aborts |
| Inventory.DroppedAtDropper | src/inventory_system.rs:254-260 | when no dropper is itself dropped, the drops succeed exactly when every dropper has a position, and each item lands on the tile of its last dropper |
| Inventory.DropKeepsOnePlace | src/inventory_system.rs:254-260 | dropping keeps every item in at most one place, given that no dropped item is equipped |
| Inventory.InteriorTilesFacts | src/inventory_system.rs:109-112 | the retained blast tiles are exactly the blast tiles strictly inside the map border |
| Inventory.OccupantsOfTiles | src/inventory_system.rs:113-118 | the collected targets are exactly the entities listed on one of the given tiles |
| Inventory.AreaTargetsAreInterior | src/inventory_system.rs:107-119 | an area-of-effect use hits exactly the entities standing on a blast tile strictly inside the map border; occupants of the outer ring are never targeted |
| Inventory.SelectTargets | src/inventory_system.rs:93-122 | the targeting loop builds the list `Targets` describes: the player (not the user) when there is no target tile, the tile's occupants for a single target, and the interior blast occupants for an area; an off-grid single target aborts |
| Inventory.SlotHoldersMembers | src/inventory_system.rs:131-141 | the items to unequip are exactly the named items the owner wears in that slot, and each has a name |
| Inventory.FindSlotHolders | src/inventory_system.rs:130-141 | the scan returns the owner's named items in the slot in join order, and logs an "unequip" line for each when the owner is the player |
| Inventory.ReturnedItems | src/inventory_system.rs:142-147 | taking the items off removes exactly them from `Equipped`; storing them adds exactly them to the backpack with the owner as carrier |
| Inventory.ReturnToBackpack | src/inventory_system.rs:142-147 | the unequip loop leaves `equipped` and `backpack` as `TakenOff`/`Stored` say |
| Inventory.EquipFillsSlot | src/inventory_system.rs:124-159 | when every worn item is named, the owner afterwards wears exactly the new item in that slot |
| Inventory.EquipKeepsConsistent | src/inventory_system.rs:124-159 | equipping a named item that is not on the floor keeps every item in one place, one item per owner and slot, and every worn item named |
| Inventory.EquipItem | src/inventory_system.rs:124-166 | equipping succeeds exactly when there is a first target and, if that target is the player, the item is named; old slot items go back to the backpack, the item is worn by `targets[0]` and leaves the backpack |
| Inventory.QueuedStacks | src/inventory_system.rs:168-171 | a damaging use appends one entry of the damage per occurrence of the target in the list to its existing queue; entities outside the list keep their queue |
| Inventory.InflictDamage | src/inventory_system.rs:168-182 | the damage block queues damage as `Queued` says and logs one line per target when the user is the player; it aborts exactly when such a line names an unnamed entity |
| Inventory.HealedStats | src/inventory_system.rs:188-193 | the healed hp is `min(max_hp, hp + amount)`: never above the maximum or above hp + amount, and equal to one of them; the other stats are unchanged |
| Inventory.HealReported | src/inventory_system.rs:188-192 | the amount reported in the log is the hp actually gained |
| Inventory.HealedWithinMax | src/inventory_system.rs:185-193 | healing touches only targets with combat stats; it leaves non-targets unchanged and every healed target at or below its maximum |
| Inventory.HealGainsEmpty | src/inventory_system.rs:185-201 | a heal logs nothing exactly when no target has combat stats |
| Inventory.HealKeepsCap | src/inventory_system.rs:185-193 | if every creature's hp is at most its maximum before healing, the same holds after |
| Inventory.HealTargets | src/inventory_system.rs:184-202 | the heal loop leaves stats as `Healed` says and logs one line per healed target for the player; it aborts exactly when the player uses an unnamed item that heals someone |
| Inventory.ConfusedTargets | src/inventory_system.rs:206-210 | every target gets `Confusion` with the item's turns, replacing any earlier value; every other entry is unchanged |
| Inventory.ConfuseTargets | src/inventory_system.rs:204-219 | the confusion loop leaves the storage as `Confused` says and logs a line per target for the player; it aborts exactly when such a line names an unnamed entity |
| Inventory.EquipFacet | src/inventory_system.rs:124-166 | the equip block, when present, changes the state exactly as `EquipStep` says |
| Inventory.DamageFacet | src/inventory_system.rs:168-182 | the damage block, when present, changes the state exactly as `DamageStep` says |
| Inventory.HealFacet | src/inventory_system.rs:184-202 | the heal block, when present, changes the state exactly as `HealStep` says |
| Inventory.ConfuseFacet | src/inventory_system.rs:204-219 | the confusion block, when present, changes the state exactly as `ConfuseStep` says |
| Inventory.ApplyFromConfusion | src/inventory_system.rs:204-223 | confusion and then deletion of a consumable, in that order |
| Inventory.ApplyFromHeal | src/inventory_system.rs:184-223 | healing, then the later facets, in the source's order |
| Inventory.ApplyFromDamage | src/inventory_system.rs:168-223 | damage, then the later facets, in the source's order |
| Inventory.ApplyEffects | src/inventory_system.rs:124-223 | after targeting, the facets run in the order equip, damage, heal, confuse, consume; any abort ends the use |
| Inventory.UseItem | src/inventory_system.rs:92-223 | one use is targeting followed by the facets; the new state is `ApplyUse` of the old one |
| Inventory.UseItems | src/inventory_system.rs:71-227 | the use pass applies every pending use in join order, each on the state the previous one left, and then clears the use table; it aborts exactly when one use aborts |
| Inventory.UsesStayNone | src/inventory_system.rs:91-224 | once one use aborts, the rest of the pass does not run and the pass aborts |
| Inventory.EquipStepKeepsConsistent | src/inventory_system.rs:124-166 | the equip facet keeps the storage invariants (one place per item, one item per slot, worn items named, hp capped) |
| Inventory.HealStepKeepsConsistent | src/inventory_system.rs:184-202 | the heal facet keeps the storage invariants |
| Inventory.EffectsKeepConsistent | src/inventory_system.rs:124-223 | all facets of a use together keep the storage invariants when the item is not on the floor and an equippable item is named |
| Inventory.UseKeepsConsistent | src/inventory_system.rs:92-223 | one use keeps the storage invariants |
| Inventory.UsesKeepConsistent | src/inventory_system.rs:91-224 | the whole use pass keeps the storage invariants |
| Inventory.EffectsConsume | src/inventory_system.rs:221-223 | the facets delete the item exactly when it is consumable, and delete nothing else |
| Inventory.UseConsumes | src/inventory_system.rs:221-223 | a completed use deletes its item exactly when it is consumable |
| Inventory.UsesConsume | src/inventory_system.rs:91-224 | a completed pass deletes exactly the consumable items that were used |
| Inventory.MissedUse | src/inventory_system.rs:124-223 | with an empty target list, a non-equippable item changes nothing except deleting a consumable; an equippable item aborts on `targets[0]` |
| Inventory.PotionAtFullHealth | src/inventory_system.rs:184-223 | a potion the player drinks at full health leaves hp at the maximum, is deleted, and logs one line reporting a gain of 0 |
| MapCommon.ApplyRoomToMap | src/map_builders/common.rs:9-16 | exactly the tiles with `x1 < x <= x2` and `y1 < y <= y2` become Floor; every other tile is unchanged |
| MapCommon.ApplyHorizontalTunnel | src/map_builders/common.rs:18-25 | Floor on row y from `min(x1,x2)` to `max(x1,x2)`, skipping index 0 and indices past the grid; the result is the same whichever endpoint comes first |
| MapCommon.ApplyVerticalTunnel | src/map_builders/common.rs:26-33 | Floor on column x from `min(y1,y2)` to `max(y1,y2)`, with the same index guard and the same symmetry |
| MapCommon.RemoveUnreachableAreasGetMostDistant | src/map_builders/common.rs:36-56 | unreachable floor turns to Wall and nothing else changes; every remaining floor tile has a finite distance; the exit is the reached floor tile of greatest distance, the lowest such index on a tie, or 0 when no floor tile is at a positive distance |
| MapCommon.VisitStep | src/map_builders/common.rs:71-79 | visiting one interior tile keeps the region lists ascending and correctly labelled, and adds that tile's index to the list of its cell |
| MapCommon.GenerateVoronoiSpawnRegions | src/map_builders/common.rs:63-82 | each interior floor tile is in the list of its own cell value, and every listed index is an interior floor tile of that cell, so it is in exactly one list; walls and border tiles are in none; every list ascends in row-major order |
| Turn.State.constructor | src/main.rs:37-39 | a state holds the world and its run state, with no passes run yet |
| Turn.State.RunSystems | src/main.rs:42-62 | the passes run in the order visibility, monster AI, map indexing, melee, damage, item collection, maintenance; item collection changes the world as `CollectItems` does, and its abort ends the run |
| Turn.State.Tick | src/main.rs:69-93 | the pipeline runs unless the game awaits input; the new run state is `NextRunState` of the old one and the input handler's answer, and is written back; the dead sweep follows on every tick; an awaiting-input tick leaves positions, log and intent tables as the input handler wrote them and the backpack unchanged, while a pipeline tick changes the world as `RunSystems` does |
| Turn.State.ApplyInput | src/main.rs:76-78 | the input handler's writes: positions, log and the pickup, use and drop tables become what the handler leaves |
| Turn.TraceSteps | src/main.rs:71-91 | each tick's run state follows from the previous one by the transition match |
| Turn.MonsterTurnFollowsPlayerTurn | src/main.rs:71-87 | a player turn is always followed by a monster turn, and a monster turn by awaiting input; a monster turn is entered only from a player turn, or from awaiting input when the input handler answers it |
| Turn.BackToInput | src/main.rs:71-87 | whatever the input handler answers, one of the first three states of a run is `AwaitingInput`; when the run does not start there, one of the next two states is |
| Turn.PreRunOnlyFirst | src/main.rs:72-75 | `PreRun` is left after the first tick and never re-entered unless the input handler answers it |
| Turn.TracePassesCount | src/main.rs:42-93 | over a run, the passes executed are the pipeline once per tick not spent awaiting input, plus one sweep per tick |
| Turn.TickSweepsOnce | src/main.rs:89-93 | one tick runs the dead sweep exactly once, whatever the state |
| Turn.SweepEveryTick | src/main.rs:89-93 | over a run of n ticks, the dead sweep runs exactly n times |

## Left out

Code whose source is not part of this model:

- Rendering is not modelled:
  - `ctx.cls`, `draw_map`, the renderable loop and `gui::draw_ui` (src/main.rs:67, 95-108);
  - the `main` setup and component registration.
- Turn.State.Tick: the input handler `player_input` lives in `player.rs`, which is not part of this model. The tick takes what the handler does as the parameter `input`: the run state it answers, and the positions, log and pickup, use and drop tables it leaves. Its other writes to the world are not modelled, and the contract treats the backpack as unchanged on an awaiting-input tick.
- Turn.State.RunSystems: visibility, monster AI, map indexing, melee and damage are only recorded in `State.passes`. The contract treats them as leaving positions, backpack, log and the pickup table unchanged, so item collection is stated against the world as it was when the pipeline started. In the program, monster AI moves monsters and melee writes the log before item collection runs. `Turn.State.Tick` inherits this.
- The other passes of `run_systems` are only recorded in `State.passes`, in order. Their effect on the world is not modelled, because `visibility_system.rs`, `monster_ai_system.rs`, `map_indexing_system.rs`, `melee_combat_system.rs` and `damage_system.rs` are not part of this model. This covers:
  - visibility, monster AI, map indexing, melee and damage;
  - the store's `maintain`;
  - `delete_the_dead`.
- Inventory.HealedStats, Inventory.HealReported and Inventory.HealTargets compute `hp + heal_amount` and `max_hp - hp` on unbounded integers. The source uses `i32` (src/inventory_system.rs:188-193): a debug build panics when the sum overflows, and a release build wraps it, so the comparison fails and `hp` becomes the wrapped value. That overflow is not modelled.
- `Map::xy_idx` is in `map.rs`, which is not part of this model. It is taken to be the row-major index `y * width + x`, computed on unbounded integers.
- `SufferDamage::new_damage` is in `damage_system.rs`, which is not part of this model. It is modelled as appending the amount to the target's queue, creating the queue when absent.

Collaborators that are parameters:

- rltk's `field_of_view` is a parameter `fov(point, radius)` returning the blast tiles.
- rltk's `DijkstraMap::new` is a parameter giving each tile's distance: `Some(d)` for a reached tile, `None` for `f32::MAX`.
  - The distances are natural numbers, not `f32`.
  - The 200.0 depth cap lives inside the library and is not modelled.
- The `FastNoise` cell sample, scaled and truncated to `i32`, is a parameter `cellOf(x, y)`. The noise seeding and the random number generator are not modelled.

What the modelled storages leave out:

- Log lines are abstract `LogEntry` values carrying the names and amounts they print, not formatted strings.
- `Entities::delete` is modelled as always succeeding: the item of a use is a live entity when the pass starts.
- MapCommon.ApplyRoomToMap requires the room to lie on the map. With an overhanging room, the source indexes out of bounds or wraps into another row through `xy_idx`; that case is not modelled.

In these places the model follows the code as written:

- `run_systems` runs only the item collection pass among the item passes. The use and drop passes are modelled as standalone methods (`UseItems`, `DropItems`).
- With no target tile, a use targets the player resource, not the using entity.
- An equippable item used on a tile with no occupants aborts the use at `targets[0]` (see `MissedUse`). It is not a harmless miss.
- Area-of-effect blast tiles outside the interior are dropped (`retain`), not clamped to it.
- The dead sweep runs on every tick, including ticks spent awaiting input. It runs after the new run state is written back, not as the last step of the pipeline.
