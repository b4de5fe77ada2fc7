/** The components the item passes read and write, and the world that holds
    one storage per component, keyed by entity. */
module Components {
  import opened Ecs

  /** An equipment slot. The component definitions are not part of this
      model, so a slot is an opaque number. */
  type Slot = nat

  /** `Equipped`: the item is worn by `owner` in `slot`. */
  datatype Equipped = Equipped(owner: Entity, slot: Slot)

  datatype CombatStats = CombatStats(maxHp: int, hp: int, defense: int, power: int)

  /** Pending intents. A pickup names its collector; a use names the item
      and, optionally, the tile aimed at. A drop intent holds just the item
      and is stored as that item's id. */
  datatype WantsToPickupItem = WantsToPickupItem(collectedBy: Entity, item: Entity)
  datatype WantsToUseItem = WantsToUseItem(item: Entity, target: Option<Point>)

  /** A game-log line, with the names it would print. */
  datatype LogEntry =
    | YouPickUp(item: string)
    | YouUnequip(item: string)
    | YouEquip(item: string)
    | YouUseOn(item: string, mob: string, amount: int)
    | YouDrink(potion: string, amount: int)
    | YouConfuse(item: string, mob: string)
    | YouDrop(item: string)

  /** An item lies on the floor, sits in a backpack or is equipped: at most
      one of the three. */
  predicate AtMostOnePlace(positions: map<Entity, Point>, backpack: map<Entity, Entity>, equipped: map<Entity, Equipped>)
  {
    && (forall e :: e in positions ==> e !in backpack && e !in equipped)
    && (forall e :: e in backpack ==> e !in equipped)
  }

  /** No owner wears two items in the same slot. */
  predicate SlotsExclusive(equipped: map<Entity, Equipped>)
  {
    forall a, b :: a in equipped && b in equipped && a != b ==> equipped[a] != equipped[b]
  }

  predicate HpCapped(stats: map<Entity, CombatStats>)
  {
    forall e :: e in stats ==> stats[e].hp <= stats[e].maxHp
  }

  /** The shared world: the player resource, the game log and one storage
      per component. A storage of a marker component is the set of entities
      that carry it. Every id held here stands for a live entity. */
  class World {
    const player: Entity
    var log: seq<LogEntry>
    /** Entities deleted this turn; the world's maintenance step removes them. */
    var killed: set<Entity>
    var names: map<Entity, string>
    var positions: map<Entity, Point>
    /** `InBackpack`: the owner carrying the item. */
    var backpack: map<Entity, Entity>
    var equipped: map<Entity, Equipped>
    /** `Equippable`: the slot the item fits. */
    var equippable: map<Entity, Slot>
    var consumable: set<Entity>
    /** `ProvidesHealing`: the heal amount. */
    var healing: map<Entity, int>
    /** `InflictsDamage`: the damage. */
    var damage: map<Entity, int>
    /** `AreaOfEffect`: the blast radius. */
    var areaOfEffect: map<Entity, int>
    /** `Confusion`: turns left on a creature, or turns inflicted by an item. */
    var confusion: map<Entity, int>
    var stats: map<Entity, CombatStats>
    /** `SufferDamage`: damage queued this turn, applied later by the damage pass. */
    var sufferDamage: map<Entity, seq<int>>
    var wantsPickup: map<Entity, WantsToPickupItem>
    var wantsUse: map<Entity, WantsToUseItem>
    /** `WantsToDropItem`, keyed by the dropper: the item to drop. */
    var wantsDrop: map<Entity, Entity>

    ghost predicate OneLocation()
      reads this
    {
      AtMostOnePlace(positions, backpack, equipped)
    }

    ghost predicate OneItemPerSlot()
      reads this
    {
      SlotsExclusive(equipped)
    }

    ghost predicate HpWithinMax()
      reads this
    {
      HpCapped(stats)
    }

    /** Every equipped item has a name (the unequip step only sees named items). */
    ghost predicate EquippedNamed()
      reads this
    {
      equipped.Keys <= names.Keys
    }

    ghost predicate Consistent()
      reads this
    {
      OneLocation() && OneItemPerSlot() && HpWithinMax() && EquippedNamed()
    }
  }
}
