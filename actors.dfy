/** The player's record and the side-effect-free parts of actor state: the
    light-source test, equipment by slot, damage and mitigation formulas for the
    player and for monsters, and the health rule shared by `Player.TakeDamage` and
    `Monster.TakeDamage`. */
module Actors {
  import opened Base
  import opened Content
  import ItemDatabase
  import SpellDatabase

  /** Words that make an inventory item a light source. */
  const LIGHT_SOURCES: seq<string> := ["torch", "lantern", "glowing", "burning", "flaming", "illuminated"]

  /** Slots whose items mitigate damage; everything else (the weapon included) adds nothing. */
  const ARMOUR_SLOTS: seq<string> := ["chest", "head", "legs", "shield", "feet"]

  /** Damage of an unarmed attacker. */
  const BASE_DAMAGE: int := 10

  /** One entry of `Player.EquippedItems`: the slot key and the item stored under it.
      A dictionary that never loses a key enumerates in insertion order, so the
      entries are kept in the order their slots were first filled. */
  datatype SlotEntry = SlotEntry(slot: string, item: Item)

  datatype Player = Player(inventory: seq<Item>, equipped: seq<SlotEntry>, gold: int,
                           inCombat: bool, health: int, maxHealth: int, dead: bool,
                           mana: int, maxMana: int, spells: seq<Spell>)

  // ---------------------------------------------------------------------------
  // Spells
  // ---------------------------------------------------------------------------

  /** `Player.MemorizeSpell`: the spell joins the end of the known spells. */
  function MemorizeSpell(p: Player, spell: Spell): (r: Player)
    ensures r == p.(spells := r.spells)
    ensures |r.spells| == |p.spells| + 1 && r.spells[..|p.spells|] == p.spells
    ensures IsSpellMemorized(r, spell)
  {
    p.(spells := p.spells + [spell])
  }

  /** `Player.IsSpellMemorized`: the spell is in the list. A memorized spell's
      own name always finds a spell when cast, though an earlier spell with the
      same name ignoring case is found first. */
  predicate IsSpellMemorized(p: Player, spell: Spell): (r: bool)
    ensures r ==> SpellDatabase.GetSpellByName(p.spells, spell.name).Some?
  {
    spell in p.spells
  }

  /** A memorized spell can be cast by its name, unless a spell memorized
      earlier has the same name ignoring case and is found first. */
  lemma MemorizedIsCastable(p: Player, spell: Spell)
    requires SpellDatabase.GetSpellByName(p.spells, spell.name).None?
    ensures SpellDatabase.GetSpellByName(MemorizeSpell(p, spell).spells, spell.name) == Some(spell)
  {
    var known := MemorizeSpell(p, spell).spells;
    assert known[|p.spells|] == spell;
    assert forall j :: 0 <= j < |p.spells| ==> known[j] == p.spells[j];
  }

  /** The spell the database holds under `name`, as a list of none or one. */
  function Found(spells: seq<Spell>, name: string): seq<Spell>
  {
    match SpellDatabase.GetSpellByName(spells, name)
    case Some(s) => [s]
    case None => []
  }

  /** The player as the game starts: 1000 gold, health and mana 100 of 100,
      nothing carried or worn, and the spells "Fireball" and "Heal" memorized in
      that order. A spell the database lacks is not memorized. */
  function NewPlayer(spells: seq<Spell>): (r: Player)
    ensures r.gold == 1000 && r.health == r.maxHealth == 100 && r.mana == r.maxMana == 100
    ensures !r.dead && !r.inCombat && r.inventory == [] && r.equipped == []
    ensures r.spells == Found(spells, "Fireball") + Found(spells, "Heal")
  {
    var blank := Player([], [], 1000, false, 100, 100, false, 100, 100, []);
    MemorizeFound(MemorizeFound(blank, spells, "Fireball"), spells, "Heal")
  }

  /** Looking a spell up by name and memorizing it when the database has it. */
  function MemorizeFound(p: Player, spells: seq<Spell>, name: string): (r: Player)
    ensures r == p.(spells := p.spells + Found(spells, name))
  {
    match SpellDatabase.GetSpellByName(spells, name)
    case Some(s) => MemorizeSpell(p, s)
    case None => p
  }

  /** Both starting spells can be cast by name from the start, whenever the
      database holds them. */
  lemma StarterSpellsCastable(spells: seq<Spell>, name: string)
    requires name == "Fireball" || name == "Heal"
    ensures SpellDatabase.GetSpellByName(NewPlayer(spells).spells, name) == SpellDatabase.GetSpellByName(spells, name)
  {
    StarterNamesDiffer();
    if name == "Fireball" {
      FirstCastable(spells, "Fireball", "Heal");
    } else {
      SecondCastable(spells, "Fireball", "Heal");
    }
  }

  lemma StarterNamesDiffer()
    ensures Lower("Fireball") != Lower("Heal")
  {
    assert Lower("Fireball")[0] == 'f' && Lower("Heal")[0] == 'h';
  }

  /** Of two spells memorized by distinct names, the first is found by its name. */
  lemma FirstCastable(spells: seq<Spell>, a: string, b: string)
    requires Lower(a) != Lower(b)
    ensures SpellDatabase.GetSpellByName(Found(spells, a) + Found(spells, b), a)
      == SpellDatabase.GetSpellByName(spells, a)
  {
    match SpellDatabase.GetSpellByName(spells, a)
    case Some(f) =>
      FoundFirst(f, Found(spells, b), a);
    case None =>
      assert Found(spells, a) + Found(spells, b) == Found(spells, b);
      FoundOnly(spells, b, a);
  }

  /** Of two spells memorized by distinct names, the second is found by its name. */
  lemma SecondCastable(spells: seq<Spell>, a: string, b: string)
    requires Lower(a) != Lower(b)
    ensures SpellDatabase.GetSpellByName(Found(spells, a) + Found(spells, b), b)
      == SpellDatabase.GetSpellByName(spells, b)
  {
    FoundOnly(spells, b, b);
    match SpellDatabase.GetSpellByName(spells, a)
    case Some(f) =>
      SkipFirst(f, Found(spells, b), b);
    case None =>
      assert Found(spells, a) + Found(spells, b) == Found(spells, b);
  }

  /** Searching the list holding only the spell found under `b`. */
  lemma FoundOnly(spells: seq<Spell>, b: string, name: string)
    ensures SpellDatabase.GetSpellByName(Found(spells, b), name)
      == if Lower(name) == Lower(b) then SpellDatabase.GetSpellByName(spells, b) else None
  {
    match SpellDatabase.GetSpellByName(spells, b)
    case Some(h) =>
      assert [h] + [] == [h];
      if Lower(name) == Lower(b) {
        FoundFirst(h, [], name);
      } else {
        SkipFirst(h, [], name);
      }
    case None =>
  }

  lemma FoundFirst(s: Spell, rest: seq<Spell>, name: string)
    requires Lower(s.name) == Lower(name)
    ensures SpellDatabase.GetSpellByName([s] + rest, name) == Some(s)
  {
    assert ([s] + rest)[0] == s;
  }

  lemma SkipFirst(s: Spell, rest: seq<Spell>, name: string)
    requires Lower(s.name) != Lower(name)
    ensures SpellDatabase.GetSpellByName([s] + rest, name) == SpellDatabase.GetSpellByName(rest, name)
  {
    var all := [s] + rest;
    assert forall j :: 1 <= j < |all| ==> all[j] == rest[j - 1];
    match SpellDatabase.GetSpellByName(rest, name)
    case Some(x) =>
      var k :| 0 <= k < |rest| && rest[k] == x && forall j :: 0 <= j < k ==> Lower(rest[j].name) != Lower(name);
      assert all[k + 1] == x;
    case None =>
  }

  // ---------------------------------------------------------------------------
  // Light
  // ---------------------------------------------------------------------------

  predicate IsLightSource(item: Item)
  {
    exists k :: 0 <= k < |LIGHT_SOURCES| && Contains(Lower(item.name), Lower(LIGHT_SOURCES[k]))
  }

  /** `Player.HasLightSource`: some inventory item's lower-cased name contains one
      of the light-source words. */
  function HasLightSource(inventory: seq<Item>): (r: bool)
    ensures r <==> exists i :: 0 <= i < |inventory| && IsLightSource(inventory[i])
  {
    if inventory == [] then false
    else IsLightSource(inventory[0]) || HasLightSource(inventory[1..])
  }

  /** A room is shown dark exactly when it is flagged "dark" and the player
      carries no light source. */
  predicate TooDarkToSee(room: Room, inventory: seq<Item>): (r: bool)
    requires room.flags.Some?
    ensures r <==> HasFlag(room, "dark") && forall i :: 0 <= i < |inventory| ==> !IsLightSource(inventory[i])
  {
    HasFlag(room, "dark") && !HasLightSource(inventory)
  }

  lemma {:induction false} TorchLightsTheWay(inventory: seq<Item>, torch: Item, room: Room)
    requires room.flags.Some?
    requires Contains(Lower(torch.name), "torch")
    ensures !TooDarkToSee(room, inventory + [torch])
  {
    assert LIGHT_SOURCES[0] == "torch" && Lower("torch") == "torch";
    assert IsLightSource(torch);
    assert (inventory + [torch])[|inventory|] == torch;
  }

  // ---------------------------------------------------------------------------
  // Equipment
  // ---------------------------------------------------------------------------

  function SlotIndex(equipped: seq<SlotEntry>, slot: string): (r: Option<nat>)
    ensures r.Some? ==> r.value < |equipped| && equipped[r.value].slot == slot
    ensures r.None? <==> forall j :: 0 <= j < |equipped| ==> equipped[j].slot != slot
  {
    FirstIndex(equipped, (e: SlotEntry) => e.slot == slot)
  }

  /** The entry found is the first one stored under the slot. */
  lemma SlotIndexFirst(equipped: seq<SlotEntry>, slot: string)
    ensures SlotIndex(equipped, slot).Some? ==>
      forall j :: 0 <= j < SlotIndex(equipped, slot).value ==> equipped[j].slot != slot
  {
  }

  /** Dictionary keys are unique. */
  ghost predicate UniqueSlots(equipped: seq<SlotEntry>)
  {
    forall i, j :: 0 <= i < j < |equipped| ==> equipped[i].slot != equipped[j].slot
  }

  /** Every item is stored under its own slot, as Equip does it. */
  ghost predicate SlotsMatchItems(equipped: seq<SlotEntry>)
  {
    forall i :: 0 <= i < |equipped| ==> equipped[i].slot == equipped[i].item.slot
  }

  /** `Player.GetEquippedItemBySlot`: the item stored under `slot`, or null. */
  function GetEquippedItemBySlot(equipped: seq<SlotEntry>, slot: string): (r: Option<Item>)
    ensures r.None? <==> forall j :: 0 <= j < |equipped| ==> equipped[j].slot != slot
    ensures r.Some? ==> exists j :: 0 <= j < |equipped| && equipped[j] == SlotEntry(slot, r.value)
  {
    match SlotIndex(equipped, slot)
    case Some(k) => Some(equipped[k].item)
    case None => None
  }

  /** `EquippedItems[slot] = item`: overwrite the entry for that key in place, or
      add a new entry at the end. */
  function PutInSlot(equipped: seq<SlotEntry>, slot: string, item: Item): (r: seq<SlotEntry>)
    ensures |equipped| <= |r| <= |equipped| + 1
  {
    match SlotIndex(equipped, slot)
    case Some(k) => equipped[k := SlotEntry(slot, item)]
    case None => equipped + [SlotEntry(slot, item)]
  }

  /** After storing `item` under `slot`, reading that slot gives `item` and every
      other slot reads as before; the keys stay unique. */
  lemma PutThenGet(equipped: seq<SlotEntry>, slot: string, item: Item, other: string)
    requires UniqueSlots(equipped)
    ensures UniqueSlots(PutInSlot(equipped, slot, item))
    ensures GetEquippedItemBySlot(PutInSlot(equipped, slot, item), slot) == Some(item)
    ensures other != slot ==>
      GetEquippedItemBySlot(PutInSlot(equipped, slot, item), other) == GetEquippedItemBySlot(equipped, other)
  {
    match SlotIndex(equipped, slot)
    case Some(k) => PutOverwrites(equipped, slot, item, other, k);
    case None => PutAppends(equipped, slot, item, other);
  }

  lemma PutOverwrites(equipped: seq<SlotEntry>, slot: string, item: Item, other: string, k: nat)
    requires UniqueSlots(equipped) && SlotIndex(equipped, slot) == Some(k)
    ensures UniqueSlots(PutInSlot(equipped, slot, item))
    ensures GetEquippedItemBySlot(PutInSlot(equipped, slot, item), slot) == Some(item)
    ensures other != slot ==>
      GetEquippedItemBySlot(PutInSlot(equipped, slot, item), other) == GetEquippedItemBySlot(equipped, other)
  {
    var r := equipped[k := SlotEntry(slot, item)];
    assert PutInSlot(equipped, slot, item) == r;
    assert forall j :: 0 <= j < |r| ==> r[j].slot == equipped[j].slot;
    assert SlotIndex(r, slot) == Some(k);
    if other != slot {
      match SlotIndex(equipped, other)
      case Some(m) =>
        assert SlotIndex(r, other) == Some(m);
      case None =>
    }
  }

  lemma PutAppends(equipped: seq<SlotEntry>, slot: string, item: Item, other: string)
    requires UniqueSlots(equipped) && SlotIndex(equipped, slot).None?
    ensures UniqueSlots(PutInSlot(equipped, slot, item))
    ensures GetEquippedItemBySlot(PutInSlot(equipped, slot, item), slot) == Some(item)
    ensures other != slot ==>
      GetEquippedItemBySlot(PutInSlot(equipped, slot, item), other) == GetEquippedItemBySlot(equipped, other)
  {
    var r := equipped + [SlotEntry(slot, item)];
    assert PutInSlot(equipped, slot, item) == r;
    assert forall j :: 0 <= j < |equipped| ==> r[j] == equipped[j];
    assert r[|equipped|] == SlotEntry(slot, item);
    assert SlotIndex(r, slot) == Some(|equipped|);
    if other != slot {
      match SlotIndex(equipped, other)
      case Some(m) =>
        assert SlotIndex(r, other) == Some(m);
      case None =>
        assert SlotIndex(r, other).None?;
    }
  }

  // ---------------------------------------------------------------------------
  // Damage and mitigation
  // ---------------------------------------------------------------------------

  /** Power a single item adds to mitigation. */
  function ArmourValue(item: Item): int
  {
    if item.slot in ARMOUR_SLOTS then item.power else 0
  }

  /** `Player.GetPlayerDamage`: the base damage plus the power of the weapon slot.
      Unarmed, the player hits for the base damage; otherwise the first entry
      stored under "weapon" adds its power. */
  function PlayerDamage(equipped: seq<SlotEntry>): (r: int)
    ensures (forall j :: 0 <= j < |equipped| ==> equipped[j].slot != "weapon") ==> r == BASE_DAMAGE
    ensures forall k :: 0 <= k < |equipped| && equipped[k].slot == "weapon"
                        && (forall j :: 0 <= j < k ==> equipped[j].slot != "weapon")
                        ==> r == BASE_DAMAGE + equipped[k].item.power
  {
    SlotIndexFirst(equipped, "weapon");
    match GetEquippedItemBySlot(equipped, "weapon")
    case Some(weapon) => BASE_DAMAGE + weapon.power
    case None => BASE_DAMAGE
  }

  /** `Player.GetDamageMitigation`: the summed power of the equipped armour,
      walking the dictionary's values in order. Weapons, rings and the like add
      nothing, so without armour there is no mitigation. */
  function Mitigation(equipped: seq<SlotEntry>): (r: int)
    ensures (forall j :: 0 <= j < |equipped| ==> equipped[j].item.slot !in ARMOUR_SLOTS) ==> r == 0
  {
    if equipped == [] then 0 else ArmourValue(equipped[0].item) + Mitigation(equipped[1..])
  }

  /** Mitigation never goes negative while item powers are not negative. */
  lemma {:induction false} MitigationNonNegative(equipped: seq<SlotEntry>)
    requires forall j :: 0 <= j < |equipped| ==> equipped[j].item.power >= 0
    ensures Mitigation(equipped) >= 0
  {
    if equipped != [] {
      MitigationNonNegative(equipped[1..]);
    }
  }

  lemma {:induction false} MitigationAppend(a: seq<SlotEntry>, b: seq<SlotEntry>)
    ensures Mitigation(a + b) == Mitigation(a) + Mitigation(b)
  {
    if a == [] {
      assert a + b == b;
    } else {
      assert (a + b)[1..] == a[1..] + b;
      MitigationAppend(a[1..], b);
    }
  }

  lemma MitigationReplace(equipped: seq<SlotEntry>, k: nat, e: SlotEntry)
    requires k < |equipped|
    ensures Mitigation(equipped[k := e])
         == Mitigation(equipped) - ArmourValue(equipped[k].item) + ArmourValue(e.item)
  {
    var r := equipped[k := e];
    assert equipped == equipped[..k] + ([equipped[k]] + equipped[k + 1..]);
    assert r == r[..k] + ([e] + r[k + 1..]);
    assert r[..k] == equipped[..k] && r[k + 1..] == equipped[k + 1..];
    MitigationAppend(equipped[..k], [equipped[k]] + equipped[k + 1..]);
    MitigationAppend([equipped[k]], equipped[k + 1..]);
    MitigationAppend(r[..k], [e] + r[k + 1..]);
    MitigationAppend([e], r[k + 1..]);
  }

  /** Storing an item under a slot changes mitigation by exactly the armour value
      it brings minus the armour value of the item it displaces. */
  lemma MitigationAfterPut(equipped: seq<SlotEntry>, slot: string, item: Item)
    ensures Mitigation(PutInSlot(equipped, slot, item))
         == Mitigation(equipped) + ArmourValue(item)
            - (match GetEquippedItemBySlot(equipped, slot) case Some(prev) => ArmourValue(prev) case None => 0)
  {
    match SlotIndex(equipped, slot)
    case Some(k) => MitigationReplace(equipped, k, SlotEntry(slot, item));
    case None => MitigationAppend(equipped, [SlotEntry(slot, item)]);
  }

  /** Wielding a weapon sets the player's damage to the base plus its power and
      leaves mitigation unchanged when the displaced item was a weapon too. */
  lemma WieldWeapon(equipped: seq<SlotEntry>, weapon: Item)
    requires UniqueSlots(equipped) && SlotsMatchItems(equipped)
    requires weapon.slot == "weapon"
    ensures PlayerDamage(PutInSlot(equipped, "weapon", weapon)) == BASE_DAMAGE + weapon.power
    ensures Mitigation(PutInSlot(equipped, "weapon", weapon)) == Mitigation(equipped)
  {
    PutThenGet(equipped, "weapon", weapon, "weapon");
    MitigationAfterPut(equipped, "weapon", weapon);
    assert "weapon" !in ARMOUR_SLOTS;
  }

  /** The name resolves in the item database to an item of that slot. */
  predicate NamesSlotItem(items: seq<Item>, name: string, slot: string)
  {
    match ItemDatabase.GetItemByName(items, name)
    case Some(it) => it.slot == slot
    case None => false
  }

  /** `Monster.GetEquippedItemBySlot`: the first equipped name that resolves in the
      item database to an item of that slot, or null. */
  function MonsterEquippedBySlot(items: seq<Item>, equippedNames: seq<string>, slot: string): (r: Option<Item>)
    ensures r.Some? ==> r.value.slot == slot && r.value in items
    ensures r.Some? ==> exists k :: 0 <= k < |equippedNames| && ItemDatabase.GetItemByName(items, equippedNames[k]) == r
                                    && forall j :: 0 <= j < k ==> !NamesSlotItem(items, equippedNames[j], slot)
    ensures r.None? <==> forall k :: 0 <= k < |equippedNames| ==> !NamesSlotItem(items, equippedNames[k], slot)
  {
    match FirstIndex(equippedNames, (n: string) => NamesSlotItem(items, n, slot))
    case Some(k) => ItemDatabase.GetItemByName(items, equippedNames[k])
    case None => None
  }

  /** `GameManager.GetMonsterDamage`: base damage plus the power of the monster's
      first resolvable weapon. */
  function MonsterDamage(items: seq<Item>, m: Monster): (r: int)
    ensures (forall k :: 0 <= k < |m.equippedItemNames| ==> !NamesSlotItem(items, m.equippedItemNames[k], "weapon"))
            ==> r == BASE_DAMAGE
  {
    match MonsterEquippedBySlot(items, m.equippedItemNames, "weapon")
    case Some(weapon) => BASE_DAMAGE + weapon.power
    case None => BASE_DAMAGE
  }

  /** A monster with no resolvable weapon hits for the base damage. */
  lemma UnarmedMonsterDamage(items: seq<Item>, m: Monster)
    requires forall k :: 0 <= k < |m.equippedItemNames| ==>
      ItemDatabase.GetItemByName(items, m.equippedItemNames[k]).None?
    ensures MonsterDamage(items, m) == BASE_DAMAGE
  {
  }

  /** An armed monster hits for the base damage plus the power of the first of
      its equipped names that resolves to a weapon. */
  lemma ArmedMonsterDamage(items: seq<Item>, m: Monster, k: nat)
    requires k < |m.equippedItemNames| && NamesSlotItem(items, m.equippedItemNames[k], "weapon")
    requires forall j :: 0 <= j < k ==> !NamesSlotItem(items, m.equippedItemNames[j], "weapon")
    ensures MonsterDamage(items, m)
         == BASE_DAMAGE + ItemDatabase.GetItemByName(items, m.equippedItemNames[k]).value.power
  {
    var names := m.equippedItemNames;
    var r := MonsterEquippedBySlot(items, names, "weapon");
    assert r.Some?;
    var k' :| 0 <= k' < |names| && ItemDatabase.GetItemByName(items, names[k']) == r
              && forall j :: 0 <= j < k' ==> !NamesSlotItem(items, names[j], "weapon");
    assert NamesSlotItem(items, names[k'], "weapon");
    assert !(k' < k) && !(k < k');
  }

  /** Every equipped name of a monster resolves (the game dereferences each lookup). */
  ghost predicate AllResolve(items: seq<Item>, names: seq<string>)
  {
    forall k :: 0 <= k < |names| ==> ItemDatabase.GetItemByName(items, names[k]).Some?
  }

  /** `Monster.GetDamageMitigation`: the summed power of the armour among the
      monster's equipped names. */
  function MonsterMitigation(items: seq<Item>, names: seq<string>): (r: int)
    requires AllResolve(items, names)
    ensures (forall k :: 0 <= k < |names| ==> ItemDatabase.GetItemByName(items, names[k]).value.slot !in ARMOUR_SLOTS)
            ==> r == 0
  {
    if names == [] then 0
    else ArmourValue(ItemDatabase.GetItemByName(items, names[0]).value)
         + MonsterMitigation(items, names[1..])
  }

  lemma {:induction false} MonsterMitigationNonNegative(items: seq<Item>, names: seq<string>)
    requires AllResolve(items, names)
    requires forall j :: 0 <= j < |items| ==> items[j].power >= 0
    ensures MonsterMitigation(items, names) >= 0
  {
    if names != [] {
      MonsterMitigationNonNegative(items, names[1..]);
    }
  }

  // ---------------------------------------------------------------------------
  // Health
  // ---------------------------------------------------------------------------

  /** Health after `TakeDamage(damage)`: subtract, clamp at zero, then cap at the
      maximum (a negative damage heals). */
  function HealthAfter(health: int, maxHealth: int, damage: int): (h: int)
    ensures maxHealth >= 0 ==> 0 <= h <= maxHealth
    ensures 0 <= health - damage <= maxHealth ==> h == health - damage
    ensures maxHealth >= 0 && health - damage <= 0 ==> h == 0
    ensures maxHealth >= 0 && health - damage > maxHealth ==> h == maxHealth
  {
    var h := health - damage;
    var h := if h <= 0 then 0 else h;
    if h > maxHealth then maxHealth else h
  }

  /** A heal of `power` points, as the damage `TakeDamage` is handed:
      `power * -1`. */
  function Healing(power: int): int
  {
    -power
  }

  /** `Player.TakeDamage`. */
  function PlayerTakeDamage(p: Player, damage: int): (q: Player)
    ensures q == p.(health := q.health, dead := q.dead)
    ensures q.health == HealthAfter(p.health, p.maxHealth, damage)
    ensures p.maxHealth >= 0 ==> 0 <= q.health <= p.maxHealth
    ensures q.dead <==> p.dead || p.health - damage <= 0
  {
    p.(health := HealthAfter(p.health, p.maxHealth, damage),
       dead := p.dead || p.health - damage <= 0)
  }

  /** The health part of `Monster.TakeDamage` (dropping the loot is the session's). */
  function MonsterTakeDamage(m: Monster, damage: int): (q: Monster)
    ensures q == m.(health := q.health, dead := q.dead)
    ensures q.health == HealthAfter(m.health, m.maxHealth, damage)
    ensures m.maxHealth >= 0 ==> 0 <= q.health <= m.maxHealth
    ensures q.dead <==> m.dead || m.health - damage <= 0
  {
    m.(health := HealthAfter(m.health, m.maxHealth, damage),
       dead := m.dead || m.health - damage <= 0)
  }

  /** Death is final: no later damage or healing brings a player back, even
      when healing lifts the health above zero again. */
  lemma PlayerDeathIsFinal(p: Player, damage: int)
    requires p.dead
    ensures PlayerTakeDamage(p, damage).dead
  {
  }

  /** Reaching zero or less kills the player and pins the health at exactly zero. */
  lemma PlayerKilled(p: Player, damage: int)
    requires p.maxHealth >= 0 && p.health - damage <= 0
    ensures PlayerTakeDamage(p, damage).dead && PlayerTakeDamage(p, damage).health == 0
  {
  }

  /** Net melee damage: attack minus mitigation, replaced by 1 only when strictly
      negative, so a net of exactly zero stays zero. */
  function NetDamage(attack: int, mitigation: int): (d: int)
    ensures d >= 0
    ensures attack - mitigation >= 0 ==> d == attack - mitigation
    ensures attack - mitigation < 0 ==> d == 1
  {
    var d := attack - mitigation;
    if d < 0 then 1 else d
  }
}
