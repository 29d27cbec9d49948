/** The operations of `TextBasedGameWorld` as values: the room lookup, where a
    move, a flight or a step back leads, and what taking, dropping, interacting,
    equipping, killing, selling, giving, attacking, examining and valuing do to
    the room, the player and the monster records. The session (module Game)
    applies these to its fields; the lemmas here say what each one keeps. */
module World {
  import opened Base
  import opened Content
  import opened Actors
  import opened Inventory
  import ItemDatabase
  import MonsterDatabase

  // ---------------------------------------------------------------------------
  // The room lookup
  // ---------------------------------------------------------------------------

  /** Room names are unique: `GenerateRoomLookup` throws on a repeated name. */
  ghost predicate DistinctNames(rooms: seq<Room>)
  {
    forall i, j :: 0 <= i < j < |rooms| ==> rooms[i].name != rooms[j].name
  }

  /** `roomLookup` as `GenerateRoomLookup` leaves it: the keys are exactly the
      room names, and each maps to the position of the room of that name. */
  ghost predicate Directory(rooms: seq<Room>, lookup: map<string, nat>)
  {
    (forall n :: n in lookup ==> lookup[n] < |rooms| && rooms[lookup[n]].name == n)
    && (forall i :: 0 <= i < |rooms| ==> rooms[i].name in lookup)
  }

  // ---------------------------------------------------------------------------
  // Moving
  // ---------------------------------------------------------------------------

  /** The exit a move in `direction` takes names its key when it is locked. A
      locked exit without one makes `MoveToRoom` throw as soon as the player
      carries any item; with nothing carried the key search finds nothing and
      the move is refused. */
  ghost predicate KeyNamed(room: Room, direction: string)
  {
    match ExitIndex(room.exits, direction)
    case Some(k) => room.exits[k].locked ==> room.exits[k].requiredItem.Some?
    case None => true
  }

  /** The player carries an item whose name contains the key's name; unlike the
      player's commands, this test is case-sensitive. */
  predicate HoldsKey(inventory: seq<Item>, key: string)
  {
    exists i :: 0 <= i < |inventory| && Contains(inventory[i].name, key)
  }

  /** `MoveToRoom(direction)`: the position of the room the player ends up in,
      or None when the player stays. The player moves exactly when out of
      combat, some exit has exactly that direction, the first such exit is
      unlocked or the player holds its key, and it names a known room. */
  function MoveTarget(room: Room, lookup: map<string, nat>, p: Player, direction: string): (r: Option<nat>)
    requires p.inCombat || KeyNamed(room, direction)
    ensures r.Some? <==>
      && !p.inCombat
      && ExitIndex(room.exits, direction).Some?
      && var e := room.exits[ExitIndex(room.exits, direction).value];
         (e.locked ==> HoldsKey(p.inventory, e.requiredItem.value)) && e.roomId in lookup
    ensures r.Some? ==> r.value == lookup[room.exits[ExitIndex(room.exits, direction).value].roomId]
  {
    if p.inCombat then None
    else match ExitIndex(room.exits, direction)
      case None => None
      case Some(k) =>
        var e := room.exits[k];
        if e.locked && !HoldsKey(p.inventory, e.requiredItem.value) then None
        else if e.roomId in lookup then Some(lookup[e.roomId])
        else None
  }

  /** A move that succeeds lands in a room of the world, the one the exit
      names. */
  lemma MoveLandsInNamedRoom(rooms: seq<Room>, lookup: map<string, nat>, p: Player, a: nat, direction: string)
    requires Directory(rooms, lookup) && a < |rooms|
    requires p.inCombat || KeyNamed(rooms[a], direction)
    requires MoveTarget(rooms[a], lookup, p, direction).Some?
    ensures var b := MoveTarget(rooms[a], lookup, p, direction).value;
      b < |rooms| && rooms[b].name == rooms[a].exits[ExitIndex(rooms[a].exits, direction).value].roomId
  {
  }

  /** The opposite of each of the eight directions `Back` knows; any other
      direction gives the empty string, which no exit is expected to have. */
  function Reverse(direction: string): (r: string)
    ensures r != "" <==> direction in DIRECTIONS
  {
    match direction
    case "north" => "south"
    case "south" => "north"
    case "east" => "west"
    case "west" => "east"
    case "in" => "out"
    case "out" => "in"
    case "up" => "down"
    case "down" => "up"
    case _ => ""
  }

  const DIRECTIONS: seq<string> := ["north", "south", "east", "west", "in", "out", "up", "down"]

  /** Going back from a way back is going the original way. */
  lemma ReverseInvolution(direction: string)
    requires direction in DIRECTIONS
    ensures Reverse(direction) in DIRECTIONS && Reverse(Reverse(direction)) == direction
  {
  }

  /** An exit in `direction`, the first one, leads unlocked to the room named
      `name`. */
  predicate LeadsTo(room: Room, direction: string, name: string)
  {
    match ExitIndex(room.exits, direction)
    case Some(k) => room.exits[k].roomId == name && !room.exits[k].locked
    case None => false
  }

  /** `Back` undoes a move: when the room a move reached leads straight back the
      opposite way, going back returns the player to the room left. */
  lemma BackUndoesMove(rooms: seq<Room>, lookup: map<string, nat>, p: Player, a: nat, direction: string)
    requires DistinctNames(rooms) && Directory(rooms, lookup) && a < |rooms|
    requires KeyNamed(rooms[a], direction)
    requires MoveTarget(rooms[a], lookup, p, direction).Some?
    requires var b := MoveTarget(rooms[a], lookup, p, direction).value;
      b < |rooms| && LeadsTo(rooms[b], Reverse(direction), rooms[a].name)
    ensures var b := MoveTarget(rooms[a], lookup, p, direction).value;
      KeyNamed(rooms[b], Reverse(direction))
      && MoveTarget(rooms[b], lookup, p, Reverse(direction)) == Some(a)
  {
    var b := MoveTarget(rooms[a], lookup, p, direction).value;
    var back := rooms[b].exits[ExitIndex(rooms[b].exits, Reverse(direction)).value];
    assert back.roomId == rooms[a].name;
    assert lookup[rooms[a].name] == a by {
      var i := lookup[rooms[a].name];
      assert rooms[i].name == rooms[a].name;
    }
  }

  /** `Flee` with the draws `roll` (the one-in-four chance) and `pick` (the
      exit): the position of the room fled to, or None when the player stays.
      Locks do not hold a fleeing player back. */
  function FleeTarget(room: Room, lookup: map<string, nat>, p: Player, roll: nat, pick: nat): (r: Option<nat>)
    ensures r.Some? <==>
      p.inCombat && |room.exits| > 0 && roll % 4 == 0 && room.exits[pick % |room.exits|].roomId in lookup
    ensures r.Some? ==> r.value == lookup[room.exits[pick % |room.exits|].roomId]
  {
    if p.inCombat && |room.exits| > 0 && roll % 4 == 0 then
      var e := room.exits[pick % |room.exits|];
      if e.roomId in lookup then Some(lookup[e.roomId]) else None
    else None
  }

  // ---------------------------------------------------------------------------
  // Items between the floor and the inventory
  // ---------------------------------------------------------------------------

  /** The item names on the floor of the player's room and the items the player
      carries. */
  datatype Hold = Hold(floor: seq<string>, inventory: seq<Item>)

  /** Every item name in a hold, with multiplicity. */
  function Things(h: Hold): multiset<string>
  {
    multiset(h.floor) + multiset(Names(h.inventory))
  }

  /** Position of the first item whose name contains the query, ignoring case. */
  function FirstMatch(its: seq<Item>, query: string): (r: Option<nat>)
    ensures r.Some? ==> r.value < |its| && NameMatches(its[r.value].name, query)
    ensures r.Some? ==> forall j :: 0 <= j < r.value ==> !NameMatches(its[j].name, query)
    ensures r.None? <==> forall j :: 0 <= j < |its| ==> !NameMatches(its[j].name, query)
  {
    FirstIndex(its, (it: Item) => NameMatches(it.name, query))
  }

  /** `TakeItem(query)`: the first floor name that resolves to an item whose
      name contains the query is taken off the floor, and that item joins the
      end of the inventory. */
  function Take(items: seq<Item>, h: Hold, query: string): (r: Hold)
    ensures FirstItemNamed(items, h.floor, query).None? ==> r == h
    ensures FirstItemNamed(items, h.floor, query).Some? ==>
      var k := FirstItemNamed(items, h.floor, query).value;
      && r.floor == h.floor[..k] + h.floor[k + 1..]
      && |r.inventory| == |h.inventory| + 1 && r.inventory[..|h.inventory|] == h.inventory
      && r.inventory[|h.inventory|] in items
      && r.inventory[|h.inventory|].name == h.floor[k]
      && NameMatches(r.inventory[|h.inventory|].name, query)
  {
    match FirstItemNamed(items, h.floor, query)
    case None => h
    case Some(k) =>
      var name := h.floor[k];
      RemoveFirstAt(h.floor, k);
      Hold(RemoveFirst(h.floor, name), h.inventory + [ItemDatabase.GetItemByName(items, name).value])
  }

  /** Taking moves a name from the floor to the inventory: nothing is created
      or lost. */
  lemma TakeConserves(items: seq<Item>, h: Hold, query: string)
    ensures Things(Take(items, h, query)) == Things(h)
  {
    match FirstItemNamed(items, h.floor, query)
    case None =>
    case Some(k) =>
      var r := Take(items, h, query);
      var item := r.inventory[|h.inventory|];
      assert r.inventory == h.inventory + [item];
      PickUpConserves(h.floor, k, h.inventory, item);
  }

  /** Moving the floor name at position `k` into the inventory as an item of
      that name. */
  lemma PickUpConserves(floor: seq<string>, k: nat, inventory: seq<Item>, item: Item)
    requires k < |floor| && item.name == floor[k]
    ensures Things(Hold(floor[..k] + floor[k + 1..], inventory + [item])) == Things(Hold(floor, inventory))
  {
    MultisetSplit(floor, k);
    NamesAppend(inventory, [item]);
  }

  /** Moving the carried item at position `k` onto the end of the floor. */
  lemma PutDownConserves(floor: seq<string>, inventory: seq<Item>, k: nat)
    requires k < |inventory|
    ensures Things(Hold(floor + [inventory[k].name], inventory[..k] + inventory[k + 1..])) == Things(Hold(floor, inventory))
  {
    NamesRemove(inventory, k);
    MultisetSplit(Names(inventory), k);
  }

  /** `TakeAllItems`: every floor name that resolves joins the inventory as its
      item, in the room's order, and the floor is cleared. */
  function TakeEverything(items: seq<Item>, h: Hold): (r: Hold)
    ensures r.floor == []
    ensures |h.inventory| <= |r.inventory| <= |h.inventory| + |h.floor|
    ensures r.inventory[..|h.inventory|] == h.inventory
    ensures r.inventory == h.inventory + ResolveItems(items, h.floor)
  {
    Hold([], h.inventory + ResolveItems(items, h.floor))
  }

  /** Taking everything conserves the items exactly when every floor name is an
      item the database knows; an unknown name vanishes with the cleared
      floor. */
  lemma TakeEverythingConserves(items: seq<Item>, h: Hold)
    ensures AllResolve(items, h.floor) ==> Things(TakeEverything(items, h)) == Things(h)
    ensures !AllResolve(items, h.floor) ==> |Things(TakeEverything(items, h))| < |Things(h)|
  {
    var got := ResolveItems(items, h.floor);
    NamesAppend(h.inventory, got);
    ResolveLosesUnknown(items, h.floor);
    if AllResolve(items, h.floor) {
      ResolveAllNamed(items, h.floor);
    }
  }

  /** `Drop(query)`: the first carried item whose name contains the query leaves
      the inventory, and its name joins the end of the floor. */
  function DropItem(h: Hold, query: string): (r: Hold)
    ensures FirstMatch(h.inventory, query).None? ==> r == h
    ensures FirstMatch(h.inventory, query).Some? ==>
      var k := FirstMatch(h.inventory, query).value;
      r.inventory == h.inventory[..k] + h.inventory[k + 1..]
      && r.floor == h.floor + [h.inventory[k].name]
  {
    match FirstMatch(h.inventory, query)
    case None => h
    case Some(k) =>
      var item := h.inventory[k];
      RemoveFirstAt(h.inventory, k);
      Hold(h.floor + [item.name], RemoveFirst(h.inventory, item))
  }

  /** Dropping moves a name from the inventory to the floor. */
  lemma DropConserves(h: Hold, query: string)
    ensures Things(DropItem(h, query)) == Things(h)
  {
    match FirstMatch(h.inventory, query)
    case None =>
    case Some(k) => PutDownConserves(h.floor, h.inventory, k);
  }

  /** A dropped item can be taken back: the name dropped is on the floor,
      resolves to an item of that name, and taking by its full name gives the
      player an item of that name again. */
  lemma DropThenTake(items: seq<Item>, h: Hold, query: string)
    requires FirstMatch(h.inventory, query).Some?
    requires forall j :: 0 <= j < |h.floor| ==> !ItemNamed(items, h.floor[j], query)
    requires h.inventory[FirstMatch(h.inventory, query).value] in items
    ensures var dropped := h.inventory[FirstMatch(h.inventory, query).value];
      var r := Take(items, DropItem(h, query), query);
      r.floor == h.floor && |r.inventory| == |h.inventory|
      && r.inventory[|h.inventory| - 1].name == dropped.name
  {
    var k := FirstMatch(h.inventory, query).value;
    var n := h.inventory[k].name;
    var d := DropItem(h, query);
    assert d.floor == h.floor + [n];
    assert ItemNamed(items, n, query) by {
      assert ItemDatabase.GetItemByName(items, n).Some?;
    }
    FirstItemNamedAtEnd(items, h.floor, n, query);
    assert d.floor[..|h.floor|] == h.floor;
  }

  /** A name that the floor's names do not match, put at the end of the floor,
      is the first one found there. */
  lemma FirstItemNamedAtEnd(items: seq<Item>, floor: seq<string>, n: string, query: string)
    requires forall j :: 0 <= j < |floor| ==> !ItemNamed(items, floor[j], query)
    requires ItemNamed(items, n, query)
    ensures FirstItemNamed(items, floor + [n], query) == Some(|floor|)
  {
    FirstIndexAtEnd(floor, n, (m: string) => ItemNamed(items, m, query));
  }

  // ---------------------------------------------------------------------------
  // Interactable objects
  // ---------------------------------------------------------------------------

  /** Position of the first object of the room whose name contains the query,
      ignoring case. */
  function ObjectAt(room: Room, query: string): (r: Option<nat>)
    ensures r.Some? ==>
      r.value < |room.interactableObjects| && NameMatches(room.interactableObjects[r.value].name, query)
    ensures r.Some? ==> forall j :: 0 <= j < r.value ==> !NameMatches(room.interactableObjects[j].name, query)
    ensures r.None? <==> forall j :: 0 <= j < |room.interactableObjects| ==>
      !NameMatches(room.interactableObjects[j].name, query)
  {
    FirstIndex(room.interactableObjects, (o: InteractableObject) => NameMatches(o.name, query))
  }

  /** `Interact(query)`: the first matching object gives up its hidden item, if
      it still has one: the item's name joins the floor and the object is left
      empty. */
  function InteractWith(room: Room, query: string): (r: Room)
    ensures ObjectAt(room, query).None? ==> r == room
    ensures ObjectAt(room, query).Some? ==>
      var k := ObjectAt(room, query).value;
      var o := room.interactableObjects[k];
      && (o.interactionItemName.None? ==> r == room)
      && (o.interactionItemName.Some? ==>
            r == room.(itemNames := room.itemNames + [o.interactionItemName.value],
                       interactableObjects := room.interactableObjects[k := o.(interactionItemName := None)]))
  {
    match ObjectAt(room, query)
    case None => room
    case Some(k) =>
      var o := room.interactableObjects[k];
      match o.interactionItemName
      case None => room
      case Some(reward) =>
        room.(itemNames := room.itemNames + [reward],
              interactableObjects := room.interactableObjects[k := o.(interactionItemName := None)])
  }

  /** Each object's reward is given once: interacting again with the same
      query changes nothing. */
  lemma InteractOnce(room: Room, query: string)
    ensures InteractWith(InteractWith(room, query), query) == InteractWith(room, query)
  {
    var r := InteractWith(room, query);
    match ObjectAt(room, query)
    case None =>
    case Some(k) =>
      var objs := r.interactableObjects;
      assert forall j :: 0 <= j < |objs| ==> objs[j].name == room.interactableObjects[j].name;
      assert ObjectAt(r, query) == Some(k);
  }

  // ---------------------------------------------------------------------------
  // Equipment
  // ---------------------------------------------------------------------------

  /** The items the player wears, in the order of their slots. */
  function Worn(equipped: seq<SlotEntry>): (r: seq<Item>)
    ensures |r| == |equipped|
    ensures forall i :: 0 <= i < |equipped| ==> r[i] == equipped[i].item
  {
    if equipped == [] then [] else [equipped[0].item] + Worn(equipped[1..])
  }

  /** The item stored under `slot`, as a list of none or one. */
  function Displaced(equipped: seq<SlotEntry>, slot: string): seq<Item>
  {
    match GetEquippedItemBySlot(equipped, slot)
    case Some(prev) => [prev]
    case None => []
  }

  /** `Inventory.Remove` of the item at position `k`, after more items were
      added at the end: it is position `k` that goes. */
  lemma RemoveBeforeAdded(inventory: seq<Item>, k: nat, added: seq<Item>)
    requires k < |inventory|
    requires forall j :: 0 <= j < k ==> inventory[j] != inventory[k]
    ensures RemoveFirst(inventory + added, inventory[k]) == inventory[..k] + inventory[k + 1..] + added
  {
    var carried := inventory + added;
    assert carried[k] == inventory[k];
    RemoveFirstAt(carried, k);
    assert carried[..k] == inventory[..k];
    assert carried[k + 1..] == inventory[k + 1..] + added;
  }

  /** `Equip(query)`: the first carried item whose name contains the query, when
      it has a slot, is stored under that slot and leaves the inventory; the
      item it displaces, if any, joins the end of the inventory. An item
      without a slot, or no match, changes nothing. */
  function EquipItem(p: Player, query: string): (r: Player)
    ensures FirstMatch(p.inventory, query).None? ==> r == p
    ensures FirstMatch(p.inventory, query).Some? ==>
      var k := FirstMatch(p.inventory, query).value;
      var item := p.inventory[k];
      && (item.slot == "" ==> r == p)
      && (item.slot != "" ==>
            r == p.(equipped := PutInSlot(p.equipped, item.slot, item),
                    inventory := p.inventory[..k] + p.inventory[k + 1..] + Displaced(p.equipped, item.slot)))
  {
    match FirstMatch(p.inventory, query)
    case None => p
    case Some(k) =>
      var item := p.inventory[k];
      if item.slot == "" then p
      else
        var displaced := Displaced(p.equipped, item.slot);
        RemoveBeforeAdded(p.inventory, k, displaced);
        p.(equipped := PutInSlot(p.equipped, item.slot, item),
           inventory := RemoveFirst(p.inventory + displaced, item))
  }

  /** Everything the player owns, carried or worn, with multiplicity. */
  function Belongings(p: Player): multiset<Item>
  {
    multiset(p.inventory) + multiset(Worn(p.equipped))
  }

  /** Storing an item under a slot adds it to what is worn and takes away what
      the slot held. */
  lemma WornAfterPut(equipped: seq<SlotEntry>, slot: string, item: Item)
    ensures multiset(Worn(PutInSlot(equipped, slot, item))) + multiset(Displaced(equipped, slot))
         == multiset(Worn(equipped)) + multiset{item}
  {
    match SlotIndex(equipped, slot)
    case Some(j) =>
      assert Displaced(equipped, slot) == [equipped[j].item];
      assert Worn(PutInSlot(equipped, slot, item)) == Worn(equipped)[j := item];
      MultisetUpdate(Worn(equipped), j, item);
    case None =>
      assert Displaced(equipped, slot) == [];
      assert Worn(PutInSlot(equipped, slot, item)) == Worn(equipped) + [item];
  }

  /** Equipping only moves items between the inventory and the slots: the
      player owns the same items, each slot holds at most one, and the chosen
      item is then the one read from its slot. */
  lemma EquipConserves(p: Player, query: string)
    requires UniqueSlots(p.equipped)
    ensures Belongings(EquipItem(p, query)) == Belongings(p)
    ensures UniqueSlots(EquipItem(p, query).equipped)
    ensures FirstMatch(p.inventory, query).Some? && p.inventory[FirstMatch(p.inventory, query).value].slot != "" ==>
      var item := p.inventory[FirstMatch(p.inventory, query).value];
      GetEquippedItemBySlot(EquipItem(p, query).equipped, item.slot) == Some(item)
  {
    match FirstMatch(p.inventory, query)
    case None =>
    case Some(k) =>
      var item := p.inventory[k];
      if item.slot != "" {
        PutThenGet(p.equipped, item.slot, item, item.slot);
        EquipMoves(p, k);
      }
  }

  /** Storing the carried item at position `k` under its slot, the displaced
      item going back to the inventory, keeps what the player owns. */
  lemma EquipMoves(p: Player, k: nat)
    requires k < |p.inventory|
    ensures var item := p.inventory[k];
      Belongings(p.(equipped := PutInSlot(p.equipped, item.slot, item),
                    inventory := p.inventory[..k] + p.inventory[k + 1..] + Displaced(p.equipped, item.slot)))
      == Belongings(p)
  {
    var item := p.inventory[k];
    var rest := p.inventory[..k] + p.inventory[k + 1..];
    var displaced := Displaced(p.equipped, item.slot);
    var worn := multiset(Worn(PutInSlot(p.equipped, item.slot, item)));
    WornAfterPut(p.equipped, item.slot, item);
    MultisetSplit(p.inventory, k);
    calc {
      multiset(rest + displaced) + worn;
      multiset(rest) + (worn + multiset(displaced));
      multiset(rest) + (multiset(Worn(p.equipped)) + multiset{item});
      (multiset(rest) + multiset{item}) + multiset(Worn(p.equipped));
      multiset(p.inventory) + multiset(Worn(p.equipped));
    }
  }

  // ---------------------------------------------------------------------------
  // Monsters of the player's room
  // ---------------------------------------------------------------------------

  /** A room's monster name stands for a monster whose own name contains the
      query, ignoring case. */
  predicate MonsterNamed(monsters: seq<Monster>, name: string, query: string)
  {
    MonsterDatabase.GetMonsterByName(monsters, name).Some?
    && NameMatches(monsters[MonsterDatabase.GetMonsterByName(monsters, name).value].name, query)
  }

  /** Position in the room's list of the first monster matching the query. */
  function FirstMonster(monsters: seq<Monster>, names: seq<string>, query: string): (r: Option<nat>)
    ensures r.Some? ==> r.value < |names| && MonsterNamed(monsters, names[r.value], query)
    ensures r.Some? ==> forall j :: 0 <= j < r.value ==> !MonsterNamed(monsters, names[j], query)
    ensures r.None? <==> forall j :: 0 <= j < |names| ==> !MonsterNamed(monsters, names[j], query)
  {
    FirstIndex(names, (n: string) => MonsterNamed(monsters, n, query))
  }

  /** `Kill(query)`: the first matching monster of the room has one listing of
      its own name removed from the room (an exact, case-sensitive match) and
      its item names join the floor. The monster's record is left as it is. */
  function KillIn(room: Room, monsters: seq<Monster>, query: string): (r: Room)
    ensures FirstMonster(monsters, room.monsterNames, query).None? ==> r == room
    ensures FirstMonster(monsters, room.monsterNames, query).Some? ==>
      var m := monsters[MonsterDatabase.GetMonsterByName(monsters,
                          room.monsterNames[FirstMonster(monsters, room.monsterNames, query).value]).value];
      r == room.(monsterNames := RemoveFirst(room.monsterNames, m.name),
                 itemNames := room.itemNames + m.itemNames)
  {
    match FirstMonster(monsters, room.monsterNames, query)
    case None => room
    case Some(k) =>
      var m := monsters[MonsterDatabase.GetMonsterByName(monsters, room.monsterNames[k]).value];
      room.(monsterNames := RemoveFirst(room.monsterNames, m.name), itemNames := room.itemNames + m.itemNames)
  }

  /** When the room lists the victim under its exact name, killing it removes
      exactly that listing and no other; the names left are among those there
      before in every case. */
  lemma KillRemovesVictim(room: Room, monsters: seq<Monster>, query: string)
    ensures multiset(KillIn(room, monsters, query).monsterNames) <= multiset(room.monsterNames)
    ensures FirstMonster(monsters, room.monsterNames, query).Some? ==>
      var k := FirstMonster(monsters, room.monsterNames, query).value;
      monsters[MonsterDatabase.GetMonsterByName(monsters, room.monsterNames[k]).value].name == room.monsterNames[k] ==>
      KillIn(room, monsters, query).monsterNames == room.monsterNames[..k] + room.monsterNames[k + 1..]
  {
    match FirstMonster(monsters, room.monsterNames, query)
    case None =>
    case Some(k) =>
      var names := room.monsterNames;
      var m := monsters[MonsterDatabase.GetMonsterByName(monsters, names[k]).value];
      var rest := RemoveFirst(names, m.name);
      assert KillIn(room, monsters, query).monsterNames == rest;
      RemoveFirstMultiset(names, m.name);
      assert multiset(rest) <= multiset(names);
      if m.name == names[k] {
        RemoveFirstAt(names, k);
      }
  }

  /** The monster id of the first room monster matching the query: the one
      `AttackMonster` starts combat with. */
  function Foe(monsters: seq<Monster>, names: seq<string>, query: string): (r: Option<nat>)
    ensures r.Some? ==> r.value < |monsters| && NameMatches(monsters[r.value].name, query)
    ensures r.Some? ==>
      exists k :: 0 <= k < |names| && MonsterDatabase.GetMonsterByName(monsters, names[k]) == r
                                    && forall j :: 0 <= j < k ==> !MonsterNamed(monsters, names[j], query)
    ensures r.None? <==> forall j :: 0 <= j < |names| ==> !MonsterNamed(monsters, names[j], query)
  {
    match FirstMonster(monsters, names, query)
    case None => None
    case Some(k) => MonsterDatabase.GetMonsterByName(monsters, names[k])
  }

  // ---------------------------------------------------------------------------
  // Selling and giving
  // ---------------------------------------------------------------------------

  /** A room's monster name stands for a shopkeeper whose name contains the
      query, ignoring case. */
  predicate ShopNamed(monsters: seq<Monster>, name: string, query: string)
  {
    MonsterNamed(monsters, name, query)
    && monsters[MonsterDatabase.GetMonsterByName(monsters, name).value].shopKeeper
  }

  /** The monster id of the first room monster that is a shopkeeper matching
      the query. */
  function Shopkeeper(monsters: seq<Monster>, names: seq<string>, query: string): (r: Option<nat>)
    ensures r.Some? ==>
      r.value < |monsters| && monsters[r.value].shopKeeper && NameMatches(monsters[r.value].name, query)
    ensures r.Some? ==>
      exists k :: 0 <= k < |names| && MonsterDatabase.GetMonsterByName(monsters, names[k]) == r
                                    && forall j :: 0 <= j < k ==> !ShopNamed(monsters, names[j], query)
    ensures r.None? <==> forall j :: 0 <= j < |names| ==> !ShopNamed(monsters, names[j], query)
  {
    match FirstIndex(names, (n: string) => ShopNamed(monsters, n, query))
    case None => None
    case Some(k) => MonsterDatabase.GetMonsterByName(monsters, names[k])
  }

  /** The carried item at position `k` goes to monster `id`: it leaves the
      inventory and its name joins the end of the monster's item names; the
      seller is paid its value when `paid` holds. */
  function HandOver(p: Purse, id: nat, k: nat, paid: bool): (r: Purse)
    requires id < |p.monsters| && k < |p.inventory|
    requires forall j :: 0 <= j < k ==> p.inventory[j] != p.inventory[k]
    ensures r.monsters == p.monsters[id := p.monsters[id].(itemNames := p.monsters[id].itemNames + [p.inventory[k].name])]
    ensures r.gold == if paid then p.gold + p.inventory[k].value else p.gold
    ensures r.inventory == p.inventory[..k] + p.inventory[k + 1..]
  {
    var item := p.inventory[k];
    RemoveFirstAt(p.inventory, k);
    var m := p.monsters[id];
    Purse(p.monsters[id := m.(itemNames := m.itemNames + [item.name])],
          if paid then p.gold + item.value else p.gold,
          RemoveFirst(p.inventory, item))
  }

  /** `Sell(itemQuery, monsterQuery)`: when some shopkeeper of the room matches
      the monster query and some carried item matches the item query, the
      first such item goes to the first such shopkeeper for its value. */
  function SellTo(p: Purse, names: seq<string>, itemQuery: string, monsterQuery: string): (r: Purse)
    ensures Shopkeeper(p.monsters, names, monsterQuery).None? || FirstMatch(p.inventory, itemQuery).None? ==>
      r == p
    ensures Shopkeeper(p.monsters, names, monsterQuery).Some? && FirstMatch(p.inventory, itemQuery).Some? ==>
      var id := Shopkeeper(p.monsters, names, monsterQuery).value;
      var k := FirstMatch(p.inventory, itemQuery).value;
      && r.inventory == p.inventory[..k] + p.inventory[k + 1..]
      && r.gold == p.gold + p.inventory[k].value
      && r.monsters == p.monsters[id := p.monsters[id].(itemNames := p.monsters[id].itemNames + [p.inventory[k].name])]
  {
    match Shopkeeper(p.monsters, names, monsterQuery)
    case None => p
    case Some(id) =>
      match FirstMatch(p.inventory, itemQuery)
      case None => p
      case Some(k) => HandOver(p, id, k, true)
  }

  /** `Give(itemQuery, monsterQuery)`: as selling, to the first monster of the
      room matching the query, shopkeeper or not, and for nothing. */
  function GiveTo(p: Purse, names: seq<string>, itemQuery: string, monsterQuery: string): (r: Purse)
    ensures r.gold == p.gold
    ensures Foe(p.monsters, names, monsterQuery).None? || FirstMatch(p.inventory, itemQuery).None? ==> r == p
    ensures Foe(p.monsters, names, monsterQuery).Some? && FirstMatch(p.inventory, itemQuery).Some? ==>
      var id := Foe(p.monsters, names, monsterQuery).value;
      var k := FirstMatch(p.inventory, itemQuery).value;
      && r.inventory == p.inventory[..k] + p.inventory[k + 1..]
      && r.monsters == p.monsters[id := p.monsters[id].(itemNames := p.monsters[id].itemNames + [p.inventory[k].name])]
  {
    match Foe(p.monsters, names, monsterQuery)
    case None => p
    case Some(id) =>
      match FirstMatch(p.inventory, itemQuery)
      case None => p
      case Some(k) => HandOver(p, id, k, false)
  }

  /** Handing an item over moves its name from the inventory to the monster's
      stock, and changes the player's wealth by exactly the value given up
      unless it is paid for. */
  lemma HandOverConserves(p: Purse, id: nat, k: nat, paid: bool)
    requires id < |p.monsters| && k < |p.inventory|
    requires forall j :: 0 <= j < k ==> p.inventory[j] != p.inventory[k]
    ensures Goods(HandOver(p, id, k, paid)) == Goods(p)
    ensures Wealth(HandOver(p, id, k, paid)) == if paid then Wealth(p) else Wealth(p) - p.inventory[k].value
  {
    var r := HandOver(p, id, k, paid);
    WorthRemove(p.inventory, k);
    HandOverGoods(p.monsters, p.inventory, id, k, r);
  }

  lemma HandOverGoods(monsters: seq<Monster>, inventory: seq<Item>, id: nat, k: nat, r: Purse)
    requires id < |monsters| && k < |inventory|
    requires r.monsters == monsters[id := monsters[id].(itemNames := monsters[id].itemNames + [inventory[k].name])]
    requires r.inventory == inventory[..k] + inventory[k + 1..]
    ensures multiset(Stock(r.monsters)) + multiset(Names(r.inventory))
         == multiset(Stock(monsters)) + multiset(Names(inventory))
  {
    var n := inventory[k].name;
    StockGains(monsters, id, n);
    NamesRemove(inventory, k);
    MultisetSplit(Names(inventory), k);
  }

  /** Adding a name to one monster's items adds exactly that name to the
      stock. */
  lemma StockGains(monsters: seq<Monster>, id: nat, n: string)
    requires id < |monsters|
    ensures multiset(Stock(monsters[id := monsters[id].(itemNames := monsters[id].itemNames + [n])]))
         == multiset(Stock(monsters)) + multiset{n}
  {
    var names := monsters[id].itemNames;
    StockUpdate(monsters, id, names + [n]);
    var after := multiset(Stock(monsters[id := monsters[id].(itemNames := names + [n])]));
    MultisetCancel(after, multiset(Stock(monsters)) + multiset{n}, multiset(names));
  }

  /** A sale conserves the player's wealth and the goods in play. */
  lemma SellConserves(p: Purse, names: seq<string>, itemQuery: string, monsterQuery: string)
    ensures Wealth(SellTo(p, names, itemQuery, monsterQuery)) == Wealth(p)
    ensures Goods(SellTo(p, names, itemQuery, monsterQuery)) == Goods(p)
  {
    match Shopkeeper(p.monsters, names, monsterQuery)
    case None =>
      assert SellTo(p, names, itemQuery, monsterQuery) == p;
    case Some(id) =>
      match FirstMatch(p.inventory, itemQuery)
      case None =>
        assert SellTo(p, names, itemQuery, monsterQuery) == p;
      case Some(k) =>
        assert SellTo(p, names, itemQuery, monsterQuery) == HandOver(p, id, k, true);
        HandOverConserves(p, id, k, true);
  }

  /** A gift conserves the goods in play and the player's gold, and costs the
      player exactly the value of the item given. */
  lemma GiveConserves(p: Purse, names: seq<string>, itemQuery: string, monsterQuery: string)
    ensures Goods(GiveTo(p, names, itemQuery, monsterQuery)) == Goods(p)
    ensures Foe(p.monsters, names, monsterQuery).Some? && FirstMatch(p.inventory, itemQuery).Some? ==>
      Wealth(GiveTo(p, names, itemQuery, monsterQuery))
      == Wealth(p) - p.inventory[FirstMatch(p.inventory, itemQuery).value].value
  {
    match Foe(p.monsters, names, monsterQuery)
    case None =>
      assert GiveTo(p, names, itemQuery, monsterQuery) == p;
    case Some(id) =>
      match FirstMatch(p.inventory, itemQuery)
      case None =>
        assert GiveTo(p, names, itemQuery, monsterQuery) == p;
      case Some(k) =>
        assert GiveTo(p, names, itemQuery, monsterQuery) == HandOver(p, id, k, false);
        HandOverConserves(p, id, k, false);
  }

  // ---------------------------------------------------------------------------
  // Examining and valuing
  // ---------------------------------------------------------------------------

  /** The description shown for a query, searching in order the floor's items,
      the carried items, a third list of items, the room's objects and the
      room's monsters; None stands for "You don't see". */
  function DescriptionIn(items: seq<Item>, room: Room, monsters: seq<Monster>, carried: seq<Item>,
                         third: seq<Item>, query: string): Option<string>
  {
    var floor := ResolveItems(items, room.itemNames);
    if FirstMatch(floor, query).Some? then Some(floor[FirstMatch(floor, query).value].description)
    else if FirstMatch(carried, query).Some? then Some(carried[FirstMatch(carried, query).value].description)
    else if FirstMatch(third, query).Some? then Some(third[FirstMatch(third, query).value].description)
    else if ObjectAt(room, query).Some? then Some(room.interactableObjects[ObjectAt(room, query).value].description)
    else if Foe(monsters, room.monsterNames, query).Some? then Some(monsters[Foe(monsters, room.monsterNames, query).value].description)
    else None
  }

  /** `Examine(query)` as written: the search meant for the equipped items
      searches the inventory a second time. */
  function ExamineAsWritten(items: seq<Item>, room: Room, monsters: seq<Monster>, p: Player, query: string): (r: Option<string>)
    ensures r.None? <==>
      && FirstMatch(ResolveItems(items, room.itemNames), query).None? && FirstMatch(p.inventory, query).None?
      && ObjectAt(room, query).None? && Foe(monsters, room.monsterNames, query).None?
    ensures var floor, f := ResolveItems(items, room.itemNames), FirstMatch(ResolveItems(items, room.itemNames), query);
      f.Some? ==> r == Some(floor[f.value].description)
    ensures var f, c := FirstMatch(ResolveItems(items, room.itemNames), query), FirstMatch(p.inventory, query);
      f.None? && c.Some? ==> r == Some(p.inventory[c.value].description)
    ensures var f, c := FirstMatch(ResolveItems(items, room.itemNames), query), FirstMatch(p.inventory, query);
      var o := ObjectAt(room, query);
      f.None? && c.None? && o.Some? ==> r == Some(room.interactableObjects[o.value].description)
    ensures var f, c := FirstMatch(ResolveItems(items, room.itemNames), query), FirstMatch(p.inventory, query);
      var o, m := ObjectAt(room, query), Foe(monsters, room.monsterNames, query);
      f.None? && c.None? && o.None? && m.Some? ==> r == Some(monsters[m.value].description)
  {
    DescriptionIn(items, room, monsters, p.inventory, p.inventory, query)
  }

  /** `Examine(query)` as intended: the third search covers the equipped items. */
  function Examine(items: seq<Item>, room: Room, monsters: seq<Monster>, p: Player, query: string): (r: Option<string>)
    ensures r.None? <==>
      && FirstMatch(ResolveItems(items, room.itemNames), query).None? && FirstMatch(p.inventory, query).None?
      && FirstMatch(Worn(p.equipped), query).None?
      && ObjectAt(room, query).None? && Foe(monsters, room.monsterNames, query).None?
    ensures var floor, f := ResolveItems(items, room.itemNames), FirstMatch(ResolveItems(items, room.itemNames), query);
      f.Some? ==> r == Some(floor[f.value].description)
    ensures var f, c := FirstMatch(ResolveItems(items, room.itemNames), query), FirstMatch(p.inventory, query);
      f.None? && c.Some? ==> r == Some(p.inventory[c.value].description)
    ensures var f, c := FirstMatch(ResolveItems(items, room.itemNames), query), FirstMatch(p.inventory, query);
      var w := FirstMatch(Worn(p.equipped), query);
      f.None? && c.None? && w.Some? ==> r == Some(p.equipped[w.value].item.description)
    ensures var f, c := FirstMatch(ResolveItems(items, room.itemNames), query), FirstMatch(p.inventory, query);
      var w, o := FirstMatch(Worn(p.equipped), query), ObjectAt(room, query);
      f.None? && c.None? && w.None? && o.Some? ==> r == Some(room.interactableObjects[o.value].description)
    ensures var f, c := FirstMatch(ResolveItems(items, room.itemNames), query), FirstMatch(p.inventory, query);
      var w, o, m := FirstMatch(Worn(p.equipped), query), ObjectAt(room, query), Foe(monsters, room.monsterNames, query);
      f.None? && c.None? && w.None? && o.None? && m.Some? ==> r == Some(monsters[m.value].description)
  {
    DescriptionIn(items, room, monsters, p.inventory, Worn(p.equipped), query)
  }

  /** As written, what the player wears can never be examined: the answer is
      the same as for a player wearing nothing. */
  lemma ExamineAsWrittenIgnoresEquipment(items: seq<Item>, room: Room, monsters: seq<Monster>, p: Player, query: string)
    ensures ExamineAsWritten(items, room, monsters, p, query)
         == ExamineAsWritten(items, room, monsters, p.(equipped := []), query)
  {
  }

  /** As intended, an equipped item that nothing on the floor or in the
      inventory shadows is described. */
  lemma ExamineSeesEquipment(items: seq<Item>, room: Room, monsters: seq<Monster>, p: Player, query: string)
    requires FirstMatch(ResolveItems(items, room.itemNames), query).None?
    requires FirstMatch(p.inventory, query).None?
    requires FirstMatch(Worn(p.equipped), query).Some?
    ensures Examine(items, room, monsters, p, query)
         == Some(p.equipped[FirstMatch(Worn(p.equipped), query).value].item.description)
  {
  }

  /** The answer `Value` gives about a found item: the item itself when it is
      worth something, "no monetary value" otherwise. */
  function Priced(item: Item): (r: Option<Item>)
    ensures r.Some? <==> item.value > 0
    ensures r.Some? ==> r.value == item
  {
    if item.value > 0 then Some(item) else None
  }

  /** The item `Value` reports, searching in order the floor's items, the
      carried items and a third list; None stands for "no monetary value",
      which is also the answer for an item worth nothing or less. */
  function AppraisalIn(items: seq<Item>, floorNames: seq<string>, carried: seq<Item>, third: seq<Item>,
                       query: string): (r: Option<Item>)
    ensures r.Some? ==> r.value.value > 0 && NameMatches(r.value.name, query)
    ensures r.Some? ==> r.value in ResolveItems(items, floorNames) || r.value in carried || r.value in third
    ensures var floor, f := ResolveItems(items, floorNames), FirstMatch(ResolveItems(items, floorNames), query);
      f.Some? ==> r == Priced(floor[f.value])
    ensures var f, c := FirstMatch(ResolveItems(items, floorNames), query), FirstMatch(carried, query);
      f.None? && c.Some? ==> r == Priced(carried[c.value])
    ensures var f, c := FirstMatch(ResolveItems(items, floorNames), query), FirstMatch(carried, query);
      var t := FirstMatch(third, query);
      f.None? && c.None? && t.Some? ==> r == Priced(third[t.value])
    ensures var f, c := FirstMatch(ResolveItems(items, floorNames), query), FirstMatch(carried, query);
      var t := FirstMatch(third, query);
      f.None? && c.None? && t.None? ==> r.None?
  {
    var floor := ResolveItems(items, floorNames);
    if FirstMatch(floor, query).Some? then Priced(floor[FirstMatch(floor, query).value])
    else if FirstMatch(carried, query).Some? then Priced(carried[FirstMatch(carried, query).value])
    else if FirstMatch(third, query).Some? then Priced(third[FirstMatch(third, query).value])
    else None
  }

  /** `Value(query)` as written: the search meant for the equipped items
      searches the inventory a second time. */
  function ValueAsWritten(items: seq<Item>, floorNames: seq<string>, p: Player, query: string): (r: Option<Item>)
    ensures r.Some? ==> r.value.value > 0 && NameMatches(r.value.name, query)
    ensures r.Some? ==> r.value in ResolveItems(items, floorNames) || r.value in p.inventory
    ensures var floor, f := ResolveItems(items, floorNames), FirstMatch(ResolveItems(items, floorNames), query);
      f.Some? ==> r == Priced(floor[f.value])
    ensures var f, c := FirstMatch(ResolveItems(items, floorNames), query), FirstMatch(p.inventory, query);
      f.None? && c.Some? ==> r == Priced(p.inventory[c.value])
    ensures var f, c := FirstMatch(ResolveItems(items, floorNames), query), FirstMatch(p.inventory, query);
      f.None? && c.None? ==> r.None?
  {
    AppraisalIn(items, floorNames, p.inventory, p.inventory, query)
  }

  /** `Value(query)` as intended: the third search covers the equipped items. */
  function Value(items: seq<Item>, floorNames: seq<string>, p: Player, query: string): (r: Option<Item>)
    ensures r.Some? ==> r.value.value > 0 && NameMatches(r.value.name, query)
    ensures r.Some? ==> r.value in ResolveItems(items, floorNames) || r.value in p.inventory
                        || exists j :: 0 <= j < |p.equipped| && p.equipped[j].item == r.value
    ensures var floor, f := ResolveItems(items, floorNames), FirstMatch(ResolveItems(items, floorNames), query);
      f.Some? ==> r == Priced(floor[f.value])
    ensures var f, c := FirstMatch(ResolveItems(items, floorNames), query), FirstMatch(p.inventory, query);
      f.None? && c.Some? ==> r == Priced(p.inventory[c.value])
    ensures var f, c := FirstMatch(ResolveItems(items, floorNames), query), FirstMatch(p.inventory, query);
      var w := FirstMatch(Worn(p.equipped), query);
      f.None? && c.None? && w.Some? ==> r == Priced(p.equipped[w.value].item)
    ensures var f, c := FirstMatch(ResolveItems(items, floorNames), query), FirstMatch(p.inventory, query);
      var w := FirstMatch(Worn(p.equipped), query);
      f.None? && c.None? && w.None? ==> r.None?
  {
    AppraisalIn(items, floorNames, p.inventory, Worn(p.equipped), query)
  }

  /** As written, what the player wears is never valued. */
  lemma ValueAsWrittenIgnoresEquipment(items: seq<Item>, floorNames: seq<string>, p: Player, query: string)
    ensures ValueAsWritten(items, floorNames, p, query) == ValueAsWritten(items, floorNames, p.(equipped := []), query)
  {
  }

  /** As intended, an equipped item of positive value that nothing on the floor
      or in the inventory shadows is valued. */
  lemma ValueSeesEquipment(items: seq<Item>, floorNames: seq<string>, p: Player, query: string)
    requires FirstMatch(ResolveItems(items, floorNames), query).None?
    requires FirstMatch(p.inventory, query).None?
    requires FirstMatch(Worn(p.equipped), query).Some?
    requires p.equipped[FirstMatch(Worn(p.equipped), query).value].item.value > 0
    ensures Value(items, floorNames, p, query) == Some(p.equipped[FirstMatch(Worn(p.equipped), query).value].item)
  {
  }

  /** What `Consider` reports: the monster's health and whether it scowls (is
      aggressive) or regards the player indifferently; that no such monster is
      seen; or the null dereference that ends the command. */
  datatype Reading = Regards(health: int, hostile: bool) | NotSeen | Crash

  /** `Consider(query)` as written: the health of the first room monster
      matching the query is logged before the check for no match, so an
      unmatched query dereferences null and the "not seen" answer is never
      given. */
  function ConsiderAsWritten(monsters: seq<Monster>, names: seq<string>, query: string): (r: Reading)
    ensures r != NotSeen
    ensures r.Regards? ==> exists id :: 0 <= id < |monsters| && NameMatches(monsters[id].name, query)
                                       && r == Regards(monsters[id].health, monsters[id].aggressive)
    ensures Foe(monsters, names, query).Some? ==>
      r == Regards(monsters[Foe(monsters, names, query).value].health,
                   monsters[Foe(monsters, names, query).value].aggressive)
    ensures Foe(monsters, names, query).None? ==> r == Crash
  {
    match Foe(monsters, names, query)
    case None => Crash
    case Some(id) => Regards(monsters[id].health, monsters[id].aggressive)
  }

  /** `Consider(query)` as intended: with no match, the monster is not seen. */
  function Consider(monsters: seq<Monster>, names: seq<string>, query: string): (r: Reading)
    ensures r != Crash
    ensures r.Regards? ==> exists id :: 0 <= id < |monsters| && NameMatches(monsters[id].name, query)
                                       && r == Regards(monsters[id].health, monsters[id].aggressive)
    ensures Foe(monsters, names, query).Some? ==>
      r == Regards(monsters[Foe(monsters, names, query).value].health,
                   monsters[Foe(monsters, names, query).value].aggressive)
    ensures Foe(monsters, names, query).None? ==> r == NotSeen
  {
    match Foe(monsters, names, query)
    case None => NotSeen
    case Some(id) => Regards(monsters[id].health, monsters[id].aggressive)
  }

  /** As written, the command fails exactly when no monster of the room
      matches, and never reports that none is seen. */
  lemma ConsiderAsWrittenCrashes(monsters: seq<Monster>, names: seq<string>, query: string)
    ensures ConsiderAsWritten(monsters, names, query) != NotSeen
    ensures ConsiderAsWritten(monsters, names, query) == Crash
        <==> forall j :: 0 <= j < |names| ==> !MonsterNamed(monsters, names[j], query)
  {
  }

  /** As intended, the command never fails: it agrees with the code as written
      whenever a monster matches, and otherwise reports that none is seen. A
      reading names a monster of the room matching the query. */
  lemma ConsiderNeverCrashes(monsters: seq<Monster>, names: seq<string>, query: string)
    ensures Consider(monsters, names, query) != Crash
    ensures ConsiderAsWritten(monsters, names, query) != Crash
        ==> Consider(monsters, names, query) == ConsiderAsWritten(monsters, names, query)
    ensures Consider(monsters, names, query) == NotSeen
        <==> forall j :: 0 <= j < |names| ==> !MonsterNamed(monsters, names[j], query)
    ensures Consider(monsters, names, query).Regards? ==>
      exists id :: 0 <= id < |monsters| && NameMatches(monsters[id].name, query)
        && Consider(monsters, names, query) == Regards(monsters[id].health, monsters[id].aggressive)
        && exists k :: 0 <= k < |names| && MonsterDatabase.GetMonsterByName(monsters, names[k]) == Some(id)
  {
  }

  /** In a room without monsters, considering anything fails as written and
      reports "not seen" as intended. */
  lemma ConsiderEmptyRoom(monsters: seq<Monster>, query: string)
    ensures ConsiderAsWritten(monsters, [], query) == Crash
    ensures Consider(monsters, [], query) == NotSeen
  {
  }

  /** A player carrying nothing, in a room with nothing in it, asks about an
      item they wear: as written it is neither seen nor valued; as intended it
      is described, and valued when it is worth something. */
  lemma WornItemIsInvisible(items: seq<Item>, room: Room, monsters: seq<Monster>, p: Player, query: string)
    requires room.itemNames == [] && room.interactableObjects == [] && room.monsterNames == []
    requires p.inventory == [] && FirstMatch(Worn(p.equipped), query).Some?
    ensures var worn := p.equipped[FirstMatch(Worn(p.equipped), query).value].item;
      && ExamineAsWritten(items, room, monsters, p, query) == None
      && Examine(items, room, monsters, p, query) == Some(worn.description)
      && ValueAsWritten(items, room.itemNames, p, query) == None
      && (worn.value > 0 ==> Value(items, room.itemNames, p, query) == Some(worn))
  {
    assert ResolveItems(items, room.itemNames) == [];
  }

  /** The smallest instance: a player carrying nothing and wielding a sword, in
      an empty room. */
  lemma WieldedSwordIsInvisible()
    ensures var sword := Item("sword", "A sharp blade.", "weapon", 5, 10);
      var p := Player([], [SlotEntry("weapon", sword)], 0, false, 100, 100, false, 100, 100, []);
      var hall := Room("hall", "", "", "", [], [], [], [], None);
      && ExamineAsWritten([sword], hall, [], p, "sword") == None
      && Examine([sword], hall, [], p, "sword") == Some("A sharp blade.")
      && ValueAsWritten([sword], [], p, "sword") == None
      && Value([sword], [], p, "sword") == Some(sword)
  {
    var sword := Item("sword", "A sharp blade.", "weapon", 5, 10);
    var p := Player([], [SlotEntry("weapon", sword)], 0, false, 100, 100, false, 100, 100, []);
    var hall := Room("hall", "", "", "", [], [], [], [], None);
    assert Lower("sword") == "sword";
    ContainsSelf("sword");
    assert Worn(p.equipped) == [sword];
    assert FirstMatch([sword], "sword") == Some(0);
    WornItemIsInvisible([sword], hall, [], p, "sword");
  }
}
