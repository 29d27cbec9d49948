/** The content records of the game: items, spells, interactable objects, rooms
    with their exits, and monsters. In the game these are plain records loaded
    from content files; the model keeps them as values, and the session (module
    Game) stores the rooms and monsters and replaces a record to update it. */
module Content {
  import opened Base

  /** An item. `slot` is "" for an item that cannot be equipped: a null slot and
      an empty one are treated alike everywhere the game reads it. */
  datatype Item = Item(name: string, description: string, slot: string, power: int, value: int)

  datatype SpellType = Heal | Nuke

  datatype TargetType = Self | Other | AOE

  datatype Spell = Spell(name: string, description: string, spellType: SpellType,
                         target: TargetType, power: int, manaCost: int)

  /** An object in a room; `interactionItemName` is the one-shot reward. */
  datatype InteractableObject = InteractableObject(name: string, description: string,
                                                   interactionItemName: Option<string>)

  datatype RoomExit = RoomExit(direction: string, roomId: string, locked: bool,
                               requiredItem: Option<string>)

  /** A room. `flags` is None until content supplies a flag list. */
  datatype Room = Room(name: string, description: string, longDescription: string,
                       picture: string, exits: seq<RoomExit>,
                       interactableObjects: seq<InteractableObject>,
                       itemNames: seq<string>, monsterNames: seq<string>,
                       flags: Option<seq<string>>)

  datatype Monster = Monster(name: string, description: string, aggressive: bool,
                             shopKeeper: bool, itemNames: seq<string>,
                             equippedItemNames: seq<string>, wanders: bool,
                             health: int, maxHealth: int, mana: int, maxMana: int,
                             dead: bool, inCombat: bool, spellNames: seq<string>)

  /** `new RoomExit(direction, roomId, locked, requiredItem)` with its defaults. */
  function NewExit(direction: string, roomId: string, locked: bool := false,
                   requiredItem: Option<string> := None): (e: RoomExit)
    ensures e.direction == direction && e.roomId == roomId
    ensures e.locked == locked && e.requiredItem == requiredItem
  {
    RoomExit(direction, roomId, locked, requiredItem)
  }

  /** `new Room()`: every list empty except `Flags`, which stays null. */
  function NewRoom(): (r: Room)
    ensures r.exits == [] && r.interactableObjects == []
    ensures r.itemNames == [] && r.monsterNames == []
    ensures r.flags.None?
  {
    Room("", "", "", "", [], [], [], [], None)
  }

  /** `new Monster(...)`: full health and mana, alive, out of combat, owning,
      wearing and knowing nothing. */
  function NewMonster(name: string, description: string, aggressive: bool := false,
                      shopKeeper: bool := false, wanders: bool := false): (m: Monster)
    ensures m.name == name && m.description == description
    ensures m.aggressive == aggressive && m.shopKeeper == shopKeeper && m.wanders == wanders
    ensures m.health == m.maxHealth == 100 && m.mana == m.maxMana == 100
    ensures !m.dead && !m.inCombat
    ensures m.itemNames == [] && m.equippedItemNames == [] && m.spellNames == []
  {
    Monster(name, description, aggressive, shopKeeper, [], [], wanders,
            100, 100, 100, 100, false, false, [])
  }

  // ---------------------------------------------------------------------------
  // Room queries and exit updates
  // ---------------------------------------------------------------------------

  /** Position of the first exit whose direction is exactly `direction`. */
  function ExitIndex(exits: seq<RoomExit>, direction: string): (r: Option<nat>)
    ensures r.Some? ==> r.value < |exits| && exits[r.value].direction == direction
    ensures r.Some? ==> forall j :: 0 <= j < r.value ==> exits[j].direction != direction
    ensures r.None? <==> forall j :: 0 <= j < |exits| ==> exits[j].direction != direction
  {
    FirstIndex(exits, (e: RoomExit) => e.direction == direction)
  }

  /** At most one exit per direction. */
  ghost predicate UniqueDirections(exits: seq<RoomExit>)
  {
    forall i, j :: 0 <= i < j < |exits| ==> exits[i].direction != exits[j].direction
  }

  /** `Room.SetExit` on the exit list: an existing exit in that direction is
      redirected (its lock and key are kept), otherwise an unlocked exit is
      appended. */
  function SetExit(exits: seq<RoomExit>, direction: string, roomId: string): (r: seq<RoomExit>)
    ensures |exits| <= |r| <= |exits| + 1
    ensures ExitIndex(exits, direction).Some? ==>
      var k := ExitIndex(exits, direction).value;
      r == exits[k := exits[k].(roomId := roomId)]
    ensures ExitIndex(exits, direction).None? ==>
      r == exits + [NewExit(direction, roomId)]
  {
    match ExitIndex(exits, direction)
    case Some(k) => exits[k := exits[k].(roomId := roomId)]
    case None => exits + [NewExit(direction, roomId)]
  }

  /** SetExit keeps "at most one exit per direction", and afterwards the exit in
      that direction leads to `roomId`. */
  lemma SetExitKeepsUniqueDirections(exits: seq<RoomExit>, direction: string, roomId: string)
    requires UniqueDirections(exits)
    ensures UniqueDirections(SetExit(exits, direction, roomId))
    ensures var r := SetExit(exits, direction, roomId);
      ExitIndex(r, direction).Some? && r[ExitIndex(r, direction).value].roomId == roomId
  {
    var r := SetExit(exits, direction, roomId);
    var k := match ExitIndex(exits, direction) case Some(k) => k case None => |exits|;
    assert r[k].direction == direction && r[k].roomId == roomId;
    assert forall j :: 0 <= j < k ==> r[j].direction != direction;
    var v := ExitIndex(r, direction).value;
    assert v == k;
  }

  /** `Room.HasFlag`: some flag equals `flag` ignoring case. The source
      dereferences the flag list, so it must be present. */
  function HasFlag(room: Room, flag: string): (r: bool)
    requires room.flags.Some?
    ensures r <==> exists k :: 0 <= k < |room.flags.value| && EqualsIgnoreCase(room.flags.value[k], flag)
  {
    FirstIndex(room.flags.value, (f: string) => Lower(f) == Lower(flag)).Some?
  }

  /** `Room.GetExitDirection`: the direction of the first exit leading to the
      target room, or null (not the empty string the documentation mentions). */
  function GetExitDirection(room: Room, targetRoomName: string): (r: Option<string>)
    ensures r.None? <==> forall j :: 0 <= j < |room.exits| ==> room.exits[j].roomId != targetRoomName
    ensures r.Some? ==> exists j :: 0 <= j < |room.exits| && room.exits[j].roomId == targetRoomName
                                    && room.exits[j].direction == r.value
                                    && forall i :: 0 <= i < j ==> room.exits[i].roomId != targetRoomName
  {
    match FirstIndex(room.exits, (e: RoomExit) => e.roomId == targetRoomName)
    case Some(k) => Some(room.exits[k].direction)
    case None => None
  }

  /** The answer is determined: it is the direction of the first exit leading to
      the target room. */
  lemma GetExitDirectionIsFirst(room: Room, targetRoomName: string, k: nat)
    requires k < |room.exits| && room.exits[k].roomId == targetRoomName
    requires forall i :: 0 <= i < k ==> room.exits[i].roomId != targetRoomName
    ensures GetExitDirection(room, targetRoomName) == Some(room.exits[k].direction)
  {
    var r := GetExitDirection(room, targetRoomName);
    var j :| 0 <= j < |room.exits| && room.exits[j].roomId == targetRoomName
             && room.exits[j].direction == r.value
             && forall i :: 0 <= i < j ==> room.exits[i].roomId != targetRoomName;
    assert j == k;
  }
}
