/** Monsters wandering between rooms on each tick: a wanderer picks one of its
    room's exits at random and, unless the exit is locked against it, its name
    moves from its room's monster list to the list of the room the exit leads to.
    The random draws are parameters: `roll(j)` and `pick(j)` are the draws of the
    `j`-th wanderer. */
module Wander {
  import opened Base
  import opened Content

  /** `GameManager.GetOppositeDirection`: the six compass and vertical directions
      (lower-cased) have an opposite, every other direction gets null. */
  function GetOppositeDirection(direction: string): (r: Option<string>)
    ensures r.Some? <==> Lower(direction) in {"north", "south", "east", "west", "up", "down"}
    ensures r.Some? ==> r.value != Lower(direction)
  {
    var d := Lower(direction);
    if d == "north" then Some("south")
    else if d == "south" then Some("north")
    else if d == "east" then Some("west")
    else if d == "west" then Some("east")
    else if d == "up" then Some("down")
    else if d == "down" then Some("up")
    else None
  }

  /** The table is an involution: the opposite of the opposite is the direction
      itself, lower-cased. */
  lemma OppositeInvolution(direction: string)
    requires GetOppositeDirection(direction).Some?
    ensures GetOppositeDirection(GetOppositeDirection(direction).value) == Some(Lower(direction))
  {
    var o := GetOppositeDirection(direction).value;
    LowerDirections();
    assert Lower(o) == o;
  }

  /** The six directions are written in lower case. */
  lemma LowerDirections()
    ensures Lower("north") == "north" && Lower("south") == "south"
    ensures Lower("east") == "east" && Lower("west") == "west"
    ensures Lower("up") == "up" && Lower("down") == "down"
  {
    LowerPair("north", "south");
    LowerPair("east", "west");
    LowerPair("up", "down");
  }

  lemma LowerPair(a: string, b: string)
    requires forall i :: 0 <= i < |a| ==> 'a' <= a[i] <= 'z'
    requires forall i :: 0 <= i < |b| ==> 'a' <= b[i] <= 'z'
    ensures Lower(a) == a && Lower(b) == b
  {
    AlreadyLower(a);
    AlreadyLower(b);
  }

  /** "in" and "out", which the player can walk through, have no opposite here. */
  lemma InAndOutHaveNoOpposite()
    ensures GetOppositeDirection("in").None? && GetOppositeDirection("out").None?
  {
    assert Lower("in") == "in";
    assert Lower("out") == "out";
  }

  // ---------------------------------------------------------------------------
  // One wandering step
  // ---------------------------------------------------------------------------

  /** The first room whose monster list holds the name exactly. */
  function SourceRoom(rooms: seq<Room>, name: string): (r: Option<nat>)
    ensures r.Some? ==> r.value < |rooms| && name in rooms[r.value].monsterNames
    ensures r.Some? ==> forall j :: 0 <= j < r.value ==> name !in rooms[j].monsterNames
    ensures r.None? <==> forall i :: 0 <= i < |rooms| ==> name !in rooms[i].monsterNames
  {
    FirstIndex(rooms, (room: Room) => name in room.monsterNames)
  }

  /** The first room with exactly that name. */
  function RoomNamed(rooms: seq<Room>, name: string): (r: Option<nat>)
    ensures r.Some? ==> r.value < |rooms| && rooms[r.value].name == name
    ensures r.Some? ==> forall j :: 0 <= j < r.value ==> rooms[j].name != name
    ensures r.None? <==> forall i :: 0 <= i < |rooms| ==> rooms[i].name != name
  {
    FirstIndex(rooms, (room: Room) => room.name == name)
  }

  /** The exits that lead somewhere (a non-empty room id), in order. */
  function Available(exits: seq<RoomExit>): (r: seq<RoomExit>)
    ensures forall e :: e in r <==> e in exits && e.roomId != ""
    ensures |r| <= |exits|
  {
    if exits == [] then []
    else if exits[0].roomId != "" then [exits[0]] + Available(exits[1..])
    else Available(exits[1..])
  }

  /** The filter keeps the exits in their order: filtering two lists one after
      the other is filtering their concatenation. */
  lemma {:induction false} AvailableAppend(a: seq<RoomExit>, b: seq<RoomExit>)
    ensures Available(a + b) == Available(a) + Available(b)
    decreases |a|
  {
    if a != [] {
      assert (a + b)[0] == a[0];
      assert (a + b)[1..] == a[1..] + b;
      AvailableAppend(a[1..], b);
    } else {
      assert a + b == b;
    }
  }

  /** A monster may take an exit that is unlocked, or locked with a key it owns
      (a locked exit without a key name lets nobody through). */
  predicate Passable(m: Monster, e: RoomExit)
  {
    !e.locked || (e.requiredItem.Some? && e.requiredItem.value in m.itemNames)
  }

  /** The exit the draw `pick` selects from the monster's room, if it has any. */
  function ChosenExit(rooms: seq<Room>, m: Monster, pick: nat): (r: Option<RoomExit>)
    requires SourceRoom(rooms, m.name).Some?
    ensures r.Some? ==> r.value in rooms[SourceRoom(rooms, m.name).value].exits && r.value.roomId != ""
  {
    var avail := Available(rooms[SourceRoom(rooms, m.name).value].exits);
    if avail == [] then None else Some(avail[pick % |avail|])
  }

  /** The steps on which the game does not throw: the monster stands in some
      room; a passable exit it picks names an existing room; and, when that room
      is the one the player stands in (`here`), the arrival message can name the
      opposite direction. */
  ghost predicate MoveDefined(rooms: seq<Room>, m: Monster, pick: nat, here: string)
  {
    SourceRoom(rooms, m.name).Some?
    && match ChosenExit(rooms, m, pick)
       case None => true
       case Some(e) =>
         Passable(m, e) ==>
           RoomNamed(rooms, e.roomId).Some?
           && (e.roomId == here ==> GetOppositeDirection(e.direction).Some?)
  }

  /** Where the step takes the monster: nowhere when its room has no exit to a
      room or the chosen exit is locked against it; otherwise the room named by
      the exit. */
  function Destination(rooms: seq<Room>, m: Monster, pick: nat, here: string): (r: Option<nat>)
    requires MoveDefined(rooms, m, pick, here)
    ensures r.Some? ==> r.value < |rooms|
    ensures r.Some? <==> ChosenExit(rooms, m, pick).Some? && Passable(m, ChosenExit(rooms, m, pick).value)
    ensures r.Some? ==> rooms[r.value].name == ChosenExit(rooms, m, pick).value.roomId
  {
    match ChosenExit(rooms, m, pick)
    case None => None
    case Some(e) => if Passable(m, e) then RoomNamed(rooms, e.roomId) else None
  }

  /** Only the rooms' monster lists differ. */
  ghost predicate SameLayout(a: seq<Room>, b: seq<Room>)
  {
    |a| == |b| && forall i :: 0 <= i < |a| ==> b[i] == a[i].(monsterNames := b[i].monsterNames)
  }

  /** `MoveMonsterToRandomAdjoiningRoom` for the monster `m`: its name leaves the
      first room listing it (one occurrence) and joins the end of the
      destination's list; with no destination nothing changes. */
  function WanderMove(rooms: seq<Room>, m: Monster, pick: nat, here: string): (r: seq<Room>)
    requires MoveDefined(rooms, m, pick, here)
    ensures SameLayout(rooms, r)
    ensures Destination(rooms, m, pick, here).None? ==> r == rooms
    ensures Destination(rooms, m, pick, here).Some? ==>
      var t := Destination(rooms, m, pick, here).value;
      |r[t].monsterNames| > 0 && r[t].monsterNames[|r[t].monsterNames| - 1] == m.name
    ensures Destination(rooms, m, pick, here).Some? ==>
      var t := Destination(rooms, m, pick, here).value;
      var s := SourceRoom(rooms, m.name).value;
      && (forall i :: 0 <= i < |rooms| && i != s && i != t ==> r[i] == rooms[i])
      && (s != t ==> r[s].monsterNames == RemoveFirst(rooms[s].monsterNames, m.name)
                     && r[t].monsterNames == rooms[t].monsterNames + [m.name])
      && (s == t ==> r[s].monsterNames == RemoveFirst(rooms[s].monsterNames, m.name) + [m.name])
  {
    match Destination(rooms, m, pick, here)
    case None => rooms
    case Some(t) =>
      var s := SourceRoom(rooms, m.name).value;
      var removed := rooms[s := rooms[s].(monsterNames := RemoveFirst(rooms[s].monsterNames, m.name))];
      removed[t := removed[t].(monsterNames := removed[t].monsterNames + [m.name])]
  }

  // ---------------------------------------------------------------------------
  // The population of the world
  // ---------------------------------------------------------------------------

  /** Every monster name listed in any room, counted with multiplicity. */
  function Population(rooms: seq<Room>): multiset<string>
  {
    if rooms == [] then multiset{} else multiset(rooms[0].monsterNames) + Population(rooms[1..])
  }

  /** Appending a name to one room's list adds exactly that name. */
  lemma {:induction false} PopulationAdd(rooms: seq<Room>, t: nat, name: string)
    requires t < |rooms|
    ensures Population(rooms[t := rooms[t].(monsterNames := rooms[t].monsterNames + [name])])
         == Population(rooms) + multiset{name}
  {
    var after := rooms[t := rooms[t].(monsterNames := rooms[t].monsterNames + [name])];
    if t == 0 {
      assert after[1..] == rooms[1..];
      calc {
        Population(after);
        multiset(rooms[0].monsterNames + [name]) + Population(rooms[1..]);
        (multiset(rooms[0].monsterNames) + multiset{name}) + Population(rooms[1..]);
        (multiset(rooms[0].monsterNames) + Population(rooms[1..])) + multiset{name};
      }
    } else {
      assert after[1..] == rooms[1..][t - 1 := rooms[1..][t - 1].(monsterNames := rooms[1..][t - 1].monsterNames + [name])];
      PopulationAdd(rooms[1..], t - 1, name);
      assert after[0] == rooms[0];
      calc {
        Population(after);
        multiset(rooms[0].monsterNames) + Population(after[1..]);
        multiset(rooms[0].monsterNames) + (Population(rooms[1..]) + multiset{name});
        (multiset(rooms[0].monsterNames) + Population(rooms[1..])) + multiset{name};
      }
    }
  }

  /** Removing one occurrence of a listed name takes exactly that name away. */
  lemma {:induction false} PopulationRemove(rooms: seq<Room>, s: nat, name: string)
    requires s < |rooms| && name in rooms[s].monsterNames
    ensures Population(rooms[s := rooms[s].(monsterNames := RemoveFirst(rooms[s].monsterNames, name))]) + multiset{name}
         == Population(rooms)
  {
    var after := rooms[s := rooms[s].(monsterNames := RemoveFirst(rooms[s].monsterNames, name))];
    if s == 0 {
      assert after[1..] == rooms[1..];
      var l := rooms[0].monsterNames;
      assert multiset(RemoveFirst(l, name)) + multiset{name} == multiset(l) by {
        RemoveFirstMultiset(l, name);
        assert name in multiset(l);
      }
      calc {
        Population(after) + multiset{name};
        (multiset(RemoveFirst(l, name)) + Population(rooms[1..])) + multiset{name};
        (multiset(RemoveFirst(l, name)) + multiset{name}) + Population(rooms[1..]);
        multiset(l) + Population(rooms[1..]);
      }
    } else {
      assert after[1..] == rooms[1..][s - 1 := rooms[1..][s - 1].(monsterNames := RemoveFirst(rooms[1..][s - 1].monsterNames, name))];
      PopulationRemove(rooms[1..], s - 1, name);
      assert after[0] == rooms[0];
      calc {
        Population(after) + multiset{name};
        (multiset(rooms[0].monsterNames) + Population(after[1..])) + multiset{name};
        multiset(rooms[0].monsterNames) + (Population(after[1..]) + multiset{name});
        multiset(rooms[0].monsterNames) + Population(rooms[1..]);
      }
    }
  }

  /** A wandering step neither creates nor loses a monster: the names in all
      rooms together stay the same. */
  lemma WanderMoveConserves(rooms: seq<Room>, m: Monster, pick: nat, here: string)
    requires MoveDefined(rooms, m, pick, here)
    ensures Population(WanderMove(rooms, m, pick, here)) == Population(rooms)
  {
    match Destination(rooms, m, pick, here)
    case None =>
    case Some(t) =>
      var s := SourceRoom(rooms, m.name).value;
      var removed := rooms[s := rooms[s].(monsterNames := RemoveFirst(rooms[s].monsterNames, m.name))];
      PopulationRemove(rooms, s, m.name);
      PopulationAdd(removed, t, m.name);
  }

  // ---------------------------------------------------------------------------
  // All wanderers of one tick
  // ---------------------------------------------------------------------------

  predicate IsWanderer(m: Monster)
  {
    m.wanders && !m.dead && !m.inCombat
  }

  /** Positions, in database order from `from` on, of the monsters that wander,
      are alive and are not fighting. */
  function WanderersFrom(monsters: seq<Monster>, from: nat): (r: seq<nat>)
    requires from <= |monsters|
    ensures forall k :: 0 <= k < |r| ==> from <= r[k] < |monsters| && IsWanderer(monsters[r[k]])
    ensures forall i :: from <= i < |monsters| && IsWanderer(monsters[i]) ==> i in r
    ensures forall k, l :: 0 <= k < l < |r| ==> r[k] < r[l]
    decreases |monsters| - from
  {
    if from == |monsters| then []
    else if IsWanderer(monsters[from]) then [from] + WanderersFrom(monsters, from + 1)
    else WanderersFrom(monsters, from + 1)
  }

  /** The `FindAll` snapshot `MoveWanderingMonsters` iterates over: exactly the
      wandering, living, idle monsters, each once, in database order. */
  function Wanderers(monsters: seq<Monster>): (r: seq<nat>)
    ensures forall k :: 0 <= k < |r| ==> r[k] < |monsters| && IsWanderer(monsters[r[k]])
    ensures forall i :: 0 <= i < |monsters| ==> (i in r <==> IsWanderer(monsters[i]))
    ensures forall k, l :: 0 <= k < l < |r| ==> r[k] < r[l]
  {
    WanderersFrom(monsters, 0)
  }

  /** A wanderer moves on a roll of 0 out of 0, 1, 2. */
  predicate Rolls(roll: nat -> nat, j: nat)
  {
    roll(j) % 3 == 0
  }

  /** No step of the whole tick's wandering throws. */
  ghost predicate WanderDefined(rooms: seq<Room>, monsters: seq<Monster>, ids: seq<nat>, j: nat,
                                roll: nat -> nat, pick: nat -> nat, here: string)
    decreases |ids|
  {
    ids == [] ||
      (ids[0] < |monsters|
       && (Rolls(roll, j) ==> MoveDefined(rooms, monsters[ids[0]], pick(j), here))
       && var next := if Rolls(roll, j) then WanderMove(rooms, monsters[ids[0]], pick(j), here) else rooms;
          WanderDefined(next, monsters, ids[1..], j + 1, roll, pick, here))
  }

  /** The wandering of one tick over the wanderers `ids`, the `j`-th drawing
      `roll(j)` and `pick(j)`. */
  function WanderAll(rooms: seq<Room>, monsters: seq<Monster>, ids: seq<nat>, j: nat,
                     roll: nat -> nat, pick: nat -> nat, here: string): (r: seq<Room>)
    requires WanderDefined(rooms, monsters, ids, j, roll, pick, here)
    ensures SameLayout(rooms, r)
    decreases |ids|
  {
    if ids == [] then rooms
    else
      var next := if Rolls(roll, j) then WanderMove(rooms, monsters[ids[0]], pick(j), here) else rooms;
      WanderAll(next, monsters, ids[1..], j + 1, roll, pick, here)
  }

  /** The first wanderer's step, then the wandering of the rest. */
  lemma WanderAllStep(rooms: seq<Room>, monsters: seq<Monster>, ids: seq<nat>, j: nat,
                      roll: nat -> nat, pick: nat -> nat, here: string)
    requires ids != [] && WanderDefined(rooms, monsters, ids, j, roll, pick, here)
    ensures ids[0] < |monsters|
    ensures var next := if Rolls(roll, j) then WanderMove(rooms, monsters[ids[0]], pick(j), here) else rooms;
      && WanderDefined(next, monsters, ids[1..], j + 1, roll, pick, here)
      && WanderAll(rooms, monsters, ids, j, roll, pick, here) == WanderAll(next, monsters, ids[1..], j + 1, roll, pick, here)
  {
  }

  /** However the dice fall, a tick's wandering keeps every monster somewhere:
      the names in all rooms together are the same before and after. */
  lemma {:induction false} WanderAllConserves(rooms: seq<Room>, monsters: seq<Monster>, ids: seq<nat>, j: nat,
                                              roll: nat -> nat, pick: nat -> nat, here: string)
    requires WanderDefined(rooms, monsters, ids, j, roll, pick, here)
    ensures Population(WanderAll(rooms, monsters, ids, j, roll, pick, here)) == Population(rooms)
    decreases |ids|
  {
    if ids != [] {
      if Rolls(roll, j) {
        WanderMoveConserves(rooms, monsters[ids[0]], pick(j), here);
      }
      var next := if Rolls(roll, j) then WanderMove(rooms, monsters[ids[0]], pick(j), here) else rooms;
      WanderAllConserves(next, monsters, ids[1..], j + 1, roll, pick, here);
    }
  }

  /** When no wanderer rolls a move, no room changes. */
  lemma {:induction false} NoRollNoMove(rooms: seq<Room>, monsters: seq<Monster>, ids: seq<nat>, j: nat,
                                        roll: nat -> nat, pick: nat -> nat, here: string)
    requires WanderDefined(rooms, monsters, ids, j, roll, pick, here)
    requires forall k :: j <= k < j + |ids| ==> !Rolls(roll, k)
    ensures WanderAll(rooms, monsters, ids, j, roll, pick, here) == rooms
    decreases |ids|
  {
    if ids != [] {
      NoRollNoMove(rooms, monsters, ids[1..], j + 1, roll, pick, here);
    }
  }
}
