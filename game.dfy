/** The running game: one session holding the world's rooms, the monster
    records, the player and the combat manager's fields, as `TextBasedGameWorld`,
    `GameManager`, `CombatManager`, `Player` and the monster database share them
    through their singletons. Each method changes the fields in place as the
    game does, and is proved against the value-level function of modules
    Combat, World, Inventory and Wander that says what it computes. */
module Game {
  import opened Base
  import opened Content
  import opened Actors
  import opened Inventory
  import opened Combat
  import opened Wander
  import opened World
  import ItemDatabase
  import MonsterDatabase
  import SpellDatabase

  // ---------------------------------------------------------------------------
  // What the game relies on without checking it
  // ---------------------------------------------------------------------------

  /** Every locked exit names the item that opens it (`MoveToRoom` throws on a
      locked exit without one). */
  ghost predicate KeysNamed(rooms: seq<Room>)
  {
    forall i, k :: 0 <= i < |rooms| && 0 <= k < |rooms[i].exits| && rooms[i].exits[k].locked ==>
      rooms[i].exits[k].requiredItem.Some?
  }

  /** In particular the exit a move takes names its key when locked. */
  lemma KeyOf(rooms: seq<Room>, a: nat, direction: string)
    requires KeysNamed(rooms) && a < |rooms|
    ensures KeyNamed(rooms[a], direction)
  {
  }

  /** Every name a monster wears is an item the database knows (mitigation
      dereferences each lookup). */
  ghost predicate Armed(items: seq<Item>, monsters: seq<Monster>)
  {
    forall i :: 0 <= i < |monsters| ==> AllResolve(items, monsters[i].equippedItemNames)
  }

  /** Every monster name listed in a room stands for a monster of the database
      (the room's monster list is dereferenced name by name). */
  ghost predicate Listed(monsters: seq<Monster>, rooms: seq<Room>)
  {
    forall i :: 0 <= i < |rooms| ==> Resolves(monsters, rooms[i].monsterNames)
  }

  /** The session's invariant, over its parts: the player stands in a room of
      the world, the room lookup is the one `GenerateRoomLookup` built, the
      content is complete as above, and the combat manager is consistent with
      the target index where `ChangeTarget(0)` keeps it. */
  ghost predicate Sound(items: seq<Item>, rooms: seq<Room>, lookup: map<string, nat>, current: nat, f: Fray)
  {
    0 < |rooms| && current < |rooms|
    && DistinctNames(rooms) && Directory(rooms, lookup) && KeysNamed(rooms)
    && Listed(f.monsters, rooms) && Armed(items, f.monsters)
    && Consistent(f) && f.target == 0
  }

  /** Rooms that keep their names, exits and monster lists. */
  ghost predicate SameMap(a: seq<Room>, b: seq<Room>)
  {
    |a| == |b|
    && forall i :: 0 <= i < |a| ==>
      b[i].name == a[i].name && b[i].exits == a[i].exits && b[i].monsterNames == a[i].monsterNames
  }

  /** A step that changes only the rooms' items and objects and combat state
      keeps the invariant, as long as combat stays consistent. */
  lemma Stepped(items: seq<Item>, rooms: seq<Room>, lookup: map<string, nat>, current: nat, f: Fray,
                rooms2: seq<Room>, g: Fray)
    requires Sound(items, rooms, lookup, current, f)
    requires SameMap(rooms, rooms2)
    requires SameNames(f.monsters, g.monsters) && Consistent(g) && g.target == 0
    ensures Sound(items, rooms2, lookup, current, g)
  {
    forall i | 0 <= i < |rooms2|
      ensures Resolves(g.monsters, rooms2[i].monsterNames)
    {
      LookupKept(f.monsters, g.monsters, rooms[i].monsterNames);
    }
  }

  /** A name list whose names all come from a resolving list resolves. */
  lemma ResolvesSub(monsters: seq<Monster>, a: seq<string>, b: seq<string>)
    requires Resolves(monsters, a) && multiset(b) <= multiset(a)
    ensures Resolves(monsters, b)
  {
    forall k | 0 <= k < |b|
      ensures MonsterDatabase.GetMonsterByName(monsters, b[k]).Some?
    {
      assert b[k] in multiset(b);
      assert b[k] in a;
      var j :| 0 <= j < |a| && a[j] == b[k];
    }
  }

  /** Every name of a room is part of the world's population, and every name
      of the population is listed in some room. */
  lemma {:induction false} InPopulation(rooms: seq<Room>, n: string)
    ensures n in Population(rooms) <==> exists i :: 0 <= i < |rooms| && n in rooms[i].monsterNames
  {
    if rooms != [] {
      InPopulation(rooms[1..], n);
      assert forall i :: 1 <= i < |rooms| ==> rooms[i] == rooms[1..][i - 1];
      if exists i :: 0 <= i < |rooms| && n in rooms[i].monsterNames {
        var i :| 0 <= i < |rooms| && n in rooms[i].monsterNames;
        if i > 0 {
          assert n in rooms[1..][i - 1].monsterNames;
        }
      }
    }
  }

  /** Wandering keeps the invariant: it moves names between rooms without
      creating any. */
  lemma Wandered(items: seq<Item>, rooms: seq<Room>, lookup: map<string, nat>, current: nat, f: Fray,
                 rooms2: seq<Room>)
    requires Sound(items, rooms, lookup, current, f)
    requires SameLayout(rooms, rooms2) && Population(rooms2) == Population(rooms)
    ensures Sound(items, rooms2, lookup, current, f)
  {
    forall i, k | 0 <= i < |rooms2| && 0 <= k < |rooms2[i].monsterNames|
      ensures MonsterDatabase.GetMonsterByName(f.monsters, rooms2[i].monsterNames[k]).Some?
    {
      var n := rooms2[i].monsterNames[k];
      InPopulation(rooms2, n);
      InPopulation(rooms, n);
      var j :| 0 <= j < |rooms| && n in rooms[j].monsterNames;
      var l :| 0 <= l < |rooms[j].monsterNames| && rooms[j].monsterNames[l] == n;
    }
  }

  /** Rooms equal but for the floor of room `c` keep the map. */
  lemma SweptSameMap(a: seq<Room>, b: seq<Room>, c: nat)
    requires c < |a| && c < |b|
    requires a[c := a[c].(itemNames := [])] == b[c := b[c].(itemNames := [])]
    ensures SameMap(a, b)
  {
    assert |a| == |a[c := a[c].(itemNames := [])]|;
    forall i | 0 <= i < |a|
      ensures b[i].name == a[i].name && b[i].exits == a[i].exits && b[i].monsterNames == a[i].monsterNames
    {
      assert a[c := a[c].(itemNames := [])][i] == b[c := b[c].(itemNames := [])][i];
    }
  }

  /** Rooms whose monster lists are all the same have the same population. */
  lemma {:induction false} PopulationOfSameMap(a: seq<Room>, b: seq<Room>)
    requires SameMap(a, b)
    ensures Population(a) == Population(b)
  {
    if a != [] {
      PopulationOfSameMap(a[1..], b[1..]);
    }
  }

  /** The session as the constructor leaves it satisfies the invariant. */
  lemma StartSound(items: seq<Item>, rooms: seq<Room>, lookup: map<string, nat>, monsters: seq<Monster>, p: Player)
    requires |rooms| > 0 && DistinctNames(rooms) && KeysNamed(rooms) && Directory(rooms, lookup)
    requires Listed(monsters, rooms) && Armed(items, monsters)
    ensures Sound(items, rooms, lookup, 0, Fray(monsters, p, rooms[0].itemNames, false, [], PlayersTurn, 0))
  {
  }

  /** The invariant does not depend on the player's own record. */
  lemma PlayerFree(items: seq<Item>, rooms: seq<Room>, lookup: map<string, nat>, current: nat, f: Fray, p: Player)
    requires Sound(items, rooms, lookup, current, f)
    ensures Sound(items, rooms, lookup, current, f.(player := p))
  {
  }

  /** Moving the player to another room of the world keeps the invariant, as
      long as combat stays consistent. */
  lemma Relocated(items: seq<Item>, rooms: seq<Room>, lookup: map<string, nat>, a: nat, f: Fray, b: nat, g: Fray)
    requires Sound(items, rooms, lookup, a, f) && b < |rooms|
    requires g.monsters == f.monsters && Consistent(g) && g.target == 0
    ensures Sound(items, rooms, lookup, b, g)
  {
  }

  /** A room that keeps its name and exits and loses monster names keeps the
      invariant. */
  lemma Culled(items: seq<Item>, rooms: seq<Room>, lookup: map<string, nat>, current: nat, f: Fray,
               c: nat, room: Room)
    requires Sound(items, rooms, lookup, current, f) && c < |rooms|
    requires room.name == rooms[c].name && room.exits == rooms[c].exits
    requires multiset(room.monsterNames) <= multiset(rooms[c].monsterNames)
    ensures Sound(items, rooms[c := room], lookup, current, f)
  {
    var after := rooms[c := room];
    ResolvesSub(f.monsters, rooms[c].monsterNames, room.monsterNames);
    forall i | 0 <= i < |after|
      ensures after[i].name == rooms[i].name && after[i].exits == rooms[i].exits
    {
    }
  }

  /** A room that keeps its name, exits and monster list leaves the map as it
      was. */
  lemma Refurnished(rooms: seq<Room>, c: nat, room: Room)
    requires c < |rooms| && room.name == rooms[c].name && room.exits == rooms[c].exits
    requires room.monsterNames == rooms[c].monsterNames
    ensures SameMap(rooms, rooms[c := room])
  {
  }

  // ---------------------------------------------------------------------------
  // The session
  // ---------------------------------------------------------------------------

  class Session {
    /** The item and spell databases, loaded once. */
    const items: seq<Item>
    const spells: seq<Spell>
    /** The monster database: the records every room's names stand for. */
    var monsters: seq<Monster>
    /** `gameWorld.Rooms`. */
    var rooms: seq<Room>
    /** `roomLookup`, with positions in `rooms` standing for the rooms. */
    var roomLookup: map<string, nat>
    /** `CurrentRoom`, as its position in `rooms`. */
    var current: nat
    var lastDirection: Option<string>
    var player: Player
    /** The combat manager: `CombatActive`, `EngagedMonsters` (as monster
        positions), `CurrentTurn` and `PlayerTargetIndex`. */
    var combatActive: bool
    var engaged: seq<nat>
    var turn: Turn
    var targetIndex: int

    /** The part of the session that combat reads and writes. */
    ghost function Scene(): Fray
      reads this
      requires current < |rooms|
    {
      Fray(monsters, player, rooms[current].itemNames, combatActive, engaged, turn, targetIndex)
    }

    /** The floor of the player's room and the player's inventory. */
    ghost function Holding(): Hold
      reads this
      requires current < |rooms|
    {
      Hold(rooms[current].itemNames, player.inventory)
    }

    /** What trading touches: the monster records and the player's gold and
        inventory. */
    ghost function Bag(): Purse
      reads this
    {
      Purse(monsters, player.gold, player.inventory)
    }

    ghost predicate Valid()
      reads this
    {
      current < |rooms| && Sound(items, rooms, roomLookup, current, Scene())
    }

    /** The rooms with the floor of the player's room swept clean. */
    ghost function Swept(): seq<Room>
      reads this
      requires current < |rooms|
    {
      rooms[current := rooms[current].(itemNames := [])]
    }

    /** Of the rooms, only the floor of the player's room changed. */
    twostate predicate FloorOnly()
      reads this
    {
      current == old(current) && old(current) < |old(rooms)| && current < |rooms|
      && Swept() == old(Swept())
    }

    /** `LoadGameWorld` and `GenerateRoomLookup` with the databases and rooms
        already read, the combat manager's constructor and the player's field
        initialisers: the player starts in the first room, out of combat, with
        no gold and no spells until `StartPlayer` runs. */
    constructor (items: seq<Item>, spells: seq<Spell>, monsters: seq<Monster>, rooms: seq<Room>)
      requires |rooms| > 0 && DistinctNames(rooms) && KeysNamed(rooms)
      requires Listed(monsters, rooms) && Armed(items, monsters)
      ensures Valid()
      ensures this.items == items && this.spells == spells && this.monsters == monsters && this.rooms == rooms
      ensures current == 0 && lastDirection.None? && player == Player([], [], 0, false, 100, 100, false, 100, 100, [])
      ensures !combatActive && engaged == [] && turn == PlayersTurn && targetIndex == 0
    {
      this.items := items;
      this.spells := spells;
      this.monsters := monsters;
      this.rooms := rooms;
      roomLookup := map[];
      current := 0;
      lastDirection := None;
      player := Player([], [], 0, false, 100, 100, false, 100, 100, []);
      combatActive := false;
      engaged := [];
      turn := PlayersTurn;
      targetIndex := 0;
      new;
      GenerateRoomLookup();
      StartSound(items, rooms, roomLookup, monsters, player);
    }

    /** `Player.Start`: the player, as its field initialisers leave it,
        receives 1000 gold and memorizes the starting spells. */
    method StartPlayer()
      requires Valid() && player == Player([], [], 0, false, 100, 100, false, 100, 100, [])
      modifies this`player
      ensures Valid() && player == NewPlayer(spells)
    {
      ghost var f := Scene();
      player := player.(gold := 1000);
      PlayerFree(items, rooms, roomLookup, current, f, player);
      assert Scene() == f.(player := player);
      Memorize("Fireball");
      Memorize("Heal");
    }

    /** `Player.MemorizeSpell` of the database's spell under `name`; a name
        the database lacks memorizes nothing. */
    method Memorize(name: string)
      requires Valid()
      modifies this`player
      ensures Valid() && player == MemorizeFound(old(player), spells, name)
    {
      ghost var f := Scene();
      player := MemorizeFound(player, spells, name);
      PlayerFree(items, rooms, roomLookup, current, f, player);
      assert Scene() == f.(player := player);
    }

    /** `GenerateRoomLookup`: every room is added under its name; adding a
        name twice would throw, which distinct names rule out. */
    method GenerateRoomLookup()
      requires DistinctNames(rooms)
      modifies this`roomLookup
      ensures Directory(rooms, roomLookup)
    {
      var lookup: map<string, nat> := map[];
      var i := 0;
      while i < |rooms|
        invariant 0 <= i <= |rooms|
        invariant forall n :: n in lookup ==> lookup[n] < i && rooms[lookup[n]].name == n
        invariant forall j :: 0 <= j < i ==> rooms[j].name in lookup
      {
        assert rooms[i].name !in lookup;
        lookup := lookup[rooms[i].name := i];
        i := i + 1;
      }
      roomLookup := lookup;
    }

    // -------------------------------------------------------------------------
    // The combat manager
    // -------------------------------------------------------------------------

    /** `CombatManager.StartCombat`. */
    method StartCombat(id: nat, t: Turn)
      requires current < |rooms| && id < |monsters|
      modifies this`combatActive, this`engaged, this`monsters, this`player, this`turn
      ensures Scene() == Combat.StartCombat(old(Scene()), id, t)
    {
      combatActive := true;
      engaged := engaged + [id];
      monsters := monsters[id := monsters[id].(inCombat := true)];
      player := player.(inCombat := true);
      turn := t;
    }

    /** `CombatManager.EndCombat`. */
    method EndCombat()
      requires current < |rooms|
      modifies this`combatActive, this`engaged, this`player
      ensures Scene() == Combat.EndCombat(old(Scene()))
    {
      combatActive := false;
      engaged := [];
      player := player.(inCombat := false);
    }

    /** `CombatManager.NextTurn`. */
    method NextTurn()
      modifies this`turn
      ensures turn == Combat.NextTurn(old(turn))
    {
      turn := if turn == PlayersTurn then MonstersTurn else PlayersTurn;
    }

    /** `CombatManager.ChangeTarget`. */
    method ChangeTarget(index: int)
      requires current < |rooms|
      modifies this`targetIndex
      ensures Scene() == Combat.ChangeTarget(old(Scene()), index)
    {
      if 0 <= index < |engaged| {
        targetIndex := index;
      }
    }

    /** `Monster.TakeDamage` on the monster at `id`: a dead monster's item
        names are added, one by one, to the floor of the player's room. */
    method HurtMonster(id: nat, damage: int)
      requires current < |rooms| && id < |monsters|
      modifies this`monsters, this`rooms
      ensures FloorOnly()
      ensures Scene() == Hurt(old(Scene()), id, damage)
    {
      var m := MonsterTakeDamage(monsters[id], damage);
      monsters := monsters[id := m];
      if m.dead {
        var floor := Strew(rooms[current].itemNames, m.itemNames);
        rooms := rooms[current := rooms[current].(itemNames := floor)];
      }
    }

    /** The loop a dying monster runs: each of `names`, in order, is added to
        the end of `floor`. */
    method Strew(floor: seq<string>, names: seq<string>) returns (r: seq<string>)
      ensures r == floor + names
    {
      r := floor;
      var i := 0;
      while i < |names|
        invariant 0 <= i <= |names|
        invariant r == floor + names[..i]
      {
        r := r + [names[i]];
        PrefixSnoc(names, i);
        i := i + 1;
      }
      assert names[..i] == names;
    }

    /** `Monster.CastSpell(spellName)`, for a spell the database holds. */
    method MonsterCastSpell(id: nat, spellName: string)
      requires current < |rooms| && id < |monsters|
      requires SpellDatabase.GetSpellByName(spells, spellName).Some?
      modifies this`monsters, this`rooms, this`player
      ensures FloorOnly()
      ensures Scene() == MonsterCast(old(Scene()), id, SpellDatabase.GetSpellByName(spells, spellName).value)
    {
      var spell := SpellDatabase.GetSpellByName(spells, spellName).value;
      MonsterSpell(id, spell);
    }

    /** The body of `Monster.CastSpell` once the spell is looked up: without the
        mana nothing happens; otherwise the monster pays and heals itself, heals
        the player, or hits the player. */
    method MonsterSpell(id: nat, spell: Spell)
      requires current < |rooms| && id < |monsters|
      modifies this`monsters, this`rooms, this`player
      ensures FloorOnly()
      ensures Scene() == MonsterCast(old(Scene()), id, spell)
    {
      var m := monsters[id];
      if m.mana < spell.manaCost {
        return;
      }
      monsters := monsters[id := m.(mana := m.mana - spell.manaCost)];
      ghost var paid := Scene();
      var power := spell.power;
      if spell.spellType == Heal {
        var heal := Healing(power);
        if spell.target == Self {
          HurtMonster(id, heal);
          assert Scene() == Hurt(paid, id, heal);
        } else {
          player := PlayerTakeDamage(player, heal);
          assert Scene() == paid.(player := PlayerTakeDamage(paid.player, heal));
        }
      } else if spell.target != Self {
        player := PlayerTakeDamage(player, power);
        assert Scene() == paid.(player := PlayerTakeDamage(paid.player, power));
      }
    }

    // -------------------------------------------------------------------------
    // Combat rounds
    // -------------------------------------------------------------------------

    /** One engaged monster's action in the monsters' turn of
        `GameManager.CombatRound`: a dead monster does nothing; a living one
        casts the spell drawn by `pick` when the database has it and the mana
        suffices, and otherwise hits the player. */
    method MonsterAct(id: nat, pick: nat)
      requires current < |rooms| && id < |monsters|
      modifies this`monsters, this`rooms, this`player
      ensures FloorOnly()
      ensures Scene() == Combat.MonsterAct(items, spells, old(Scene()), id, pick)
    {
      var m := monsters[id];
      if m.dead {
        return;
      }
      if |m.spellNames| > 0 {
        var spellName := m.spellNames[pick % |m.spellNames|];
        var spell := SpellDatabase.GetSpellByName(spells, spellName);
        if spell.Some? && m.mana >= spell.value.manaCost {
          MonsterCastSpell(id, spellName);
          return;
        }
      }
      player := PlayerTakeDamage(player, NetDamage(MonsterDamage(items, m), Mitigation(player.equipped)));
    }

    /** A killed target leaves the engaged list (its first engagement); combat
        ends when nobody is left, and otherwise the first engaged monster
        becomes the target. */
    method Disengage(t: nat)
      requires current < |rooms| && Consistent(Scene())
      modifies this`combatActive, this`engaged, this`player, this`targetIndex
      ensures Scene() == Combat.Disengage(old(Scene()), t)
    {
      engaged := RemoveFirst(engaged, t);
      if engaged == [] {
        EndCombat();
      } else {
        ChangeTarget(0);
      }
    }

    /** The player's side of `GameManager.CombatRound`. */
    method PlayerRound()
      requires Valid() && combatActive && turn == PlayersTurn
      modifies this`monsters, this`rooms, this`player, this`combatActive, this`engaged, this`turn, this`targetIndex
      ensures FloorOnly()
      ensures Scene() == PlayerTurn(items, old(Scene()))
    {
      var t := engaged[targetIndex];
      if monsters[t].dead {
        return;
      }
      var damage := NetDamage(PlayerDamage(player.equipped), MonsterMitigation(items, monsters[t].equippedItemNames));
      HurtMonster(t, damage);
      ghost var g := Scene();
      if monsters[t].dead {
        Disengage(t);
        assert Scene() == Combat.Disengage(g, t);
      } else {
        NextTurn();
        assert Scene() == g.(turn := Combat.NextTurn(g.turn));
      }
    }

    /** The monsters' side of `GameManager.CombatRound`: the engaged monsters
        act in order, the `j`-th drawing `pick(j)`; when the player dies,
        combat ends and the loop stops; the move passes in every case. */
    method MonstersRound(pick: nat -> nat)
      requires Valid() && combatActive && turn == MonstersTurn
      modifies this`monsters, this`rooms, this`player, this`combatActive, this`engaged, this`turn
      ensures FloorOnly()
      ensures var g := MonsterTurns(items, spells, old(Scene()), old(engaged), 0, pick);
        Scene() == g.(turn := Combat.NextTurn(g.turn))
    {
      MonstersAct(pick);
      NextTurn();
    }

    /** The loop of `MonstersRound`, over the monsters engaged when it starts. */
    method MonstersAct(pick: nat -> nat)
      requires current < |rooms| && forall e :: 0 <= e < |engaged| ==> engaged[e] < |monsters|
      modifies this`monsters, this`rooms, this`player, this`combatActive, this`engaged
      ensures FloorOnly() && turn == old(turn)
      ensures Scene() == MonsterTurns(items, spells, old(Scene()), old(engaged), 0, pick)
    {
      var ids := engaged;
      var j := 0;
      while j < |ids|
        invariant 0 <= j <= |ids|
        invariant FloorOnly() && turn == old(turn)
        invariant |monsters| == |old(monsters)|
        invariant MonsterTurns(items, spells, Scene(), ids[j..], j, pick)
               == MonsterTurns(items, spells, old(Scene()), ids, 0, pick)
      {
        var id := ids[j];
        var alive := !monsters[id].dead;
        ghost var before := Scene();
        MonsterAct(id, pick(j));
        if alive && player.dead {
          EndCombat();
          assert Scene() == MonsterTurns(items, spells, before, ids[j..], j, pick);
          return;
        }
        SuffixTail(ids, j);
        j := j + 1;
      }
    }

    /** `GameManager.CombatRound`, the `j`-th engaged monster drawing `pick(j)`. */
    method CombatRound(pick: nat -> nat)
      requires Valid()
      modifies this`monsters, this`rooms, this`player, this`combatActive, this`engaged, this`turn, this`targetIndex
      ensures Valid() && FloorOnly()
      ensures Scene() == Combat.CombatRound(items, spells, old(Scene()), pick)
    {
      if !combatActive {
        return;
      }
      if turn == PlayersTurn {
        PlayerRound();
      } else {
        MonstersRound(pick);
      }
      SweptSameMap(old(rooms), rooms, current);
      Stepped(items, old(rooms), roomLookup, current, old(Scene()), rooms, Scene());
    }

    /** `GameManager.HandleAggroMobs`: the aggressive, living, idle monsters of
        the player's room are collected first, then each starts combat with
        the monsters to move. */
    method HandleAggroMobs()
      requires Valid()
      modifies this`monsters, this`combatActive, this`engaged, this`player, this`turn
      ensures Valid() && rooms == old(rooms) && current == old(current)
      ensures Scene() == HandleAggro(old(Scene()), rooms[current].monsterNames)
    {
      assert Resolves(monsters, rooms[current].monsterNames);
      var aggressive := AggressiveMonsters();
      EngageEach(aggressive);
      Stepped(items, rooms, roomLookup, current, old(Scene()), rooms, Scene());
    }

    /** The `Select`/`Where` query of `HandleAggroMobs`: the room's monster
        names looked up in order, keeping the aggressive, living, idle ones. */
    method AggressiveMonsters() returns (aggressive: seq<nat>)
      requires current < |rooms| && Resolves(monsters, rooms[current].monsterNames)
      ensures aggressive == Aggressors(monsters, rooms[current].monsterNames)
    {
      var names := rooms[current].monsterNames;
      aggressive := [];
      var i := 0;
      while i < |names|
        invariant 0 <= i <= |names|
        invariant Resolves(monsters, names[..i])
        invariant aggressive == Aggressors(monsters, names[..i])
      {
        var id := Lookup(monsters, names[i]);
        AggressorsSnoc(monsters, names[..i], names[i]);
        PrefixSnoc(names, i);
        if Aggressor(monsters[id]) {
          aggressive := aggressive + [id];
        }
        i := i + 1;
      }
      assert names[..i] == names;
    }

    /** `CombatManager.StartCombat(monster, Turn.Monster)` for each of `ids`,
        in order. */
    method EngageEach(ids: seq<nat>)
      requires current < |rooms| && forall e :: 0 <= e < |ids| ==> ids[e] < |monsters|
      modifies this`monsters, this`combatActive, this`engaged, this`player, this`turn
      ensures Scene() == EngageAll(old(Scene()), ids, MonstersTurn)
    {
      var j := 0;
      while j < |ids|
        invariant 0 <= j <= |ids|
        invariant |monsters| == |old(monsters)|
        invariant EngageAll(Scene(), ids[j..], MonstersTurn) == EngageAll(old(Scene()), ids, MonstersTurn)
      {
        ghost var before := Scene();
        StartCombat(ids[j], MonstersTurn);
        SuffixTail(ids, j);
        j := j + 1;
      }
    }

    // -------------------------------------------------------------------------
    // The player's spells
    // -------------------------------------------------------------------------

    /** A nuke landing on the monster at `id`: the damage, then combat with the
        monsters to move unless that monster is already fighting. */
    method NukeMonster(id: nat, power: int)
      requires current < |rooms| && id < |monsters|
      modifies this`monsters, this`rooms, this`combatActive, this`engaged, this`player, this`turn
      ensures FloorOnly()
      ensures Scene() == NukeOne(old(Scene()), id, power)
    {
      HurtMonster(id, power);
      if !monsters[id].inCombat {
        StartCombat(id, MonstersTurn);
      }
    }

    /** A nuke on every monster named in `names`, in order. */
    method NukeRoom(names: seq<string>, power: int)
      requires current < |rooms| && Resolves(monsters, names)
      modifies this`monsters, this`rooms, this`combatActive, this`engaged, this`player, this`turn
      ensures FloorOnly()
      ensures Scene() == NukeAll(old(Scene()), names, power)
    {
      var i := 0;
      while i < |names|
        invariant 0 <= i <= |names|
        invariant FloorOnly()
        invariant Resolves(monsters, names[i..])
        invariant NukeAll(Scene(), names[i..], power) == NukeAll(old(Scene()), names, power)
      {
        ghost var before := monsters;
        NukeMonster(Lookup(monsters, names[i]), power);
        LookupKept(before, monsters, names[i..]);
        ResolvesFrom(monsters, names[i..], 1);
        SuffixTail(names, i);
        i := i + 1;
      }
    }

    /** A paid-for healing spell: the player heals, or the first monster of
        the room matching `target` does. */
    method HealSpell(names: seq<string>, damage: int, aim: TargetType, target: string)
      requires current < |rooms| && Resolves(monsters, names)
      modifies this`monsters, this`rooms, this`player
      ensures FloorOnly()
      ensures Scene() == HealEffect(old(Scene()), names, damage, aim, target)
    {
      if aim == Self {
        player := PlayerTakeDamage(player, damage);
      } else {
        var k := TargetName(names, target);
        if k.Some? {
          HurtMonster(Lookup(monsters, names[k.value]), damage);
        }
      }
    }

    /** A paid-for nuke: on the first monster of the room matching `target`,
        or on every monster of the room. */
    method NukeSpell(names: seq<string>, power: int, aim: TargetType, target: string)
      requires current < |rooms| && Resolves(monsters, names)
      modifies this`monsters, this`rooms, this`combatActive, this`engaged, this`player, this`turn
      ensures FloorOnly()
      ensures Scene() == NukeEffect(old(Scene()), names, power, aim, target)
    {
      if aim == Other {
        var k := TargetName(names, target);
        if k.Some? {
          NukeMonster(Lookup(monsters, names[k.value]), power);
        }
      } else if aim == AOE {
        NukeRoom(names, power);
      }
    }

    /** `Player.CastSpell(spellName, target)` in the player's room. */
    method CastSpell(spellName: string, target: string)
      requires Valid()
      modifies this`monsters, this`rooms, this`combatActive, this`engaged, this`player, this`turn
      ensures Valid() && FloorOnly()
      ensures Scene() == PlayerCast(old(Scene()), old(rooms[current].monsterNames), spellName, target)
    {
      var names := rooms[current].monsterNames;
      assert Resolves(monsters, names);
      Cast(names, spellName, target);
      SweptSameMap(old(rooms), rooms, current);
      Stepped(items, old(rooms), roomLookup, current, old(Scene()), rooms, Scene());
    }

    /** The body of `Player.CastSpell`, against the monsters `names` of the
        player's room. */
    method Cast(names: seq<string>, spellName: string, target: string)
      requires current < |rooms| && Resolves(monsters, names)
      modifies this`monsters, this`rooms, this`combatActive, this`engaged, this`player, this`turn
      ensures FloorOnly()
      ensures Scene() == PlayerCast(old(Scene()), names, spellName, target)
    {
      var found := SpellDatabase.GetSpellByName(player.spells, spellName);
      if found.None? {
        return;
      }
      var spell := found.value;
      if player.mana < spell.manaCost {
        return;
      }
      ghost var f := Scene();
      player := player.(mana := player.mana - spell.manaCost);
      ghost var paid := Scene();
      assert paid == PayMana(f, spell.manaCost);
      PlayerCastPaid(f, names, spellName, target, spell);
      if spell.spellType == Heal {
        HealSpell(names, Healing(spell.power), spell.target, target);
      } else {
        NukeSpell(names, spell.power, spell.target, target);
      }
      assert Scene() == PlayerSpellEffect(paid, names, spell, target);
    }

    // -------------------------------------------------------------------------
    // Moving
    // -------------------------------------------------------------------------

    /** `MoveToRoom(direction)`: out of combat, the player goes through the
        first exit with exactly that direction, through a locked one only when
        carrying its key, and only to a room of the world; the move is
        remembered for `Back`. Otherwise nothing changes. */
    method MoveToRoom(direction: string)
      requires Valid()
      modifies this`current, this`lastDirection
      ensures Valid() && KeyNamed(old(rooms[current]), direction)
      ensures var t := MoveTarget(old(rooms[current]), roomLookup, player, direction);
        && (t.Some? ==> current == t.value && lastDirection == Some(direction))
        && (t.None? ==> current == old(current) && lastDirection == old(lastDirection))
    {
      KeyOf(rooms, current, direction);
      if player.inCombat {
        return;
      }
      var k := ExitIndex(rooms[current].exits, direction);
      if k.None? {
        return;
      }
      var exit := rooms[current].exits[k.value];
      if exit.locked && !HoldsKey(player.inventory, exit.requiredItem.value) {
        return;
      }
      if exit.roomId in roomLookup {
        ghost var f := Scene();
        lastDirection := Some(direction);
        current := roomLookup[exit.roomId];
        Relocated(items, rooms, roomLookup, old(current), f, current, Scene());
      }
    }

    /** `Back`: a move in the opposite of the last direction moved; before
        any move nothing happens. */
    method Back()
      requires Valid()
      modifies this`current, this`lastDirection
      ensures Valid()
      ensures old(lastDirection).None? ==> current == old(current) && lastDirection == old(lastDirection)
      ensures old(lastDirection).Some? ==>
        var back := Reverse(old(lastDirection).value);
        KeyNamed(old(rooms[current]), back) &&
        var t := MoveTarget(old(rooms[current]), roomLookup, player, back);
        && (t.Some? ==> current == t.value && lastDirection == Some(back))
        && (t.None? ==> current == old(current) && lastDirection == old(lastDirection))
    {
      if lastDirection.Some? {
        MoveToRoom(Reverse(lastDirection.value));
      }
    }

    /** `Flee` with the draws `roll` and `pick`: in combat, on one roll in
        four, the player leaves through the exit `pick` selects, locked or not,
        when it names a room of the world; combat ends on the way out. The last
        direction is not updated. */
    method Flee(roll: nat, pick: nat)
      requires Valid()
      modifies this`current, this`combatActive, this`engaged, this`player
      ensures Valid()
      ensures var t := FleeTarget(old(rooms[current]), roomLookup, old(player), roll, pick);
        && (t.Some? ==> current == t.value && !combatActive && engaged == []
                        && player == old(player).(inCombat := false))
        && (t.None? ==> current == old(current) && combatActive == old(combatActive)
                        && engaged == old(engaged) && player == old(player))
    {
      var exits := rooms[current].exits;
      if player.inCombat && |exits| > 0 && roll % 4 == 0 {
        var exit := exits[pick % |exits|];
        if exit.roomId in roomLookup {
          ghost var f := Scene();
          EndCombat();
          current := roomLookup[exit.roomId];
          Relocated(items, rooms, roomLookup, old(current), f, current, Scene());
        }
      }
    }

    // -------------------------------------------------------------------------
    // Items
    // -------------------------------------------------------------------------

    /** `TakeItem(query)`. */
    method TakeItem(query: string)
      requires Valid()
      modifies this`rooms, this`player
      ensures Valid() && FloorOnly()
      ensures Holding() == Take(items, old(Holding()), query)
      ensures player == old(player).(inventory := player.inventory)
    {
      PickUp(query);
      SweptSameMap(old(rooms), rooms, current);
      Stepped(items, old(rooms), roomLookup, current, old(Scene()), rooms, Scene());
    }

    /** The body of `TakeItem`: the first floor name the database knows that
        matches the query moves to the inventory as its item. */
    method PickUp(query: string)
      requires current < |rooms|
      modifies this`rooms, this`player
      ensures FloorOnly()
      ensures Holding() == Take(items, old(Holding()), query)
      ensures player == old(player).(inventory := player.inventory)
    {
      var floor := rooms[current].itemNames;
      var k := FirstItemNamed(items, floor, query);
      if k.Some? {
        var name := floor[k.value];
        var item := ItemDatabase.GetItemByName(items, name).value;
        player := player.(inventory := player.inventory + [item]);
        rooms := rooms[current := rooms[current].(itemNames := RemoveFirst(floor, name))];
      }
    }

    /** `TakeAllItems`. */
    method TakeAllItems()
      requires Valid()
      modifies this`rooms, this`player
      ensures Valid() && FloorOnly()
      ensures Holding() == TakeEverything(items, old(Holding()))
      ensures player == old(player).(inventory := player.inventory)
    {
      PickUpAll();
      SweptSameMap(old(rooms), rooms, current);
      Stepped(items, old(rooms), roomLookup, current, old(Scene()), rooms, Scene());
    }

    /** The body of `TakeAllItems`: each floor name the database knows is added
        to the inventory, in order, then the floor is cleared. */
    method PickUpAll()
      requires current < |rooms|
      modifies this`rooms, this`player
      ensures FloorOnly()
      ensures Holding() == TakeEverything(items, old(Holding()))
      ensures player == old(player).(inventory := player.inventory)
    {
      var floor := rooms[current].itemNames;
      if |floor| > 0 {
        var found := Gather(floor);
        player := player.(inventory := player.inventory + found);
        rooms := rooms[current := rooms[current].(itemNames := [])];
      }
    }

    /** The loop of `TakeAllItems`: the items of the database under the names
        of `floor`, in order, skipping the names it lacks. */
    method Gather(floor: seq<string>) returns (found: seq<Item>)
      ensures found == ResolveItems(items, floor)
    {
      found := [];
      var i := 0;
      while i < |floor|
        invariant 0 <= i <= |floor|
        invariant found == ResolveItems(items, floor[..i])
      {
        var item := ItemDatabase.GetItemByName(items, floor[i]);
        if item.Some? {
          found := found + [item.value];
        }
        assert found == ResolveItems(items, floor[..i]) + Resolved(items, floor[i]);
        ResolveItemsSnoc(items, floor[..i], floor[i]);
        PrefixSnoc(floor, i);
        i := i + 1;
      }
      assert floor[..i] == floor;
    }

    /** `Drop(query)`. */
    method Drop(query: string)
      requires Valid()
      modifies this`rooms, this`player
      ensures Valid() && FloorOnly()
      ensures Holding() == DropItem(old(Holding()), query)
      ensures player == old(player).(inventory := player.inventory)
    {
      PutDown(query);
      SweptSameMap(old(rooms), rooms, current);
      Stepped(items, old(rooms), roomLookup, current, old(Scene()), rooms, Scene());
    }

    /** The body of `Drop`: the first carried item matching the query leaves
        the inventory and its name is added to the floor. */
    method PutDown(query: string)
      requires current < |rooms|
      modifies this`rooms, this`player
      ensures FloorOnly()
      ensures Holding() == DropItem(old(Holding()), query)
      ensures player == old(player).(inventory := player.inventory)
    {
      var k := FirstMatch(player.inventory, query);
      if k.Some? {
        var item := player.inventory[k.value];
        player := player.(inventory := RemoveFirst(player.inventory, item));
        rooms := rooms[current := rooms[current].(itemNames := rooms[current].itemNames + [item.name])];
      }
    }

    /** `Interact(query)`. */
    method Interact(query: string)
      requires Valid()
      modifies this`rooms
      ensures Valid()
      ensures rooms == old(rooms)[current := InteractWith(old(rooms[current]), query)]
    {
      Use(query);
      Refurnished(old(rooms), current, rooms[current]);
      Stepped(items, old(rooms), roomLookup, current, old(Scene()), rooms, Scene());
    }

    /** The body of `Interact`: the first object matching the query gives up
        its item, whose name is added to the floor. */
    method Use(query: string)
      requires current < |rooms|
      modifies this`rooms
      ensures rooms == old(rooms)[current := InteractWith(old(rooms[current]), query)]
    {
      var room := rooms[current];
      var k := ObjectAt(room, query);
      if k.Some? {
        var o := room.interactableObjects[k.value];
        if o.interactionItemName.Some? {
          rooms := rooms[current := room.(itemNames := room.itemNames + [o.interactionItemName.value],
                                          interactableObjects := room.interactableObjects[k.value := o.(interactionItemName := None)])];
        }
      }
    }

    /** `Equip(query)`: the displaced item is added to the inventory first,
        then the slot is set and the equipped item removed. */
    method Equip(query: string)
      requires Valid()
      modifies this`player
      ensures Valid()
      ensures player == EquipItem(old(player), query)
    {
      var k := FirstMatch(player.inventory, query);
      if k.Some? {
        var item := player.inventory[k.value];
        if item.slot != "" {
          ghost var f := Scene();
          var displaced := Displaced(player.equipped, item.slot);
          player := player.(inventory := player.inventory + displaced);
          player := player.(equipped := PutInSlot(player.equipped, item.slot, item));
          player := player.(inventory := RemoveFirst(player.inventory, item));
          PlayerFree(items, rooms, roomLookup, current, f, player);
          assert Scene() == f.(player := player);
        }
      }
    }

    // -------------------------------------------------------------------------
    // Monsters of the room
    // -------------------------------------------------------------------------

    /** `Kill(query)`. */
    method Kill(query: string)
      requires Valid()
      modifies this`rooms
      ensures Valid()
      ensures rooms == old(rooms)[current := KillIn(old(rooms[current]), monsters, query)]
    {
      Slay(query);
      KillRemovesVictim(old(rooms[current]), monsters, query);
      Culled(items, old(rooms), roomLookup, current, old(Scene()), current, rooms[current]);
      assert Scene() == old(Scene()).(floor := rooms[current].itemNames);
    }

    /** The body of `Kill`: one listing of the victim's own name leaves the
        room and its item names are added to the floor one by one. */
    method Slay(query: string)
      requires current < |rooms|
      modifies this`rooms
      ensures rooms == old(rooms)[current := KillIn(old(rooms[current]), monsters, query)]
    {
      var room := rooms[current];
      var k := FirstMonster(monsters, room.monsterNames, query);
      if k.Some? {
        var m := monsters[MonsterDatabase.GetMonsterByName(monsters, room.monsterNames[k.value]).value];
        var floor := Strew(room.itemNames, m.itemNames);
        rooms := rooms[current := room.(monsterNames := RemoveFirst(room.monsterNames, m.name), itemNames := floor)];
      }
    }

    /** `AttackMonster(query)`: combat starts, on the player's move, with the
        first monster of the room matching the query. */
    method AttackMonster(query: string)
      requires Valid()
      modifies this`monsters, this`combatActive, this`engaged, this`player, this`turn
      ensures Valid()
      ensures var foe := Foe(old(monsters), rooms[current].monsterNames, query);
        && (foe.None? ==> Scene() == old(Scene()))
        && (foe.Some? ==> Scene() == Combat.StartCombat(old(Scene()), foe.value, PlayersTurn))
    {
      Engage(query);
      Stepped(items, rooms, roomLookup, current, old(Scene()), rooms, Scene());
    }

    /** The body of `AttackMonster`. */
    method Engage(query: string)
      requires current < |rooms|
      modifies this`monsters, this`combatActive, this`engaged, this`player, this`turn
      ensures rooms == old(rooms) && current == old(current)
      ensures var foe := Foe(old(monsters), rooms[current].monsterNames, query);
        && (foe.None? ==> Scene() == old(Scene()))
        && (foe.Some? ==> Scene() == Combat.StartCombat(old(Scene()), foe.value, PlayersTurn))
    {
      var foe := Foe(monsters, rooms[current].monsterNames, query);
      if foe.Some? {
        StartCombat(foe.value, PlayersTurn);
      }
    }

    // -------------------------------------------------------------------------
    // Trading
    // -------------------------------------------------------------------------

    /** `Buy(query)`: every monster of the room is tried in order, so several
        shopkeepers can each sell a matching item in one call. */
    method Buy(query: string)
      requires Valid()
      modifies this`monsters, this`player
      ensures Valid()
      ensures Bag() == BuyAll(items, old(Bag()), rooms[current].monsterNames, query)
      ensures player == old(player).(gold := player.gold, inventory := player.inventory)
    {
      BuyAmong(rooms[current].monsterNames, query);
      Stepped(items, rooms, roomLookup, current, old(Scene()), rooms, Scene());
    }

    /** The loop of `Buy` over the monster names `names`. */
    method BuyAmong(names: seq<string>, query: string)
      modifies this`monsters, this`player
      ensures rooms == old(rooms) && current == old(current)
      ensures SameNames(old(monsters), monsters)
      ensures Bag() == BuyAll(items, old(Bag()), names, query)
      ensures player == old(player).(gold := player.gold, inventory := player.inventory)
    {
      var i := 0;
      while i < |names|
        invariant 0 <= i <= |names|
        invariant SameNames(old(monsters), monsters)
        invariant player == old(player).(gold := player.gold, inventory := player.inventory)
        invariant BuyAll(items, Bag(), names[i..], query) == BuyAll(items, old(Bag()), names, query)
      {
        BuyAllStep(items, Bag(), names, i, query);
        BuyFromShop(names[i], query);
        i := i + 1;
      }
    }

    /** One pass of the loop in `Buy`, for the monster named `monsterName`. */
    method BuyFromShop(monsterName: string, query: string)
      modifies this`monsters, this`player
      ensures rooms == old(rooms) && current == old(current)
      ensures SameNames(old(monsters), monsters)
      ensures Bag() == BuyFrom(items, old(Bag()), monsterName, query)
      ensures player == old(player).(gold := player.gold, inventory := player.inventory)
    {
      var shop := MonsterDatabase.GetMonsterByName(monsters, monsterName);
      if shop.None? || !monsters[shop.value].shopKeeper {
        return;
      }
      var id := shop.value;
      var k := FirstItemNamed(items, monsters[id].itemNames, query);
      if k.None? {
        return;
      }
      var item := ItemDatabase.GetItemByName(items, monsters[id].itemNames[k.value]).value;
      if player.gold >= item.value {
        BuyAt(id, k.value);
      }
    }

    /** The end of one pass of `Buy`: the item at position `k` of shopkeeper
        `id`'s stock joins the inventory, the shopkeeper's stock loses that
        name, and the player pays its value. */
    method BuyAt(id: nat, k: nat)
      requires id < |monsters| && k < |monsters[id].itemNames|
      requires ItemDatabase.GetItemByName(items, monsters[id].itemNames[k]).Some?
      modifies this`monsters, this`player
      ensures rooms == old(rooms) && current == old(current)
      ensures SameNames(old(monsters), monsters)
      ensures Bag() == Purchase(items, old(Bag()), id, k)
      ensures player == old(player).(gold := player.gold, inventory := player.inventory)
    {
      var name := monsters[id].itemNames[k];
      var item := ItemDatabase.GetItemByName(items, name).value;
      player := player.(inventory := player.inventory + [item], gold := player.gold - item.value);
      monsters := monsters[id := monsters[id].(itemNames := RemoveFirst(monsters[id].itemNames, name))];
    }

    /** `Sell(itemQuery, monsterQuery)`. */
    method Sell(itemQuery: string, monsterQuery: string)
      requires Valid()
      modifies this`monsters, this`player
      ensures Valid()
      ensures Bag() == SellTo(old(Bag()), rooms[current].monsterNames, itemQuery, monsterQuery)
      ensures player == old(player).(gold := player.gold, inventory := player.inventory)
    {
      SellAmong(rooms[current].monsterNames, itemQuery, monsterQuery);
      Stepped(items, rooms, roomLookup, current, old(Scene()), rooms, Scene());
    }

    /** The body of `Sell`, against the monsters `names` of the player's room. */
    method SellAmong(names: seq<string>, itemQuery: string, monsterQuery: string)
      modifies this`monsters, this`player
      ensures rooms == old(rooms) && current == old(current)
      ensures SameNames(old(monsters), monsters)
      ensures Bag() == SellTo(old(Bag()), names, itemQuery, monsterQuery)
      ensures player == old(player).(gold := player.gold, inventory := player.inventory)
    {
      var shop := Shopkeeper(monsters, names, monsterQuery);
      if shop.None? {
        return;
      }
      var k := FirstMatch(player.inventory, itemQuery);
      if k.None? {
        return;
      }
      HandOverTo(shop.value, k.value, true);
    }

    /** `Give(itemQuery, monsterQuery)`. */
    method Give(itemQuery: string, monsterQuery: string)
      requires Valid()
      modifies this`monsters, this`player
      ensures Valid()
      ensures Bag() == GiveTo(old(Bag()), rooms[current].monsterNames, itemQuery, monsterQuery)
      ensures player == old(player).(gold := player.gold, inventory := player.inventory)
    {
      GiveAmong(rooms[current].monsterNames, itemQuery, monsterQuery);
      Stepped(items, rooms, roomLookup, current, old(Scene()), rooms, Scene());
    }

    /** The body of `Give`, against the monsters `names` of the player's room. */
    method GiveAmong(names: seq<string>, itemQuery: string, monsterQuery: string)
      modifies this`monsters, this`player
      ensures rooms == old(rooms) && current == old(current)
      ensures SameNames(old(monsters), monsters)
      ensures Bag() == GiveTo(old(Bag()), names, itemQuery, monsterQuery)
      ensures player == old(player).(gold := player.gold, inventory := player.inventory)
    {
      var mob := Foe(monsters, names, monsterQuery);
      if mob.None? {
        return;
      }
      var k := FirstMatch(player.inventory, itemQuery);
      if k.None? {
        return;
      }
      HandOverTo(mob.value, k.value, false);
    }

    /** The end of `Sell` and `Give`: the first carried item that matched
        leaves the inventory, its name is added to the monster's items, and
        the player is paid its value when selling. */
    method HandOverTo(id: nat, k: nat, paid: bool)
      requires id < |monsters| && k < |player.inventory|
      requires forall j :: 0 <= j < k ==> player.inventory[j] != player.inventory[k]
      modifies this`monsters, this`player
      ensures rooms == old(rooms) && current == old(current)
      ensures SameNames(old(monsters), monsters)
      ensures Bag() == HandOver(old(Bag()), id, k, paid)
      ensures player == old(player).(gold := player.gold, inventory := player.inventory)
    {
      var item := player.inventory[k];
      RemoveFirstAt(player.inventory, k);
      player := player.(inventory := RemoveFirst(player.inventory, item));
      monsters := monsters[id := monsters[id].(itemNames := monsters[id].itemNames + [item.name])];
      if paid {
        player := player.(gold := player.gold + item.value);
      }
    }

    // -------------------------------------------------------------------------
    // Wandering and the tick
    // -------------------------------------------------------------------------

    /** `MoveMonsterToRandomAdjoiningRoom` for the monster `m`, the exit drawn
        by `pick`. */
    method MoveMonster(m: Monster, pick: nat)
      requires current < |rooms| && MoveDefined(rooms, m, pick, rooms[current].name)
      modifies this`rooms
      ensures rooms == WanderMove(old(rooms), m, pick, old(rooms[current].name))
    {
      var s := SourceRoom(rooms, m.name).value;
      var avail := Available(rooms[s].exits);
      if |avail| > 0 {
        var e := avail[pick % |avail|];
        if e.locked && !(e.requiredItem.Some? && e.requiredItem.value in m.itemNames) {
          return;
        }
        var t := RoomNamed(rooms, e.roomId).value;
        rooms := rooms[s := rooms[s].(monsterNames := RemoveFirst(rooms[s].monsterNames, m.name))];
        rooms := rooms[t := rooms[t].(monsterNames := rooms[t].monsterNames + [m.name])];
      }
    }

    /** `MoveWanderingMonsters`, which keeps the invariant. */
    method MoveWanderingMonsters(roll: nat -> nat, pick: nat -> nat)
      requires Valid()
      requires WanderDefined(rooms, monsters, Wanderers(monsters), 0, roll, pick, rooms[current].name)
      modifies this`rooms
      ensures Valid() && current == old(current) && Scene() == old(Scene())
      ensures rooms == WanderAll(old(rooms), monsters, Wanderers(monsters), 0, roll, pick, old(rooms[current].name))
    {
      Wander(roll, pick);
      WanderAllConserves(old(rooms), monsters, Wanderers(monsters), 0, roll, pick, old(rooms[current].name));
      Wandered(items, old(rooms), roomLookup, current, Scene(), rooms);
    }

    /** The body of `MoveWanderingMonsters`: the wandering, living, idle
        monsters are collected first; the `j`-th of them moves when `roll(j)`
        comes up 0 of 3, through the exit `pick(j)` draws. */
    method Wander(roll: nat -> nat, pick: nat -> nat)
      requires current < |rooms|
      requires WanderDefined(rooms, monsters, Wanderers(monsters), 0, roll, pick, rooms[current].name)
      modifies this`rooms
      ensures current < |rooms| && rooms[current].itemNames == old(rooms[current].itemNames)
      ensures rooms == WanderAll(old(rooms), monsters, Wanderers(monsters), 0, roll, pick, old(rooms[current].name))
    {
      var ids := Wanderers(monsters);
      ghost var here := rooms[current].name;
      var j := 0;
      while j < |ids|
        invariant 0 <= j <= |ids|
        invariant current < |rooms| && rooms[current].name == here
        invariant WanderDefined(rooms, monsters, ids[j..], j, roll, pick, here)
        invariant WanderAll(rooms, monsters, ids[j..], j, roll, pick, here)
               == WanderAll(old(rooms), monsters, ids, 0, roll, pick, here)
      {
        ghost var before := rooms;
        WanderAllStep(rooms, monsters, ids[j..], j, roll, pick, here);
        SuffixTail(ids, j);
        if roll(j) % 3 == 0 {
          MoveMonster(monsters[ids[j]], pick(j));
        }
        assert rooms == if Rolls(roll, j) then WanderMove(before, monsters[ids[j]], pick(j), here) else before;
        j := j + 1;
      }
    }

    /** `GameManager.Tick`: wandering, then aggressive monsters engage, then
        one combat round. */
    method Tick(roll: nat -> nat, pick: nat -> nat, spellPick: nat -> nat)
      requires Valid()
      requires WanderDefined(rooms, monsters, Wanderers(monsters), 0, roll, pick, rooms[current].name)
      modifies this`rooms, this`monsters, this`player, this`combatActive, this`engaged, this`turn, this`targetIndex
      ensures Valid()
      ensures var wandered := WanderAll(old(rooms), old(monsters), Wanderers(old(monsters)), 0, roll, pick, old(rooms[current].name));
        && current == old(current) && Resolves(old(monsters), wandered[current].monsterNames)
        && Swept() == wandered[current := wandered[current].(itemNames := [])]
        && Scene() == Combat.CombatRound(items, spells, HandleAggro(old(Scene()), wandered[current].monsterNames), spellPick)
    {
      MoveWanderingMonsters(roll, pick);
      ghost var wandered := rooms;
      assert wandered == WanderAll(old(rooms), old(monsters), Wanderers(old(monsters)), 0, roll, pick, old(rooms[current].name));
      assert Resolves(monsters, rooms[current].monsterNames);
      HandleAggroMobs();
      ghost var aggro := Scene();
      assert aggro == HandleAggro(old(Scene()), wandered[current].monsterNames);
      CombatRound(spellPick);
      assert Scene() == Combat.CombatRound(items, spells, aggro, spellPick);
    }
  }
}
