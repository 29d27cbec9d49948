/** The combat rules as values: the combat manager's operations, a monster taking
    damage and dropping its loot, monster and player spellcasting, aggressive
    monsters engaging, and one round of turn-based combat. The session runs these
    on its fields; here each is a function of a `Fray`, the part of the session
    that combat touches. */
module Combat {
  import opened Base
  import opened Content
  import opened Actors
  import MonsterDatabase
  import SpellDatabase

  datatype Turn = PlayersTurn | MonstersTurn

  /** `CombatManager.NextTurn`: the other side moves next. */
  function NextTurn(t: Turn): (r: Turn)
    ensures r != t
  {
    if t == PlayersTurn then MonstersTurn else PlayersTurn
  }

  /** The state combat reads and writes: every monster record, the player, the
      item names lying in the player's current room (where loot drops), and the
      combat manager's fields. */
  datatype Fray = Fray(monsters: seq<Monster>, player: Player, floor: seq<string>,
                       active: bool, engaged: seq<nat>, turn: Turn, target: int)

  /** What the combat manager's operations keep: combat is active exactly while
      some monster is engaged, every engaged monster exists, and the target index
      is never negative. */
  ghost predicate Consistent(f: Fray)
  {
    (f.active <==> f.engaged != [])
    && (forall e :: 0 <= e < |f.engaged| ==> f.engaged[e] < |f.monsters|)
    && f.target >= 0
  }

  /** Every monster name resolves in the monster database. */
  ghost predicate Resolves(monsters: seq<Monster>, names: seq<string>)
  {
    forall k :: 0 <= k < |names| ==> MonsterDatabase.GetMonsterByName(monsters, names[k]).Some?
  }

  /** Every suffix of a resolving name list resolves. */
  lemma ResolvesFrom(monsters: seq<Monster>, names: seq<string>, i: nat)
    requires Resolves(monsters, names) && i <= |names|
    ensures Resolves(monsters, names[i..])
  {
    forall k | 0 <= k < |names| - i
      ensures MonsterDatabase.GetMonsterByName(monsters, names[i..][k]).Some?
    {
      assert names[i..][k] == names[i + k];
    }
  }

  /** Two monster lists that differ at most in fields combat changes (health,
      death, mana, the combat flag): every name lookup agrees on them and every
      monster wears what it wore. */
  ghost predicate SameNames(a: seq<Monster>, b: seq<Monster>)
  {
    |a| == |b|
    && forall i :: 0 <= i < |a| ==> a[i].name == b[i].name && a[i].equippedItemNames == b[i].equippedItemNames
  }

  lemma LookupKept(a: seq<Monster>, b: seq<Monster>, names: seq<string>)
    requires SameNames(a, b) && Resolves(a, names)
    ensures Resolves(b, names)
    ensures forall k :: 0 <= k < |names| ==>
      MonsterDatabase.GetMonsterByName(b, names[k]) == MonsterDatabase.GetMonsterByName(a, names[k])
  {
    forall k | 0 <= k < |names|
      ensures MonsterDatabase.GetMonsterByName(b, names[k]) == MonsterDatabase.GetMonsterByName(a, names[k])
    {
      LookupKeptAt(a, b, names[k]);
    }
  }

  /** One name's lookup agrees on two such lists. */
  lemma LookupKeptAt(a: seq<Monster>, b: seq<Monster>, name: string)
    requires SameNames(a, b) && MonsterDatabase.GetMonsterByName(a, name).Some?
    ensures MonsterDatabase.GetMonsterByName(b, name) == MonsterDatabase.GetMonsterByName(a, name)
  {
    var x := MonsterDatabase.GetMonsterByName(a, name).value;
    assert EqualsIgnoreCase(b[x].name, name);
    var y := MonsterDatabase.GetMonsterByName(b, name).value;
    assert EqualsIgnoreCase(a[y].name, name);
  }

  /** The monster a resolving name stands for. */
  function Lookup(monsters: seq<Monster>, name: string): (id: nat)
    requires MonsterDatabase.GetMonsterByName(monsters, name).Some?
    ensures id < |monsters|
  {
    MonsterDatabase.GetMonsterByName(monsters, name).value
  }

  // ---------------------------------------------------------------------------
  // Combat manager
  // ---------------------------------------------------------------------------

  /** `CombatManager.StartCombat`: engage the monster (again, if it already is),
      mark both sides as fighting and give the move to `turn`. */
  function StartCombat(f: Fray, id: nat, turn: Turn): (r: Fray)
    requires id < |f.monsters|
    ensures Consistent(f) ==> Consistent(r)
    ensures r.active && r.engaged == f.engaged + [id] && r.turn == turn
    ensures r.target == f.target && r.floor == f.floor
    ensures SameNames(f.monsters, r.monsters)
    ensures r.monsters[id].inCombat && r.player.inCombat
  {
    f.(active := true, engaged := f.engaged + [id],
       monsters := f.monsters[id := f.monsters[id].(inCombat := true)],
       player := f.player.(inCombat := true), turn := turn)
  }

  /** `CombatManager.EndCombat`: nobody is engaged and the player is out of
      combat; the monsters' flags and the target index stay as they were. */
  function EndCombat(f: Fray): (r: Fray)
    ensures Consistent(f) ==> Consistent(r)
    ensures !r.active && r.engaged == [] && !r.player.inCombat
    ensures r.target == f.target
  {
    f.(active := false, engaged := [], player := f.player.(inCombat := false))
  }

  /** `CombatManager.ChangeTarget`: only an index into the engaged list is taken. */
  function ChangeTarget(f: Fray, index: int): (r: Fray)
    ensures 0 <= index < |f.engaged| ==> r.target == index
    ensures !(0 <= index < |f.engaged|) ==> r == f
    ensures Consistent(f) ==> Consistent(r)
  {
    if 0 <= index < |f.engaged| then f.(target := index) else f
  }

  // ---------------------------------------------------------------------------
  // Damage to a monster
  // ---------------------------------------------------------------------------

  /** `Monster.TakeDamage`: the health rule, then, whenever the monster is dead
      afterwards, its item names are added to the floor of the player's room.
      The monster keeps its own list. */
  function Hurt(f: Fray, id: nat, damage: int): (r: Fray)
    requires id < |f.monsters|
    ensures |r.monsters| == |f.monsters|
    ensures SameNames(f.monsters, r.monsters)
    ensures r.monsters[id].itemNames == f.monsters[id].itemNames
    ensures r.monsters[id] == MonsterTakeDamage(f.monsters[id], damage)
    ensures forall i :: 0 <= i < |f.monsters| && i != id ==> r.monsters[i] == f.monsters[i]
    ensures r.floor == f.floor + (if r.monsters[id].dead then f.monsters[id].itemNames else [])
    ensures r.player == f.player && r.active == f.active && r.engaged == f.engaged
    ensures r.turn == f.turn && r.target == f.target
  {
    var m := MonsterTakeDamage(f.monsters[id], damage);
    f.(monsters := f.monsters[id := m],
       floor := if m.dead then f.floor + m.itemNames else f.floor)
  }

  /** A hit on a living monster kills it exactly when its health does not stay
      above zero, and only a killing hit drops its loot, once; no other monster
      is touched. */
  lemma HurtKillsAndDrops(f: Fray, id: nat, damage: int)
    requires id < |f.monsters| && !f.monsters[id].dead
    ensures var r := Hurt(f, id, damage);
      && (r.monsters[id].dead <==> f.monsters[id].health - damage <= 0)
      && (r.monsters[id].dead ==> r.floor == f.floor + f.monsters[id].itemNames)
      && (!r.monsters[id].dead ==> r.floor == f.floor)
      && r.monsters[..id] == f.monsters[..id] && r.monsters[id + 1..] == f.monsters[id + 1..]
  {
    var r := Hurt(f, id, damage);
    assert r.monsters[..id] == f.monsters[..id];
    assert r.monsters[id + 1..] == f.monsters[id + 1..];
  }

  /** A dead monster drops its loot again on every later hit, heals included. */
  lemma DeadMonsterDropsAgain(f: Fray, id: nat, first: int, second: int)
    requires id < |f.monsters|
    requires Hurt(f, id, first).monsters[id].dead
    ensures Hurt(Hurt(f, id, first), id, second).floor
         == f.floor + f.monsters[id].itemNames + f.monsters[id].itemNames
  {
  }

  // ---------------------------------------------------------------------------
  // Monster spellcasting and the monsters' turn
  // ---------------------------------------------------------------------------

  /** `Monster.CastSpell` with the spell already looked up. */
  function MonsterCast(f: Fray, id: nat, spell: Spell): (r: Fray)
    requires id < |f.monsters|
    ensures SameNames(f.monsters, r.monsters)
    ensures |r.monsters| == |f.monsters|
    ensures r.active == f.active && r.engaged == f.engaged && r.turn == f.turn && r.target == f.target
  {
    var m := f.monsters[id];
    if m.mana < spell.manaCost then f
    else
      var paid := f.(monsters := f.monsters[id := m.(mana := m.mana - spell.manaCost)]);
      match spell.spellType
      case Heal =>
        if spell.target == Self then Hurt(paid, id, Healing(spell.power))
        else paid.(player := PlayerTakeDamage(paid.player, Healing(spell.power)))
      case Nuke =>
        if spell.target == Self then paid
        else paid.(player := PlayerTakeDamage(paid.player, spell.power))
  }

  /** A monster without the mana changes nothing; otherwise it pays exactly the
      cost, and the spell's effect lands where its type and target say. */
  lemma MonsterCastEffect(f: Fray, id: nat, spell: Spell)
    requires id < |f.monsters|
    ensures f.monsters[id].mana < spell.manaCost ==> MonsterCast(f, id, spell) == f
    ensures f.monsters[id].mana >= spell.manaCost ==>
      var r := MonsterCast(f, id, spell);
      r.monsters[id].mana == f.monsters[id].mana - spell.manaCost >= 0
      && (spell.target == Self ==> r.player == f.player)
      && (spell.spellType == Nuke && spell.target != Self ==> r.player == PlayerTakeDamage(f.player, spell.power))
      && (spell.spellType == Heal && spell.target != Self ==> r.player == PlayerTakeDamage(f.player, Healing(spell.power)))
      && (spell.spellType == Nuke ==> r.monsters == f.monsters[id := f.monsters[id].(mana := r.monsters[id].mana)])
  {
  }

  /** The spell a monster picks with the random draw `pick`, when it knows any:
      the database spell named by the drawn entry of its spell list. */
  function ChosenSpell(spells: seq<Spell>, m: Monster, pick: nat): (r: Option<Spell>)
    ensures m.spellNames == [] ==> r.None?
    ensures r.Some? ==> r.value in spells && Lower(r.value.name) == Lower(m.spellNames[pick % |m.spellNames|])
  {
    if |m.spellNames| > 0 then SpellDatabase.GetSpellByName(spells, m.spellNames[pick % |m.spellNames|])
    else None
  }

  /** One engaged monster's action: a dead monster does nothing; a living one
      casts the spell it picked when it exists and is affordable, and otherwise
      hits the player for its damage less the player's mitigation (1 when that
      is negative). */
  function MonsterAct(items: seq<Item>, spells: seq<Spell>, f: Fray, id: nat, pick: nat): (r: Fray)
    requires id < |f.monsters|
    ensures SameNames(f.monsters, r.monsters)
    ensures |r.monsters| == |f.monsters|
    ensures r.active == f.active && r.engaged == f.engaged && r.turn == f.turn && r.target == f.target
    ensures f.monsters[id].dead ==> r == f
  {
    var m := f.monsters[id];
    if m.dead then f
    else match ChosenSpell(spells, m, pick)
      case Some(spell) =>
        if m.mana >= spell.manaCost then MonsterCast(f, id, spell)
        else f.(player := PlayerTakeDamage(f.player, NetDamage(MonsterDamage(items, m), Mitigation(f.player.equipped))))
      case None =>
        f.(player := PlayerTakeDamage(f.player, NetDamage(MonsterDamage(items, m), Mitigation(f.player.equipped))))
  }

  /** The loop of the monsters' turn over the engaged monsters `ids`, the `j`-th
      of them drawing `pick(j)`: as soon as a monster's action leaves the player
      dead, combat ends and the rest do nothing. */
  function MonsterTurns(items: seq<Item>, spells: seq<Spell>, f: Fray, ids: seq<nat>, j: nat,
                        pick: nat -> nat): (r: Fray)
    requires forall e :: 0 <= e < |ids| ==> ids[e] < |f.monsters|
    ensures SameNames(f.monsters, r.monsters)
    ensures r.turn == f.turn && r.target == f.target
    ensures Consistent(f) ==> Consistent(r)
    decreases |ids|
  {
    if ids == [] then f
    else
      var g := MonsterAct(items, spells, f, ids[0], pick(j));
      if !f.monsters[ids[0]].dead && g.player.dead then EndCombat(g)
      else MonsterTurns(items, spells, g, ids[1..], j + 1, pick)
  }

  /** A living monster casts the spell it picked when that exists and it has
      the mana; otherwise it hits the player for its damage less the player's
      mitigation, and nothing but the player changes. */
  lemma MonsterActEffect(items: seq<Item>, spells: seq<Spell>, f: Fray, id: nat, pick: nat)
    requires id < |f.monsters| && !f.monsters[id].dead
    ensures var m := f.monsters[id];
      var c := ChosenSpell(spells, m, pick);
      var r := MonsterAct(items, spells, f, id, pick);
      && (c.Some? && m.mana >= c.value.manaCost ==> r == MonsterCast(f, id, c.value))
      && (!(c.Some? && m.mana >= c.value.manaCost) ==>
            r == f.(player := PlayerTakeDamage(f.player, NetDamage(MonsterDamage(items, m), Mitigation(f.player.equipped)))))
  {
  }

  /** A player alive when the monsters' turn starts and dead when it ends is out
      of combat, and nobody is engaged any more. */
  lemma {:induction false} DeathEndsCombat(items: seq<Item>, spells: seq<Spell>, f: Fray, ids: seq<nat>,
                                           j: nat, pick: nat -> nat)
    requires forall e :: 0 <= e < |ids| ==> ids[e] < |f.monsters|
    requires !f.player.dead
    ensures var r := MonsterTurns(items, spells, f, ids, j, pick);
      r.player.dead ==> !r.active && r.engaged == [] && !r.player.inCombat
    decreases |ids|
  {
    if ids != [] {
      var g := MonsterAct(items, spells, f, ids[0], pick(j));
      if !(!f.monsters[ids[0]].dead && g.player.dead) {
        assert !g.player.dead;
        DeathEndsCombat(items, spells, g, ids[1..], j + 1, pick);
      }
    }
  }

  // ---------------------------------------------------------------------------
  // The player's turn and a whole round
  // ---------------------------------------------------------------------------

  /** A killed monster leaves the engaged list: its first engagement goes;
      combat ends when nobody is left, and otherwise the first engaged monster
      becomes the target. */
  function Disengage(f: Fray, t: nat): (r: Fray)
    requires Consistent(f)
    ensures Consistent(r)
    ensures multiset(r.engaged) == multiset(f.engaged) - multiset{t}
    ensures r.monsters == f.monsters && r.floor == f.floor && r.turn == f.turn
    ensures r.target == f.target || r.target == 0
    ensures r.player == f.player.(inCombat := r.player.inCombat)
    ensures r.active ==> r.target == 0
  {
    var rest := RemoveFirst<nat>(f.engaged, t);
    RemoveFirstMultiset(f.engaged, t);
    if rest == [] then EndCombat(f)
    else
      assert forall e :: 0 <= e < |rest| ==> rest[e] < |f.monsters| by {
        forall e | 0 <= e < |rest| ensures rest[e] < |f.monsters| {
          assert rest[e] in multiset(rest);
          assert rest[e] in f.engaged;
        }
      }
      ChangeTarget(f.(engaged := rest, active := true), 0)
  }

  /** The player's turn against the targeted engaged monster. A dead target
      stalls the turn: nothing happens and the player keeps the move. Otherwise
      the target takes the player's damage less its mitigation (1 when that is
      negative); a killed target is disengaged and the move stays with the
      player; a surviving target passes the move on. */
  function PlayerTurn(items: seq<Item>, f: Fray): (r: Fray)
    requires Consistent(f) && 0 <= f.target < |f.engaged|
    requires AllResolve(items, f.monsters[f.engaged[f.target]].equippedItemNames)
    ensures Consistent(r)
    ensures SameNames(f.monsters, r.monsters)
    ensures r.target == f.target || r.target == 0
  {
    var t := f.engaged[f.target];
    if f.monsters[t].dead then f
    else
      var damage := NetDamage(PlayerDamage(f.player.equipped),
                              MonsterMitigation(items, f.monsters[t].equippedItemNames));
      var g := Hurt(f, t, damage);
      if g.monsters[t].dead then Disengage(g, t)
      else g.(turn := NextTurn(g.turn))
  }

  /** What the player's turn does to the engaged list and the move: a kill
      removes one engagement of the target and keeps the move with the player,
      ending combat exactly when nobody is left; anything else passes the move,
      or, on a dead target, changes nothing at all. */
  lemma PlayerTurnOutcome(items: seq<Item>, f: Fray)
    requires Consistent(f) && 0 <= f.target < |f.engaged|
    requires AllResolve(items, f.monsters[f.engaged[f.target]].equippedItemNames)
    ensures var t := f.engaged[f.target];
      var r := PlayerTurn(items, f);
      && (f.monsters[t].dead ==> r == f)
      && (!f.monsters[t].dead && r.monsters[t].dead ==>
            multiset(r.engaged) == multiset(f.engaged) - multiset{t}
            && r.turn == f.turn
            && (r.active <==> |f.engaged| > 1)
            && (r.active ==> r.target == 0))
      && (!f.monsters[t].dead && !r.monsters[t].dead ==>
            r.turn == NextTurn(f.turn) && r.engaged == f.engaged && r.active)
      && (!f.monsters[t].dead ==>
            var d := NetDamage(PlayerDamage(f.player.equipped), MonsterMitigation(items, f.monsters[t].equippedItemNames));
            && r.monsters == f.monsters[t := MonsterTakeDamage(f.monsters[t], d)]
            && r.floor == f.floor + (if r.monsters[t].dead then f.monsters[t].itemNames else [])
            && r.player == f.player.(inCombat := r.player.inCombat))
  {
    var t := f.engaged[f.target];
    var r := PlayerTurn(items, f);
    if !f.monsters[t].dead && r.monsters[t].dead {
      assert t in multiset(f.engaged);
      assert |multiset(r.engaged)| == |f.engaged| - 1;
    }
  }

  /** `GameManager.CombatRound`: nothing outside combat; on the player's move the
      player's turn; on the monsters' move every engaged monster acts, then the
      move passes whatever happened. */
  function CombatRound(items: seq<Item>, spells: seq<Spell>, f: Fray, pick: nat -> nat): (r: Fray)
    requires Consistent(f)
    requires f.active && f.turn == PlayersTurn ==>
      0 <= f.target < |f.engaged| && AllResolve(items, f.monsters[f.engaged[f.target]].equippedItemNames)
    ensures Consistent(r)
    ensures SameNames(f.monsters, r.monsters)
    ensures r.target == f.target || r.target == 0
  {
    if !f.active then f
    else if f.turn == PlayersTurn then PlayerTurn(items, f)
    else
      var g := MonsterTurns(items, spells, f, f.engaged, 0, pick);
      g.(turn := NextTurn(g.turn))
  }

  // ---------------------------------------------------------------------------
  // Aggressive monsters
  // ---------------------------------------------------------------------------

  predicate Aggressor(m: Monster)
  {
    m.aggressive && !m.dead && !m.inCombat
  }

  /** The monsters that the names of the player's room stand for and that attack
      on sight, in the room's order (a name listed twice counts twice). */
  function Aggressors(monsters: seq<Monster>, names: seq<string>): (r: seq<nat>)
    requires Resolves(monsters, names)
    ensures forall k :: 0 <= k < |r| ==> r[k] < |monsters|
  {
    if names == [] then []
    else
      ResolvesFrom(monsters, names, 1);
      var rest := Aggressors(monsters, names[1..]);
      var id := Lookup(monsters, names[0]);
      if Aggressor(monsters[id]) then [id] + rest else rest
  }

  /** Every monster listed attacks on sight. */
  lemma {:induction false} AggressorsSound(monsters: seq<Monster>, names: seq<string>)
    requires Resolves(monsters, names)
    ensures forall x :: x in Aggressors(monsters, names) ==> x < |monsters| && Aggressor(monsters[x])
  {
    if names != [] {
      ResolvesFrom(monsters, names, 1);
      AggressorsSound(monsters, names[1..]);
    }
  }

  /** No aggressor of the room is missed: the monster the `k`-th name stands for
      is in the list when it attacks on sight. */
  lemma {:induction false} AggressorsComplete(monsters: seq<Monster>, names: seq<string>, k: nat, id: nat)
    requires Resolves(monsters, names) && k < |names|
    requires MonsterDatabase.GetMonsterByName(monsters, names[k]) == Some(id)
    requires id < |monsters| && Aggressor(monsters[id])
    ensures id in Aggressors(monsters, names)
    decreases |names|, 1
  {
    ResolvesFrom(monsters, names, 1);
    if k > 0 {
      AggressorsCompleteLater(monsters, names, k, id);
    }
  }

  /** The step of `AggressorsComplete` past the first name. */
  lemma {:induction false} AggressorsCompleteLater(monsters: seq<Monster>, names: seq<string>, k: nat, id: nat)
    requires Resolves(monsters, names) && 0 < k < |names|
    requires MonsterDatabase.GetMonsterByName(monsters, names[k]) == Some(id)
    requires id < |monsters| && Aggressor(monsters[id])
    ensures id in Aggressors(monsters, names)
    decreases |names|, 0
  {
    ResolvesFrom(monsters, names, 1);
    assert names[1..][k - 1] == names[k];
    AggressorsComplete(monsters, names[1..], k - 1, id);
  }

  /** Scanning one more room name at the end adds its monster at the end when
      it attacks on sight. */
  lemma {:induction false} AggressorsSnoc(monsters: seq<Monster>, names: seq<string>, n: string)
    requires Resolves(monsters, names) && MonsterDatabase.GetMonsterByName(monsters, n).Some?
    ensures Resolves(monsters, names + [n])
    ensures Aggressors(monsters, names + [n]) == Aggressors(monsters, names)
      + (if Aggressor(monsters[Lookup(monsters, n)]) then [Lookup(monsters, n)] else [])
    decreases |names|
  {
    var all := names + [n];
    assert forall k :: 0 <= k < |names| ==> all[k] == names[k];
    assert all[|names|] == n;
    if names != [] {
      assert all[1..] == names[1..] + [n];
      ResolvesFrom(monsters, names, 1);
      AggressorsSnoc(monsters, names[1..], n);
    } else {
      assert all == [n];
    }
  }

  /** `StartCombat` for each of `ids` in order, with the move going to `turn`. */
  function EngageAll(f: Fray, ids: seq<nat>, turn: Turn): (r: Fray)
    requires forall e :: 0 <= e < |ids| ==> ids[e] < |f.monsters|
    ensures SameNames(f.monsters, r.monsters)
    ensures r.engaged == f.engaged + ids
    ensures r.target == f.target
    ensures ids == [] ==> r == f
    ensures Consistent(f) ==> Consistent(r)
    decreases |ids|
  {
    if ids == [] then f
    else
      var g := StartCombat(f, ids[0], turn);
      assert f.engaged + ids == g.engaged + ids[1..];
      EngageAll(g, ids[1..], turn)
  }

  /** Every monster of `ids` ends up in combat, with the player. */
  lemma {:induction false} EngageAllEngages(f: Fray, ids: seq<nat>, turn: Turn)
    requires forall e :: 0 <= e < |ids| ==> ids[e] < |f.monsters|
    ensures var r := EngageAll(f, ids, turn);
      ids != [] ==> r.active && r.turn == turn && r.player.inCombat
    ensures var r := EngageAll(f, ids, turn);
      forall e :: 0 <= e < |ids| ==> r.monsters[ids[e]].inCombat
    decreases |ids|
  {
    if ids != [] {
      var g := StartCombat(f, ids[0], turn);
      var tail := ids[1..];
      var r := EngageAll(g, tail, turn);
      assert r == EngageAll(f, ids, turn);
      EngageAllEngages(g, tail, turn);
      forall e | 0 <= e < |ids|
        ensures r.monsters[ids[e]].inCombat
      {
        if e > 0 {
          assert ids[e] == tail[e - 1];
        } else if ids[0] !in tail {
          EngageAllSpares(g, tail, turn, ids[0]);
        }
      }
    }
  }

  /** A monster outside `ids` is left as it was. */
  lemma {:induction false} EngageAllSpares(f: Fray, ids: seq<nat>, turn: Turn, i: nat)
    requires forall e :: 0 <= e < |ids| ==> ids[e] < |f.monsters|
    requires i < |f.monsters| && i !in ids
    ensures EngageAll(f, ids, turn).monsters[i] == f.monsters[i]
    decreases |ids|
  {
    if ids != [] {
      var g := StartCombat(f, ids[0], turn);
      assert i !in ids[1..];
      EngageAllSpares(g, ids[1..], turn, i);
    }
  }

  /** `GameManager.HandleAggroMobs`: the aggressors of the player's room are
      engaged, with the monsters to move. */
  function HandleAggro(f: Fray, roomMonsterNames: seq<string>): (r: Fray)
    requires Resolves(f.monsters, roomMonsterNames)
    ensures SameNames(f.monsters, r.monsters)
    ensures r.target == f.target
    ensures Consistent(f) ==> Consistent(r)
  {
    EngageAll(f, Aggressors(f.monsters, roomMonsterNames), MonstersTurn)
  }

  /** Every monster of the player's room that attacks on sight is engaged by
      `HandleAggro`, which leaves the move to the monsters. */
  lemma HandleAggroEngages(f: Fray, names: seq<string>, k: nat, id: nat)
    requires Resolves(f.monsters, names) && k < |names|
    requires MonsterDatabase.GetMonsterByName(f.monsters, names[k]) == Some(id)
    requires id < |f.monsters| && Aggressor(f.monsters[id])
    ensures var r := HandleAggro(f, names);
      r.active && r.turn == MonstersTurn && r.player.inCombat && r.monsters[id].inCombat
  {
    var ids := Aggressors(f.monsters, names);
    AggressorsComplete(f.monsters, names, k, id);
    EngageAllEngages(f, ids, MonstersTurn);
    var e :| 0 <= e < |ids| && ids[e] == id;
  }

  /** `HandleAggro` engages no monster that does not attack on sight: a monster
      that is peaceful, dead or already fighting is left as it was. */
  lemma HandleAggroSparesOthers(f: Fray, names: seq<string>, i: nat)
    requires Resolves(f.monsters, names)
    requires i < |f.monsters| && !Aggressor(f.monsters[i])
    ensures HandleAggro(f, names).monsters[i] == f.monsters[i]
  {
    var ids := Aggressors(f.monsters, names);
    AggressorsSound(f.monsters, names);
    if i !in ids {
      EngageAllSpares(f, ids, MonstersTurn, i);
    }
  }

  /** With no monster of the room attacking on sight, `HandleAggro` changes
      nothing. */
  lemma HandleAggroQuiet(f: Fray, names: seq<string>)
    requires Resolves(f.monsters, names)
    requires forall i :: 0 <= i < |f.monsters| ==> !Aggressor(f.monsters[i])
    ensures HandleAggro(f, names) == f
  {
    AggressorsSound(f.monsters, names);
  }

  // ---------------------------------------------------------------------------
  // Player spellcasting
  // ---------------------------------------------------------------------------

  /** A monster hit by a nuke of `power`: the damage, and it is fighting. */
  function Nuked(m: Monster, power: int): Monster
  {
    MonsterTakeDamage(m, power).(inCombat := true)
  }

  /** A nuke landing on one monster: the damage, then combat with the monsters to
      move unless that monster is already fighting. Only that monster changes,
      and its loot drops when it is dead afterwards. */
  function NukeOne(f: Fray, id: nat, power: int): (r: Fray)
    requires id < |f.monsters|
    ensures r.monsters == f.monsters[id := Nuked(f.monsters[id], power)]
    ensures r.floor == f.floor + (if r.monsters[id].dead then f.monsters[id].itemNames else [])
    ensures f.monsters[id].inCombat ==>
      r.engaged == f.engaged && r.turn == f.turn && r.active == f.active && r.player == f.player
    ensures !f.monsters[id].inCombat ==>
      r.engaged == f.engaged + [id] && r.turn == MonstersTurn && r.active && r.player == f.player.(inCombat := true)
    ensures SameNames(f.monsters, r.monsters)
    ensures r.monsters[id].inCombat
    ensures forall i :: 0 <= i < |f.monsters| && f.monsters[i].inCombat ==> r.monsters[i].inCombat
    ensures r.target == f.target
    ensures r.player == f.player.(inCombat := r.player.inCombat)
    ensures Consistent(f) ==> Consistent(r)
  {
    var g := Hurt(f, id, power);
    if !g.monsters[id].inCombat then StartCombat(g, id, MonstersTurn) else g
  }

  /** The area nuke: every monster named in the player's room, in order. */
  function NukeAll(f: Fray, names: seq<string>, power: int): (r: Fray)
    requires Resolves(f.monsters, names)
    ensures SameNames(f.monsters, r.monsters)
    ensures r.target == f.target
    ensures forall i :: 0 <= i < |f.monsters| && f.monsters[i].inCombat ==> r.monsters[i].inCombat
    ensures r.player == f.player.(inCombat := r.player.inCombat)
    ensures Consistent(f) ==> Consistent(r)
    decreases |names|
  {
    if names == [] then f
    else
      var id := Lookup(f.monsters, names[0]);
      var g := NukeOne(f, id, power);
      var tail := names[1..];
      ResolvesFrom(f.monsters, names, 1);
      LookupKept(f.monsters, g.monsters, tail);
      NukeAll(g, tail, power)
  }

  /** After an area nuke every monster named in the room is fighting, whatever
      it was doing before. */
  lemma {:induction false} NukeAllEngagesRoom(f: Fray, names: seq<string>, power: int)
    requires Resolves(f.monsters, names)
    ensures forall k :: 0 <= k < |names| ==>
      NukeAll(f, names, power).monsters[Lookup(f.monsters, names[k])].inCombat
    decreases |names|
  {
    if names != [] {
      var g := NukeFirst(f, names, power);
      NukeAllStep(f, names, power);
      NukeAllEngagesRoom(g, names[1..], power);
      forall k | 0 <= k < |names|
        ensures NukeAll(f, names, power).monsters[Lookup(f.monsters, names[k])].inCombat
      {
        if k > 0 {
          NukeAllStepAt(f, names, power, k, Lookup(f.monsters, names[k]));
        }
      }
    }
  }

  /** How many of the room's names stand for monster `i`. */
  function Hits(monsters: seq<Monster>, names: seq<string>, i: nat): (n: nat)
    requires Resolves(monsters, names)
    ensures n <= |names|
    ensures n == 0 <==> forall k :: 0 <= k < |names| ==> Lookup(monsters, names[k]) != i
    decreases |names|
  {
    if names == [] then 0
    else
      ResolvesFrom(monsters, names, 1);
      (if Lookup(monsters, names[0]) == i then 1 else 0) + Hits(monsters, names[1..], i)
  }

  /** The count does not change when only combat fields do. */
  lemma {:induction false} HitsKept(a: seq<Monster>, b: seq<Monster>, names: seq<string>, i: nat)
    requires SameNames(a, b) && Resolves(a, names) && Resolves(b, names)
    ensures Hits(b, names, i) == Hits(a, names, i)
    decreases |names|
  {
    if names != [] {
      LookupKeptAt(a, b, names[0]);
      ResolvesFrom(a, names, 1);
      ResolvesFrom(b, names, 1);
      HitsKept(a, b, names[1..], i);
    }
  }

  /** A monster nuked `n` times in a row. */
  function NukedTimes(m: Monster, power: int, n: nat): Monster
    decreases n
  {
    if n == 0 then m else NukedTimes(Nuked(m, power), power, n - 1)
  }

  /** The area nuke hits every monster once for each name of the room that
      stands for it, and leaves the monsters no name stands for untouched. */
  lemma {:induction false} NukeAllDamages(f: Fray, names: seq<string>, power: int)
    requires Resolves(f.monsters, names)
    ensures forall i :: 0 <= i < |f.monsters| ==>
      NukeAll(f, names, power).monsters[i] == NukedTimes(f.monsters[i], power, Hits(f.monsters, names, i))
  {
    forall i | 0 <= i < |f.monsters|
      ensures NukeAll(f, names, power).monsters[i] == NukedTimes(f.monsters[i], power, Hits(f.monsters, names, i))
    {
      NukeAllDamagesAt(f, names, power, i);
    }
  }

  lemma {:induction false} NukeAllDamagesAt(f: Fray, names: seq<string>, power: int, i: nat)
    requires Resolves(f.monsters, names) && i < |f.monsters|
    ensures NukeAll(f, names, power).monsters[i] == NukedTimes(f.monsters[i], power, Hits(f.monsters, names, i))
    decreases |names|
  {
    if names != [] {
      var g := NukeFirst(f, names, power);
      NukeAllStep(f, names, power);
      ResolvesFrom(f.monsters, names, 1);
      NukeAllDamagesAt(g, names[1..], power, i);
      HitsKept(f.monsters, g.monsters, names[1..], i);
      NukeFirstAt(f, names, power, i);
    }
  }

  /** The first nuke accounts for the first name's hit on monster `i`. */
  lemma NukeFirstAt(f: Fray, names: seq<string>, power: int, i: nat)
    requires Resolves(f.monsters, names) && names != [] && i < |f.monsters|
    ensures Resolves(f.monsters, names[1..])
    ensures NukedTimes(NukeFirst(f, names, power).monsters[i], power, Hits(f.monsters, names[1..], i))
         == NukedTimes(f.monsters[i], power, Hits(f.monsters, names, i))
  {
    ResolvesFrom(f.monsters, names, 1);
    NukeFirstMonster(f, names, power, i);
    HitsHead(f.monsters, names, i);
    NukedTimesStep(f.monsters[i], NukeFirst(f, names, power).monsters[i], power,
                   Hits(f.monsters, names[1..], i), Hits(f.monsters, names, i), Lookup(f.monsters, names[0]) == i);
  }

  lemma NukeFirstMonster(f: Fray, names: seq<string>, power: int, i: nat)
    requires Resolves(f.monsters, names) && names != [] && i < |f.monsters|
    ensures NukeFirst(f, names, power).monsters[i]
         == if Lookup(f.monsters, names[0]) == i then Nuked(f.monsters[i], power) else f.monsters[i]
  {
  }

  lemma HitsHead(monsters: seq<Monster>, names: seq<string>, i: nat)
    requires Resolves(monsters, names) && names != []
    ensures Resolves(monsters, names[1..])
    ensures Hits(monsters, names, i) == (if Lookup(monsters, names[0]) == i then 1 else 0) + Hits(monsters, names[1..], i)
  {
    ResolvesFrom(monsters, names, 1);
  }

  lemma NukedTimesStep(m: Monster, g: Monster, power: int, h: nat, n: nat, hit: bool)
    requires g == (if hit then Nuked(m, power) else m)
    requires n == (if hit then 1 else 0) + h
    ensures NukedTimes(g, power, h) == NukedTimes(m, power, n)
  {
  }

  /** The fray after the nuke has landed on the first monster named. */
  function NukeFirst(f: Fray, names: seq<string>, power: int): Fray
    requires Resolves(f.monsters, names) && names != []
  {
    NukeOne(f, Lookup(f.monsters, names[0]), power)
  }

  /** Past the first name, the `k`-th name still stands for the same monster once
      the first one has been nuked, and the rest of the area nuke starts there. */
  lemma NukeAllStepAt(f: Fray, names: seq<string>, power: int, k: nat, id: nat)
    requires Resolves(f.monsters, names) && 0 < k < |names|
    requires MonsterDatabase.GetMonsterByName(f.monsters, names[k]) == Some(id)
    ensures var g := NukeFirst(f, names, power);
      && Resolves(g.monsters, names[1..])
      && MonsterDatabase.GetMonsterByName(g.monsters, names[1..][k - 1]) == Some(id)
      && NukeAll(f, names, power) == NukeAll(g, names[1..], power)
      && id < |f.monsters| == |NukeAll(f, names, power).monsters|
  {
    NukeAllStep(f, names, power);
    assert names[1..][k - 1] == names[k];
    LookupKeptAt(f.monsters, NukeFirst(f, names, power).monsters, names[k]);
  }

  /** The area nuke is the nuke of the first monster followed by the area nuke
      of the rest. */
  lemma NukeAllStep(f: Fray, names: seq<string>, power: int)
    requires Resolves(f.monsters, names) && names != []
    ensures var g := NukeOne(f, Lookup(f.monsters, names[0]), power);
      Resolves(g.monsters, names[1..]) && NukeAll(f, names, power) == NukeAll(g, names[1..], power)
  {
    var g := NukeOne(f, Lookup(f.monsters, names[0]), power);
    ResolvesFrom(f.monsters, names, 1);
    LookupKept(f.monsters, g.monsters, names[1..]);
  }

  /** The first monster name of the player's room that contains the target text,
      ignoring case. */
  function TargetName(names: seq<string>, target: string): (r: Option<nat>)
    ensures r.Some? ==> r.value < |names| && NameMatches(names[r.value], target)
    ensures r.Some? ==> forall j :: 0 <= j < r.value ==> !NameMatches(names[j], target)
    ensures r.None? <==> forall j :: 0 <= j < |names| ==> !NameMatches(names[j], target)
  {
    FirstIndex(names, (n: string) => NameMatches(n, target))
  }

  /** A paid-for healing spell of the player's, landing as the (negative)
      `damage`: on the player when it targets itself, and otherwise on the first
      monster of the room matching `target`, if any. */
  function HealEffect(f: Fray, names: seq<string>, damage: int, aim: TargetType, target: string): (r: Fray)
    requires Resolves(f.monsters, names)
    ensures aim == Self ==> r == f.(player := PlayerTakeDamage(f.player, damage))
    ensures aim != Self && (forall j :: 0 <= j < |names| ==> !NameMatches(names[j], target)) ==> r == f
    ensures aim != Self && TargetName(names, target).Some? ==>
        var id := Lookup(f.monsters, names[TargetName(names, target).value]);
        && r.monsters == f.monsters[id := MonsterTakeDamage(f.monsters[id], damage)]
        && r.floor == f.floor + (if r.monsters[id].dead then f.monsters[id].itemNames else [])
        && r.player == f.player && r.engaged == f.engaged && r.turn == f.turn && r.active == f.active
    ensures SameNames(f.monsters, r.monsters)
    ensures Consistent(f) ==> Consistent(r)
    ensures r.player.mana == f.player.mana
    ensures r.target == f.target
  {
    if aim == Self then f.(player := PlayerTakeDamage(f.player, damage))
    else match TargetName(names, target)
      case Some(k) => Hurt(f, Lookup(f.monsters, names[k]), damage)
      case None => f
  }

  /** A paid-for nuke of the player's: on the first monster of the room
      matching `target`, if any, or on every monster of the room; a nuke aimed
      at the player does nothing. */
  function NukeEffect(f: Fray, names: seq<string>, power: int, aim: TargetType, target: string): (r: Fray)
    requires Resolves(f.monsters, names)
    ensures SameNames(f.monsters, r.monsters)
    ensures Consistent(f) ==> Consistent(r)
    ensures r.player.mana == f.player.mana
    ensures r.target == f.target
  {
    if aim == Other then
      match TargetName(names, target)
      case Some(k) => NukeOne(f, Lookup(f.monsters, names[k]), power)
      case None => f
    else if aim == AOE then NukeAll(f, names, power)
    else f
  }

  /** `Player.CastSpell` after the spell is found and paid for. */
  function PlayerSpellEffect(f: Fray, names: seq<string>, spell: Spell, target: string): (r: Fray)
    requires Resolves(f.monsters, names)
    ensures SameNames(f.monsters, r.monsters)
    ensures Consistent(f) ==> Consistent(r)
    ensures r.player.mana == f.player.mana
    ensures r.target == f.target
  {
    match spell.spellType
    case Heal => HealEffect(f, names, Healing(spell.power), spell.target, target)
    case Nuke => NukeEffect(f, names, spell.power, spell.target, target)
  }

  /** The fray once the player has paid `cost` mana: the player's mana drops by
      exactly the cost and nothing else changes. */
  function PayMana(f: Fray, cost: int): (r: Fray)
    ensures r.player.mana + cost == f.player.mana
    ensures r == f.(player := f.player.(mana := r.player.mana))
  {
    f.(player := f.player.(mana := f.player.mana - cost))
  }

  /** `Player.CastSpell(spellName, target)` in the room whose monster names are
      `names`: an unknown spell or too little mana changes nothing; otherwise the
      spell costs exactly its mana, paid before the effect, which never touches
      the mana again. */
  function PlayerCast(f: Fray, names: seq<string>, spellName: string, target: string): (r: Fray)
    requires Resolves(f.monsters, names)
    ensures SameNames(f.monsters, r.monsters)
    ensures r.target == f.target
    ensures Consistent(f) ==> Consistent(r)
    ensures match SpellDatabase.GetSpellByName(f.player.spells, spellName)
      case None => r == f
      case Some(spell) =>
        && (f.player.mana < spell.manaCost ==> r == f)
        && (f.player.mana >= spell.manaCost ==> r.player.mana == f.player.mana - spell.manaCost >= 0)
  {
    match SpellDatabase.GetSpellByName(f.player.spells, spellName)
    case None => f
    case Some(spell) =>
      if f.player.mana < spell.manaCost then f
      else PlayerSpellEffect(PayMana(f, spell.manaCost), names, spell, target)
  }

  /** A known spell the player can afford costs its mana and then takes
      effect. */
  lemma PlayerCastPaid(f: Fray, names: seq<string>, spellName: string, target: string, spell: Spell)
    requires Resolves(f.monsters, names)
    requires SpellDatabase.GetSpellByName(f.player.spells, spellName) == Some(spell)
    requires f.player.mana >= spell.manaCost
    ensures PlayerCast(f, names, spellName, target)
         == PlayerSpellEffect(PayMana(f, spell.manaCost), names, spell, target)
  {
  }

  /** A heal or nuke aimed at a name that matches no monster of the room still
      costs the mana and changes nothing else. */
  lemma MissedTargetOnlyCostsMana(f: Fray, names: seq<string>, spellName: string, target: string)
    requires Resolves(f.monsters, names)
    requires SpellDatabase.GetSpellByName(f.player.spells, spellName).Some?
    requires var spell := SpellDatabase.GetSpellByName(f.player.spells, spellName).value;
      f.player.mana >= spell.manaCost && spell.target == Other
    requires TargetName(names, target).None?
    ensures var spell := SpellDatabase.GetSpellByName(f.player.spells, spellName).value;
      PlayerCast(f, names, spellName, target) == f.(player := f.player.(mana := f.player.mana - spell.manaCost))
  {
    var spell := SpellDatabase.GetSpellByName(f.player.spells, spellName).value;
    var paid := PayMana(f, spell.manaCost);
    assert PlayerCast(f, names, spellName, target) == PlayerSpellEffect(paid, names, spell, target);
    match spell.spellType
    case Heal =>
      assert HealEffect(paid, names, Healing(spell.power), Other, target) == paid;
    case Nuke =>
      assert NukeEffect(paid, names, spell.power, Other, target) == paid;
  }
}
