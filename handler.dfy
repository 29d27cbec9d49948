/** `CommandHandler`: one input line at a time, the remembered last line, and
    the dispatch of the parsed command to the session. */
module Handler {
  import opened Base
  import opened Commands
  import Game
  import World

  /** The commands that only write to the log: they look at the session and
      change nothing. */
  predicate Inert(c: Command)
  {
    c.Look? || c.Examine? || c.Value? || c.ListEquipment? || c.ListItems? || c.Consider?
    || c.ShopAll? || c.Shop? || c.ShowGold? || c.ShowStats? || c.AskWhichSpell? || c.ListSpells?
    || c.Nothing? || c.Unknown?
  }

  /** The commands that can take the player to another room. */
  predicate Moves(c: Command)
  {
    c.Move? || c.Back? || c.Flee?
  }

  /** Every command either only writes to the log or reaches one operation of
      the session: the two kinds split the command language. */
  lemma InertOrActs(c: Command)
    ensures Inert(c) <==> !(Moves(c) || c.TakeAll? || c.Take? || c.Drop? || c.Equip? || c.Interact?
                            || c.Kill? || c.Attack? || c.Buy? || c.Sell? || c.Give? || c.Cast?)
  {
  }

  class CommandHandler {
    /** The session the commands act on. */
    const game: Game.Session
    /** `lastCommand`: the last line processed, never empty. */
    var lastCommand: Option<string>

    ghost predicate Valid()
      reads this, game
    {
      game.Valid() && (lastCommand.Some? ==> lastCommand.value != "")
    }

    /** A handler for `game`, before any line is typed. */
    constructor (game: Game.Session)
      requires game.Valid()
      ensures Valid() && this.game == game && lastCommand.None?
    {
      this.game := game;
      lastCommand := None;
    }

    /** `ProcessCommand(command)`: an empty line repeats the last line, if any;
        a dead player's line is refused; any other line is remembered and its
        command dispatched. `roll` and `pick` are the draws a `flee` uses. */
    method ProcessCommand(command: string, roll: nat, pick: nat)
      requires Valid()
      modifies this`lastCommand, game
      ensures Valid()
      ensures command == "" ==> lastCommand == old(lastCommand)
      ensures command == "" && old(lastCommand).None? ==> unchanged(game)
      ensures command != "" && old(game.player.dead) ==> lastCommand == old(lastCommand) && unchanged(game)
      ensures command != "" && !old(game.player.dead) ==> lastCommand == Some(command)
      ensures var line := if command == "" then old(lastCommand) else Some(command);
        line.Some? && (old(game.player.dead) || Inert(Parse(line.value))) ==> unchanged(game)
      ensures var line := if command == "" then old(lastCommand) else Some(command);
        line.Some? && !Moves(Parse(line.value)) ==> game.current == old(game.current)
      decreases if command == "" then 1 else 0
    {
      if command == "" {
        if lastCommand.Some? {
          ProcessCommand(lastCommand.value, roll, pick);
        }
        return;
      }
      if game.player.dead {
        return;
      }
      lastCommand := Some(command);
      Dispatch(Parse(command), roll, pick);
    }

    /** The branch of `ProcessCommand` the command selects. */
    method Dispatch(c: Command, roll: nat, pick: nat)
      requires game.Valid()
      modifies game
      ensures game.Valid()
      ensures Inert(c) ==> unchanged(game)
      ensures !Moves(c) ==> game.current == old(game.current)
      ensures Moves(c) ==> game.rooms == old(game.rooms) && game.monsters == old(game.monsters)
    {
      if Inert(c) {
        return;
      }
      InertOrActs(c);
      if Moves(c) {
        Travel(c, roll, pick);
      } else if c.TakeAll? || c.Take? || c.Drop? || c.Equip? || c.Interact? || c.Kill? {
        Handle(c);
      } else {
        Deal(c);
      }
    }

    /** The branches that move the player. */
    method Travel(c: Command, roll: nat, pick: nat)
      requires game.Valid() && Moves(c)
      modifies game
      ensures game.Valid()
      ensures game.rooms == old(game.rooms) && game.monsters == old(game.monsters)
      ensures c.Move? ==>
        && World.KeyNamed(old(game.rooms[game.current]), c.direction)
        && var t := World.MoveTarget(old(game.rooms[game.current]), old(game.roomLookup), old(game.player), c.direction);
           game.current == if t.Some? then t.value else old(game.current)
      ensures c.Back? && old(game.lastDirection).None? ==> game.current == old(game.current)
      ensures c.Back? && old(game.lastDirection).Some? ==>
        var back := World.Reverse(old(game.lastDirection).value);
        && World.KeyNamed(old(game.rooms[game.current]), back)
        && var t := World.MoveTarget(old(game.rooms[game.current]), old(game.roomLookup), old(game.player), back);
           game.current == if t.Some? then t.value else old(game.current)
      ensures c.Flee? ==>
        var t := World.FleeTarget(old(game.rooms[game.current]), old(game.roomLookup), old(game.player), roll, pick);
        game.current == if t.Some? then t.value else old(game.current)
    {
      match c
      case Move(direction) => game.MoveToRoom(direction);
      case Back => game.Back();
      case Flee => game.Flee(roll, pick);
    }

    /** The branches that handle items, objects and monsters of the room. */
    method Handle(c: Command)
      requires game.Valid() && (c.TakeAll? || c.Take? || c.Drop? || c.Equip? || c.Interact? || c.Kill?)
      modifies game
      ensures game.Valid() && game.current == old(game.current)
    {
      match c
      case TakeAll => game.TakeAllItems();
      case Take(item) => game.TakeItem(item);
      case Drop(item) => game.Drop(item);
      case Equip(item) => game.Equip(item);
      case Interact(thing) => game.Interact(thing);
      case Kill(monster) => game.Kill(monster);
    }

    /** The branches that fight and trade. */
    method Deal(c: Command)
      requires game.Valid() && (c.Attack? || c.Buy? || c.Sell? || c.Give? || c.Cast?)
      modifies game
      ensures game.Valid() && game.current == old(game.current)
    {
      match c
      case Attack(monster) => game.AttackMonster(monster);
      case Buy(item) => game.Buy(item);
      case Sell(item, monster) => game.Sell(item, monster);
      case Give(item, monster) => game.Give(item, monster);
      case Cast(spell, target) => game.CastSpell(spell, target);
    }
  }
}
