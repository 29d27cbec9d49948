# Dante's Journey: the game-state core in Dafny

Dante's Journey is a Unity text adventure. The player types a line. The
command handler turns it into one action on the world. The actions are:

- moving along named exits, some of them locked until a key is carried;
- picking up, dropping, equipping and appraising items;
- using objects in a room, killing monsters, and buying, selling and giving items;
- starting fights and casting spells.

A timer tick moves wandering monsters, lets aggressive monsters engage the
player, and runs one round of combat.

This project models that core and proves what it promises:

- `Base`: the string and list primitives the game relies on.
  - `ToLower` on ASCII letters, case-insensitive equality, ordinal `StartsWith` and `Contains`.
  - `Split(' ')` and `string.Join`.
  - `Find`/`FirstOrDefault` as the first index satisfying a test.
  - `List.Remove` as the removal of the first equal element.
- `Content`: the record types (items, spells, interactable objects, exits, rooms, monsters) and the `Room` operations.
- `ItemDatabase`, `MonsterDatabase` and `SpellDatabase`: the three lookups by name.
- `Actors`: the player record, the light-source test, equipment by slot, the damage and mitigation formulas, and the health rule of `TakeDamage`.
- `Inventory`: name lists, item resolution, and buying from shopkeepers with its gold and goods conservation laws.
- `Combat`: the combat manager and one combat round, as pure functions on a `Fray` value.
  - A `Fray` holds the monster records, the player, the current room's floor, and the combat fields.
  - The combat fields are: active, engaged monsters, whose turn, and target index.
  - The round covers aggro engagement, monster spellcasting and player spellcasting.
- `Wander`: wandering monsters and the opposite-direction table of the game manager.
- `World`: the world's commands as pure functions on rooms, the player and the monsters, with their conservation and round-trip lemmas.
- `Game`: the `Session` class, which holds the world, the player, the monster records and the combat state as fields.
  - Its methods change them in place, as the game does.
  - Each method is proved to leave the state that the pure function of the same operation describes.
  - Each method keeps the session invariant `Valid()`.
- `Commands`: the handler's verb chain as a pure `Parse` function.
- `Handler`: the `CommandHandler` class, covering the one-line command history and the dead-player guard.

A monster is identified by its position in the monster database. This works
because `MonsterDatabase.GetMonsterByName` hands out the stored record itself,
so every change made through one lookup is seen by all later lookups
(`MonsterDatabase.LookupSeesUpdate`).

Health, mana, gold, power, value and mana cost are floats in the game. They
are only added, subtracted and compared, so they are integers here.

Every random draw is a parameter. These are the flee roll and exit, the
wander roll and exit, and the monster's spell index.

The written design and the code differ on two combat rules; the model
follows the code:

- Net damage is replaced by 1 only when it is strictly negative, so a net of 0 stays 0 (`Actors.NetDamage`).
- A player's blow that kills the target does not advance the turn (`Combat.PlayerTurnOutcome`).

## Model

| member | source | states |
|---|---|---|
| Base.Lower | Assets/Scripts/Databases/SpellDatabase.cs:41 | lower-casing keeps the length and maps each character on its own |
| Base.LowerIdempotent | Assets/Scripts/Databases/SpellDatabase.cs:41 | lower-casing twice is lower-casing once |
| Base.Split | Assets/Scripts/Game/CommandHandler.cs:399 | splitting at spaces gives at least one piece and no piece holds a space |
| Base.JoinSplit | Assets/Scripts/Game/CommandHandler.cs:399-405 | joining the pieces of a split with single spaces gives back the original line |
| Base.SplitJoin | Assets/Scripts/Game/CommandHandler.cs:399-405 | splitting a space-joined list of space-free words gives back the words |
| Base.RemoveFirst | Assets/Scripts/Game/TextBasedGameWorld.cs:624 | `List.Remove` leaves a list without the element unchanged and otherwise shortens it by one |
| Base.RemoveFirstMultiset | Assets/Scripts/Game/TextBasedGameWorld.cs:624 | `List.Remove` takes exactly one copy of the element out of the multiset |
| Base.RemoveFound | Assets/Scripts/Game/TextBasedGameWorld.cs:661-670 | removing the element a search found removes exactly the position the search stopped at |
| Content.NewExit | Assets/Scripts/Game/Room.cs:84-90 | a new exit carries the given direction, target, lock and key; by default it is unlocked and has no key |
| Content.NewRoom | Assets/Scripts/Game/Room.cs:23-30 | a new room has empty exits, objects, item names and monster names, and no flag list |
| Content.NewMonster | Assets/Scripts/Game/Monster.cs:27-42 | a new monster has full health and mana of 100, is alive and out of combat, and owns, wears and knows nothing |
| Content.ExitIndex | Assets/Scripts/Game/TextBasedGameWorld.cs:119 | the first exit whose direction equals the query exactly, or none when no exit has it |
| Content.SetExit | Assets/Scripts/Game/Room.cs:37-48 | an existing exit in that direction is redirected, keeping its lock and key; otherwise one unlocked exit is appended |
| Content.SetExitKeepsUniqueDirections | Assets/Scripts/Game/Room.cs:37-48 | SetExit keeps at most one exit per direction, and afterwards that direction leads to the new room |
| Content.HasFlag | Assets/Scripts/Game/Room.cs:55-58 | true exactly when some flag equals the query ignoring case |
| Content.GetExitDirection | Assets/Scripts/Game/Room.cs:65-69 | the direction of the first exit leading to the room; null (not the empty string) when no exit does |
| Content.GetExitDirectionIsFirst | Assets/Scripts/Game/Room.cs:65-69 | whichever exit is the first to lead to the room, the answer is exactly its direction |
| ItemDatabase.IndexByName | Assets/Scripts/Databases/ItemDatabase.cs:17-20 | the first item whose name equals the query exactly, with no earlier item of that name |
| ItemDatabase.GetItemByName | Assets/Scripts/Databases/ItemDatabase.cs:17-20 | the first stored item with exactly the queried name (the item at `IndexByName`'s position, before which no item has that name); null exactly when no item has that name |
| ItemDatabase.IndexByPartialName | Assets/Scripts/Databases/ItemDatabase.cs:27-30 | the first item whose name contains the query (case-sensitive) |
| ItemDatabase.GetItemByPartialName | Assets/Scripts/Databases/ItemDatabase.cs:27-30 | the first stored item whose name contains the query (the item at `IndexByPartialName`'s position); null exactly when none does |
| ItemDatabase.ExactFoundImpliesPartialFound | Assets/Scripts/Databases/ItemDatabase.cs:17-30 | whatever the exact lookup finds, the partial lookup finds too, at the same or an earlier position |
| MonsterDatabase.GetMonsterByName | Assets/Scripts/Databases/MonsterDatabase.cs:35-38 | the first monster whose name equals the query ignoring case; null exactly when none does |
| MonsterDatabase.LookupIgnoresCase | Assets/Scripts/Databases/MonsterDatabase.cs:37 | queries differing only in letter case find the same monster |
| MonsterDatabase.LookupSeesUpdate | Assets/Scripts/Databases/MonsterDatabase.cs:35-38 | updating a stored record in place leaves every lookup on the same record, which now shows the update |
| SpellDatabase.GetSpellByName | Assets/Scripts/Databases/SpellDatabase.cs:39-42 | the first spell whose lower-cased name equals the lower-cased query; null exactly when none does |
| SpellDatabase.LookupIgnoresCase | Assets/Scripts/Databases/SpellDatabase.cs:41 | queries differing only in letter case find the same spell |
| Actors.MemorizeSpell | Assets/Scripts/Game/Player.cs:194-197 | the spell joins the end of the known spells, nothing else changes, and it is memorized afterwards |
| Actors.IsSpellMemorized | Assets/Scripts/Game/Player.cs:204-207 | a memorized spell's own name always finds a spell when cast (an earlier one of the same name ignoring case may be found first) |
| Actors.MemorizedIsCastable | Assets/Scripts/Game/Player.cs:194-216 | a newly memorized spell is the one `CastSpell` then finds by its name |
| Actors.NewPlayer | Assets/Scripts/Game/Player.cs:33-38 | a new player has 1000 gold, full health and mana, empty inventory and equipment, and knows Fireball then Heal when the spell database has them |
| Actors.MemorizeFound | Assets/Scripts/Game/Player.cs:36-37 | memorizing a spell looked up by name adds it when it exists and nothing otherwise |
| Actors.StarterSpellsCastable | Assets/Scripts/Game/Player.cs:33-38 | the new player finds Fireball and Heal among their spells exactly as the spell database would |
| Actors.HasLightSource | Assets/Scripts/Game/Player.cs:49-53 | true exactly when some carried item's lower-cased name contains torch, lantern, glowing, burning, flaming or illuminated |
| Actors.TorchLightsTheWay | Assets/Scripts/Game/TextBasedGameWorld.cs:235 | picking up a torch is enough to see in any dark room |
| Actors.TooDarkToSee | Assets/Scripts/Game/TextBasedGameWorld.cs:235 | the room shows as too dark exactly when it is flagged dark and no carried item is a light source |
| Actors.SlotIndex | Assets/Scripts/Game/Player.cs:118-128 | the entry stored under the slot, absent exactly when the slot is empty |
| Actors.GetEquippedItemBySlot | Assets/Scripts/Game/Player.cs:118-128 | the item stored under the slot, or null exactly when no item is |
| Actors.PutInSlot | Assets/Scripts/Game/TextBasedGameWorld.cs:467-473 | writing a slot grows the equipment by at most one entry |
| Actors.PutThenGet | Assets/Scripts/Game/TextBasedGameWorld.cs:467-473 | after writing a slot, it holds the new item, every other slot is unchanged, and slots stay unique |
| Actors.PutOverwrites | Assets/Scripts/Game/TextBasedGameWorld.cs:467-473 | overwriting an occupied slot replaces its item and leaves the other slots alone |
| Actors.PutAppends | Assets/Scripts/Game/TextBasedGameWorld.cs:467-473 | filling an empty slot adds it and leaves the other slots alone |
| Actors.MitigationNonNegative | Assets/Scripts/Game/Player.cs:173-188 | with non-negative item powers the player's mitigation is never negative |
| Actors.MitigationReplace | Assets/Scripts/Game/Player.cs:173-188 | replacing one equipped item changes mitigation by exactly the difference of their armour values |
| Actors.MitigationAfterPut | Assets/Scripts/Game/Player.cs:173-188 | equipping adds the new item's armour value and removes that of the item it displaces |
| Actors.PlayerDamage | Assets/Scripts/Game/Player.cs:153-167 | unarmed, the player hits for the base damage of 10; otherwise for 10 plus the power of the first entry stored under "weapon" |
| Actors.Mitigation | Assets/Scripts/Game/Player.cs:173-188 | with no armour among the equipped items, mitigation is 0 |
| Actors.WieldWeapon | Assets/Scripts/Game/Player.cs:153-167 | after wielding a weapon the player hits for 10 plus its power, and mitigation is unchanged |
| Actors.MonsterEquippedBySlot | Assets/Scripts/Game/Monster.cs:50-63 | the first worn item that resolves in the item database and has the slot; null exactly when none does |
| Actors.UnarmedMonsterDamage | Assets/Scripts/Game/GameManager.cs:165-178 | a monster wearing nothing that resolves hits for the base damage of 10 |
| Actors.MonsterDamage | Assets/Scripts/Game/GameManager.cs:165-178 | a monster none of whose worn names resolves to a weapon hits for the base damage of 10 |
| Actors.ArmedMonsterDamage | Assets/Scripts/Game/GameManager.cs:165-178 | an armed monster hits for 10 plus the power of the first worn name that resolves to a weapon |
| Actors.MonsterMitigation | Assets/Scripts/Game/Monster.cs:106-123 | a monster none of whose worn items is armour has mitigation 0 |
| Actors.MonsterMitigationNonNegative | Assets/Scripts/Game/Monster.cs:106-123 | with resolvable items of non-negative power a monster's mitigation is never negative |
| Actors.HealthAfter | Assets/Scripts/Game/Player.cs:134-147 | health after damage is clamped to 0 and the maximum: exact in between, 0 when it would drop to 0 or below, and the maximum when healing would overshoot it |
| Actors.PlayerTakeDamage | Assets/Scripts/Game/Player.cs:134-147 | only health and death change; the new health is `HealthAfter` of the old health, the maximum and the damage, so within its bounds; the player is dead afterwards exactly when already dead or health dropped to 0 or below |
| Actors.MonsterTakeDamage | Assets/Scripts/Game/Monster.cs:69-82 | the same health rule for a monster: only health and death change, the new health is `HealthAfter` of the old, death on reaching 0 |
| Actors.PlayerDeathIsFinal | Assets/Scripts/Game/Player.cs:134-147 | no damage or healing brings a dead player back |
| Actors.PlayerKilled | Assets/Scripts/Game/Player.cs:134-147 | damage reaching 0 health leaves the player dead with exactly 0 health |
| Actors.NetDamage | Assets/Scripts/Game/GameManager.cs:88-89 | net damage is attack minus mitigation when that is not negative, and 1 when it is |
| Inventory.ResolveItems | Assets/Scripts/Game/TextBasedGameWorld.cs:324-344 | resolving names gives at most one stored item per name |
| Inventory.ResolveAllNamed | Assets/Scripts/Game/TextBasedGameWorld.cs:324-344 | when every name resolves, the resolved items carry exactly those names, in order |
| Inventory.ResolveLosesUnknown | Assets/Scripts/Game/TextBasedGameWorld.cs:324-344 | resolving keeps every name exactly when every name is known to the item database |
| Inventory.FirstItemNamed | Assets/Scripts/Game/TextBasedGameWorld.cs:305 | the first floor name that resolves to an item matching the query, none exactly when no name does |
| Inventory.BuyFrom | Assets/Scripts/Game/TextBasedGameWorld.cs:609-632 | a purchase happens exactly when the named monster is a shopkeeper offering an item for the query whose price the gold covers; it appends that stored, matching item to the inventory, costs exactly its price, leaves gold not negative, and takes one listing of the item's name out of that shopkeeper's list, and of the monsters nothing else changes |
| Inventory.BuyAll | Assets/Scripts/Game/TextBasedGameWorld.cs:602-640 | buying from every shopkeeper in the room changes only the monsters' item lists, the inventory and gold |
| Inventory.BuyAllBuys | Assets/Scripts/Game/TextBasedGameWorld.cs:602-640 | a `buy` command only appends to the inventory, at most one item per monster of the room, and every item bought is a stored item matching the query |
| Inventory.BuyAllQuiet | Assets/Scripts/Game/TextBasedGameWorld.cs:602-640 | when no monster of the room sells the player anything, `buy` changes nothing |
| Inventory.PurchaseConserves | Assets/Scripts/Game/TextBasedGameWorld.cs:620-627 | one purchase keeps the gold plus the value of the inventory, and the names held by player and shopkeepers |
| Inventory.Purchase | Assets/Scripts/Game/TextBasedGameWorld.cs:620-627 | one purchase appends the stored item to the inventory, costs exactly its value, takes one copy of its name out of the shopkeeper's list, and leaves every other monster and the shopkeeper's other fields alone |
| Inventory.BuyFromConserves | Assets/Scripts/Game/TextBasedGameWorld.cs:609-632 | buying from one shopkeeper conserves wealth and goods and never makes gold negative |
| Inventory.BuyAllConserves | Assets/Scripts/Game/TextBasedGameWorld.cs:602-640 | a whole `buy` command, however many items it buys, conserves wealth and goods and never makes gold negative |
| Combat.NextTurn | Assets/Scripts/Game/CombatManager.cs:58-61 | the turn always passes to the other side |
| Combat.LookupKept | Assets/Scripts/Databases/MonsterDatabase.cs:35-38 | changes that keep monster names keep every room's names resolving to the same records |
| Combat.LookupKeptAt | Assets/Scripts/Databases/MonsterDatabase.cs:35-38 | changes that keep monster names keep one name resolving to the same record |
| Combat.StartCombat | Assets/Scripts/Game/CombatManager.cs:36-43 | combat is active, the monster is appended to the engaged list without a duplicate check, the turn is set, and monster and player are in combat |
| Combat.EndCombat | Assets/Scripts/Game/CombatManager.cs:48-53 | combat is inactive, nobody is engaged, the player is out of combat, and the target index is kept |
| Combat.ChangeTarget | Assets/Scripts/Game/CombatManager.cs:67-73 | the target changes only to an index inside the engaged list, and otherwise nothing changes |
| Combat.Hurt | Assets/Scripts/Game/Monster.cs:69-100 | damaging a monster applies the health rule to that monster alone, leaves every other monster as it was, and adds its item names to the floor exactly when it is dead afterwards |
| Combat.HurtKillsAndDrops | Assets/Scripts/Game/Monster.cs:69-100 | a hit on a living monster kills it exactly when its health does not stay above zero, a killing hit drops its loot once and any other hit drops nothing, and the monsters before and after it are untouched |
| Combat.DeadMonsterDropsAgain | Assets/Scripts/Game/Monster.cs:84-99 | a dead monster hit again drops its whole item list a second time |
| Combat.MonsterCast | Assets/Scripts/Game/Monster.cs:129-165 | a monster's spell keeps the combat fields and all monster names |
| Combat.MonsterCastEffect | Assets/Scripts/Game/Monster.cs:129-165 | without mana nothing changes; otherwise mana drops by the cost, a Nuke on others damages the player, a Heal on others heals the player, and a Self spell leaves the player alone |
| Combat.MonsterAct | Assets/Scripts/Game/GameManager.cs:119-145 | a dead monster does nothing, and a monster's action keeps the combat fields |
| Combat.ChosenSpell | Assets/Scripts/Game/GameManager.cs:121-125 | a monster without spells picks none; a picked spell is a database spell named, ignoring case, by the drawn entry of its spell list |
| Combat.MonsterActEffect | Assets/Scripts/Game/GameManager.cs:119-145 | a living monster casts the spell it picked when that exists and it has the mana; otherwise it hits the player for `NetDamage(MonsterDamage, Mitigation)` and nothing else changes |
| Combat.MonsterTurns | Assets/Scripts/Game/GameManager.cs:117-153 | the monsters' turn keeps the turn, the target and the combat invariant |
| Combat.DeathEndsCombat | Assets/Scripts/Game/GameManager.cs:147-152 | once the player dies during the monsters' turn, combat has ended and nobody is engaged |
| Combat.Disengage | Assets/Scripts/Game/GameManager.cs:99-108 | the killed monster leaves the engaged list once; combat continues aimed at index 0 or ends |
| Combat.PlayerTurn | Assets/Scripts/Game/GameManager.cs:83-114 | the player's turn keeps the combat invariant and monster names; the target stays or resets to 0 |
| Combat.PlayerTurnOutcome | Assets/Scripts/Game/GameManager.cs:83-114 | hitting a dead target does nothing; a living target takes `NetDamage(PlayerDamage, MonsterMitigation)` with every other monster untouched, its loot drops exactly when it is dead afterwards, and only the player's combat flag may change; a kill removes the target and keeps the turn; otherwise the turn passes to the monsters |
| Combat.CombatRound | Assets/Scripts/Game/GameManager.cs:79-158 | a round keeps the combat invariant and monster names; the target stays or resets to 0 |
| Combat.Aggressors | Assets/Scripts/Game/GameManager.cs:61-64 | the aggressive monsters of the room are existing records |
| Combat.AggressorsSound | Assets/Scripts/Game/GameManager.cs:61-64 | every monster listed is aggressive, alive and out of combat |
| Combat.AggressorsComplete | Assets/Scripts/Game/GameManager.cs:61-64 | every room monster that is aggressive, alive and out of combat is listed |
| Combat.AggressorsCompleteLater | Assets/Scripts/Game/GameManager.cs:61-64 | the same for a room monster after the first one |
| Combat.EngageAll | Assets/Scripts/Game/GameManager.cs:67-73 | engaging a list appends it to the engaged list and keeps names, target and the combat invariant |
| Combat.EngageAllEngages | Assets/Scripts/Game/GameManager.cs:67-73 | engaging a non-empty list starts combat on the given turn, and every listed monster is in combat |
| Combat.EngageAllSpares | Assets/Scripts/Game/GameManager.cs:67-73 | monsters not in the list are untouched |
| Combat.HandleAggro | Assets/Scripts/Game/GameManager.cs:59-74 | aggro keeps names, target and the combat invariant |
| Combat.HandleAggroEngages | Assets/Scripts/Game/GameManager.cs:59-74 | an aggressive, alive, free monster of the room is engaged, on the monsters' turn, with the player in combat |
| Combat.HandleAggroSparesOthers | Assets/Scripts/Game/GameManager.cs:59-74 | a monster that is not such an aggressor is untouched |
| Combat.HandleAggroQuiet | Assets/Scripts/Game/GameManager.cs:59-74 | with no aggressor at all nothing changes |
| Combat.NukeOne | Assets/Scripts/Game/Player.cs:262-269 | the nuked monster takes `power` damage and is in combat, no other monster changes, its loot drops exactly when it is dead afterwards; combat starts on the monsters' turn with the monster appended exactly when it was not already fighting, and otherwise the combat fields and the player are unchanged |
| Combat.NukeAll | Assets/Scripts/Game/Player.cs:277-287 | an area nuke keeps names, target and the combat invariant, and no monster leaves combat |
| Combat.NukeAllDamages | Assets/Scripts/Game/Player.cs:277-287 | every monster takes the nuke (damage and combat flag) once for each name of the room that stands for it, and a monster no name stands for is untouched |
| Combat.NukeAllEngagesRoom | Assets/Scripts/Game/Player.cs:277-287 | after an area nuke every monster named in the room is in combat, whatever it was doing before |
| Combat.HealEffect | Assets/Scripts/Game/Player.cs:235-257 | a heal on oneself applies the healing to the player alone; otherwise it heals the monster of the first room name matching the target, with the health rule, every other monster untouched and its loot dropped when it is dead; with no match nothing changes |
| Combat.TargetName | Assets/Scripts/Game/Player.cs:244 | the first room monster name containing the target ignoring case, none exactly when no name does |
| Combat.NukeEffect | Assets/Scripts/Game/Player.cs:258-287 | a nuke spends no mana of its own and keeps names, target and the combat invariant |
| Combat.PlayerSpellEffect | Assets/Scripts/Game/Player.cs:235-287 | a spell's effect keeps the player's mana, names, target and the combat invariant |
| Combat.PlayerCast | Assets/Scripts/Game/Player.cs:214-289 | an unknown spell or too little mana changes nothing; otherwise mana drops by exactly the cost and stays not negative |
| Combat.PlayerCastPaid | Assets/Scripts/Game/Player.cs:224-235 | a castable spell is paid for before its effect is applied |
| Combat.PayMana | Assets/Scripts/Game/Player.cs:233 | paying lowers the player's mana by exactly the cost and changes nothing else |
| Combat.MissedTargetOnlyCostsMana | Assets/Scripts/Game/Player.cs:244-275 | a spell aimed at a name no room monster matches still costs its mana and changes nothing else |
| Wander.GetOppositeDirection | Assets/Scripts/Game/GameManager.cs:245-264 | defined exactly on the six compass and vertical directions (any case), and never the direction itself |
| Wander.OppositeInvolution | Assets/Scripts/Game/GameManager.cs:245-264 | the opposite of the opposite is the lower-cased direction |
| Wander.InAndOutHaveNoOpposite | Assets/Scripts/Game/GameManager.cs:245-264 | `in` and `out` have no opposite in this table |
| Wander.SourceRoom | Assets/Scripts/Game/GameManager.cs:195 | the first room listing the monster, none exactly when no room does |
| Wander.RoomNamed | Assets/Scripts/Game/GameManager.cs:224 | the first room with exactly the name, none exactly when no room has it |
| Wander.Available | Assets/Scripts/Game/GameManager.cs:208 | the exits with a non-empty target |
| Wander.AvailableAppend | Assets/Scripts/Game/GameManager.cs:208 | the filter keeps the exits in their order: filtering a concatenation is concatenating the filtered parts |
| Wander.ChosenExit | Assets/Scripts/Game/GameManager.cs:209-211 | the drawn exit is an exit of the monster's room with a target |
| Wander.Destination | Assets/Scripts/Game/GameManager.cs:211-224 | a monster moves exactly when an exit was drawn and it is unlocked or the monster owns its key; it moves to the room that exit names |
| Wander.WanderMove | Assets/Scripts/Game/GameManager.cs:206-238 | a move keeps the map and changes nothing when the monster cannot pass; otherwise the first room listing the monster loses one listing of its name, the target room gains it at the end, and every other room stays as it was |
| Wander.WanderMoveConserves | Assets/Scripts/Game/GameManager.cs:226-227 | a move neither creates nor loses a monster name across the rooms |
| Wander.WanderersFrom | Assets/Scripts/Game/GameManager.cs:189 | the wandering, alive, free monsters from a position on, in database order |
| Wander.Wanderers | Assets/Scripts/Game/GameManager.cs:189 | exactly the wandering, alive, free monsters, in database order |
| Wander.WanderAll | Assets/Scripts/Game/GameManager.cs:187-199 | all wanderers moving keeps the map |
| Wander.WanderAllConserves | Assets/Scripts/Game/GameManager.cs:187-199 | all wanderers moving neither creates nor loses a monster name |
| Wander.NoRollNoMove | Assets/Scripts/Game/GameManager.cs:193 | when no wanderer rolls a move, the rooms are unchanged |
| World.MoveTarget | Assets/Scripts/Game/TextBasedGameWorld.cs:111-147 | the player moves exactly when out of combat, an exit has exactly that direction, a locked exit's key is carried, and the target is a known room; it moves to that room |
| World.MoveLandsInNamedRoom | Assets/Scripts/Game/TextBasedGameWorld.cs:136-141 | the room moved to is the one the exit names |
| World.Reverse | Assets/Scripts/Game/TextBasedGameWorld.cs:196-222 | the back direction is defined exactly for the eight movement directions |
| World.ReverseInvolution | Assets/Scripts/Game/TextBasedGameWorld.cs:196-222 | reversing twice gives the direction back |
| World.BackUndoesMove | Assets/Scripts/Game/TextBasedGameWorld.cs:190-226 | after a move through an exit whose room leads back, going back returns to the starting room |
| World.FleeTarget | Assets/Scripts/Game/TextBasedGameWorld.cs:152-185 | fleeing succeeds exactly in combat, with exits, on a roll of 0 of 4, to a known room; it goes to the drawn exit's room |
| World.FirstMatch | Assets/Scripts/Game/TextBasedGameWorld.cs:352 | the first item whose name matches the query ignoring case, none exactly when none does |
| World.Take | Assets/Scripts/Game/TextBasedGameWorld.cs:301-319 | taking removes the first matching resolvable name from the floor and appends its item to the inventory; otherwise nothing changes |
| World.TakeConserves | Assets/Scripts/Game/TextBasedGameWorld.cs:301-319 | taking keeps the multiset of names on the floor and in the inventory |
| World.TakeEverything | Assets/Scripts/Game/TextBasedGameWorld.cs:324-344 | taking everything empties the floor and appends to the inventory the item of every floor name that resolves, in the floor's order, so at most one per name |
| World.TakeEverythingConserves | Assets/Scripts/Game/TextBasedGameWorld.cs:324-344 | taking everything keeps all names when every name is known, and loses some otherwise |
| World.DropItem | Assets/Scripts/Game/TextBasedGameWorld.cs:350-364 | dropping removes the first matching item and appends its name to the floor; otherwise nothing changes |
| World.DropConserves | Assets/Scripts/Game/TextBasedGameWorld.cs:350-364 | dropping keeps the multiset of names on the floor and in the inventory |
| World.DropThenTake | Assets/Scripts/Game/TextBasedGameWorld.cs:301-364 | taking back what was just dropped restores the floor and puts the item back at the end of the inventory |
| World.ObjectAt | Assets/Scripts/Game/TextBasedGameWorld.cs:372 | the first object whose name matches the query, none exactly when none does |
| World.InteractWith | Assets/Scripts/Game/TextBasedGameWorld.cs:370-389 | using an object with a reward drops the reward into the room and clears it; otherwise nothing changes |
| World.InteractOnce | Assets/Scripts/Game/TextBasedGameWorld.cs:370-389 | using an object a second time changes nothing more |
| World.RemoveBeforeAdded | Assets/Scripts/Game/TextBasedGameWorld.cs:469-474 | removing the equipped item after the displaced one was added back removes the equipped item's own position |
| World.EquipItem | Assets/Scripts/Game/TextBasedGameWorld.cs:459-486 | equipping a slotted item moves it into its slot and the displaced item back to the inventory; no match or no slot changes nothing |
| World.EquipConserves | Assets/Scripts/Game/TextBasedGameWorld.cs:459-486 | equipping keeps everything the player owns and unique slots, and the item then sits in its slot |
| World.FirstMonster | Assets/Scripts/Game/TextBasedGameWorld.cs:494 | the first room monster whose record's name matches the query, none exactly when none does |
| World.KillIn | Assets/Scripts/Game/TextBasedGameWorld.cs:492-517 | killing removes the monster's name from the room and drops its items on the floor; no match changes nothing |
| World.KillRemovesVictim | Assets/Scripts/Game/TextBasedGameWorld.cs:492-517 | killing never adds a monster to the room; when the room lists the killed record under its exact name, the matched position is the one removed (the removal compares names case-sensitively) |
| World.Foe | Assets/Scripts/Game/TextBasedGameWorld.cs:723-725 | the record of the first room monster whose name matches the query, none exactly when none does |
| World.Shopkeeper | Assets/Scripts/Game/TextBasedGameWorld.cs:650-652 | the record of the first room monster that is a shopkeeper whose name matches the query, none exactly when no room monster is one |
| World.HandOver | Assets/Scripts/Game/TextBasedGameWorld.cs:669-676 | the item leaves the inventory, its name joins the receiver's list, and gold rises by its value when it is sold |
| World.SellTo | Assets/Scripts/Game/TextBasedGameWorld.cs:647-679 | selling moves the first matching item to the shopkeeper and adds its value to gold; a failed lookup changes nothing |
| World.GiveTo | Assets/Scripts/Game/TextBasedGameWorld.cs:686-715 | giving moves the first matching item to the monster and never changes gold; a failed lookup changes nothing |
| World.HandOverConserves | Assets/Scripts/Game/TextBasedGameWorld.cs:669-676 | a hand-over keeps the goods, and wealth too when it is paid for |
| World.SellConserves | Assets/Scripts/Game/TextBasedGameWorld.cs:647-679 | selling conserves wealth and goods |
| World.GiveConserves | Assets/Scripts/Game/TextBasedGameWorld.cs:686-715 | giving conserves goods and costs exactly the given item's value in wealth |
| World.ExamineAsWrittenIgnoresEquipment | Assets/Scripts/Game/TextBasedGameWorld.cs:395-417 | examining as written gives the same answer whatever the player wears |
| World.ExamineAsWritten | Assets/Scripts/Game/TextBasedGameWorld.cs:395-417 | as written, the description of the first match in search order: floor items, then carried items, then objects, then room monsters (worn items play no part); nothing is described exactly when none matches |
| World.Examine | Assets/Scripts/Game/TextBasedGameWorld.cs:395-417 | as intended, the description of the first match in search order: floor items, carried items, worn items, objects, room monsters; nothing is described exactly when none matches |
| World.ExamineSeesEquipment | Assets/Scripts/Game/TextBasedGameWorld.cs:395-417 | corrected examining describes a worn item when nothing on the floor or carried matches |
| World.AppraisalIn | Assets/Scripts/Game/TextBasedGameWorld.cs:423-453 | the first item matching the query, searching the floor, the carried list, then the third list, is reported when its value is positive and "no monetary value" otherwise, also when nothing matches |
| World.ValueAsWrittenIgnoresEquipment | Assets/Scripts/Game/TextBasedGameWorld.cs:423-453 | appraising as written gives the same answer whatever the player wears |
| World.ValueAsWritten | Assets/Scripts/Game/TextBasedGameWorld.cs:423-453 | as written, the first match on the floor, else in the inventory, is reported when its value is positive; worn items are never searched, and no match gives "no monetary value" |
| World.Value | Assets/Scripts/Game/TextBasedGameWorld.cs:423-453 | as intended, the first match on the floor, else in the inventory, else among worn items, is reported when its value is positive; otherwise, or with no match, "no monetary value" |
| World.ValueSeesEquipment | Assets/Scripts/Game/TextBasedGameWorld.cs:423-453 | corrected appraising finds a worn item of positive value when nothing on the floor or carried matches |
| World.ConsiderAsWrittenCrashes | Assets/Scripts/Game/TextBasedGameWorld.cs:523-546 | considering as written never reports "I don't see them"; it crashes exactly when no room monster matches |
| World.ConsiderAsWritten | Assets/Scripts/Game/TextBasedGameWorld.cs:523-546 | as written, never "I don't see them": the first room monster matching the query gives its health and temper, and no match crashes |
| World.Consider | Assets/Scripts/Game/TextBasedGameWorld.cs:523-546 | as intended, never a crash: the first room monster matching the query gives its health and temper, and no match reports that none is seen |
| World.ConsiderNeverCrashes | Assets/Scripts/Game/TextBasedGameWorld.cs:523-546 | corrected considering never crashes, agrees with the original wherever that does not crash, and reports a matching room monster's health and temper |
| World.ConsiderEmptyRoom | Assets/Scripts/Game/TextBasedGameWorld.cs:527 | in an empty room the original crashes and the corrected version says it sees nobody |
| World.WornItemIsInvisible | Assets/Scripts/Game/TextBasedGameWorld.cs:395-453 | in a bare room with nothing carried, a worn item is invisible to examine and value as written and visible to the corrected versions |
| World.WieldedSwordIsInvisible | Assets/Scripts/Game/TextBasedGameWorld.cs:395-453 | a concrete case: a player wielding a sword cannot examine or appraise it as written |
| Game.KeyOf | Assets/Scripts/Game/TextBasedGameWorld.cs:122-134 | in a valid world every locked exit names its key |
| Game.StartSound | Assets/Scripts/Game/TextBasedGameWorld.cs:743-763 | a loaded world, starting in the first room out of combat, satisfies the session invariant |
| Game.Wandered | Assets/Scripts/Game/GameManager.cs:187-199 | wandering that keeps the map and every monster name keeps the session invariant |
| Game.Session.constructor | Assets/Scripts/Game/TextBasedGameWorld.cs:743-763 | the session starts in the first room with the loaded content, no last direction, the default player, and no combat |
| Game.Session.StartPlayer | Assets/Scripts/Game/Player.cs:33-38 | starting the player sets up the new player described by `Actors.NewPlayer` |
| Game.Session.Memorize | Assets/Scripts/Game/Player.cs:36-37 | memorizing by name adds the spell exactly when the database has it |
| Game.Session.GenerateRoomLookup | Assets/Scripts/Game/TextBasedGameWorld.cs:768-775 | the lookup maps exactly every room name to that room |
| Game.Session.StartCombat | Assets/Scripts/Game/CombatManager.cs:36-43 | the session's combat state becomes `Combat.StartCombat` of the old one |
| Game.Session.EndCombat | Assets/Scripts/Game/CombatManager.cs:48-53 | the session's combat state becomes `Combat.EndCombat` of the old one |
| Game.Session.NextTurn | Assets/Scripts/Game/CombatManager.cs:58-61 | the turn passes to the other side |
| Game.Session.ChangeTarget | Assets/Scripts/Game/CombatManager.cs:67-73 | the session's combat state becomes `Combat.ChangeTarget` of the old one |
| Game.Session.HurtMonster | Assets/Scripts/Game/Monster.cs:69-100 | the damaged monster and the floor become what `Combat.Hurt` says; only the current room's floor changes among the rooms |
| Game.Session.Strew | Assets/Scripts/Game/Monster.cs:93-97 | the loot loop appends the item names to the floor in order |
| Game.Session.MonsterCastSpell | Assets/Scripts/Game/Monster.cs:129-165 | a monster's cast leaves the state `Combat.MonsterCast` describes |
| Game.Session.MonsterSpell | Assets/Scripts/Game/Monster.cs:141-164 | the spell's effect leaves the state `Combat.MonsterCast` describes |
| Game.Session.MonsterAct | Assets/Scripts/Game/GameManager.cs:119-145 | one monster's action leaves the state `Combat.MonsterAct` describes |
| Game.Session.Disengage | Assets/Scripts/Game/GameManager.cs:99-108 | removing a killed monster leaves the state `Combat.Disengage` describes |
| Game.Session.PlayerRound | Assets/Scripts/Game/GameManager.cs:83-114 | the player's turn leaves the state `Combat.PlayerTurn` describes |
| Game.Session.MonstersRound | Assets/Scripts/Game/GameManager.cs:115-156 | the monsters act in engagement order and the turn then passes, as `Combat.MonsterTurns` describes |
| Game.Session.MonstersAct | Assets/Scripts/Game/GameManager.cs:117-153 | the loop over the engaged monsters leaves the state `Combat.MonsterTurns` describes and stops once the player is dead |
| Game.Session.CombatRound | Assets/Scripts/Game/GameManager.cs:79-158 | one round leaves the state `Combat.CombatRound` describes and keeps the session invariant |
| Game.Session.HandleAggroMobs | Assets/Scripts/Game/GameManager.cs:59-74 | aggro leaves the state `Combat.HandleAggro` describes, with rooms and position unchanged |
| Game.Session.AggressiveMonsters | Assets/Scripts/Game/GameManager.cs:61-64 | the list built is exactly `Combat.Aggressors` of the current room |
| Game.Session.EngageEach | Assets/Scripts/Game/GameManager.cs:67-73 | engaging each listed monster leaves the state `Combat.EngageAll` describes |
| Game.Session.NukeMonster | Assets/Scripts/Game/Player.cs:266-269 | one nuked monster leaves the state `Combat.NukeOne` describes |
| Game.Session.NukeRoom | Assets/Scripts/Game/Player.cs:277-287 | the area nuke loop leaves the state `Combat.NukeAll` describes |
| Game.Session.HealSpell | Assets/Scripts/Game/Player.cs:235-257 | a heal leaves the state `Combat.HealEffect` describes |
| Game.Session.NukeSpell | Assets/Scripts/Game/Player.cs:258-287 | a nuke leaves the state `Combat.NukeEffect` describes |
| Game.Session.CastSpell | Assets/Scripts/Game/Player.cs:214-289 | casting leaves the state `Combat.PlayerCast` describes and keeps the session invariant |
| Game.Session.Cast | Assets/Scripts/Game/Player.cs:214-289 | casting among given room monsters leaves the state `Combat.PlayerCast` describes |
| Game.Session.MoveToRoom | Assets/Scripts/Game/TextBasedGameWorld.cs:111-147 | the current room and last direction change exactly as `World.MoveTarget` allows, and are unchanged otherwise |
| Game.Session.Back | Assets/Scripts/Game/TextBasedGameWorld.cs:190-226 | with no last direction nothing changes; otherwise the player tries to move the reverse way |
| Game.Session.Flee | Assets/Scripts/Game/TextBasedGameWorld.cs:152-185 | a successful flee ends combat and moves the player as `World.FleeTarget` says; a failed one changes nothing |
| Game.Session.TakeItem | Assets/Scripts/Game/TextBasedGameWorld.cs:301-319 | floor and inventory become `World.Take` of the old ones, and nothing else of the player changes |
| Game.Session.PickUp | Assets/Scripts/Game/TextBasedGameWorld.cs:301-319 | the same, without the session invariant |
| Game.Session.TakeAllItems | Assets/Scripts/Game/TextBasedGameWorld.cs:324-344 | floor and inventory become `World.TakeEverything` of the old ones |
| Game.Session.PickUpAll | Assets/Scripts/Game/TextBasedGameWorld.cs:324-344 | the same, without the session invariant |
| Game.Session.Gather | Assets/Scripts/Game/TextBasedGameWorld.cs:328-337 | the loop collects exactly the items the floor names resolve to, in order |
| Game.Session.Drop | Assets/Scripts/Game/TextBasedGameWorld.cs:350-364 | floor and inventory become `World.DropItem` of the old ones |
| Game.Session.PutDown | Assets/Scripts/Game/TextBasedGameWorld.cs:350-364 | the same, without the session invariant |
| Game.Session.Interact | Assets/Scripts/Game/TextBasedGameWorld.cs:370-389 | the current room becomes `World.InteractWith` of the old one |
| Game.Session.Use | Assets/Scripts/Game/TextBasedGameWorld.cs:370-389 | the same, without the session invariant |
| Game.Session.Equip | Assets/Scripts/Game/TextBasedGameWorld.cs:459-486 | the player becomes `World.EquipItem` of the old one |
| Game.Session.Kill | Assets/Scripts/Game/TextBasedGameWorld.cs:492-517 | the current room becomes `World.KillIn` of the old one |
| Game.Session.Slay | Assets/Scripts/Game/TextBasedGameWorld.cs:492-517 | the same, without the session invariant |
| Game.Session.AttackMonster | Assets/Scripts/Game/TextBasedGameWorld.cs:721-736 | a matching room monster is engaged on the player's turn; otherwise nothing changes |
| Game.Session.Engage | Assets/Scripts/Game/TextBasedGameWorld.cs:721-736 | the same, without the session invariant |
| Game.Session.Buy | Assets/Scripts/Game/TextBasedGameWorld.cs:602-640 | gold, inventory and shopkeeper lists become `Inventory.BuyAll` of the old ones |
| Game.Session.BuyAmong | Assets/Scripts/Game/TextBasedGameWorld.cs:607-634 | the loop over the room's monsters leaves the state `Inventory.BuyAll` describes |
| Game.Session.BuyFromShop | Assets/Scripts/Game/TextBasedGameWorld.cs:609-632 | one shopkeeper's sale leaves the state `Inventory.BuyFrom` describes |
| Game.Session.BuyAt | Assets/Scripts/Game/TextBasedGameWorld.cs:620-627 | one purchase leaves the state `Inventory.Purchase` describes |
| Game.Session.Sell | Assets/Scripts/Game/TextBasedGameWorld.cs:647-679 | gold, inventory and shopkeeper lists become `World.SellTo` of the old ones |
| Game.Session.SellAmong | Assets/Scripts/Game/TextBasedGameWorld.cs:647-679 | the same for a given list of room monsters |
| Game.Session.Give | Assets/Scripts/Game/TextBasedGameWorld.cs:686-715 | inventory and monster lists become `World.GiveTo` of the old ones |
| Game.Session.GiveAmong | Assets/Scripts/Game/TextBasedGameWorld.cs:686-715 | the same for a given list of room monsters |
| Game.Session.HandOverTo | Assets/Scripts/Game/TextBasedGameWorld.cs:669-676 | one hand-over leaves the state `World.HandOver` describes |
| Game.Session.MoveMonster | Assets/Scripts/Game/GameManager.cs:206-238 | the rooms become `Wander.WanderMove` of the old ones |
| Game.Session.MoveWanderingMonsters | Assets/Scripts/Game/GameManager.cs:187-199 | the rooms become `Wander.WanderAll` of the old ones; combat and the player are untouched |
| Game.Session.Wander | Assets/Scripts/Game/GameManager.cs:187-199 | the same, without the session invariant |
| Game.Session.Tick | Assets/Scripts/Game/GameManager.cs:44-52 | a tick moves the wanderers, then engages the aggressors of the current room, then runs exactly one combat round |
| Commands.DirectionWord | Assets/Scripts/Game/CommandHandler.cs:90-145 | a bare direction word or its one-letter short form names one of the eight directions |
| Commands.Parse | Assets/Scripts/Game/CommandHandler.cs:52-466 | an unknown word is reported with the line's own text |
| Commands.UnknownIffUnrecognised | Assets/Scripts/Game/CommandHandler.cs:52-466 | a line is reported as an unknown word exactly when none of the verb groups recognises it |
| Commands.ParseSell | Assets/Scripts/Game/CommandHandler.cs:397-414 | a `sell` line becomes a sale or nothing |
| Commands.ParseGive | Assets/Scripts/Game/CommandHandler.cs:415-427 | a `give` line becomes a gift or nothing |
| Commands.ParseCast | Assets/Scripts/Game/CommandHandler.cs:430-446 | a `cast` line becomes a cast or nothing |
| Commands.Movement | Assets/Scripts/Game/CommandHandler.cs:72-149 | a movement comes from a `move `/`go ` prefix or a direction word |
| Commands.Looking | Assets/Scripts/Game/CommandHandler.cs:152-179 | the looking verbs give a look or an examine |
| Commands.Items | Assets/Scripts/Game/CommandHandler.cs:180-285 | the item verbs give a take, a drop, an equip, an appraisal, take-all or a list; take-all comes exactly from `take all`, `t all`, `get all`, `get` and `g all` |
| Commands.Objects | Assets/Scripts/Game/CommandHandler.cs:289-307 | the object verbs give an interaction |
| Commands.Mobs | Assets/Scripts/Game/CommandHandler.cs:310-355 | the monster verbs give a kill, an attack or a consider |
| Commands.Shopping | Assets/Scripts/Game/CommandHandler.cs:358-427 | the shop verbs give a shop listing, a purchase, a sale, a gift, gold, stats or nothing; a sale or gift comes only from a `sell ` or `give ` line |
| Commands.Spells | Assets/Scripts/Game/CommandHandler.cs:430-454 | the spell verbs give a cast, the which-spell question, the spell list, or nothing |
| Commands.LookAtExamines | Assets/Scripts/Game/CommandHandler.cs:160-164 | `look at x` examines `x`, not `at x` |
| Commands.LookExamines | Assets/Scripts/Game/CommandHandler.cs:165-169 | `look x` examines exactly `x` |
| Commands.TakeAllSkipsMovementAndLooking | Assets/Scripts/Game/CommandHandler.cs:182-197 | the take-all words are neither movements nor looking |
| Commands.TakeAllSkipsMovement | Assets/Scripts/Game/CommandHandler.cs:182-197 | the take-all words are not movements |
| Commands.TakeAllSkipsLooking | Assets/Scripts/Game/CommandHandler.cs:182-197 | the take-all words are not looking |
| Commands.TakeAllWords | Assets/Scripts/Game/CommandHandler.cs:182-197 | `take all`, `t all`, `get all`, `get` and `g all` take everything before the prefix forms are tried |
| Commands.TakeOne | Assets/Scripts/Game/CommandHandler.cs:198-202 | `take x`, for any `x` other than `all`, takes exactly `x` |
| Commands.EqualsAloneLists | Assets/Scripts/Game/CommandHandler.cs:271-274 | `eq` on its own lists the equipment |
| Commands.EqualsPrefixEquips | Assets/Scripts/Game/CommandHandler.cs:228-232 | `eq x` equips exactly `x` |
| Commands.EquipSkipsMovementAndLooking | Assets/Scripts/Game/CommandHandler.cs:228-232 | an `eq ` line is neither a movement nor looking |
| Commands.UnusedSkipsMovementAndLooking | Assets/Scripts/Game/CommandHandler.cs:457-460 | a line starting with a letter no verb uses is neither a movement nor looking |
| Commands.UnusedSkipsItemsAndObjects | Assets/Scripts/Game/CommandHandler.cs:457-460 | such a line is no item or object command |
| Commands.UnusedSkipsItems | Assets/Scripts/Game/CommandHandler.cs:457-460 | such a line is no item command |
| Commands.UnusedSkipsTheRest | Assets/Scripts/Game/CommandHandler.cs:457-460 | such a line is no monster, shop or spell command |
| Commands.UnusedSkipsMobs | Assets/Scripts/Game/CommandHandler.cs:457-460 | such a line is no monster command |
| Commands.UnusedSkipsShopping | Assets/Scripts/Game/CommandHandler.cs:457-460 | such a line is no shop command |
| Commands.UnknownWord | Assets/Scripts/Game/CommandHandler.cs:457-460 | such a line is reported as an unknown word |
| Commands.TradeSkipsMovementAndLooking | Assets/Scripts/Game/CommandHandler.cs:397-427 | a `sell `/`give ` line is neither a movement nor looking |
| Commands.TradeSkipsItems | Assets/Scripts/Game/CommandHandler.cs:397-427 | a `sell `/`give ` line is no item command |
| Commands.TradeSkipsObjectsAndMobs | Assets/Scripts/Game/CommandHandler.cs:397-427 | a `sell `/`give ` line is no object or monster command |
| Commands.ShoppingSells | Assets/Scripts/Game/CommandHandler.cs:397-414 | among the shop verbs, a `sell ` line is split as a sale |
| Commands.ShoppingGives | Assets/Scripts/Game/CommandHandler.cs:415-427 | among the shop verbs, a `give ` line is split as a gift |
| Commands.SpellsCast | Assets/Scripts/Game/CommandHandler.cs:430-446 | a `cast ` line is no shop command and is split as a cast |
| Commands.SellRoutes | Assets/Scripts/Game/CommandHandler.cs:397-414 | every `sell ` line reaches the sell split |
| Commands.GiveRoutes | Assets/Scripts/Game/CommandHandler.cs:415-427 | every `give ` line reaches the give split |
| Commands.CastRoutes | Assets/Scripts/Game/CommandHandler.cs:430-446 | every `cast ` line reaches the cast split |
| Commands.RecipientAfterTo | Assets/Scripts/Game/CommandHandler.cs:401-407 | with `to` as the third word, the recipient is the words after it |
| Commands.RecipientDirect | Assets/Scripts/Game/CommandHandler.cs:401-407 | otherwise the recipient is the words from the third on |
| Commands.SellToSplits | Assets/Scripts/Game/CommandHandler.cs:397-408 | `sell item to who` sells the one-word item to `who` |
| Commands.SellSplits | Assets/Scripts/Game/CommandHandler.cs:397-408 | `sell item who` sells the one-word item to `who` |
| Commands.SellAlone | Assets/Scripts/Game/CommandHandler.cs:409-413 | a two-word `sell item` sells to the empty name |
| Commands.GiveNeedsRecipient | Assets/Scripts/Game/CommandHandler.cs:415-427 | a two-word `give item` dispatches nothing |
| Commands.GiveToSplits | Assets/Scripts/Game/CommandHandler.cs:415-427 | `give item to who` gives the one-word item to `who` |
| Commands.CastSplits | Assets/Scripts/Game/CommandHandler.cs:430-446 | with three or more words the spell and target are words 1 and 2 and the rest is ignored; with two the target is empty |
| Handler.InertOrActs | Assets/Scripts/Game/CommandHandler.cs:72-460 | a command changes no world state exactly when it is none of the acting verbs |
| Handler.CommandHandler.constructor | Assets/Scripts/Game/CommandHandler.cs:22 | the handler starts with no last command |
| Handler.CommandHandler.ProcessCommand | Assets/Scripts/Game/CommandHandler.cs:52-466 | an empty line repeats the last one or does nothing; a dead player changes nothing and nothing is remembered; otherwise the line is remembered; inert commands change nothing and only movement changes the room |
| Handler.CommandHandler.Dispatch | Assets/Scripts/Game/CommandHandler.cs:72-460 | inert commands change nothing, only movement changes the room, and movement changes no room contents or monster |
| Handler.CommandHandler.Travel | Assets/Scripts/Game/CommandHandler.cs:72-149 | moving, going back and fleeing change no room contents and no monster, and the player ends in the room `World.MoveTarget` (for the direction, or the reverse of the last one) or `World.FleeTarget` names, staying put when it names none |
| Handler.CommandHandler.Handle | Assets/Scripts/Game/CommandHandler.cs:182-339 | item, object and kill commands keep the player in the same room |
| Handler.CommandHandler.Deal | Assets/Scripts/Game/CommandHandler.cs:321-446 | attack, trade and cast commands keep the player in the same room |

## Left out

- The log and picture output (`UIManager`), and the display-only commands. These are `DisplayRoomInfo` beyond its dark-room test, `ListEquipment`, `ListItems`, `ShowGold`, `ShowStats`, `ListSpells`, `ShopAll` and `Shop`. They change no state and appear only as inert commands in the handler.
- Keyboard and frame polling, the input field, `SetCommand`, and the `TickRoutine` coroutine's timing. `Tick` is a method called explicitly.
- `LoadGameWorld` and the `Load*Database` loaders, which deserialize JSON through Unity. The loaded content is taken as given by the session constructor, which requires distinct room names (`GenerateRoomLookup` throws on a duplicate).
- The editors and the file manager.
- `UnityEngine.Random`: every draw is a parameter, reduced modulo its range as `Random.Range` would draw it.
- Floats are integers.
- Case folding covers the ASCII letters only.
- `StartsWith` is ordinal rather than culture-sensitive.
- Null-reference crashes are excluded by preconditions and by the session invariant rather than modelled as exceptions. The crashes covered this way are:
  - room or shop monster names that do not resolve;
  - worn monster items that do not resolve in mitigation;
  - a target index outside the engaged list;
  - a locked exit with no key name, on which `MoveToRoom` throws once the player carries any item (with an empty inventory the game refuses the move instead; the session invariant excludes such exits altogether, so that refusal is not modelled either);
  - a wanderer that sits in no room, or whose exit names no room;
  - a wanderer entering the player's room through a direction with no opposite (`in`/`out`), where the game would dereference a null direction;
  - a room whose flag list is null (`new Room()` leaves it unset), on which `HasFlag` and the dark-room test would dereference it.
- Object identity is reduced to names and database positions. Two distinct `Item` objects with equal fields are the same value here. `List.Remove` and `Contains` on items therefore compare by value, which only matters for duplicate identical items.
- Room `Id`, `Items` (the unused object list) and the picture fields are not modelled.
- Actors.NewPlayer: when the spell database lacks "Fireball" or "Heal", the game memorizes a null spell and any later `CastSpell` crashes. The model skips the missing spell instead.
- Handler.CommandHandler.Handle: states only that the room stays the same. What each command does to the world is stated by the `Game.Session` method it calls.
- Handler.CommandHandler.Deal: likewise only states that the room stays the same. The per-command effects are stated by the `Game.Session` methods.
- Handler.CommandHandler.Dispatch: `Examine`, `Value` and `Consider` only log, so here they are inert. Their answers are modelled by `World.Examine`, `World.Value` and `World.Consider`.
- Combat.PlayerTurn: its own contract states only the invariants and the target rule. The damage dealt, the loot dropped, the engaged list and the turn are stated by `Combat.PlayerTurnOutcome`.
- Combat.MonsterAct: its own contract states only that a dead monster does nothing and the combat fields are kept. The choice between casting and melee, and the melee damage, are stated by `Combat.MonsterActEffect`.
- Combat.CombatRound: states the invariants and the target rule only. The player's side (engaged list, turn, target, the damage dealt and the loot dropped) is stated by `Combat.PlayerTurnOutcome`. Each monster's action is stated by `Combat.MonsterActEffect` and `Combat.MonsterCastEffect`, and the end of combat on the player's death by `Combat.DeathEndsCombat`. No lemma states the player's health after a whole monsters' turn in one formula.
- Combat.NukeAll: states per monster how often it is hit (`Combat.NukeAllDamages`) and that every room monster ends up fighting (`Combat.NukeAllEngagesRoom`). The loot dropped on the floor and the order in which monsters join the engaged list are stated only per nuke, by `Combat.NukeOne`.

## Findings

| source | as written | input that shows it | evidently intended | confidence | as-written member | corrected member |
|---|---|---|---|---|---|---|
| Assets/Scripts/Game/TextBasedGameWorld.cs:400 | `Examine` searches the room's items, the inventory, then the inventory again, so worn equipment is never found | a player wielding a sword, carrying nothing, types `examine sword` in an empty room: "You don't see a sword" | the third search looks at the equipped items | not executed | World.WornItemIsInvisible | World.ExamineSeesEquipment |
| Assets/Scripts/Game/TextBasedGameWorld.cs:431 | `Value` also searches the inventory twice, so worn equipment cannot be appraised | the same player types `value sword`: "That has no monetary value" | the third search looks at the equipped items | not executed | World.ValueAsWrittenIgnoresEquipment | World.ValueSeesEquipment |
| Assets/Scripts/Game/TextBasedGameWorld.cs:527 | `Consider` logs the monster's health before checking that a monster was found, so the "I don't see them" branch can never run | `consider rat` in a room with no matching monster throws a null reference | check for a missing monster before reading its health | not executed | World.ConsiderAsWrittenCrashes | World.ConsiderNeverCrashes |
