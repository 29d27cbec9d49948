/** The command language: the ordered chain of verbs `CommandHandler.ProcessCommand`
    tries on one input line, as a pure map from the line to the one action it
    dispatches. The first branch that matches wins; prefix verbs hand on exactly
    the text after the prefix. */
module Commands {
  import opened Base

  datatype Command =
    | Move(direction: string)
    | Back
    | Flee
    | Look
    | Examine(target: string)
    | TakeAll
    | Take(item: string)
    | Drop(item: string)
    | Equip(item: string)
    | Value(item: string)
    | ListEquipment
    | ListItems
    | Interact(object: string)
    | Kill(monster: string)
    | Attack(monster: string)
    | Consider(monster: string)
    | ShopAll
    | Shop(monster: string)
    | Buy(item: string)
    | ShowGold
    | ShowStats
    | Sell(item: string, monster: string)
    | Give(item: string, monster: string)
    | Cast(spell: string, target: string)
    | AskWhichSpell
    | ListSpells
    | Nothing
    | Unknown(text: string)

  /** The one-letter and full direction words that move the player. */
  function DirectionWord(command: string): (r: Option<string>)
    ensures r.Some? ==> r.value in {"north", "south", "east", "west", "up", "down", "in", "out"}
  {
    if command == "north" || command == "south" || command == "east" || command == "west" || command == "up" || command == "down" || command == "in" || command == "out" then Some(command)
    else if command == "n" then Some("north")
    else if command == "s" then Some("south")
    else if command == "e" then Some("east")
    else if command == "w" then Some("west")
    else if command == "u" then Some("up")
    else if command == "d" then Some("down")
    else None
  }

  /** The text after a prefix the command starts with. */
  function After(command: string, prefix: string): string
    requires StartsWith(command, prefix)
  {
    command[|prefix|..]
  }

  /** `sell ...`, on the lower-cased line split at single spaces: the item is the
      first word after the verb; the shopkeeper is every later word, skipping a
      leading "to"; with only the item it is "". */
  function ParseSell(command: string): (r: Command)
    ensures r.Sell? || r == Nothing
  {
    var words := Split(Lower(command));
    if |words| >= 3 && words[0] == "sell" then
      Sell(words[1], JoinFrom(words, if words[2] == "to" then 3 else 2))
    else if |words| == 2 then Sell(words[1], "")
    else Nothing
  }

  /** `give ...`: the same split as selling, but an item without a recipient
      dispatches nothing. */
  function ParseGive(command: string): (r: Command)
    ensures r.Give? || r == Nothing
  {
    var words := Split(Lower(command));
    if |words| >= 3 && words[0] == "give" then
      Give(words[1], JoinFrom(words, if words[2] == "to" then 3 else 2))
    else Nothing
  }

  /** `cast ...`, split without lower-casing: the spell and the target are the
      next two words and anything later is ignored; with only the spell the
      target is "". */
  function ParseCast(command: string): (r: Command)
    ensures r.Cast? || r == Nothing
  {
    var words := Split(command);
    if |words| >= 3 then Cast(words[1], words[2])
    else if |words| == 2 then Cast(words[1], "")
    else Nothing
  }

  /** The movement verbs: "move x" and "go x", back, the direction words and
      their initials, flee. */
  function Movement(command: string): (r: Option<Command>)
    ensures r.Some? && r.value.Move? ==>
      StartsWith(command, "move ") || StartsWith(command, "go ") || DirectionWord(command).Some?
  {
    if StartsWith(command, "move ") then Some(Move(After(command, "move ")))
    else if StartsWith(command, "go ") then Some(Move(After(command, "go ")))
    else if command == "back" || command == "b" then Some(Back)
    else if DirectionWord(command).Some? then Some(Move(DirectionWord(command).value))
    else if command == "flee" then Some(Flee)
    else None
  }

  /** The looking verbs; "look at " is tried before "look ". */
  function Looking(command: string): (r: Option<Command>)
    ensures r.Some? ==> r.value == Look || r.value.Examine?
  {
    if command == "look" || command == "l" then Some(Look)
    else if StartsWith(command, "look at ") then Some(Examine(After(command, "look at ")))
    else if StartsWith(command, "look ") then Some(Examine(After(command, "look ")))
    else if StartsWith(command, "examine ") then Some(Examine(After(command, "examine ")))
    else if StartsWith(command, "ex ") then Some(Examine(After(command, "ex ")))
    else None
  }

  /** The item verbs: taking (everything first), dropping, equipping,
      appraising, and the equipment and inventory lists. */
  function Items(command: string): (r: Option<Command>)
    ensures r.Some? ==> r.value in {TakeAll, ListEquipment, ListItems}
                        || r.value.Take? || r.value.Drop? || r.value.Equip? || r.value.Value?
    ensures r == Some(TakeAll) <==>
      command in {"take all", "t all", "get all", "get", "g all"}
  {
    if command == "take all" || command == "t all" || command == "get all" || command == "get" || command == "g all" then Some(TakeAll)
    else if StartsWith(command, "take ") then Some(Take(After(command, "take ")))
    else if StartsWith(command, "t ") then Some(Take(After(command, "t ")))
    else if StartsWith(command, "get ") then Some(Take(After(command, "get ")))
    else if StartsWith(command, "g ") then Some(Take(After(command, "g ")))
    else if StartsWith(command, "drop ") then Some(Drop(After(command, "drop ")))
    else if StartsWith(command, "dr ") then Some(Drop(After(command, "dr ")))
    else if StartsWith(command, "eq ") then Some(Equip(After(command, "eq ")))
    else if StartsWith(command, "equip ") then Some(Equip(After(command, "equip ")))
    else if StartsWith(command, "wear ") then Some(Equip(After(command, "wear ")))
    else if StartsWith(command, "wield ") then Some(Equip(After(command, "wield ")))
    else if command == "equip" then Some(Equip(""))
    else if StartsWith(command, "value ") then Some(Value(After(command, "value ")))
    else if StartsWith(command, "val ") then Some(Value(After(command, "val ")))
    else if StartsWith(command, "appraise ") then Some(Value(After(command, "appraise ")))
    else if command == "equipment" || command == "eq" then Some(ListEquipment)
    else if command == "inventory" || command == "inv" || command == "i" then Some(ListItems)
    else None
  }

  /** The verbs for interactable objects. */
  function Objects(command: string): (r: Option<Command>)
    ensures r.Some? ==> r.value.Interact?
  {
    if StartsWith(command, "interact ") then Some(Interact(After(command, "interact ")))
    else if StartsWith(command, "use ") then Some(Interact(After(command, "use ")))
    else if StartsWith(command, "open ") then Some(Interact(After(command, "open ")))
    else if command == "use" then Some(Interact(""))
    else None
  }

  /** The verbs aimed at monsters. */
  function Mobs(command: string): (r: Option<Command>)
    ensures r.Some? ==> r.value.Kill? || r.value.Attack? || r.value.Consider?
  {
    if StartsWith(command, "kill ") then Some(Kill(After(command, "kill ")))
    else if StartsWith(command, "k ") then Some(Kill(After(command, "k ")))
    else if StartsWith(command, "attack ") then Some(Attack(After(command, "attack ")))
    else if StartsWith(command, "att ") then Some(Attack(After(command, "att ")))
    else if StartsWith(command, "hit ") then Some(Attack(After(command, "hit ")))
    else if command == "attack" then Some(Attack(""))
    else if StartsWith(command, "consider ") then Some(Consider(After(command, "consider ")))
    else if StartsWith(command, "con ") then Some(Consider(After(command, "con ")))
    else if StartsWith(command, "c ") then Some(Consider(After(command, "c ")))
    else None
  }

  /** The trading verbs, with gold and stats in between as in the game. */
  function Shopping(command: string): (r: Option<Command>)
    ensures r.Some? ==> r.value in {ShopAll, ShowGold, ShowStats, Nothing}
                        || r.value.Shop? || r.value.Buy? || r.value.Sell? || r.value.Give?
    ensures (r.Some? && (r.value.Sell? || r.value.Give?)) ==>
      StartsWith(command, "sell ") || StartsWith(command, "give ")
  {
    if command == "shop" || command == "shop all" || command == "list" || command == "barter" then Some(ShopAll)
    else if StartsWith(command, "shop ") then Some(Shop(After(command, "shop ")))
    else if StartsWith(command, "buy ") then Some(Buy(After(command, "buy ")))
    else if StartsWith(command, "purchase ") then Some(Buy(After(command, "purchase ")))
    else if command == "gold" || command == "gp" || command == "money" || command == "cash" then Some(ShowGold)
    else if command == "stats" || command == "stat" || command == "hp" || command == "mp" then Some(ShowStats)
    else if StartsWith(command, "sell ") then Some(ParseSell(command))
    else if StartsWith(command, "give ") then Some(ParseGive(command))
    else None
  }

  /** The spell verbs. */
  function Spells(command: string): (r: Option<Command>)
    ensures r.Some? ==> r.value.Cast? || r.value in {Nothing, AskWhichSpell, ListSpells}
  {
    if StartsWith(command, "cast ") then Some(ParseCast(command))
    else if command == "cast" then Some(AskWhichSpell)
    else if command == "spells" then Some(ListSpells)
    else None
  }

  /** A line is an unknown word exactly when no verb group recognises it. */
  lemma UnknownIffUnrecognised(command: string)
    ensures Parse(command).Unknown? <==>
      Movement(command).None? && Looking(command).None? && Items(command).None? && Objects(command).None?
      && Mobs(command).None? && Shopping(command).None? && Spells(command).None?
  {
    GroupsKnown(command);
  }

  /** No verb group turns a line into an unknown word. */
  lemma GroupsKnown(command: string)
    ensures Movement(command).Some? ==> !Movement(command).value.Unknown?
    ensures Items(command).Some? ==> !Items(command).value.Unknown?
    ensures Shopping(command).Some? ==> !Shopping(command).value.Unknown?
  {
    ItemsKnown(command);
    ShoppingKnown(command);
  }

  lemma ItemsKnown(command: string)
    ensures Items(command).Some? ==> !Items(command).value.Unknown?
  {
  }

  lemma ShoppingKnown(command: string)
    ensures Shopping(command).Some? ==> !Shopping(command).value.Unknown?
  {
  }

  /** The first group that recognises the line decides. */
  function Otherwise(first: Option<Command>, rest: Command): Command
  {
    if first.Some? then first.value else rest
  }

  /** The verb chain of `ProcessCommand`, group after group in its order; a line
      no group recognises is an unknown word. */
  function Parse(command: string): (r: Command)
    ensures r.Unknown? ==> r.text == command
  {
    GroupsKnown(command);
    Otherwise(Movement(command),
    Otherwise(Looking(command),
    Otherwise(Items(command),
    Otherwise(Objects(command),
    Otherwise(Mobs(command),
    Otherwise(Shopping(command),
    Otherwise(Spells(command), Unknown(command))))))))
  }

  // ---------------------------------------------------------------------------
  // What the order of the chain decides
  // ---------------------------------------------------------------------------

  /** "look at x" examines "x", not "at x": the longer prefix is tried first. */
  lemma LookAtExamines(x: string)
    ensures Parse("look at " + x) == Examine(x)
  {
    var c := "look at " + x;
    assert c[0] == 'l' && c[1] == 'o' && c[8..] == x;
    assert Movement(c) == None;
    assert Looking(c) == Some(Examine(x));
  }

  /** "look x" examines "x" when "x" does not itself start with "at ". */
  lemma LookExamines(x: string)
    requires !StartsWith(x, "at ")
    ensures Parse("look " + x) == Examine(x)
  {
    var c := "look " + x;
    assert c[0] == 'l' && c[1] == 'o' && c[5..] == x;
    assert Movement(c) == None;
    assert Looking(c) == Some(Examine(x));
  }

  /** The five take-everything words. */
  predicate TakeAllWord(c: string)
  {
    c == "take all" || c == "t all" || c == "get all" || c == "get" || c == "g all"
  }

  lemma TakeAllSkipsMovementAndLooking(c: string)
    requires TakeAllWord(c)
    ensures Movement(c) == None && Looking(c) == None
  {
    TakeAllSkipsMovement(c);
    TakeAllSkipsLooking(c);
  }

  lemma TakeAllSkipsMovement(c: string)
    requires TakeAllWord(c)
    ensures Movement(c) == None
  {
    assert c[0] == 't' || c[0] == 'g';
    assert c[1] == 'a' || c[1] == ' ' || c[1] == 'e';
  }

  lemma TakeAllSkipsLooking(c: string)
    requires TakeAllWord(c)
    ensures Looking(c) == None
  {
    assert c[0] == 't' || c[0] == 'g';
    assert c[1] == 'a' || c[1] == ' ' || c[1] == 'e';
  }

  /** The five take-everything words are matched before the prefix forms. */
  lemma TakeAllWords(c: string)
    requires TakeAllWord(c)
    ensures Parse(c) == TakeAll
  {
    TakeAllSkipsMovementAndLooking(c);
  }

  /** "take x" takes "x" for any other "x"; "take all" was caught before. */
  lemma TakeOne(x: string)
    requires x != "all"
    ensures Parse("take " + x) == Take(x)
  {
    var c := "take " + x;
    assert c[0] == 't' && c[1] == 'a' && c[5..] == x;
    assert Movement(c) == None;
    assert Looking(c) == None;
    assert Items(c) == Some(Take(x));
  }

  /** "eq" alone lists the equipment. */
  lemma EqualsAloneLists()
    ensures Parse("eq") == ListEquipment
  {
    var c := "eq";
    assert c[0] == 'e' && c[1] == 'q';
    assert Movement(c) == None && Looking(c) == None;
    assert Items(c) == Some(ListEquipment);
  }

  /** "eq x" equips "x", although "eq" alone lists the equipment. */
  lemma EqualsPrefixEquips(x: string)
    ensures Parse("eq " + x) == Equip(x)
  {
    var c := "eq " + x;
    assert c[0] == 'e' && c[1] == 'q' && c[2] == ' ' && c[3..] == x;
    EquipSkipsMovementAndLooking(c);
    assert Items(c) == Some(Equip(x));
  }

  lemma EquipSkipsMovementAndLooking(c: string)
    requires |c| >= 3 && c[0] == 'e' && c[1] == 'q' && c[2] == ' '
    ensures Movement(c) == None && Looking(c) == None
  {
  }

  /** No verb of the game starts with one of these letters. */
  predicate UnusedInitial(ch: char)
  {
    ch == 'j' || ch == 'q' || ch == 'r' || ch == 'x' || ch == 'y' || ch == 'z'
  }

  lemma UnusedSkipsMovementAndLooking(c: string)
    requires |c| >= 1 && UnusedInitial(c[0])
    ensures Movement(c) == None && Looking(c) == None
  {
  }

  lemma UnusedSkipsItemsAndObjects(c: string)
    requires |c| >= 1 && UnusedInitial(c[0])
    ensures Items(c) == None && Objects(c) == None
  {
    UnusedSkipsItems(c);
  }

  lemma UnusedSkipsItems(c: string)
    requires |c| >= 1 && UnusedInitial(c[0])
    ensures Items(c) == None
  {
  }

  lemma UnusedSkipsTheRest(c: string)
    requires |c| >= 1 && UnusedInitial(c[0])
    ensures Mobs(c) == None && Shopping(c) == None && Spells(c) == None
  {
    UnusedSkipsMobs(c);
    UnusedSkipsShopping(c);
  }

  lemma UnusedSkipsMobs(c: string)
    requires |c| >= 1 && UnusedInitial(c[0])
    ensures Mobs(c) == None
  {
  }

  lemma UnusedSkipsShopping(c: string)
    requires |c| >= 1 && UnusedInitial(c[0])
    ensures Shopping(c) == None
  {
  }

  /** A line whose first letter begins no verb reaches the last branch and is
      reported back as unknown, text and all. */
  lemma UnknownWord(c: string)
    requires |c| >= 1 && UnusedInitial(c[0])
    ensures Parse(c) == Unknown(c)
  {
    UnusedSkipsMovementAndLooking(c);
    UnusedSkipsItemsAndObjects(c);
    UnusedSkipsTheRest(c);
  }

  /** The first characters of the selling, giving and casting verbs. */
  predicate TradeHead(c: string)
  {
    |c| >= 5 && c[4] == ' '
    && ((c[0] == 's' && c[1] == 'e') || (c[0] == 'g' && c[1] == 'i') || (c[0] == 'c' && c[1] == 'a'))
  }

  /** No movement or looking verb starts like "sell ", "give " or "cast ". */
  lemma TradeSkipsMovementAndLooking(c: string)
    requires TradeHead(c)
    ensures Movement(c) == None && Looking(c) == None
  {
  }

  /** No item verb starts like "sell ", "give " or "cast ". */
  lemma TradeSkipsItems(c: string)
    requires TradeHead(c)
    ensures Items(c) == None
  {
  }

  /** No object or monster verb starts like "sell ", "give " or "cast ". */
  lemma TradeSkipsObjectsAndMobs(c: string)
    requires TradeHead(c)
    ensures Objects(c) == None && Mobs(c) == None
  {
  }

  /** The trading group hands "sell " and "give " lines to their own rules. */
  lemma ShoppingSells(c: string)
    requires |c| >= 5 && c[0] == 's' && c[1] == 'e' && c[2] == 'l' && c[3] == 'l' && c[4] == ' '
    ensures Shopping(c) == Some(ParseSell(c))
  {
    assert "shop "[1] == 'h' && c[1] != 'h';
    assert !StartsWith(c, "shop ");
  }

  lemma ShoppingGives(c: string)
    requires |c| >= 5 && c[0] == 'g' && c[1] == 'i' && c[2] == 'v' && c[3] == 'e' && c[4] == ' '
    ensures Shopping(c) == Some(ParseGive(c))
  {
  }

  /** A "cast " line passes the trading group and is handed to the casting rule. */
  lemma SpellsCast(c: string)
    requires |c| >= 5 && c[0] == 'c' && c[1] == 'a' && c[2] == 's' && c[3] == 't' && c[4] == ' '
    ensures Shopping(c) == None && Spells(c) == Some(ParseCast(c))
  {
  }

  /** Every line starting with "sell " is split by the selling rule. */
  lemma SellRoutes(x: string)
    ensures Parse("sell " + x) == ParseSell("sell " + x)
  {
    var c := "sell " + x;
    assert c[0] == 's' && c[1] == 'e' && c[2] == 'l' && c[3] == 'l' && c[4] == ' ';
    TradeSkipsMovementAndLooking(c);
    TradeSkipsItems(c);
    TradeSkipsObjectsAndMobs(c);
    ShoppingSells(c);
  }

  /** Every line starting with "give " is split by the giving rule. */
  lemma GiveRoutes(x: string)
    ensures Parse("give " + x) == ParseGive("give " + x)
  {
    var c := "give " + x;
    assert c[0] == 'g' && c[1] == 'i' && c[2] == 'v' && c[3] == 'e' && c[4] == ' ';
    TradeSkipsMovementAndLooking(c);
    TradeSkipsItems(c);
    TradeSkipsObjectsAndMobs(c);
    ShoppingGives(c);
  }

  /** Every line starting with "cast " is split by the casting rule. */
  lemma CastRoutes(x: string)
    ensures Parse("cast " + x) == ParseCast("cast " + x)
  {
    var c := "cast " + x;
    assert c[0] == 'c' && c[1] == 'a' && c[2] == 's' && c[3] == 't' && c[4] == ' ';
    TradeSkipsMovementAndLooking(c);
    TradeSkipsItems(c);
    TradeSkipsObjectsAndMobs(c);
    SpellsCast(c);
  }

  // ---------------------------------------------------------------------------
  // Selling, giving and casting
  // ---------------------------------------------------------------------------

  /** A lower-case word without spaces. */
  predicate Word(w: string)
  {
    ' ' !in w && Lower(w) == w
  }

  /** Splitting a line made of a verb, an item and a rest. */
  lemma SplitThree(verb: string, item: string, rest: string)
    requires ' ' !in verb && ' ' !in item
    ensures Split(verb + " " + item + " " + rest) == [verb, item] + Split(rest)
  {
    assert verb + " " + item + " " + rest == verb + " " + (item + " " + rest);
    SplitWordThen(verb, item + " " + rest);
    SplitWordThen(item, rest);
  }

  /** A lower-case line made of lower-case pieces. */
  lemma LowerKeeps(a: string, b: string)
    requires Lower(a) == a && Lower(b) == b
    ensures Lower(a + b) == a + b
  {
    LowerAppend(a, b);
  }

  /** The first piece of a split is the longest prefix without a space. */
  lemma {:induction false} SplitHead(s: string)
    ensures var w := Split(s)[0];
      |w| <= |s| && s[..|w|] == w && (|w| == |s| || s[|w|] == ' ')
  {
    if s != [] && s[0] != ' ' {
      SplitHead(s[1..]);
      var w' := Split(s[1..])[0];
      assert Split(s)[0] == [s[0]] + w';
      assert s[..|w'| + 1] == [s[0]] + s[1..][..|w'|];
    }
  }

  /** The first piece of a split is "to" only when the text is "to" or starts
      with "to ". */
  lemma SplitFirstWord(s: string)
    requires !StartsWith(s, "to ") && s != "to"
    ensures Split(s)[0] != "to"
  {
    SplitHead(s);
  }

  /** The lines "sell x ..." and "give x ..." split, after lower-casing, into
      the verb, the item and the pieces of the rest. */
  lemma TradeWords(verb: string, item: string, rest: string)
    requires Word(verb) && Word(item) && Lower(rest) == rest
    ensures Split(Lower(verb + " " + item + " " + rest)) == [verb, item] + Split(rest)
  {
    assert Lower(" ") == " ";
    LowerKeeps(verb, " ");
    LowerKeeps(verb + " ", item);
    LowerKeeps(verb + " " + item, " ");
    LowerKeeps(verb + " " + item + " ", rest);
    SplitThree(verb, item, rest);
  }

  /** The same split when the rest of the line starts with the word "to". */
  lemma TradeWordsTo(verb: string, item: string, who: string)
    requires Word(verb) && Word(item) && Lower(who) == who
    ensures Split(Lower(verb + " " + item + " " + ("to " + who))) == [verb, item, "to"] + Split(who)
  {
    assert Lower("to ") == "to ";
    LowerKeeps("to ", who);
    TradeWords(verb, item, "to " + who);
    assert "to" + " " + who == "to " + who;
    SplitWordThen("to", who);
  }

  /** The words of "sell x to who". */
  lemma SellToLine(item: string, who: string)
    requires Word(item) && Lower(who) == who
    ensures Split(Lower("sell " + item + " to " + who)) == ["sell", item, "to"] + Split(who)
  {
    assert Word("sell");
    assert "sell " + item + " to " + who == "sell" + " " + item + " " + ("to " + who);
    TradeWordsTo("sell", item, who);
  }

  /** The words of "give x to who". */
  lemma GiveToLine(item: string, who: string)
    requires Word(item) && Lower(who) == who
    ensures Split(Lower("give " + item + " to " + who)) == ["give", item, "to"] + Split(who)
  {
    assert Word("give");
    assert "give " + item + " to " + who == "give" + " " + item + " " + ("to " + who);
    TradeWordsTo("give", item, who);
  }

  /** The words of "sell x who". */
  lemma SellLine(item: string, who: string)
    requires Word(item) && Lower(who) == who
    ensures Split(Lower("sell " + item + " " + who)) == ["sell", item] + Split(who)
  {
    assert Word("sell");
    assert "sell " + item + " " + who == "sell" + " " + item + " " + who;
    TradeWords("sell", item, who);
  }

  /** A leading "to" is skipped and the whole rest is rejoined, so the
      recipient comes back exactly as typed. */
  lemma RecipientAfterTo(c: string, verb: string, item: string, who: string)
    requires Split(Lower(c)) == [verb, item, "to"] + Split(who)
    ensures verb == "sell" ==> ParseSell(c) == Sell(item, who)
    ensures verb == "give" ==> ParseGive(c) == Give(item, who)
  {
    var words := Split(Lower(c));
    assert words[3..] == Split(who);
    JoinSplit(who);
  }

  /** Without "to" the recipient is the whole rest. */
  lemma RecipientDirect(c: string, item: string, who: string)
    requires Split(Lower(c)) == ["sell", item] + Split(who)
    requires Split(who)[0] != "to"
    ensures ParseSell(c) == Sell(item, who)
  {
    var words := Split(Lower(c));
    assert words[2..] == Split(who);
    JoinSplit(who);
  }

  /** "sell x to who" sells item "x" to shopkeeper "who", the whole rest of the
      line, for lower-case input. */
  lemma SellToSplits(item: string, who: string)
    requires Word(item) && Lower(who) == who
    ensures ParseSell("sell " + item + " to " + who) == Sell(item, who)
  {
    SellToLine(item, who);
    RecipientAfterTo("sell " + item + " to " + who, "sell", item, who);
  }

  /** "sell x who" sells item "x" to "who" when "who" does not start with the
      word "to". */
  lemma SellSplits(item: string, who: string)
    requires Word(item) && Lower(who) == who
    requires !StartsWith(who, "to ") && who != "to"
    ensures ParseSell("sell " + item + " " + who) == Sell(item, who)
  {
    SellLine(item, who);
    SplitFirstWord(who);
    RecipientDirect("sell " + item + " " + who, item, who);
  }

  /** "sell x" alone sells "x" to no one in particular. */
  lemma SellAlone(item: string)
    requires Word(item)
    ensures ParseSell("sell " + item) == Sell(item, "")
  {
    assert Lower("sell ") == "sell ";
    LowerKeeps("sell ", item);
    assert "sell " + item == "sell" + " " + item;
    SplitWordThen("sell", item);
    SplitWord(item);
  }

  /** "give x" without a recipient does nothing, unlike selling. */
  lemma GiveNeedsRecipient(item: string)
    requires Word(item)
    ensures ParseGive("give " + item) == Nothing
  {
    assert Lower("give ") == "give ";
    LowerKeeps("give ", item);
    assert "give " + item == "give" + " " + item;
    SplitWordThen("give", item);
    SplitWord(item);
  }

  /** "give x to who" gives item "x" to "who". */
  lemma GiveToSplits(item: string, who: string)
    requires Word(item) && Lower(who) == who
    ensures ParseGive("give " + item + " to " + who) == Give(item, who)
  {
    GiveToLine(item, who);
    RecipientAfterTo("give " + item + " to " + who, "give", item, who);
  }

  /** "cast s t ..." casts spell "s" at "t" and ignores any further words;
      "cast s" casts "s" with no target. */
  lemma CastSplits(spell: string, target: string, rest: string)
    requires ' ' !in spell && ' ' !in target
    ensures ParseCast("cast " + spell + " " + target + " " + rest) == Cast(spell, target)
    ensures ParseCast("cast " + spell + " " + target) == Cast(spell, target)
    ensures ParseCast("cast " + spell) == Cast(spell, "")
  {
    assert "cast " + spell + " " + target + " " + rest == "cast" + " " + spell + " " + (target + " " + rest);
    SplitThree("cast", spell, target + " " + rest);
    SplitWordThen(target, rest);
    assert "cast " + spell + " " + target == "cast" + " " + spell + " " + target;
    SplitThree("cast", spell, target);
    SplitWord(target);
    assert "cast " + spell == "cast" + " " + spell;
    SplitWordThen("cast", spell);
    SplitWord(spell);
  }
}
