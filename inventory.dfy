/** Value-level rules for the operations that move items between the world and
    the player: taking every item of a room and buying from the shopkeepers of a
    room. The session runs these as loops over the room's lists; the functions
    here say what a whole loop computes, and the lemmas say what it conserves. */
module Inventory {
  import opened Base
  import opened Content
  import opened Actors
  import ItemDatabase
  import MonsterDatabase

  /** The names of a list of items, in order. */
  function Names(inv: seq<Item>): (r: seq<string>)
    ensures |r| == |inv|
    ensures forall i :: 0 <= i < |inv| ==> r[i] == inv[i].name
  {
    if inv == [] then [] else [inv[0].name] + Names(inv[1..])
  }

  lemma NamesAppend(a: seq<Item>, b: seq<Item>)
    ensures Names(a + b) == Names(a) + Names(b)
  {
  }

  /** Taking out the item at position `k` takes out exactly its name. */
  lemma {:induction false} NamesRemove(s: seq<Item>, k: nat)
    requires k < |s|
    ensures Names(s[..k] + s[k + 1..]) == Names(s)[..k] + Names(s)[k + 1..]
  {
    var t := s[..k] + s[k + 1..];
    forall i | 0 <= i < |t|
      ensures Names(t)[i] == (Names(s)[..k] + Names(s)[k + 1..])[i]
    {
      if i < k {
        assert t[i] == s[i];
      } else {
        assert t[i] == s[i + 1];
      }
    }
  }

  /** The summed value of a list of items. */
  function Worth(inv: seq<Item>): int
  {
    if inv == [] then 0 else inv[0].value + Worth(inv[1..])
  }

  lemma {:induction false} WorthAppend(a: seq<Item>, b: seq<Item>)
    ensures Worth(a + b) == Worth(a) + Worth(b)
  {
    if a == [] {
      assert a + b == b;
    } else {
      assert (a + b)[1..] == a[1..] + b;
      WorthAppend(a[1..], b);
    }
  }

  /** Taking out the item at position `k` takes out exactly its value. */
  lemma WorthRemove(s: seq<Item>, k: nat)
    requires k < |s|
    ensures Worth(s[..k] + s[k + 1..]) == Worth(s) - s[k].value
  {
    assert s == s[..k] + ([s[k]] + s[k + 1..]);
    WorthAppend(s[..k], [s[k]] + s[k + 1..]);
    WorthAppend([s[k]], s[k + 1..]);
    WorthAppend(s[..k], s[k + 1..]);
  }

  // ---------------------------------------------------------------------------
  // Taking every item of a room
  // ---------------------------------------------------------------------------

  /** The items that a room's item names resolve to, in order; a name that the
      item database does not know is skipped. */
  function ResolveItems(items: seq<Item>, names: seq<string>): (r: seq<Item>)
    ensures |r| <= |names|
    ensures forall k :: 0 <= k < |r| ==> r[k] in items
  {
    if names == [] then [] else Resolved(items, names[0]) + ResolveItems(items, names[1..])
  }

  /** The item one name resolves to, as a list of none or one. */
  function Resolved(items: seq<Item>, name: string): (r: seq<Item>)
    ensures |r| <= 1 && forall k :: 0 <= k < |r| ==> r[k] in items
  {
    match ItemDatabase.GetItemByName(items, name)
    case Some(it) => [it]
    case None => []
  }

  /** Resolving one more name at the end adds its item, if it has one, at the
      end. */
  lemma {:induction false} ResolveItemsSnoc(items: seq<Item>, names: seq<string>, n: string)
    ensures ResolveItems(items, names + [n])
         == ResolveItems(items, names) + Resolved(items, n)
  {
    if names != [] {
      assert (names + [n])[1..] == names[1..] + [n];
      ResolveItemsSnoc(items, names[1..], n);
      var head := Resolved(items, names[0]);
      assert ResolveItems(items, names + [n]) == head + ResolveItems(items, names[1..] + [n]);
      assert head + (ResolveItems(items, names[1..]) + Resolved(items, n))
          == (head + ResolveItems(items, names[1..])) + Resolved(items, n);
    } else {
      assert [] + [n] == [n];
    }
  }

  /** When every name resolves, the player receives exactly the named items, in
      the room's order. */
  lemma {:induction false} ResolveAllNamed(items: seq<Item>, names: seq<string>)
    requires AllResolve(items, names)
    ensures Names(ResolveItems(items, names)) == names
  {
    if names != [] {
      assert AllResolve(items, names[1..]) by {
        forall k | 0 <= k < |names[1..]|
          ensures ItemDatabase.GetItemByName(items, names[1..][k]).Some?
        {
          assert names[1..][k] == names[k + 1];
        }
      }
      ResolveAllNamed(items, names[1..]);
      var it := ItemDatabase.GetItemByName(items, names[0]).value;
      var rest := ResolveItems(items, names[1..]);
      assert ResolveItems(items, names) == [it] + rest;
      NamesAppend([it], rest);
      assert Names([it]) == [names[0]];
      assert names == [names[0]] + names[1..];
    }
  }

  /** A name the item database does not know is lost: the items received never
      outnumber the names, and fall short exactly when some name is unknown. */
  lemma {:induction false} ResolveLosesUnknown(items: seq<Item>, names: seq<string>)
    ensures |ResolveItems(items, names)| == |names| <==> AllResolve(items, names)
  {
    if names != [] {
      ResolveLosesUnknown(items, names[1..]);
      assert forall k :: 1 <= k < |names| ==> names[k] == names[1..][k - 1];
      if AllResolve(items, names) {
        assert AllResolve(items, names[1..]) by {
          forall k | 0 <= k < |names[1..]|
            ensures ItemDatabase.GetItemByName(items, names[1..][k]).Some?
          {
            assert names[1..][k] == names[k + 1];
          }
        }
      }
    }
  }

  // ---------------------------------------------------------------------------
  // Buying
  // ---------------------------------------------------------------------------

  /** What a purchase touches: the monster records (shopkeepers' stock), the
      player's gold and the player's inventory. */
  datatype Purse = Purse(monsters: seq<Monster>, gold: int, inventory: seq<Item>)

  /** A shopkeeper's item name is on offer for the query when it resolves to an
      item whose name contains the query, ignoring case. */
  predicate ItemNamed(items: seq<Item>, name: string, query: string)
  {
    ItemDatabase.GetItemByName(items, name).Some?
    && NameMatches(ItemDatabase.GetItemByName(items, name).value.name, query)
  }

  /** Position of the first item name a shopkeeper offers for the query. */
  function FirstItemNamed(items: seq<Item>, names: seq<string>, query: string): (r: Option<nat>)
    ensures r.Some? ==> r.value < |names| && ItemNamed(items, names[r.value], query)
    ensures r.Some? ==> forall j :: 0 <= j < r.value ==> !ItemNamed(items, names[j], query)
    ensures r.None? <==> forall j :: 0 <= j < |names| ==> !ItemNamed(items, names[j], query)
  {
    FirstIndex(names, (n: string) => ItemNamed(items, n, query))
  }

  /** The item at position `k` of shopkeeper `id`'s stock changes hands for its
      value. */
  function Purchase(items: seq<Item>, p: Purse, id: nat, k: nat): (r: Purse)
    requires id < |p.monsters| && k < |p.monsters[id].itemNames|
    requires ItemDatabase.GetItemByName(items, p.monsters[id].itemNames[k]).Some?
    ensures var m := p.monsters[id];
      var item := ItemDatabase.GetItemByName(items, m.itemNames[k]).value;
      && r.inventory == p.inventory + [item] && r.gold == p.gold - item.value
      && |r.monsters| == |p.monsters|
      && r.monsters[id] == m.(itemNames := r.monsters[id].itemNames)
      && multiset(r.monsters[id].itemNames) == multiset(m.itemNames) - multiset{m.itemNames[k]}
      && forall i :: 0 <= i < |p.monsters| && i != id ==> r.monsters[i] == p.monsters[i]
  {
    var m := p.monsters[id];
    var item := ItemDatabase.GetItemByName(items, m.itemNames[k]).value;
    RemoveFirstMultiset(m.itemNames, m.itemNames[k]);
    Purse(p.monsters[id := m.(itemNames := RemoveFirst(m.itemNames, m.itemNames[k]))],
          p.gold - item.value, p.inventory + [item])
  }

  /** The monster named `monsterName` is a shopkeeper offering an item for the
      query, and the player's gold covers the price of the first one offered. */
  predicate Sells(items: seq<Item>, p: Purse, monsterName: string, query: string)
  {
    var shop := MonsterDatabase.GetMonsterByName(p.monsters, monsterName);
    && shop.Some? && p.monsters[shop.value].shopKeeper
    && var offer := FirstItemNamed(items, p.monsters[shop.value].itemNames, query);
       && offer.Some?
       && p.gold >= ItemDatabase.GetItemByName(items, p.monsters[shop.value].itemNames[offer.value]).value.value
  }

  /** One pass of the purchase loop, for the monster named `monsterName` in the
      room: when it is a shopkeeper offering a matching item and the player can
      pay the price, the item changes hands and the price is paid. */
  function BuyFrom(items: seq<Item>, p: Purse, monsterName: string, query: string): (r: Purse)
    ensures |r.monsters| == |p.monsters|
    ensures forall i :: 0 <= i < |p.monsters| ==>
      r.monsters[i] == p.monsters[i].(itemNames := r.monsters[i].itemNames)
    ensures r != p <==> Sells(items, p, monsterName, query)
    ensures r != p ==> |r.inventory| == |p.inventory| + 1 && r.inventory[..|p.inventory|] == p.inventory
    ensures r != p ==> r.inventory[|p.inventory|] in items && NameMatches(r.inventory[|p.inventory|].name, query)
    ensures r != p ==> r.gold == p.gold - r.inventory[|p.inventory|].value && r.gold >= 0
    ensures r != p ==>
      var id := MonsterDatabase.GetMonsterByName(p.monsters, monsterName).value;
      && r.inventory[|p.inventory|].name in p.monsters[id].itemNames
      && r.monsters == p.monsters[id := p.monsters[id].(itemNames :=
           RemoveFirst(p.monsters[id].itemNames, r.inventory[|p.inventory|].name))]
  {
    match MonsterDatabase.GetMonsterByName(p.monsters, monsterName)
    case None => p
    case Some(id) =>
      if !p.monsters[id].shopKeeper then p
      else match FirstItemNamed(items, p.monsters[id].itemNames, query)
        case None => p
        case Some(k) =>
          var price := ItemDatabase.GetItemByName(items, p.monsters[id].itemNames[k]).value.value;
          if p.gold >= price then Purchase(items, p, id, k) else p
  }

  /** `Buy(query)`: the purchase loop over the monster names of the player's
      room, in order; only the monsters' item lists, the inventory and gold
      change. */
  function BuyAll(items: seq<Item>, p: Purse, monsterNames: seq<string>, query: string): (r: Purse)
    ensures |r.monsters| == |p.monsters|
    ensures forall i :: 0 <= i < |p.monsters| ==>
      r.monsters[i] == p.monsters[i].(itemNames := r.monsters[i].itemNames)
    decreases |monsterNames|
  {
    if monsterNames == [] then p
    else BuyAll(items, BuyFrom(items, p, monsterNames[0], query), monsterNames[1..], query)
  }

  /** The purchase loop from position `i` on: the pass for the `i`-th monster
      name, then the loop from the next position. */
  lemma BuyAllStep(items: seq<Item>, p: Purse, names: seq<string>, i: nat, query: string)
    requires i < |names|
    ensures BuyAll(items, p, names[i..], query)
         == BuyAll(items, BuyFrom(items, p, names[i], query), names[i + 1..], query)
  {
    assert names[i..][0] == names[i];
    assert names[i..][1..] == names[i + 1..];
  }

  /** What a `buy` command buys: the inventory only grows at its end, by at most
      one item per monster of the room, and every item bought is a stored item
      matching the query. */
  lemma {:induction false} BuyAllBuys(items: seq<Item>, p: Purse, monsterNames: seq<string>, query: string)
    ensures var r := BuyAll(items, p, monsterNames, query);
      && |p.inventory| <= |r.inventory| <= |p.inventory| + |monsterNames|
      && r.inventory[..|p.inventory|] == p.inventory
      && forall i :: |p.inventory| <= i < |r.inventory| ==>
           r.inventory[i] in items && NameMatches(r.inventory[i].name, query)
    decreases |monsterNames|
  {
    if monsterNames != [] {
      var q := BuyFrom(items, p, monsterNames[0], query);
      var r := BuyAll(items, q, monsterNames[1..], query);
      BuyAllBuys(items, q, monsterNames[1..], query);
      assert r.inventory[..|p.inventory|] == q.inventory[..|p.inventory|];
      forall i | |p.inventory| <= i < |r.inventory|
        ensures r.inventory[i] in items && NameMatches(r.inventory[i].name, query)
      {
        if i < |q.inventory| {
          assert q.inventory != p.inventory;
          assert i == |p.inventory| && r.inventory[i] == q.inventory[i];
        }
      }
    }
  }

  /** When no monster of the room sells the player anything, `buy` changes
      nothing. */
  lemma {:induction false} BuyAllQuiet(items: seq<Item>, p: Purse, monsterNames: seq<string>, query: string)
    requires forall j :: 0 <= j < |monsterNames| ==> !Sells(items, p, monsterNames[j], query)
    ensures BuyAll(items, p, monsterNames, query) == p
    decreases |monsterNames|
  {
    if monsterNames != [] {
      assert BuyFrom(items, p, monsterNames[0], query) == p;
      assert forall j :: 0 <= j < |monsterNames| - 1 ==> monsterNames[1..][j] == monsterNames[j + 1];
      BuyAllQuiet(items, p, monsterNames[1..], query);
    }
  }

  /** The stock of every monster, concatenated in database order. */
  function Stock(monsters: seq<Monster>): seq<string>
  {
    if monsters == [] then [] else monsters[0].itemNames + Stock(monsters[1..])
  }

  /** Replacing one monster's item list changes the combined stock by exactly the
      difference between the two lists. */
  lemma {:induction false} StockUpdate(monsters: seq<Monster>, id: nat, names: seq<string>)
    requires id < |monsters|
    ensures multiset(Stock(monsters[id := monsters[id].(itemNames := names)])) + multiset(monsters[id].itemNames)
         == multiset(Stock(monsters)) + multiset(names)
  {
    var updated := monsters[id := monsters[id].(itemNames := names)];
    if id == 0 {
      assert updated[1..] == monsters[1..];
    } else {
      assert updated[1..] == monsters[1..][id - 1 := monsters[1..][id - 1].(itemNames := names)];
      StockUpdate(monsters[1..], id - 1, names);
      assert updated[0] == monsters[0] && monsters[1..][id - 1] == monsters[id];
      calc {
        multiset(Stock(updated)) + multiset(monsters[id].itemNames);
        (multiset(monsters[0].itemNames) + multiset(Stock(updated[1..]))) + multiset(monsters[id].itemNames);
        multiset(monsters[0].itemNames) + (multiset(Stock(updated[1..])) + multiset(monsters[id].itemNames));
        multiset(monsters[0].itemNames) + (multiset(Stock(monsters[1..])) + multiset(names));
        (multiset(monsters[0].itemNames) + multiset(Stock(monsters[1..]))) + multiset(names);
        multiset(Stock(monsters)) + multiset(names);
      }
    }
  }

  /** The player's wealth: gold plus the value of everything carried. */
  function Wealth(p: Purse): int
  {
    p.gold + Worth(p.inventory)
  }

  /** Every item name in play in a purchase: all monsters' stock and the names of
      the player's items. */
  function Goods(p: Purse): multiset<string>
  {
    multiset(Stock(p.monsters)) + multiset(Names(p.inventory))
  }

  /** A purchase conserves the player's wealth and the goods in play. */
  lemma PurchaseConserves(items: seq<Item>, p: Purse, id: nat, k: nat)
    requires id < |p.monsters| && k < |p.monsters[id].itemNames|
    requires ItemDatabase.GetItemByName(items, p.monsters[id].itemNames[k]).Some?
    ensures Wealth(Purchase(items, p, id, k)) == Wealth(p)
    ensures Goods(Purchase(items, p, id, k)) == Goods(p)
  {
    var m := p.monsters[id];
    var n := m.itemNames[k];
    var item := ItemDatabase.GetItemByName(items, n).value;
    var rest := RemoveFirst(m.itemNames, n);
    var r := Purchase(items, p, id, k);
    assert r == Purse(p.monsters[id := m.(itemNames := rest)], p.gold - item.value, p.inventory + [item]);
    WorthAppend(p.inventory, [item]);
    assert Worth([item]) == item.value;
    MoveConservesGoods(p.monsters, id, p.inventory, k, item);
  }

  /** Moving the `k`-th name of monster `id`'s stock into the inventory as `item`
      (an item of that name) leaves the goods in play unchanged. */
  lemma MoveConservesGoods(monsters: seq<Monster>, id: nat, inventory: seq<Item>, k: nat, item: Item)
    requires id < |monsters| && k < |monsters[id].itemNames|
    requires item.name == monsters[id].itemNames[k]
    ensures var n := monsters[id].itemNames[k];
      Goods(Purse(monsters[id := monsters[id].(itemNames := RemoveFirst(monsters[id].itemNames, n))], 0, inventory + [item]))
      == Goods(Purse(monsters, 0, inventory))
  {
    var m := monsters[id];
    var n := m.itemNames[k];
    var rest := RemoveFirst(m.itemNames, n);
    var after := monsters[id := m.(itemNames := rest)];
    StockUpdate(monsters, id, rest);
    RemoveFirstMultiset(m.itemNames, n);
    assert Names(inventory + [item]) == Names(inventory) + [n];
    assert multiset(m.itemNames) == multiset(rest) + multiset{n};
    var s0, s1, inv := multiset(Stock(monsters)), multiset(Stock(after)), multiset(Names(inventory));
    assert s1 + multiset(m.itemNames) == s0 + multiset(rest);
    assert (s1 + multiset{n}) + multiset(rest) == s0 + multiset(rest) by {
      assert s1 + multiset(m.itemNames) == s1 + (multiset(rest) + multiset{n});
    }
    MultisetCancel(s1 + multiset{n}, s0, multiset(rest));
    calc {
      Goods(Purse(after, 0, inventory + [item]));
      s1 + (inv + multiset{n});
      (s1 + multiset{n}) + inv;
      s0 + inv;
    }
  }

  /** One pass of the purchase loop conserves wealth and goods and never leaves
      the player in debt. */
  lemma BuyFromConserves(items: seq<Item>, p: Purse, monsterName: string, query: string)
    ensures Wealth(BuyFrom(items, p, monsterName, query)) == Wealth(p)
    ensures Goods(BuyFrom(items, p, monsterName, query)) == Goods(p)
    ensures p.gold >= 0 ==> BuyFrom(items, p, monsterName, query).gold >= 0
  {
    match MonsterDatabase.GetMonsterByName(p.monsters, monsterName)
    case None =>
    case Some(id) =>
      if p.monsters[id].shopKeeper {
        match FirstItemNamed(items, p.monsters[id].itemNames, query)
        case None =>
        case Some(k) =>
          PurchaseConserves(items, p, id, k);
      }
  }

  /** The whole purchase loop conserves wealth and goods and keeps gold from
      going negative, however many shopkeepers sell. */
  lemma {:induction false} BuyAllConserves(items: seq<Item>, p: Purse, monsterNames: seq<string>, query: string)
    ensures Wealth(BuyAll(items, p, monsterNames, query)) == Wealth(p)
    ensures Goods(BuyAll(items, p, monsterNames, query)) == Goods(p)
    ensures p.gold >= 0 ==> BuyAll(items, p, monsterNames, query).gold >= 0
    decreases |monsterNames|
  {
    if monsterNames != [] {
      var q := BuyFrom(items, p, monsterNames[0], query);
      BuyFromConserves(items, p, monsterNames[0], query);
      BuyAllConserves(items, q, monsterNames[1..], query);
    }
  }
}
