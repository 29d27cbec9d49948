/** The item repository: lookups by exact name and by case-sensitive partial name
    over the loaded item list. Both are pure; loading from content is not modelled. */
module ItemDatabase {
  import opened Base
  import opened Content

  /** Position of the first item whose name is exactly `itemName`. */
  function IndexByName(items: seq<Item>, itemName: string): (r: Option<nat>)
    ensures r.Some? ==> r.value < |items| && items[r.value].name == itemName
    ensures r.Some? ==> forall j :: 0 <= j < r.value ==> items[j].name != itemName
    ensures r.None? <==> forall j :: 0 <= j < |items| ==> items[j].name != itemName
  {
    FirstIndex(items, (item: Item) => item.name == itemName)
  }

  /** Position of the first item whose name contains `itemName` (case-sensitive). */
  function IndexByPartialName(items: seq<Item>, itemName: string): (r: Option<nat>)
    ensures r.Some? ==> r.value < |items| && Contains(items[r.value].name, itemName)
    ensures r.Some? ==> forall j :: 0 <= j < r.value ==> !Contains(items[j].name, itemName)
    ensures r.None? <==> forall j :: 0 <= j < |items| ==> !Contains(items[j].name, itemName)
  {
    FirstIndex(items, (item: Item) => Contains(item.name, itemName))
  }

  /** `ItemDatabase.GetItemByName`: the first item named exactly `itemName`, or null. */
  function GetItemByName(items: seq<Item>, itemName: string): (r: Option<Item>)
    ensures r.Some? ==> r.value.name == itemName && r.value in items
    ensures r.Some? ==> IndexByName(items, itemName).Some? &&
                        r.value == items[IndexByName(items, itemName).value]
    ensures r.None? <==> forall j :: 0 <= j < |items| ==> items[j].name != itemName
  {
    match IndexByName(items, itemName)
    case Some(k) => Some(items[k])
    case None => None
  }

  /** `ItemDatabase.GetItemByPartialName`: the first item whose name contains
      `itemName`, or null. */
  function GetItemByPartialName(items: seq<Item>, itemName: string): (r: Option<Item>)
    ensures r.Some? ==> Contains(r.value.name, itemName) && r.value in items
    ensures r.Some? ==> IndexByPartialName(items, itemName).Some? &&
                        r.value == items[IndexByPartialName(items, itemName).value]
    ensures r.None? <==> forall j :: 0 <= j < |items| ==> !Contains(items[j].name, itemName)
  {
    match IndexByPartialName(items, itemName)
    case Some(k) => Some(items[k])
    case None => None
  }

  /** Whatever the exact lookup finds, the partial lookup finds too, at the same
      position or an earlier one (a name contains itself). */
  lemma ExactFoundImpliesPartialFound(items: seq<Item>, itemName: string)
    requires IndexByName(items, itemName).Some?
    ensures IndexByPartialName(items, itemName).Some?
    ensures IndexByPartialName(items, itemName).value <= IndexByName(items, itemName).value
  {
    var k := IndexByName(items, itemName).value;
    ContainsSelf(items[k].name);
  }
}
