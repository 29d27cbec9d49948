/** The monster repository. A lookup yields the position of the stored record in
    the list: the game hands out the record itself, so a change made through one
    lookup is seen by every later lookup of that name, and the session models
    that by updating the record at this position. */
module MonsterDatabase {
  import opened Base
  import opened Content

  /** `MonsterDatabase.GetMonsterByName`: the first monster whose name equals
      `name` ignoring case, or null. */
  function GetMonsterByName(monsters: seq<Monster>, name: string): (r: Option<nat>)
    ensures r.Some? ==> r.value < |monsters| && EqualsIgnoreCase(monsters[r.value].name, name)
    ensures r.Some? ==> forall j :: 0 <= j < r.value ==> !EqualsIgnoreCase(monsters[j].name, name)
    ensures r.None? <==> forall j :: 0 <= j < |monsters| ==> !EqualsIgnoreCase(monsters[j].name, name)
  {
    FirstIndex(monsters, (m: Monster) => EqualsIgnoreCase(m.name, name))
  }

  /** Queries that differ only in letter case find the same monster. */
  lemma LookupIgnoresCase(monsters: seq<Monster>, a: string, b: string)
    requires Lower(a) == Lower(b)
    ensures GetMonsterByName(monsters, a) == GetMonsterByName(monsters, b)
  {
  }

  /** Replacing a stored record by one with the same name leaves every lookup
      pointing at the same position, which now holds the new record: changes
      made through one lookup are seen by all later ones. */
  lemma {:induction false} LookupSeesUpdate(monsters: seq<Monster>, i: nat, m: Monster, name: string)
    requires i < |monsters| && m.name == monsters[i].name
    ensures GetMonsterByName(monsters[i := m], name) == GetMonsterByName(monsters, name)
    ensures GetMonsterByName(monsters, name) == Some(i) ==> monsters[i := m][i] == m
  {
    var updated := monsters[i := m];
    assert forall j :: 0 <= j < |monsters| ==> updated[j].name == monsters[j].name;
  }
}
