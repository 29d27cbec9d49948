/** The spell repository: lookup by name after lower-casing both sides. */
module SpellDatabase {
  import opened Base
  import opened Content

  /** `SpellDatabase.GetSpellByName`: the first spell whose lower-cased name equals
      the lower-cased query, or null. */
  function GetSpellByName(spells: seq<Spell>, spellName: string): (r: Option<Spell>)
    ensures r.Some? ==> Lower(r.value.name) == Lower(spellName) && r.value in spells
    ensures r.Some? ==> exists k :: 0 <= k < |spells| && spells[k] == r.value
                          && forall j :: 0 <= j < k ==> Lower(spells[j].name) != Lower(spellName)
    ensures r.None? <==> forall j :: 0 <= j < |spells| ==> Lower(spells[j].name) != Lower(spellName)
  {
    match FirstIndex(spells, (s: Spell) => Lower(s.name) == Lower(spellName))
    case Some(k) => Some(spells[k])
    case None => None
  }

  /** Queries that differ only in letter case find the same spell. */
  lemma LookupIgnoresCase(spells: seq<Spell>, a: string, b: string)
    requires Lower(a) == Lower(b)
    ensures GetSpellByName(spells, a) == GetSpellByName(spells, b)
  {
    var p := (s: Spell) => Lower(s.name) == Lower(a);
    var q := (s: Spell) => Lower(s.name) == Lower(b);
    assert p == q;
  }
}
