/**
 * The rollback removeAidGroupForService performs when persisting the removal of
 * an AID group fails: the group HashMap.remove returned is put back under its
 * category. In Java the map may then hold a null group; here a group map with
 * nullable values is `map<string, Option<AidGroup>>`.
 */
module Rollback {
  import opened Wrappers
  import opened Records

  /** An overlay's groups as Java's HashMap holds them: a value may be null (None). */
  type NullableGroups = map<string, Option<AidGroup>>

  /** A group map without null values, as Java sees it. */
  function Nullable(groups: map<string, AidGroup>): (r: NullableGroups)
    ensures r.Keys == groups.Keys
    ensures forall k :: k in r ==> r[k] == Some(groups[k])
  {
    map k | k in groups :: Some(groups[k])
  }

  /** What HashMap.remove(category) returns: the group it removed, or null. */
  function Removed(groups: map<string, AidGroup>, category: string): (r: Option<AidGroup>)
    ensures r.Some? <==> category in groups
    ensures r.Some? ==> r.value == groups[category]
  {
    if category in groups then Some(groups[category]) else None
  }

  /** The rollback as written: `aidGroups.put(category, deletedGroup)`, whatever remove returned. */
  function RestoreAsWritten(groups: NullableGroups, category: string, deleted: Option<AidGroup>): (r: NullableGroups)
    ensures category in r && r[category] == deleted
    ensures forall k :: k != category ==> (k in r <==> k in groups) && (k in r ==> r[k] == groups[k])
  {
    groups[category := deleted]
  }

  /** The rollback as intended: put the removed group back, and nothing when none was removed. */
  function RestoreRemovedGroup(groups: map<string, AidGroup>, category: string, deleted: Option<AidGroup>)
    : (r: map<string, AidGroup>)
    ensures deleted.None? ==> r == groups
    ensures deleted.Some? ==> category in r && r[category] == deleted.value
    ensures forall k :: k != category ==> (k in r <==> k in groups) && (k in r ==> r[k] == groups[k])
  {
    if deleted.Some? then groups[category := deleted.value] else groups
  }

  /** The intended rollback undoes every removal, whether or not the category was there. */
  lemma RestoreUndoesRemoval(groups: map<string, AidGroup>, category: string)
    ensures RestoreRemovedGroup(groups - {category}, category, Removed(groups, category)) == groups
  {
    var r := RestoreRemovedGroup(groups - {category}, category, Removed(groups, category));
    assert r.Keys == groups.Keys;
  }

  /** The intended rollback keeps the groups filed under their categories. */
  lemma RestoreKeepsKeyed(groups: map<string, AidGroup>, category: string)
    requires GroupsKeyed(groups)
    ensures GroupsKeyed(RestoreRemovedGroup(groups - {category}, category, Removed(groups, category)))
  {
    RestoreUndoesRemoval(groups, category);
  }

  /** As written, the rollback is right when a group was removed. */
  lemma RestoreAsWrittenAfterRemoval(groups: map<string, AidGroup>, category: string)
    requires category in groups
    ensures RestoreAsWritten(Nullable(groups) - {category}, category, Removed(groups, category)) == Nullable(groups)
  {
    var r := RestoreAsWritten(Nullable(groups) - {category}, category, Removed(groups, category));
    assert r.Keys == groups.Keys;
  }

  /**
   * As written, rolling back the removal of a category the overlay did not hold
   * leaves a null group under that category: the map is not restored.
   */
  lemma RestoreAsWrittenLeavesNull(groups: map<string, AidGroup>, category: string)
    requires category !in groups
    ensures var r := RestoreAsWritten(Nullable(groups) - {category}, category, Removed(groups, category));
      r != Nullable(groups) && category in r && r[category] == None
  {
    var r := RestoreAsWritten(Nullable(groups) - {category}, category, Removed(groups, category));
    assert category !in Nullable(groups);
  }

  /** The input that shows it: an overlay with no groups and the "payment" category. */
  lemma RestoreAsWrittenExample()
    ensures RestoreAsWritten(Nullable(map[]), "payment", Removed(map[], "payment")) == map["payment" := None]
    ensures RestoreRemovedGroup(map[], "payment", Removed(map[], "payment")) == map[]
  {
  }
}
