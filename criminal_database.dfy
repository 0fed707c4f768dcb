/** The criminal database: criminals keyed by id (the id is the uniqueness
    key; there is no email index), a name index like the citizen registry's,
    and two categorical indexes, threat level to ids and status to ids. */
module Criminals {
  import opened Records
  import opened Text
  import opened Indexing

  function CriminalNames(criminals: map<Id, Criminal>): map<Id, string> {
    map id | id in criminals :: criminals[id].name
  }

  /** Each criminal's threat level, as the single key it is filed under. */
  function ThreatKeys(criminals: map<Id, Criminal>): map<Id, set<ThreatLevel>> {
    map id | id in criminals :: {criminals[id].threatLevel}
  }

  /** Each criminal's status, as the single key it is filed under. */
  function StatusKeys(criminals: map<Id, Criminal>): map<Id, set<CriminalStatus>> {
    map id | id in criminals :: {criminals[id].status}
  }

  /** All three indexes agree with the stored criminals, and every criminal is
      stored under its own id. In particular every stored threat level and
      status is a key of its index, which the `!` lookups of `update` and
      `remove` rely on. */
  ghost predicate Consistent(criminals: map<Id, Criminal>, nameIndex: Index<string>,
                             threatLevelIndex: Index<ThreatLevel>, statusIndex: Index<CriminalStatus>) {
    && (forall id :: id in criminals ==> criminals[id].id == id)
    && Indexed(nameIndex, NameKeyMap(CriminalNames(criminals)))
    && Indexed(threatLevelIndex, ThreatKeys(criminals))
    && Indexed(statusIndex, StatusKeys(criminals))
  }

  /** Storing a criminal under an id re-keys that id alone in every key map. */
  lemma KeyMapsUpdate(criminals: map<Id, Criminal>, id: Id, c: Criminal)
    ensures CriminalNames(criminals[id := c]) == CriminalNames(criminals)[id := c.name]
    ensures ThreatKeys(criminals[id := c]) == ThreatKeys(criminals)[id := {c.threatLevel}]
    ensures StatusKeys(criminals[id := c]) == StatusKeys(criminals)[id := {c.status}]
  {
  }

  /** Deleting an id removes it alone from every key map. */
  lemma KeyMapsRemove(criminals: map<Id, Criminal>, id: Id)
    ensures CriminalNames(criminals - {id}) == CriminalNames(criminals) - {id}
    ensures ThreatKeys(criminals - {id}) == ThreatKeys(criminals) - {id}
    ensures StatusKeys(criminals - {id}) == StatusKeys(criminals) - {id}
  {
  }

  /** A successful `update` keeps all indexes consistent, provided the patch
      keeps the id and carries no empty name. */
  lemma UpdateKeepsConsistent(criminals: map<Id, Criminal>, nameIndex: Index<string>,
                              threatLevelIndex: Index<ThreatLevel>, statusIndex: Index<CriminalStatus>,
                              id: Id, patch: CriminalPatch)
    requires Consistent(criminals, nameIndex, threatLevelIndex, statusIndex)
    requires id in criminals
    requires patch.id.None? || patch.id == Some(id)
    requires patch.name != Some("")
    ensures criminals[id].threatLevel in threatLevelIndex && criminals[id].status in statusIndex
    ensures Consistent(criminals[id := MergeCriminal(criminals[id], patch)],
                       Renamed(nameIndex, id, criminals[id].name, patch.name),
                       Retagged(threatLevelIndex, id, criminals[id].threatLevel, patch.threatLevel),
                       Retagged(statusIndex, id, criminals[id].status, patch.status))
  {
    var current := criminals[id];
    var merged := MergeCriminal(current, patch);
    KeyMapsUpdate(criminals, id, merged);
    var names := CriminalNames(criminals);
    assert names[id] == current.name;
    RenameKeepsIndexed(nameIndex, names, id, patch.name);
    RetagKeepsIndexed(threatLevelIndex, ThreatKeys(criminals), id, current.threatLevel, patch.threatLevel);
    RetagKeepsIndexed(statusIndex, StatusKeys(criminals), id, current.status, patch.status);
  }

  /** Filing a criminal with a fresh id under its name keys, threat level
      and status keeps all indexes consistent. */
  lemma AddKeepsConsistent(criminals: map<Id, Criminal>, nameIndex: Index<string>,
                           threatLevelIndex: Index<ThreatLevel>, statusIndex: Index<CriminalStatus>,
                           criminal: Criminal)
    requires Consistent(criminals, nameIndex, threatLevelIndex, statusIndex)
    requires criminal.id !in criminals
    ensures Consistent(criminals[criminal.id := criminal],
                       TagAll(nameIndex, NameKeys(Lower(criminal.name)), criminal.id),
                       Tag(threatLevelIndex, criminal.threatLevel, criminal.id),
                       Tag(statusIndex, criminal.status, criminal.id))
  {
    KeyMapsUpdate(criminals, criminal.id, criminal);
    IndexedAdd(nameIndex, NameKeyMap(CriminalNames(criminals)), criminal.id, NameKeys(Lower(criminal.name)));
    NameKeyMapUpdate(CriminalNames(criminals), criminal.id, criminal.name);
    SingleKey(threatLevelIndex, criminal.threatLevel, criminal.id);
    IndexedAdd(threatLevelIndex, ThreatKeys(criminals), criminal.id, {criminal.threatLevel});
    SingleKey(statusIndex, criminal.status, criminal.id);
    IndexedAdd(statusIndex, StatusKeys(criminals), criminal.id, {criminal.status});
  }

  /** Unfiling a stored criminal from every index and deleting it keeps all
      indexes consistent; its threat level and status are keys of their
      indexes beforehand. */
  lemma RemoveKeepsConsistent(criminals: map<Id, Criminal>, nameIndex: Index<string>,
                              threatLevelIndex: Index<ThreatLevel>, statusIndex: Index<CriminalStatus>,
                              id: Id)
    requires Consistent(criminals, nameIndex, threatLevelIndex, statusIndex)
    requires id in criminals
    ensures criminals[id].threatLevel in threatLevelIndex && criminals[id].status in statusIndex
    ensures Consistent(criminals - {id},
                       UntagAll(nameIndex, NameKeys(Lower(criminals[id].name)), id),
                       Untag(threatLevelIndex, criminals[id].threatLevel, id),
                       Untag(statusIndex, criminals[id].status, id))
  {
    var criminal := criminals[id];
    KeyMapsRemove(criminals, id);
    NameKeyMapUpdate(CriminalNames(criminals), id, criminal.name);
    IndexedRemove(nameIndex, NameKeyMap(CriminalNames(criminals)), id);
    assert ThreatKeys(criminals)[id] == {criminal.threatLevel};
    SingleKey(threatLevelIndex, criminal.threatLevel, id);
    IndexedRemove(threatLevelIndex, ThreatKeys(criminals), id);
    assert StatusKeys(criminals)[id] == {criminal.status};
    SingleKey(statusIndex, criminal.status, id);
    IndexedRemove(statusIndex, StatusKeys(criminals), id);
  }

  class CriminalDatabase {
    var criminals: map<Id, Criminal>
    var nameIndex: Index<string>
    var threatLevelIndex: Index<ThreatLevel>
    var statusIndex: Index<CriminalStatus>

    ghost predicate Valid()
      reads this
    {
      Consistent(criminals, nameIndex, threatLevelIndex, statusIndex)
    }

    constructor ()
      ensures Valid()
      ensures criminals == map[] && nameIndex == map[] && threatLevelIndex == map[] && statusIndex == map[]
    {
      criminals, nameIndex, threatLevelIndex, statusIndex := map[], map[], map[], map[];
    }

    /** Add a criminal unless its id is already stored, filing it under its
        name substrings, its threat level and its status. */
    method Add(criminal: Criminal) returns (ok: bool)
      requires Valid()
      modifies this
      ensures Valid()
      ensures ok <==> criminal.id !in old(criminals)
      ensures !ok ==> criminals == old(criminals) && nameIndex == old(nameIndex)
                      && threatLevelIndex == old(threatLevelIndex) && statusIndex == old(statusIndex)
      ensures ok ==> criminals == old(criminals)[criminal.id := criminal]
      ensures ok ==> nameIndex == TagAll(old(nameIndex), NameKeys(Lower(criminal.name)), criminal.id)
      ensures ok ==> threatLevelIndex == Tag(old(threatLevelIndex), criminal.threatLevel, criminal.id)
      ensures ok ==> statusIndex == Tag(old(statusIndex), criminal.status, criminal.id)
    {
      if criminal.id in criminals {
        return false;
      }
      AddKeepsConsistent(criminals, nameIndex, threatLevelIndex, statusIndex, criminal);
      criminals := criminals[criminal.id := criminal];
      nameIndex := IndexName(nameIndex, criminal.name, criminal.id);
      threatLevelIndex := Tag(threatLevelIndex, criminal.threatLevel, criminal.id);
      statusIndex := Tag(statusIndex, criminal.status, criminal.id);
      return true;
    }

    /** Merge `patch` into the criminal stored under `id`, first moving it to
        the keys of a changed name, threat level and status. False, with
        nothing changed, for an unknown id. */
    method Update(id: Id, patch: CriminalPatch) returns (ok: bool)
      requires Valid()
      requires patch.id.None? || patch.id == Some(id)
      requires patch.name != Some("")
      modifies this
      ensures Valid()
      ensures ok <==> id in old(criminals)
      ensures !ok ==> criminals == old(criminals) && nameIndex == old(nameIndex)
                      && threatLevelIndex == old(threatLevelIndex) && statusIndex == old(statusIndex)
      ensures ok ==> criminals == old(criminals)[id := MergeCriminal(old(criminals)[id], patch)]
      ensures ok ==> nameIndex == Renamed(old(nameIndex), id, old(criminals)[id].name, patch.name)
      ensures ok ==> old(criminals)[id].threatLevel in old(threatLevelIndex)
                     && threatLevelIndex == Retagged(old(threatLevelIndex), id, old(criminals)[id].threatLevel, patch.threatLevel)
      ensures ok ==> old(criminals)[id].status in old(statusIndex)
                     && statusIndex == Retagged(old(statusIndex), id, old(criminals)[id].status, patch.status)
    {
      if id !in criminals {
        return false;
      }
      var currentCriminal := criminals[id];
      UpdateKeepsConsistent(criminals, nameIndex, threatLevelIndex, statusIndex, id, patch);
      nameIndex := Rename(nameIndex, id, currentCriminal.name, patch.name);
      threatLevelIndex := Refile(threatLevelIndex, id, currentCriminal.threatLevel, patch.threatLevel);
      statusIndex := Refile(statusIndex, id, currentCriminal.status, patch.status);

      criminals := criminals[id := MergeCriminal(currentCriminal, patch)];
      return true;
    }

    /** Remove the criminal stored under `id` from every index, then from
        the store; false, with nothing changed, for an unknown id. */
    method Remove(id: Id) returns (ok: bool)
      requires Valid()
      modifies this
      ensures Valid()
      ensures ok <==> id in old(criminals)
      ensures !ok ==> criminals == old(criminals) && nameIndex == old(nameIndex)
                      && threatLevelIndex == old(threatLevelIndex) && statusIndex == old(statusIndex)
      ensures ok ==> criminals == old(criminals) - {id}
      ensures ok ==> nameIndex == UntagAll(old(nameIndex), NameKeys(Lower(old(criminals)[id].name)), id)
      ensures ok ==> old(criminals)[id].threatLevel in old(threatLevelIndex)
                     && threatLevelIndex == Untag(old(threatLevelIndex), old(criminals)[id].threatLevel, id)
      ensures ok ==> old(criminals)[id].status in old(statusIndex)
                     && statusIndex == Untag(old(statusIndex), old(criminals)[id].status, id)
    {
      if id !in criminals {
        return false;
      }
      var criminal := criminals[id];
      RemoveKeepsConsistent(criminals, nameIndex, threatLevelIndex, statusIndex, id);

      nameIndex := UnindexName(nameIndex, criminal.name, id);
      threatLevelIndex := Untag(threatLevelIndex, criminal.threatLevel, id);
      statusIndex := Untag(statusIndex, criminal.status, id);
      criminals := criminals - {id};
      return true;
    }

    /** The criminal stored under `id`, if any. */
    function GetById(id: Id): (r: Option<Criminal>)
      requires Valid()
      reads this
      ensures r.Some? <==> id in criminals
      ensures r.Some? ==> r.value == criminals[id] && r.value.id == id
    {
      if id in criminals then Some(criminals[id]) else None
    }

    /** The criminals whose lower-cased name has at least three characters
        and contains the lower-cased query, each once, in no promised order. */
    method FindByName(name: string) returns (found: seq<Criminal>)
      requires Valid()
      ensures forall c :: c in found <==> c in criminals.Values && NameMatches(c.name, name)
      ensures forall i, j :: 0 <= i < j < |found| ==> found[i].id != found[j].id
    {
      var matchedIds := MatchingIds(nameIndex, name);
      forall id | true
        ensures id in matchedIds <==> id in criminals && NameMatches(criminals[id].name, name)
      {
        NameSearch(nameIndex, CriminalNames(criminals), name, id);
      }
      var order := Enumerate(matchedIds);
      found := Lookup(criminals, order);
    }

    /** The criminals currently at `threatLevel`, each once; empty when no
        criminal has it. */
    method FindByThreatLevel(threatLevel: ThreatLevel) returns (found: seq<Criminal>)
      requires Valid()
      ensures forall c :: c in found <==> c in criminals.Values && c.threatLevel == threatLevel
      ensures forall i, j :: 0 <= i < j < |found| ==> found[i].id != found[j].id
      ensures threatLevel !in threatLevelIndex ==> found == []
    {
      IndexedLookup(threatLevelIndex, ThreatKeys(criminals), threatLevel);
      forall id | id in criminals
        ensures threatLevel in ThreatKeys(criminals)[id] <==> criminals[id].threatLevel == threatLevel
      {
      }
      if threatLevel !in threatLevelIndex {
        return [];
      }
      var order := Enumerate(threatLevelIndex[threatLevel]);
      found := Lookup(criminals, order);
    }

    /** The criminals currently with `status`, each once; empty when no
        criminal has it. */
    method FindByStatus(status: CriminalStatus) returns (found: seq<Criminal>)
      requires Valid()
      ensures forall c :: c in found <==> c in criminals.Values && c.status == status
      ensures forall i, j :: 0 <= i < j < |found| ==> found[i].id != found[j].id
      ensures status !in statusIndex ==> found == []
    {
      IndexedLookup(statusIndex, StatusKeys(criminals), status);
      forall id | id in criminals
        ensures status in StatusKeys(criminals)[id] <==> criminals[id].status == status
      {
      }
      if status !in statusIndex {
        return [];
      }
      var order := Enumerate(statusIndex[status]);
      found := Lookup(criminals, order);
    }

    /** Every stored criminal, each once. */
    method GetAll() returns (all: seq<Criminal>)
      requires Valid()
      ensures |all| == |criminals|
      ensures forall c :: c in all <==> c in criminals.Values
      ensures forall i, j :: 0 <= i < j < |all| ==> all[i].id != all[j].id
    {
      var order := Enumerate(criminals.Keys);
      all := Lookup(criminals, order);
    }

    function Size(): (n: nat)
      reads this
      ensures n == |criminals|
    {
      |criminals|
    }
  }
}
