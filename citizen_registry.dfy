/** The citizen registry: citizens keyed by id, an email uniqueness index
    (email to id) and a name index (every lower-cased name substring longer
    than two characters to the ids of the citizens whose names contain it). */
module Citizens {
  import opened Records
  import opened Text
  import opened Indexing

  /** The names of the stored citizens. */
  function Names(citizens: map<Id, Citizen>): map<Id, string> {
    map id | id in citizens :: citizens[id].name
  }

  /** The email index points every stored email at its citizen and nothing
      else; so no two citizens share an email. */
  ghost predicate EmailIndexed(emailIndex: map<string, Id>, citizens: map<Id, Citizen>) {
    && (forall e :: e in emailIndex ==> emailIndex[e] in citizens && citizens[emailIndex[e]].email == e)
    && (forall id :: id in citizens ==> citizens[id].email in emailIndex && emailIndex[citizens[id].email] == id)
  }

  /** Both indexes agree with the stored citizens, and every citizen is
      stored under its own id. */
  ghost predicate Consistent(citizens: map<Id, Citizen>, emailIndex: map<string, Id>, nameIndex: Index<string>) {
    && (forall id :: id in citizens ==> citizens[id].id == id)
    && EmailIndexed(emailIndex, citizens)
    && Indexed(nameIndex, NameKeyMap(Names(citizens)))
  }

  /** Consistent indexes never hold two citizens with one email. */
  lemma EmailsUnique(citizens: map<Id, Citizen>, emailIndex: map<string, Id>, nameIndex: Index<string>)
    requires Consistent(citizens, emailIndex, nameIndex)
    ensures forall a, b :: a in citizens && b in citizens && citizens[a].email == citizens[b].email ==> a == b
  {
  }

  /** What `add` does when the id is already stored under another email: the
      old email still points at the id, whose record now has the new email.
      This is why `Add` asks for a fresh id. */
  lemma ReusedIdLeavesStaleEmail(citizens: map<Id, Citizen>, emailIndex: map<string, Id>, nameIndex: Index<string>,
                                 citizen: Citizen)
    requires Consistent(citizens, emailIndex, nameIndex)
    requires citizen.id in citizens && citizen.email !in emailIndex
    ensures !EmailIndexed(emailIndex[citizen.email := citizen.id], citizens[citizen.id := citizen])
  {
    var stale := citizens[citizen.id].email;
    assert stale in emailIndex[citizen.email := citizen.id];
  }

  /** What `update` does with an empty name: the truthiness guard skips the
      re-indexing while the merge still stores the empty name, so the old
      name keys stay behind. This is why `Update` rules out an empty name. */
  lemma EmptyNameLeavesStaleKeys(citizens: map<Id, Citizen>, emailIndex: map<string, Id>, nameIndex: Index<string>,
                                 id: Id, patch: CitizenPatch)
    requires Consistent(citizens, emailIndex, nameIndex)
    requires id in citizens && |citizens[id].name| >= 3
    requires patch.name == Some("")
    ensures !Indexed(nameIndex, NameKeyMap(Names(citizens[id := MergeCitizen(citizens[id], patch)])))
  {
    var n := Lower(citizens[id].name);
    assert NameKeyMap(Names(citizens))[id] == NameKeys(n);
    assert n[0..|n|] == n;
    assert n in NameKeys(n);
    assert n in nameIndex && id in nameIndex[n];
    var after := NameKeyMap(Names(citizens[id := MergeCitizen(citizens[id], patch)]));
    assert after[id] == NameKeys(Lower(""));
  }

  /** `update` changes the email index when the patch carries a truthy
      email different from the stored one. */
  predicate EmailChanges(current: Citizen, patch: CitizenPatch) {
    Truthy(patch.email) && patch.email.value != current.email
  }

  /** The email index after a successful `update`: the old email key
      replaced by the new one, pointing at the same id. */
  function UpdatedEmails(emailIndex: map<string, Id>, current: Citizen, patch: CitizenPatch): map<string, Id> {
    if EmailChanges(current, patch) then (emailIndex - {current.email})[patch.email.value := current.id]
    else emailIndex
  }

  /** A successful `update` keeps the email index consistent. */
  lemma UpdateKeepsEmails(citizens: map<Id, Citizen>, emailIndex: map<string, Id>, id: Id, patch: CitizenPatch)
    requires EmailIndexed(emailIndex, citizens)
    requires id in citizens && citizens[id].id == id
    requires patch.email != Some("")
    requires !(EmailChanges(citizens[id], patch) && patch.email.value in emailIndex)
    ensures EmailIndexed(UpdatedEmails(emailIndex, citizens[id], patch), citizens[id := MergeCitizen(citizens[id], patch)])
  {
  }

  /** A successful `update` keeps the indexes consistent, provided the patch
      keeps the id and carries no empty email or name. */
  lemma UpdateKeepsConsistent(citizens: map<Id, Citizen>, emailIndex: map<string, Id>, nameIndex: Index<string>,
                              id: Id, patch: CitizenPatch)
    requires Consistent(citizens, emailIndex, nameIndex)
    requires id in citizens
    requires patch.id.None? || patch.id == Some(id)
    requires patch.email != Some("") && patch.name != Some("")
    requires !(EmailChanges(citizens[id], patch) && patch.email.value in emailIndex)
    ensures Consistent(citizens[id := MergeCitizen(citizens[id], patch)],
                       UpdatedEmails(emailIndex, citizens[id], patch),
                       Renamed(nameIndex, id, citizens[id].name, patch.name))
  {
    UpdateKeepsEmails(citizens, emailIndex, id, patch);
    var names := Names(citizens);
    assert Names(citizens[id := MergeCitizen(citizens[id], patch)]) == names[id := Pick(patch.name, names[id])];
    RenameKeepsIndexed(nameIndex, names, id, patch.name);
  }

  /** A fresh id with an unused email keeps the email index consistent. */
  lemma AddKeepsEmails(citizens: map<Id, Citizen>, emailIndex: map<string, Id>, citizen: Citizen)
    requires EmailIndexed(emailIndex, citizens)
    requires citizen.id !in citizens && citizen.email !in emailIndex
    ensures EmailIndexed(emailIndex[citizen.email := citizen.id], citizens[citizen.id := citizen])
  {
  }

  /** Registering a citizen with a fresh id and an unused email keeps the
      indexes consistent. */
  lemma AddKeepsConsistent(citizens: map<Id, Citizen>, emailIndex: map<string, Id>, nameIndex: Index<string>,
                           citizen: Citizen)
    requires Consistent(citizens, emailIndex, nameIndex)
    requires citizen.id !in citizens && citizen.email !in emailIndex
    ensures Consistent(citizens[citizen.id := citizen],
                       emailIndex[citizen.email := citizen.id],
                       TagAll(nameIndex, NameKeys(Lower(citizen.name)), citizen.id))
  {
    AddKeepsEmails(citizens, emailIndex, citizen);
    var names := Names(citizens);
    assert Names(citizens[citizen.id := citizen]) == names[citizen.id := citizen.name];
    NameKeyMapUpdate(names, citizen.id, citizen.name);
    IndexedAdd(nameIndex, NameKeyMap(names), citizen.id, NameKeys(Lower(citizen.name)));
  }

  /** Dropping a stored citizen with its email and name keys keeps the
      indexes consistent. */
  lemma RemoveKeepsConsistent(citizens: map<Id, Citizen>, emailIndex: map<string, Id>, nameIndex: Index<string>,
                              id: Id)
    requires Consistent(citizens, emailIndex, nameIndex)
    requires id in citizens
    ensures Consistent(citizens - {id},
                       emailIndex - {citizens[id].email},
                       UntagAll(nameIndex, NameKeys(Lower(citizens[id].name)), id))
  {
    var names := Names(citizens);
    assert Names(citizens - {id}) == names - {id};
    NameKeyMapUpdate(names, id, citizens[id].name);
    IndexedRemove(nameIndex, NameKeyMap(names), id);
  }

  class CitizenRegistry {
    var citizens: map<Id, Citizen>
    var emailIndex: map<string, Id>
    var nameIndex: Index<string>

    ghost predicate Valid()
      reads this
    {
      Consistent(citizens, emailIndex, nameIndex)
    }

    constructor ()
      ensures Valid()
      ensures citizens == map[] && emailIndex == map[] && nameIndex == map[]
    {
      citizens, emailIndex, nameIndex := map[], map[], map[];
    }

    /** Add a citizen unless its email is already registered. The caller
        supplies a fresh id (an id already stored would be overwritten while
        its old index entries stayed behind). */
    method Add(citizen: Citizen) returns (ok: bool)
      requires Valid()
      requires citizen.email !in emailIndex ==> citizen.id !in citizens
      modifies this
      ensures Valid()
      ensures ok <==> citizen.email !in old(emailIndex)
      ensures !ok ==> citizens == old(citizens) && emailIndex == old(emailIndex) && nameIndex == old(nameIndex)
      ensures ok ==> citizens == old(citizens)[citizen.id := citizen]
      ensures ok ==> emailIndex == old(emailIndex)[citizen.email := citizen.id]
      ensures ok ==> nameIndex == TagAll(old(nameIndex), NameKeys(Lower(citizen.name)), citizen.id)
      ensures ok ==> forall k :: k in NameKeys(Lower(citizen.name)) ==> k in nameIndex && citizen.id in nameIndex[k]
    {
      if citizen.email in emailIndex {
        return false;
      }
      AddKeepsConsistent(citizens, emailIndex, nameIndex, citizen);
      citizens := citizens[citizen.id := citizen];
      emailIndex := emailIndex[citizen.email := citizen.id];
      nameIndex := IndexName(nameIndex, citizen.name, citizen.id);
      return true;
    }

    /** Merge `patch` into the citizen stored under `id`, re-indexing a
        changed email and a changed name first. False, with nothing changed,
        for an unknown id or a new email another citizen already has. */
    method Update(id: Id, patch: CitizenPatch) returns (ok: bool)
      requires Valid()
      requires patch.id.None? || patch.id == Some(id)
      requires patch.email != Some("") && patch.name != Some("")
      modifies this
      ensures Valid()
      ensures ok <==> id in old(citizens)
                      && !(EmailChanges(old(citizens)[id], patch) && patch.email.value in old(emailIndex))
      ensures !ok ==> citizens == old(citizens) && emailIndex == old(emailIndex) && nameIndex == old(nameIndex)
      ensures ok ==> citizens == old(citizens)[id := MergeCitizen(old(citizens)[id], patch)]
      ensures ok ==> emailIndex == UpdatedEmails(old(emailIndex), old(citizens)[id], patch)
      ensures ok ==> nameIndex == Renamed(old(nameIndex), id, old(citizens)[id].name, patch.name)
    {
      if id !in citizens {
        return false;
      }
      var currentCitizen := citizens[id];

      if Truthy(patch.email) && patch.email.value != currentCitizen.email {
        if patch.email.value in emailIndex {
          return false;
        }
        emailIndex := emailIndex - {currentCitizen.email};
        emailIndex := emailIndex[patch.email.value := id];
      }

      nameIndex := Rename(nameIndex, id, currentCitizen.name, patch.name);

      UpdateKeepsConsistent(old(citizens), old(emailIndex), old(nameIndex), id, patch);
      citizens := citizens[id := MergeCitizen(currentCitizen, patch)];
      return true;
    }

    /** Remove the citizen stored under `id` with its email and name index
        entries; false, with nothing changed, for an unknown id. */
    method Remove(id: Id) returns (ok: bool)
      requires Valid()
      modifies this
      ensures Valid()
      ensures ok <==> id in old(citizens)
      ensures !ok ==> citizens == old(citizens) && emailIndex == old(emailIndex) && nameIndex == old(nameIndex)
      ensures ok ==> citizens == old(citizens) - {id}
      ensures ok ==> emailIndex == old(emailIndex) - {old(citizens)[id].email}
      ensures ok ==> nameIndex == UntagAll(old(nameIndex), NameKeys(Lower(old(citizens)[id].name)), id)
      ensures ok ==> |citizens| == |old(citizens)| - 1
    {
      if id !in citizens {
        return false;
      }
      var citizen := citizens[id];
      RemoveKeepsConsistent(citizens, emailIndex, nameIndex, id);
      emailIndex := emailIndex - {citizen.email};
      nameIndex := UnindexName(nameIndex, citizen.name, id);
      citizens := citizens - {id};
      return true;
    }

    /** The citizen stored under `id`, if any. */
    function GetById(id: Id): (r: Option<Citizen>)
      requires Valid()
      reads this
      ensures r.Some? <==> id in citizens
      ensures r.Some? ==> r.value == citizens[id] && r.value.id == id
    {
      if id in citizens then Some(citizens[id]) else None
    }

    /** The citizens whose lower-cased name has at least three characters and
        contains the lower-cased query, each once, in no promised order. */
    method FindByName(name: string) returns (found: seq<Citizen>)
      requires Valid()
      ensures forall c :: c in found <==> c in citizens.Values && NameMatches(c.name, name)
      ensures forall i, j :: 0 <= i < j < |found| ==> found[i].id != found[j].id
    {
      var matchedIds := MatchingIds(nameIndex, name);
      forall id | true
        ensures id in matchedIds <==> id in citizens && NameMatches(citizens[id].name, name)
      {
        NameSearch(nameIndex, Names(citizens), name, id);
      }
      var order := Enumerate(matchedIds);
      found := Lookup(citizens, order);
    }

    /** Every stored citizen, each once. */
    method GetAll() returns (all: seq<Citizen>)
      requires Valid()
      ensures |all| == |citizens|
      ensures forall c :: c in all <==> c in citizens.Values
      ensures forall i, j :: 0 <= i < j < |all| ==> all[i].id != all[j].id
    {
      var order := Enumerate(citizens.Keys);
      all := Lookup(citizens, order);
    }

    function Size(): (n: nat)
      reads this
      ensures n == |citizens|
    {
      |citizens|
    }
  }
}
