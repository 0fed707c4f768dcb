/** The record types shared by the registry, the criminal database and the
    citizen form, and the shallow merge `{ ...current, ...patch }` that
    `update` applies to a stored record. */
module Records {

  datatype Option<+T> = None | Some(value: T) {
    /** The wrapped value, or `default` when absent. */
    function GetOr(default: T): T {
      match this
      case Some(v) => v
      case None => default
    }
  }

  /** JavaScript truthiness of an optional string field: present and not
      empty. */
  predicate Truthy(field: Option<string>) {
    field.Some? && field.value != ""
  }

  /** Record identifiers are strings. */
  type Id = string

  datatype Citizen = Citizen(
    id: Id,
    name: string,
    age: int,
    nationality: string,
    dateOfBirth: string,
    address: string,
    email: string,
    phone: string,
    createdAt: string,
    updatedAt: string)

  datatype CrimeStatus = Open | Closed | UnderInvestigation

  datatype Crime = Crime(
    id: Id,
    kind: string,
    description: string,
    date: string,
    location: string,
    status: CrimeStatus)

  datatype ThreatLevel = Low | Medium | High | Critical

  datatype CriminalStatus = AtLarge | InCustody | Released

  /** A criminal carries every field of a citizen plus its crime data. */
  datatype Criminal = Criminal(
    id: Id,
    name: string,
    age: int,
    nationality: string,
    dateOfBirth: string,
    address: string,
    email: string,
    phone: string,
    createdAt: string,
    updatedAt: string,
    crimeHistory: seq<Crime>,
    threatLevel: ThreatLevel,
    status: CriminalStatus,
    lastSeen: Option<string>,
    associates: Option<seq<Id>>)

  /** `Partial<Citizen>`: every field may be absent. */
  datatype CitizenPatch = CitizenPatch(
    id: Option<Id>,
    name: Option<string>,
    age: Option<int>,
    nationality: Option<string>,
    dateOfBirth: Option<string>,
    address: Option<string>,
    email: Option<string>,
    phone: Option<string>,
    createdAt: Option<string>,
    updatedAt: Option<string>)

  /** `Partial<Criminal>`: a present optional field (`lastSeen`, `associates`)
      overwrites the stored one with `Some` of its value. */
  datatype CriminalPatch = CriminalPatch(
    id: Option<Id>,
    name: Option<string>,
    age: Option<int>,
    nationality: Option<string>,
    dateOfBirth: Option<string>,
    address: Option<string>,
    email: Option<string>,
    phone: Option<string>,
    createdAt: Option<string>,
    updatedAt: Option<string>,
    crimeHistory: Option<seq<Crime>>,
    threatLevel: Option<ThreatLevel>,
    status: Option<CriminalStatus>,
    lastSeen: Option<string>,
    associates: Option<seq<Id>>)

  const NoCitizenChange := CitizenPatch(None, None, None, None, None, None, None, None, None, None)

  const NoCriminalChange := CriminalPatch(None, None, None, None, None, None, None, None, None, None,
                                          None, None, None, None, None)

  /** Overwrite with a present value, keep the old one otherwise. */
  function Pick<T>(patch: Option<T>, current: T): (r: T)
    ensures patch.None? ==> r == current
    ensures patch.Some? ==> r == patch.value
  {
    patch.GetOr(current)
  }

  /** A present optional field overwrites, an absent one keeps the old value. */
  function PickOptional<T>(patch: Option<T>, current: Option<T>): (r: Option<T>)
    ensures patch.None? ==> r == current
    ensures patch.Some? ==> r == patch
  {
    if patch.Some? then patch else current
  }

  /** `{ ...current, ...patch }` on citizens. The stored id survives exactly
      when the patch carries no other id. */
  function MergeCitizen(current: Citizen, patch: CitizenPatch): (r: Citizen)
    ensures r.id == current.id <==> patch.id.None? || patch.id == Some(current.id)
  {
    Citizen(
      Pick(patch.id, current.id),
      Pick(patch.name, current.name),
      Pick(patch.age, current.age),
      Pick(patch.nationality, current.nationality),
      Pick(patch.dateOfBirth, current.dateOfBirth),
      Pick(patch.address, current.address),
      Pick(patch.email, current.email),
      Pick(patch.phone, current.phone),
      Pick(patch.createdAt, current.createdAt),
      Pick(patch.updatedAt, current.updatedAt))
  }

  /** `{ ...current, ...patch }` on criminals. The stored id survives
      exactly when the patch carries no other id. */
  function MergeCriminal(current: Criminal, patch: CriminalPatch): (r: Criminal)
    ensures r.id == current.id <==> patch.id.None? || patch.id == Some(current.id)
  {
    Criminal(
      Pick(patch.id, current.id),
      Pick(patch.name, current.name),
      Pick(patch.age, current.age),
      Pick(patch.nationality, current.nationality),
      Pick(patch.dateOfBirth, current.dateOfBirth),
      Pick(patch.address, current.address),
      Pick(patch.email, current.email),
      Pick(patch.phone, current.phone),
      Pick(patch.createdAt, current.createdAt),
      Pick(patch.updatedAt, current.updatedAt),
      Pick(patch.crimeHistory, current.crimeHistory),
      Pick(patch.threatLevel, current.threatLevel),
      Pick(patch.status, current.status),
      PickOptional(patch.lastSeen, current.lastSeen),
      PickOptional(patch.associates, current.associates))
  }

  /** The two laws of the spread `{ ...current, ...patch }` in a citizen
      update: updating with an empty patch leaves the stored record as it
      was, and repeating the same update changes nothing further. */
  lemma MergeCitizenLaws(current: Citizen, patch: CitizenPatch)
    ensures MergeCitizen(current, NoCitizenChange) == current
    ensures MergeCitizen(MergeCitizen(current, patch), patch) == MergeCitizen(current, patch)
  {
  }

  /** The same two laws for the spread in a criminal update: an empty
      patch is a no-op, and a repeated update is idempotent. */
  lemma MergeCriminalLaws(current: Criminal, patch: CriminalPatch)
    ensures MergeCriminal(current, NoCriminalChange) == current
    ensures MergeCriminal(MergeCriminal(current, patch), patch) == MergeCriminal(current, patch)
  {
  }
}
