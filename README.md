# Citizen and criminal registry core, modelled in Dafny

This project models the in-memory core of a city administration dashboard.

- **`PriorityQueue`** is a binary min-heap of `(item, priority)` entries. The emergency page fills one with emergency requests, and the dashboard's status feed fills one with status updates and drains it most urgent first. Every caller passes the comparator `(a, b) => a - b`, so "more urgent" is integer `<` on `int` priorities.
- **`CitizenRegistry`** stores citizens by id. It keeps two secondary indexes up to date on every `add`, `update` and `remove`:
  - an email uniqueness index, from email to id;
  - a name index, from every lower-cased substring of a name longer than two characters to the ids whose names contain it.
- **`CriminalDatabase`** stores criminals by id. Uniqueness is checked on the id, and there is no email index. It has the same name index as the registry, plus two categorical indexes: threat level to ids, and status to ids.
- **The "add citizen" form** on the citizens page has the checks `validateEmail`, `validatePhone` and `validateAge`. `validateCitizen` uses them, together with `validateDateOfBirth`, to collect one message per offending field.

The modules are:

- `Records`: the record types and the shallow merge `update` applies.
- `Text`: JavaScript whitespace, `trim`, ASCII `toLowerCase`, `includes`, and name substrings.
- `Indexing`: the set-valued indexes that both stores share, and the nested substring loops.
- `Queue`, `Citizens`, `Criminals`: the three classes.
- `CitizenForm`: the form checks.

Each store is a `class` whose fields are the source's maps, with `Valid()` as its invariant. For the two stores, `Valid()` says that every index holds exactly the (key, id) pairs of the stored records and that no key maps to an empty set. For the queue, it is the heap order. Each mutating method states its exact new state as a function of the old one, and it keeps `Valid()`. For the queue these functions (`SiftedUp`, `SiftedDown`, `Enqueued`, `Dequeued`, `Reprioritised`) follow the source's swaps one by one. Separate lemmas prove that they keep the heap order and the multiset of entries.

## Model

| member | source | states |
|---|---|---|
| Queue.PriorityQueue.constructor | lib/data-structures/PriorityQueue.ts:9-12 | a new queue is empty and is a heap |
| Queue.PriorityQueue.Enqueue | lib/data-structures/PriorityQueue.ts:17-20 | the new array is the old one with the entry pushed and sifted up (`Enqueued`); heap order is kept, the size grows by one, and the multiset of entries gains exactly the new pair |
| Queue.PriorityQueue.Dequeue | lib/data-structures/PriorityQueue.ts:25-37 | on an empty queue: nothing is returned and the heap stays empty. Otherwise: it returns the root item, whose priority is at most every priority in the queue; the remaining entries are the old multiset minus the root entry; heap order is restored. The new array is the last entry moved to the root and sifted down (`Dequeued`). A one-entry queue becomes empty without writing slot 0 |
| Queue.PriorityQueue.Peek | lib/data-structures/PriorityQueue.ts:42-44 | nothing exactly when the queue is empty; otherwise an item whose priority is minimal in the queue |
| Queue.PriorityQueue.ChangePriority | lib/data-structures/PriorityQueue.ts:49-64 | true exactly when some item matches. With no match the heap is untouched. With a match, only the first matching entry gets the new priority (as a multiset, every other entry is unchanged), and heap order holds afterwards. The new array is that entry sifted up when it became strictly more urgent and sifted down otherwise (`Reprioritised`) |
| Queue.PriorityQueue.IsEmpty | lib/data-structures/PriorityQueue.ts:69-71 | empty exactly when the size is zero |
| Queue.PriorityQueue.Size | lib/data-structures/PriorityQueue.ts:76-78 | the number of stored entries |
| Queue.PriorityQueue.GetAll | lib/data-structures/PriorityQueue.ts:83-85 | the items in internal array order, one per entry, as many as `Size()` |
| Queue.PriorityQueue.SiftUp | lib/data-structures/PriorityQueue.ts:90-102 | the loop leaves exactly `SiftedUp(old(heap), index)`. By `Queue.SiftUpStops`, the entry climbs only past ancestors that are strictly less urgent, so it is never reordered above an equal priority. By `Queue.SiftedUpRepairs`, this repairs a heap whose only fault is above `index` |
| Queue.PriorityQueue.SiftDown | lib/data-structures/PriorityQueue.ts:107-133 | the recursion leaves exactly `SiftedDown(old(heap), index)`, which repairs a heap whose only fault is below `index` (`Queue.SiftedDownRepairs`) |
| Queue.SiftedUp | lib/data-structures/PriorityQueue.ts:90-102 | the array `siftUp` leaves has as many entries as before |
| Queue.SiftedDown | lib/data-structures/PriorityQueue.ts:107-133 | the array `siftDown` leaves has as many entries as before |
| Queue.Smallest | lib/data-structures/PriorityQueue.ts:108-127 | the slot `siftDown` picks is either the slot itself, or a child that is strictly more urgent than it; in both cases that slot is no less urgent than every child |
| Queue.SiftUpStops | lib/data-structures/PriorityQueue.ts:94-101 | the entry from `index` ends at an ancestor slot `pos`. Every ancestor it passed was strictly less urgent. `pos` is the root, or its parent is no less urgent, so an equal priority is never passed. Entries off that path do not move |
| Queue.SiftedUpKeepsEntries | lib/data-structures/PriorityQueue.ts:96-99 | sifting up keeps the multiset of entries |
| Queue.SiftedUpRepairs | lib/data-structures/PriorityQueue.ts:90-102 | sifting up turns a heap whose only fault is above `index` into a heap |
| Queue.SiftedDownKeepsEntries | lib/data-structures/PriorityQueue.ts:129-132 | sifting down keeps the multiset of entries |
| Queue.SiftedDownRepairs | lib/data-structures/PriorityQueue.ts:107-133 | sifting down turns a heap whose only fault is below `index` into a heap |
| Queue.EnqueuedSpec | lib/data-structures/PriorityQueue.ts:17-20 | after a push, the array is a heap with one more entry, and its multiset gains exactly the new entry |
| Queue.DequeuedSpec | lib/data-structures/PriorityQueue.ts:25-37 | after a dequeue, the array is a heap with one entry fewer, and its multiset loses exactly the old root |
| Queue.ReprioritisedSpec | lib/data-structures/PriorityQueue.ts:51-59 | after a priority change, the array is a heap of the same size whose multiset swaps exactly the changed entry for its new version |
| Queue.RootIsMinimum | lib/data-structures/PriorityQueue.ts:25-28 | in a heap, the root's priority is at most every other entry's |
| Queue.AppendExceptUp | lib/data-structures/PriorityQueue.ts:17-19 | an entry appended to a heap breaks heap order only between itself and its parent |
| Queue.SwapUp | lib/data-structures/PriorityQueue.ts:94-100 | one swap with a strictly less urgent parent moves the only fault one level up |
| Queue.SettledUp | lib/data-structures/PriorityQueue.ts:94-95 | when the climb stops, at the root or below a parent that is no worse, the array is a heap |
| Queue.SwapDown | lib/data-structures/PriorityQueue.ts:114-131 | swapping with the most urgent child, when that child is strictly more urgent, moves the only fault one level down |
| Queue.SettledDown | lib/data-structures/PriorityQueue.ts:114-128 | when no child is strictly more urgent, the array is a heap |
| Queue.LastToRoot | lib/data-structures/PriorityQueue.ts:29-33 | moving the last entry to the root breaks heap order only below the root |
| Queue.LowerExceptUp | lib/data-structures/PriorityQueue.ts:53-56 | lowering one entry's priority breaks heap order only above it |
| Queue.RaiseExceptDown | lib/data-structures/PriorityQueue.ts:53-58 | raising one entry's priority, or keeping it, breaks heap order only below it |
| Indexing.IndexName | lib/data-structures/CitizenRegistry.ts:25-36 | the nested substring loops add the id under exactly the substrings longer than two characters of the lower-cased name |
| Indexing.UnindexName | lib/data-structures/CitizenRegistry.ts:93-105 | the nested substring loops remove the id from exactly those substrings, and drop each key whose set becomes empty |
| Indexing.Rename | lib/data-structures/CitizenRegistry.ts:53-80 | a name index is re-keyed only for a truthy name that differs from the stored one |
| Indexing.RenameKeepsIndexed | lib/data-structures/CitizenRegistry.ts:53-82 | re-keying followed by the shallow merge keeps the name index consistent with the stored names, unless the new name is empty |
| Indexing.Refile | lib/data-structures/CriminalDatabase.ts:95-107 | a categorical index moves the id from the old key to the new key only when a new key is present and differs; the old key is dropped once its set is empty |
| Indexing.RetagKeepsIndexed | lib/data-structures/CriminalDatabase.ts:95-122 | that move keeps a categorical index consistent with the merged records, and the old key is present beforehand |
| Indexing.NameSearch | lib/data-structures/CitizenRegistry.ts:117-128 | in a consistent index, an id sits under a key containing the lower-cased query exactly when its lower-cased name has at least three characters and contains the query |
| Indexing.MatchingIds | lib/data-structures/CitizenRegistry.ts:118-125 | the union of the id sets under every key containing the lower-cased query |
| Indexing.Lookup | lib/data-structures/CriminalDatabase.ts:190 | one stored record per id, in the order of the ids, each the record stored under that id |
| Indexing.Enumerate | lib/data-structures/CitizenRegistry.ts:127 | every identifier of the set exactly once |
| Indexing.IndexedAdd | lib/data-structures/CriminalDatabase.ts:22-50 | filing a new record under its keys keeps an index consistent |
| Indexing.IndexedRemove | lib/data-structures/CriminalDatabase.ts:138-165 | unfiling a record from all its keys, and dropping emptied keys, keeps an index consistent with the other records |
| Text.NameKeysMatch | lib/data-structures/CitizenRegistry.ts:117-128 | some index key of a name contains the query exactly when the name has at least three characters and contains the query |
| Text.TrimSpec | app/citizens/page.tsx:158-160 | `trim` removes exactly the leading and trailing whitespace, and yields the empty string exactly for whitespace-only input |
| Records.MergeCitizenLaws | lib/data-structures/CitizenRegistry.ts:82 | the shallow merge with an empty patch changes nothing, and applying the same patch twice is the same as applying it once |
| Records.MergeCriminalLaws | lib/data-structures/CriminalDatabase.ts:125 | the same two laws for criminals |
| Records.MergeCitizen | lib/data-structures/CitizenRegistry.ts:82 | the shallow merge keeps the stored id exactly when the patch carries no other id |
| Records.MergeCriminal | lib/data-structures/CriminalDatabase.ts:125 | the same for criminals |
| Citizens.CitizenRegistry.constructor | lib/data-structures/CitizenRegistry.ts:14-16 | three empty maps, which are consistent |
| Citizens.CitizenRegistry.Add | lib/data-structures/CitizenRegistry.ts:19-39 | false, with nothing changed, exactly when the email is already indexed. Otherwise: the record is stored, the email points at the id, the id is under every name substring longer than two characters, and the indexes stay consistent |
| Citizens.CitizenRegistry.Update | lib/data-structures/CitizenRegistry.ts:42-84 | false, with nothing changed, for an unknown id or a changed email that is already indexed. Otherwise: the old email key is replaced by the new one, the name keys move for a changed truthy name, the stored record is the shallow merge, and the indexes stay consistent |
| Citizens.CitizenRegistry.Remove | lib/data-structures/CitizenRegistry.ts:87-109 | false, with nothing changed, for an unknown id. Otherwise: the email entry, every name-substring entry (dropping emptied sets) and the record are gone, the size drops by one, and the indexes stay consistent |
| Citizens.CitizenRegistry.GetById | lib/data-structures/CitizenRegistry.ts:112-114 | the record stored under the id, which carries that id, or nothing for an unknown id |
| Citizens.CitizenRegistry.FindByName | lib/data-structures/CitizenRegistry.ts:117-128 | exactly the stored citizens whose lower-cased name has at least three characters and contains the lower-cased query, each once |
| Citizens.CitizenRegistry.GetAll | lib/data-structures/CitizenRegistry.ts:131-133 | every stored citizen exactly once |
| Citizens.CitizenRegistry.Size | lib/data-structures/CitizenRegistry.ts:136-138 | the number of stored citizens |
| Citizens.EmailsUnique | lib/data-structures/CitizenRegistry.ts:20 | under consistent indexes, no two stored citizens share an email |
| Citizens.AddKeepsConsistent | lib/data-structures/CitizenRegistry.ts:19-39 | adding a citizen with a fresh id and an unused email keeps all indexes consistent |
| Citizens.UpdateKeepsConsistent | lib/data-structures/CitizenRegistry.ts:42-84 | an update that passes the email check keeps all indexes consistent, if the patch keeps the id and carries no empty email or name |
| Citizens.RemoveKeepsConsistent | lib/data-structures/CitizenRegistry.ts:87-109 | removing a stored citizen with its index entries keeps all indexes consistent |
| Citizens.ReusedIdLeavesStaleEmail | lib/data-structures/CitizenRegistry.ts:20-23 | adding a record under an id that is already stored, with a new email, leaves the email index inconsistent |
| Citizens.EmptyNameLeavesStaleKeys | lib/data-structures/CitizenRegistry.ts:53-82 | an update with an empty name leaves the name index inconsistent, because re-indexing is skipped while the merge stores the empty name |
| Criminals.CriminalDatabase.constructor | lib/data-structures/CriminalDatabase.ts:8-11 | four empty maps, which are consistent |
| Criminals.CriminalDatabase.Add | lib/data-structures/CriminalDatabase.ts:16-51 | false, with nothing changed, exactly when the id is already stored. Otherwise: the record is stored and its id is under every name substring longer than two characters, under its threat level and under its status; the indexes stay consistent |
| Criminals.CriminalDatabase.Update | lib/data-structures/CriminalDatabase.ts:56-127 | false, with nothing changed, for an unknown id. Otherwise: the stored threat level and status are keys of their indexes; the name, threat level and status keys each move when they change; the stored record is the shallow merge; the indexes stay consistent |
| Criminals.CriminalDatabase.Remove | lib/data-structures/CriminalDatabase.ts:132-168 | false, with nothing changed, for an unknown id. Otherwise: the id leaves the name, threat-level and status indexes (emptied keys dropped), the record is deleted, and the indexes stay consistent |
| Criminals.CriminalDatabase.GetById | lib/data-structures/CriminalDatabase.ts:173-175 | the record stored under the id, which carries that id, or nothing |
| Criminals.CriminalDatabase.FindByName | lib/data-structures/CriminalDatabase.ts:180-191 | exactly the stored criminals whose lower-cased name has at least three characters and contains the lower-cased query, each once |
| Criminals.CriminalDatabase.FindByThreatLevel | lib/data-structures/CriminalDatabase.ts:196-202 | exactly the stored criminals at that threat level, each once; empty when the key is absent |
| Criminals.CriminalDatabase.FindByStatus | lib/data-structures/CriminalDatabase.ts:207-213 | exactly the stored criminals with that status, each once; empty when the key is absent |
| Criminals.CriminalDatabase.GetAll | lib/data-structures/CriminalDatabase.ts:218-220 | every stored criminal exactly once |
| Criminals.CriminalDatabase.Size | lib/data-structures/CriminalDatabase.ts:225-227 | the number of stored criminals |
| Criminals.AddKeepsConsistent | lib/data-structures/CriminalDatabase.ts:16-51 | adding a criminal with a fresh id keeps all three indexes consistent |
| Criminals.UpdateKeepsConsistent | lib/data-structures/CriminalDatabase.ts:56-127 | the stored threat level and status are index keys (the non-null lookups at lines 97 and 112). The update keeps all indexes consistent, if the patch keeps the id and carries no empty name |
| Criminals.RemoveKeepsConsistent | lib/data-structures/CriminalDatabase.ts:132-168 | the stored threat level and status are index keys (the non-null lookups at lines 154 and 160). Removal keeps all indexes consistent |
| CitizenForm.ValidateAge | app/citizens/page.tsx:143-145 | an accepted age is never 0, so the falsy test before it in `validateCitizen` adds nothing for a present age; `CitizenForm.ValidateCitizen` states the accepted range 1 to 150 |
| CitizenForm.ValidateEmail | app/citizens/page.tsx:133-136 | an accepted email holds no whitespace and exactly one '@', which is neither the first character nor among the last three; `CitizenForm.ValidateEmailMatchesPattern` gives the full characterization |
| CitizenForm.ValidatePhone | app/citizens/page.tsx:138-141 | an accepted number has at least eight characters; `CitizenForm.ValidatePhoneShapes` gives the full characterization |
| CitizenForm.ValidateEmailMatchesPattern | app/citizens/page.tsx:133-136 | the email check accepts exactly the strings `u@v.w` with `u`, `v` and `w` non-empty and free of '@' and whitespace |
| CitizenForm.IndexOf | app/citizens/page.tsx:134 | the first position of the character, or none when it does not occur |
| CitizenForm.ValidatePhoneShapes | app/citizens/page.tsx:138-141 | after whitespace is dropped, the phone check accepts exactly `ddd-dddd`, `(ddd)ddd-dddd` or ten digits |
| CitizenForm.ValidatePhoneIgnoresSpace | app/citizens/page.tsx:140 | whitespace anywhere in the number never changes the verdict |
| CitizenForm.ShortNumberAccepted | app/citizens/page.tsx:139 | every `ddd-dddd` number is accepted |
| CitizenForm.BracketedNumberAccepted | app/citizens/page.tsx:139 | every `(ddd)ddd-dddd` number is accepted, with or without a space after the bracket |
| CitizenForm.SevenDigitsRejected | app/citizens/page.tsx:139 | seven bare digits are rejected, because the short form needs its dash |
| CitizenForm.StripSpaces | app/citizens/page.tsx:140 | the result keeps no whitespace and is no longer than the input. The two lemmas below add that every other character is kept, in order |
| CitizenForm.StripSpacesAppend | app/citizens/page.tsx:140 | stripping works piece by piece: stripping a concatenation gives the concatenation of the stripped pieces |
| CitizenForm.StripSpacesNone | app/citizens/page.tsx:140 | input without whitespace comes back unchanged |
| CitizenForm.FindByEmail | app/citizens/page.tsx:201-203 | the first listed citizen whose email equals the draft's up to case; nothing exactly when no listed citizen has it |
| CitizenForm.ValidateCitizen | app/citizens/page.tsx:154-210 | the message recorded for each field, including age 0 and a missing age both counting as out of range. The duplicate email overrides any earlier email message. The draft is valid exactly when no message was recorded, and exactly when it is acceptable: a trimmed name of at least 2 characters, an age from 1 to 150, a nationality, an accepted date of birth, a trimmed address of at least 5 characters, an email of the form `u@v.w` that no listed citizen has up to case, and a phone of one of the three shapes |
| CitizenForm.AcceptableDraftChecks | app/citizens/page.tsx:157-206 | the per-field checks all pass and no listed citizen has the email, exactly when the draft is acceptable in the sense above |
| CitizenForm.EmailAccepted | app/citizens/page.tsx:186-190 | no email message is recorded exactly when the email is present and of the form `u@v.w` |
| CitizenForm.PhoneAccepted | app/citizens/page.tsx:193-197 | no phone message is recorded exactly when the phone is present and of one of the three shapes |

## Left out

- The comparator parameter of the `PriorityQueue` constructor is left out. It is fixed to `(a, b) => a - b`, the one every caller passes, so priorities are compared with integer `<`.
- JavaScript numbers are modelled as unbounded integers. Fractional priorities and ages, `NaN` and floating-point rounding are not modelled.
- `toLowerCase` folds ASCII letters only. Unicode case mapping is not modelled.
- String lengths and substrings count characters, not UTF-16 code units.
- `validateDateOfBirth` reads the wall clock and parses dates. It becomes the parameter `dateOfBirthOk` of `CitizenForm.ValidateCitizen`, so the date rule itself is not modelled.
- `CitizenForm.ValidateCitizen` returns its errors as a record with one optional message per field, not as a string-keyed dictionary. Publishing them with `setErrors` is React state and is left out. The `citizens` list it checks against is a parameter.
- `Map`/`Set` iteration order is not modelled. `findByName`, `findByThreatLevel`, `findByStatus` and `getAll` are stated as sets of records with no repeats, in an order the model leaves open.
- The inner `Set` objects of the indexes are modelled as set values inside the index maps, so aliasing between them is not modelled.
- Citizens.CitizenRegistry.Add: requires that, when the email is new, the id is not already stored. The source does not check the id, and re-adding a stored id would leave the old email and name entries behind (`Citizens.ReusedIdLeavesStaleEmail`).
- Citizens.CitizenRegistry.Update: requires that the patch carries no other id and no empty email or name. An empty email or name skips re-indexing while the merge still stores it (`Citizens.EmptyNameLeavesStaleKeys`), and a different id would change the stored id.
- Criminals.CriminalDatabase.Update: requires that the patch carries no other id and no empty name, for the same reasons.
- Indexing.Refile: requires that the old key is present in the index. The source's non-null assertion relies on this, and the store's invariant guarantees it.
- Both stores hand out, and keep, the very record objects callers pass in and get back (lib/data-structures/CitizenRegistry.ts:22, 113, 132; lib/data-structures/CriminalDatabase.ts:22, 174, 219). A caller that mutates such an object changes the stored record without re-indexing it. Records here are values, so this sharing is not modelled.
- In the shallow merge, a patch field that is present but holds `undefined` overwrites the stored field. The model's absent field (`None`) keeps the stored value, so a field explicitly set to `undefined` is not modelled.
- Rendering, dialogs, charts, PDF/HTML reports, login, the simulated live feed and notification toggles are outside this model.
