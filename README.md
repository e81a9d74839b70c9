# Boats and loads API: a verified model of its store logic

This project models the data logic of a small REST API (one Flask file,
`main.py`) that manages boats, the cargo loads they carry, and the users who
own boats. The entity store is modelled as an in-memory `Store` object: two
maps from integer id to record (boats, loads), a map of user records and the
list of issued OAuth state tokens. Each handler body becomes a method on it.
Request parsing, token verification and the identity provider's token
endpoint are not modelled; their results arrive as parameters.

Boats and loads point at each other twice. A boat keeps a `loads` list of
`{id, self}` entries, and a load keeps an optional `carrier` entry. The
predicate `Consistency.Consistent` says these two views agree:

- a load's carrier names boat `b` exactly when the load's id is in `b`'s list;
- no list holds the same load twice, or a load that is not stored;
- no carrier names a boat that is not stored;
- every `self` link is built from the id it sits beside.

Assign, unassign, boat delete, create, PUT and PATCH are proved to keep it.
The load-delete sweep does not keep it (see Findings).

Modules:

- `Text`: `str()` and `int()` on ids and numbers.
- `Entities`: the records, JSON values, statuses and self links.
- `Payloads`: the body validators and what a PATCH writes.
- `Consistency`: the invariant, the pure effect of each relationship
  operation, and the preservation lemmas.
- `Users`: subject uniqueness.
- `Views`: `format_boat`, `format_load` and the listing's next link.
- `Datastore`: the `Store` class.

Behaviour of the code worth knowing:

- Assign refuses a load that already has a carrier with 403.
- The "already on some boat" scan before the carrier check (main.py:960-967)
  compares the int entry id with the id's text. Python never finds those
  equal, so the scan never fires. The model states the scan as written
  (`Consistency.ScanAsWritten`) and proves that it never fires. The `Assign`
  method leaves it out. Under `Consistent`, the scan as intended would refuse
  exactly the loads the carrier check refuses (`Consistency.ListedIffCarried`).
- Deleting a load only inspects each boat's first entry (main.py:901).
- A refused `length` in a boat PATCH, or a refused `price` in a load PATCH,
  comes after the earlier attributes were already written. Those writes stay.
- A boat PATCH by a non-owner with an empty body returns 200 and changes
  nothing.

## Model

| member | source | states |
|---|---|---|
| Text.Decimal | main.py:1077 | `str(n)` of an id is a non-empty run of digits with no leading zero |
| Text.ParseNat | main.py:887 | on ASCII digit text, `int()` of an id's text succeeds exactly on a non-empty run of digits |
| Text.ParseInt | main.py:203-204 | on ASCII digit text, `int()` of a limit or offset succeeds exactly on a non-empty digit run with at most a leading minus sign, and a negative result had the sign |
| Text.ParseNatCanonical | main.py:1030 | a digit run without a leading zero is the `str()` of its own `int()`, so canonical id text compares equal after the trip |
| Text.ParseDecimal | main.py:975-979 | `int(str(n)) == n`, so an id survives the trip through its URL text |
| Text.DecimalInjective | main.py:1030 | comparing two ids by their `str()` text is the same as comparing the ids |
| Text.IntText | main.py:211-213 | `str(i)` of a limit or offset is non-empty, starts with a minus sign exactly when `i` is negative, and is otherwise all digits |
| Text.IntTextRoundTrip | main.py:203-213 | `int(str(i)) == i` for any int, negative limits and offsets included |
| Entities.BoatLink | main.py:995-998 | a boat link is `LINK + "boats/"` followed by a non-empty run of digits |
| Entities.LoadLink | main.py:976-979 | a load link is `LINK + "loads/"` followed by a non-empty run of digits |
| Entities.BoatLinkNamesId | main.py:995-998 | the text after `LINK + "boats/"` in a boat link reads back as the boat's id |
| Entities.LoadLinkNamesId | main.py:976-979 | the text after `LINK + "loads/"` in a load link reads back as the load's id |
| Entities.LinksInjective | main.py:976-998 | distinct boats get distinct links, and distinct loads get distinct links |
| Payloads.ExactlyThreeKeys | main.py:243 | the body is refused by "len != 3 or one of the three names missing" exactly when its key set is not those three names |
| Payloads.LengthError | main.py:248-256 | a length passes both checks exactly when it is an int (not a bool or float) and not negative; a non-int gets "must be an integer" and a negative int "must be a positive integer" |
| Payloads.BoatPayloadError | main.py:243-256 | a boat body passes exactly when its keys are exactly name, type and length and its length is a non-negative int; otherwise it names the first failed check in source order |
| Payloads.PriceError | main.py:687-695 | a price passes exactly when it is a non-negative int or float or a bool; a string is refused by name; a negative int or float is refused as negative; null or an array or object raises (500) |
| Payloads.LoadPayloadError | main.py:682-695 | a load body passes exactly when its keys are exactly content, volume and price and its price passes; a key mismatch is reported first; with the right keys the outcome is exactly the price check's |
| Payloads.PatchBoatEffect | main.py:443-487 | a boat PATCH never changes owner or loads; a non-owner changes nothing; 403 and 400 come exactly under the source's conditions, and a 400 carries the reason the length check gives (main.py:466-474); on 200 each present attribute holds its new value; a refused length keeps an owner's earlier name and type writes |
| Payloads.PatchLoadEffect | main.py:786-840 | a load PATCH never changes the carrier and never creates a load; 200 exactly when the load exists and any price passes; a missing load gives 404, the price error, or 500 (empty body) in the source's order; on a stored load a refused price gives the price error and keeps the content and volume already written |
| Consistency.Consistent | main.py:947-1050 | under the invariant every listed load is stored, and a load's carrier is a stored boat whose list names the load |
| Consistency.RemoveFirst | main.py:1029-1031 | `list.remove` leaves the list alone when no entry has the id, otherwise drops exactly one entry, and never adds one |
| Consistency.AppendEntry | main.py:981-991 | the boat's list gains the new entry at its end, its earlier entries stay as they were, and nothing else changes, on that boat or any other |
| Consistency.RemoveEntry | main.py:1028-1040 | when the load is listed the boat's list loses exactly the load's first entry, and otherwise nothing changes; no entry is added and no other boat or attribute changes |
| Consistency.SetCarrier | main.py:1000-1007 | the load's carrier becomes the given entry (or None), and no other load or attribute changes |
| Consistency.ClearCarriers | main.py:599-612 | afterwards no load is carried by the deleted boat; loads it carried lose only their carrier; every other load is unchanged |
| Consistency.DropLeading | main.py:898-912 | the sweep as written changes only loads lists: a boat whose first entry is the load loses that entry, other boats are unchanged, and every entry past the first position stays |
| Consistency.ScanAsWritten | main.py:960-967 | the scan as written can only match on a boat with a non-empty list; it compares an int with a str |
| Consistency.RemoveFirstAt | main.py:1029-1031 | removing the first entry with an id leaves the list with that one index cut out |
| Consistency.RemoveFirstOfAppended | main.py:982 | removing the first entry for an id that was just appended, and is not otherwise listed, gives back the original list |
| Consistency.RemoveFirstKeeps | main.py:1031 | on a list without duplicates, the removal drops the id, keeps every other id, and adds no entry |
| Consistency.ListedOnAtMostOneBoat | main.py:959-973 | under the invariant, a load id is on at most one boat's list |
| Consistency.ScanAsWrittenNeverFires | main.py:960-967 | the int-against-str scan never finds a match, so it never refuses an assignment |
| Consistency.ListedIffCarried | main.py:969-973 | under the invariant, "listed on some boat" holds exactly when the load has a carrier, so the carrier check alone refuses every listed load |
| Consistency.AssignPreservesConsistent | main.py:975-1008 | appending the load's entry to the boat and setting the load's carrier to the boat keeps the invariant when the load had no carrier |
| Consistency.UnassignPreservesConsistent | main.py:1028-1050 | removing the load's first entry from the boat and clearing its carrier keeps the invariant |
| Consistency.AssignThenUnassign | main.py:975-1050 | assign followed by unassign of the same pair restores both maps exactly |
| Consistency.BoatDeletePreservesConsistent | main.py:594-613 | clearing every carrier that names the boat and then removing the boat keeps the invariant |
| Consistency.LoadDeleteConsistentIff | main.py:895-912 | the sweep as written keeps the invariant exactly when every boat listing the load lists it first |
| Consistency.DropLeadingKeepsConsistent | main.py:898-912 | when every boat that lists the load lists it first, the sweep as written keeps the invariant |
| Consistency.LoadDeleteLeavesDanglingEntry | main.py:898-912 | a consistent store (boat 1 lists loads 2 and 3) where deleting load 3 leaves its entry behind and breaks the invariant |
| Consistency.RemoveAll | main.py:895-912 | the list without any entry for the id: every remaining entry was there and has another id, and every entry with another id remains |
| Consistency.DropEverywhere | main.py:895-912 | the intended sweep changes only loads lists; no list keeps an entry for the load, and every other entry stays |
| Consistency.DropEverywherePreservesConsistent | main.py:895-912 | the intended sweep, which drops every entry for the load, keeps the invariant on every consistent store |
| Consistency.AddBoatPreservesConsistent | main.py:276-286 | a new boat stored under an unused id with an empty list keeps the invariant |
| Consistency.AddLoadPreservesConsistent | main.py:698-707 | a new load stored under an unused id with no carrier keeps the invariant |
| Consistency.ListsUnchangedPreservesConsistent | main.py:543-551 | rewriting boats' name, type or length, with every list untouched, keeps the invariant |
| Consistency.CarriersUnchangedPreservesConsistent | main.py:862-872 | rewriting loads' content, volume or price, with every carrier untouched, keeps the invariant |
| Users.InsertKeepsSubjectsUnique | main.py:98-112 | inserting a user whose subject is not stored, under a fresh key, keeps subjects unique and stores the subject |
| Views.FormatBoat | main.py:1061-1079 | a boat's view carries its id, name, type, length, owner and loads unchanged, and its self link reads back as its id |
| Views.FormatLoad | main.py:1082-1099 | a load's view carries its id, content, volume, price and carrier unchanged, and its self link reads back as its id |
| Views.NextLink | main.py:209-229 | the next link exists exactly when the store reports more results, and its offset parameter reads back as offset + limit |
| Datastore.NewKey | main.py:276 | the id given to a new entity is positive and not already in use |
| Datastore.Store.constructor | main.py:12 | the store starts empty, consistent and with unique subjects |
| Datastore.Store.IssueState | main.py:39-41 | sign-in appends its state token to the stored tokens and changes nothing else |
| Datastore.Store.RegisterUser | main.py:93-112 | a user record is added, under a fresh key, only when no stored user has the subject; afterwards the subject is stored; unique subjects stay unique |
| Datastore.Store.Callback | main.py:56-121 | sign-in succeeds exactly when the state matches an issued token and the token verifies; only then is the user registered, and a first sign-in adds exactly one record built from the claims under a fresh key, keeping every other user; tokens are never consumed |
| Datastore.Store.CreateBoat | main.py:239-297 | 415, then 400 with the first failed check, then 401, in that order; on 201 the new boat has the body's attributes, owner equal to the caller's subject, no loads and a fresh id; otherwise nothing changes; the invariant is kept |
| Datastore.Store.PatchBoat | main.py:407-496 | 415, 401 (no header), 404, 401 (bad token), then 400 for a key outside name/type/length before any write; after that it follows `PatchBoatEffect`; no boat's owner or loads ever change and the invariant is kept |
| Datastore.Store.WritePatch | main.py:443-484 | the attribute-by-attribute writes of a boat PATCH end in the status and boat of `PatchBoatEffect` |
| Datastore.Store.ReplaceBoat | main.py:499-566 | status in the source's check order; on 200 only name, type and length change, so owner and loads stay; on any other status nothing changes; the invariant is kept |
| Datastore.Store.DeleteBoat | main.py:568-625 | 404, 401 or 403 change nothing; the owner's delete clears the carrier of exactly the loads carried by the boat, leaves other loads alone, removes the boat, and keeps the invariant |
| Datastore.Store.CreateLoad | main.py:678-709 | a refused body changes nothing; otherwise a load with the body's attributes and no carrier is stored under a fresh id; the invariant is kept |
| Datastore.Store.PatchLoad | main.py:775-840 | 500 without a JSON content type; 400 for a key outside content/volume/price before any write; otherwise it follows `PatchLoadEffect`; carriers are never touched and the invariant is kept |
| Datastore.Store.ReplaceLoad | main.py:843-883 | 415, the payload error, then 404; on 200 only content, volume and price change, and the carrier is kept; the invariant is kept |
| Datastore.Store.DeleteLoad | main.py:885-918 | a missing load gives 404 and changes nothing; otherwise each boat whose first entry is the load loses that entry, later entries stay, and the load is removed |
| Datastore.Store.DeleteLoadEverywhere | main.py:895-912 | the corrected delete: every entry for the load leaves every list, the load is removed, and the invariant is kept |
| Datastore.Store.Assign | main.py:947-1014 | 404 when the boat or load is missing and 403 when the load has a carrier, then nothing changes; otherwise exactly one entry `{load_id, LINK+"loads/"+load_id}` goes to the end of that boat's list and the load's carrier becomes `{boat_id, LINK+"boats/"+boat_id}`; nothing else changes; the invariant is kept |
| Datastore.Store.Unassign | main.py:1016-1058 | 404 with nothing changed when the boat or load is missing or the load is not on the boat's list; otherwise the first matching entry is removed and the load's carrier cleared; the invariant is kept |

## Findings

| source | as written | input that shows it | evidently intended | confidence | as-written member | corrected member |
|---|---|---|---|---|---|---|
| main.py:898-912 | the load-delete sweep compares only `loads[0]` of each boat with the deleted id | boat 1 lists loads 2 then 3, both carried by boat 1; DELETE /loads/3 leaves `{id: 3}` on boat 1's list, naming a load that no longer exists | every entry for the deleted load leaves every boat's list | high; not executed | Consistency.LoadDeleteLeavesDanglingEntry | Consistency.DropEverywherePreservesConsistent |

`Datastore.Store.DeleteLoad` models the code as written, and
`Consistency.LoadDeleteConsistentIff` says exactly when it is harmless.
`Datastore.Store.DeleteLoadEverywhere` is the corrected operation.

## Left out

- HTTP plumbing: routing, the Accept check (406) and template rendering. The
  Content-Type check is a boolean input, `isJson`.
- Parsing the Authorization header and verifying the token
  (`id_token.verify_oauth2_token`). These arrive as `Auth`: no header, or the
  verified subject (None when verification fails). A header without a space,
  where `split()[1]` raises, is not modelled.
- The token-endpoint exchange (main.py:74-81) is a network call. It and the
  later verification arrive as one optional `Claims`. A KeyError for missing
  name claims is not modelled.
- Random state generation (main.py:23-36) is randomness; the token is a
  parameter of `IssueState`.
- The read-only handlers are not modelled: boat GET (main.py:361-404), load
  GET (main.py:761-772), the user listing with `format_user`
  (main.py:123-145, 1102-1116), and the owner filter, counts and page contents
  of the listings (main.py:175-236, 650-676). Pages and the "more results"
  flag come from the store's query iterator. Only the next-link arithmetic is
  modelled (`Views.NextLink`).
- Text.ParseNat, Text.ParseInt: accept only ASCII digits with at most a
  leading minus sign. Python's `int()` also accepts surrounding whitespace, a
  leading `+`, underscores between digits and non-ASCII decimal digits
  (`int(" 7") == int("+7") == 7`, `int("1_0") == 10`); the model gives None
  for these.
- Ids are natural numbers, and an id's URL text is its canonical decimal.
  Not modelled: non-numeric ids, where `int()` raises and the handler answers
  401 or 404, or 500 for a load PATCH without attributes (main.py:837 is
  outside any `try`); and non-canonical text such as "007", which `int()` accepts but
  the `str()` comparison in unassign would not match.
- `constants.py` is not part of this model. The base URL `LINK` is the
  store's `base` parameter.
- The store's own id allocation is not modelled. `Datastore.NewKey` picks one
  above the largest id in use; the real store may pick any unused id.
- The store is not transactional, so two concurrent requests can interleave
  the two puts of assign or unassign. Concurrency is out of scope; each
  method runs as one step.
- Float prices are real numbers; NaN and infinity are not modelled. The load
  POST handler does not check the content type, so a non-JSON body makes
  `get_json()` misbehave; bodies are always JSON objects here.
- Datastore.Store.DeleteLoad: promises nothing about the invariant, because
  the code as written does not keep it (see Findings).
