# ProfileApp user collection — a Dafny model

ProfileApp is a single-page user directory. It fetches one page of users,
shows each user as a card, and lets the visitor add, edit and delete users
in memory. This project models the one piece of logic that is neither
rendering nor I/O:

- **the user collection** (`src/App.jsx`): an ordered list of user records
  with three operations. Update replaces every record with a matching id.
  Delete filters out the records with a given id. Add appends the add form's
  draft under the id "last record's id + 1", or 1 when the list is empty.
- **the drafts** that the add form (`src/App.jsx`) and each card's edit form
  (`src/components/UserCard.jsx`) stage before committing. There is a
  top-level field edit and a nested `(field, subField)` edit. Save, Cancel,
  Delete and the "liked" toggle act on the card, and the card's avatar seed
  is `id || name`.

Files:

- `users.dfy` (module `Users`): the record types. A `User` is an id plus a
  `Profile`, and a `Profile` has the shape of the add form's draft, so
  `{ ...newUser, id }` is `User(id, newUser)`. This file also holds the
  field-level edits and the blank draft.
- `collection.dfy` (module `Collection`): `Update`, `Delete` and `Add` on
  `seq<User>`, plus the strictly-increasing-id invariant.
- `card.dfy` (module `Card`): the state of one card, its handlers, and the
  effects it reports (`onUpdate`, `onDelete`).
- `app.dfy` (module `App`): the app state and its step function, with the
  invariant carried over any run of events.

The central result concerns ids. `Add` derives the new id from the **last**
record, not from the largest id. Suppose the ids strictly increase along the
list, as they do on the fetched page. Then update, delete and add all keep
them strictly increasing. Under that invariant ids are unique, and "last + 1"
equals "largest + 1" and is never in use (`App.ReachableIdsUniqueAndNextFresh`).
An update keeps the id sequence unchanged even when its id is absent, so the
invariant does not depend on an update targeting a present id. Without the
invariant, "last + 1" can repeat an id already in use
(`Collection.NextIdCanCollide`).

Three behaviours of the code are worth stating plainly:

- Add uses "last id + 1", not "largest id + 1". The two agree in every
  reachable state (`App.ReachableIdsUniqueAndNextFresh`).
- Cancel on the card (`src/components/UserCard.jsx:168`) and on the add modal
  (`src/App.jsx:169`) only hides the modal. Unsaved edits stay in the draft
  and are there the next time the modal opens (`Card.CancelKeepsEdits` for
  the card; `App.Step`'s `CloseAdd` clause for the add modal).
- The avatar seed is `id || name` printed into the URL. Records with
  different non-zero ids get different avatars, and every reachable state's
  ids are unique and positive (`App.ReachableAvatarsDistinct`), but a record with the falsy
  id 0 falls back to its name. That name can spell another record's id, so
  the two records share an avatar (`Card.ZeroIdSeedCanCollide`).

## Model

| member | source | states |
|---|---|---|
| Users.Blank | src/App.jsx:11-17 | the add form's draft starts with every text field and every nested field empty, and both nested objects present |
| Users.Extensionality | src/App.jsx:11-17 | a draft is fully determined by its three top-level and three nested fields, so the field-wise contracts of the edits fix their results exactly |
| Users.SetField | src/App.jsx:63-66 | `handleInputChange` sets the named top-level field to the typed value and leaves every other top-level field and every nested field as it was |
| Users.SetNested | src/App.jsx:68-77 | `handleNestedInputChange` sets the `(field, subField)` path to the value, keeps sibling sub-fields (street when city is edited) and keeps every top-level field |
| Users.SetFieldLastWins | src/App.jsx:63-66 | two inputs to the same field leave only the later value |
| Users.SetFieldCommutes | src/App.jsx:63-66 | inputs to different top-level fields can be applied in either order |
| Users.SetFieldUnchanged | src/App.jsx:63-66 | re-entering a field's current value leaves the draft unchanged |
| Users.SetNestedLastWins | src/App.jsx:68-77 | two inputs to the same nested path leave only the later value |
| Users.SetNestedCommutes | src/App.jsx:68-77 | inputs to different nested paths, including the two sub-fields of `address`, can be applied in either order |
| Users.SetFieldSetNestedCommute | src/App.jsx:63-77 | a top-level edit and a nested edit can be applied in either order |
| Collection.Update | src/App.jsx:37-42 | update keeps length and order; position i becomes the updated record exactly when its id matches, and every other record is unchanged |
| Collection.UpdateAbsentIsIdentity | src/App.jsx:38-40 | an update whose id is absent returns the list unchanged |
| Collection.UpdateReplacesOne | src/App.jsx:38-40 | with unique ids, updating a present id is replacing that single position |
| Collection.UpdateKeepsIds | src/App.jsx:37-42 | the sequence of ids is the same before and after any update |
| Collection.UpdatePreservesIncreasing | src/App.jsx:37-42 | strictly increasing ids stay strictly increasing after an update |
| Collection.Delete | src/App.jsx:44-47 | a record is kept exactly when it was in the list and its id differs from the target; the length drops by the number of records with the target id |
| Collection.DeleteConcat | src/App.jsx:45 | deleting from a concatenation deletes from each part in place, so surviving records keep their relative order |
| Collection.DeleteSingle | src/App.jsx:45 | a single record is kept exactly when its id differs from the target |
| Collection.DeleteAbsentIsIdentity | src/App.jsx:44-47 | deleting an absent id returns the list unchanged |
| Collection.UniqueCountAtMostOne | src/App.jsx:44-47 | with unique ids, at most one record carries any given id |
| Collection.DeleteUniqueLength | src/App.jsx:44-47 | with unique ids, delete shortens the list by exactly one when the id is present and by zero when it is absent |
| Collection.DeletePreservesIncreasing | src/App.jsx:44-47 | strictly increasing ids stay strictly increasing after a delete |
| Collection.NextId | src/App.jsx:50 | the new id is 1 for an empty list, and otherwise exactly one more than the last record's id |
| Collection.Add | src/App.jsx:50-52 | add appends exactly one record, which carries the draft; all earlier records are unchanged; its id is the last id + 1, or 1 for an empty list |
| Collection.IncreasingImpliesUnique | src/App.jsx:50 | strictly increasing ids are unique |
| Collection.NextIdIsMaxPlusOne | src/App.jsx:50 | under strictly increasing ids, "last id + 1" equals "largest id + 1" and is not yet in use |
| Collection.AddPreservesIncreasing | src/App.jsx:50-52 | strictly increasing ids stay strictly increasing after an add |
| Collection.UpdateKeepsPositive | src/App.jsx:37-42 | an update keeps every id positive, so it never introduces the falsy id 0 |
| Collection.DeleteKeepsPositive | src/App.jsx:44-47 | a delete keeps every id positive |
| Collection.AddKeepsPositive | src/App.jsx:50-52 | an add over positive ids assigns a positive id (last id + 1, or 1) |
| Collection.NextIdCanCollide | src/App.jsx:50 | without the invariant, "last id + 1" can repeat an id in use: adding to ids `[2, 1]` assigns 2 again |
| Collection.AddAllFromEmpty | src/App.jsx:49-52 | starting from an empty list, n adds assign the ids 1, 2, ..., n in order |
| Card.Digits | src/components/UserCard.jsx:12 | a non-negative id prints as one or more decimal digits, one digit exactly when it is below ten |
| Card.DigitsInjective | src/components/UserCard.jsx:12 | different non-negative ids print as different digit strings |
| Card.IdTextInjective | src/components/UserCard.jsx:12 | different ids, negative ones included, print as different text |
| Card.AvatarSeed | src/components/UserCard.jsx:12 | the seed is the id's printed text when the id is truthy (non-zero), and the name when it is 0 |
| Card.AvatarUrl | src/components/UserCard.jsx:12 | the avatar URL is the fixed service prefix followed by exactly the seed |
| Card.DistinctIdsDistinctAvatars | src/components/UserCard.jsx:12 | records with different non-zero ids get different seeds and so different avatar URLs |
| Card.ZeroIdSeedCanCollide | src/components/UserCard.jsx:12 | a record with id 0 named "7" and a record with id 7 get the same avatar URL |
| Card.Toggle | src/components/UserCard.jsx:58 | pressing like negates the liked flag |
| Card.ToggleTwice | src/components/UserCard.jsx:58 | two presses of like restore the flag |
| Card.Mount | src/components/UserCard.jsx:7-9 | a new card's draft equals its user, `liked` starts false and the modal is hidden |
| Card.HandleInputChange | src/components/UserCard.jsx:14-17 | the card's input changes only the named top-level field of the draft; the id, the other fields, the prop, `liked` and `show` are kept |
| Card.HandleNestedInputChange | src/components/UserCard.jsx:25-34 | the card's nested input changes only that nested path of the draft; sibling sub-fields, top-level fields and the id are kept |
| Card.HandleSave | src/components/UserCard.jsx:19-22 | save passes the current draft to `onUpdate` and hides the modal |
| Card.Step | src/components/UserCard.jsx:56-80 | no card event changes the prop or the draft's id; only Save reports an update (of the draft), and Save hides the modal while keeping the draft and `liked`; only Delete reports a deletion, of exactly the card user's id; Cancel only hides the modal; Edit only shows it; like flips `liked` and nothing else; an input performs exactly the matching draft edit and reports nothing |
| Card.Run | src/components/UserCard.jsx:95-164 | no sequence of form inputs or button presses changes the draft's id or the card's prop |
| Card.MountedCardTargetsItsUser | src/components/UserCard.jsx:19-22 | whatever was typed, a card mounted for user u saves a record with u's id and deletes exactly u's id |
| Card.LikeTwiceRestores | src/components/UserCard.jsx:58 | two presses of like restore the whole card state |
| Card.CancelKeepsEdits | src/components/UserCard.jsx:168 | an edit followed by Cancel is still in the draft when the modal is reopened, and no update is reported |
| App.Init | src/App.jsx:8-17 | the app starts with no users, loading, the add modal hidden and a blank draft |
| App.Step | src/App.jsx:27-172 | a settled fetch changes only the users and clears loading, so an open add modal and its draft survive it (a failed fetch keeps the users); add-form inputs touch only the draft; opening and closing the add modal change only its visibility, so the draft is kept; adding appends under the next id, resets the draft to the initial blank one and closes the modal; card effects touch only the collection |
| App.StepPreservesIncreasing | src/App.jsx:37-61 | every event keeps the ids strictly increasing, given that a fetched page has increasing ids |
| App.RunPreservesIncreasing | src/App.jsx:37-61 | any run of such events keeps the ids strictly increasing |
| App.ReachableIdsUniqueAndNextFresh | src/App.jsx:50 | in every reachable state ids are unique, and the next id equals the largest id + 1 and is not in use |
| App.CardAvatarsDistinct | src/components/UserCard.jsx:12 | with unique non-zero ids, all cards of the collection have different avatar URLs |
| App.StepKeepsPositive | src/App.jsx:27-61 | every event keeps every id positive, given that a fetched page has positive ids |
| App.RunKeepsPositive | src/App.jsx:27-61 | any run of such events keeps every id positive |
| App.ReachableAvatarsDistinct | src/components/UserCard.jsx:12 | in every reachable state, starting from the initial one and given fetched pages with strictly increasing positive ids, all cards have different avatar URLs |
| App.FetchFailureLeavesEmpty | src/App.jsx:28-31 | when the fetch fails, the collection stays empty and loading becomes false |
| App.AddAfterOne | src/App.jsx:50-52 | adding to `[1]` appends a record with id 2 after the existing one |
| App.DeleteThenAdd | src/App.jsx:44-52 | from `[1, 2, 3]`, deleting 2 gives `[1, 3]`, and the next add assigns 4 |

## Left out

- The HTTP fetch (`src/App.jsx:19-35`) is network I/O. It enters the model only as its settled result, `Fetched(page)` or `FetchFailed`. The model assumes the page's ids strictly increase (`App.Admissible`) and, for the avatar result, are positive (`App.PositivePage`). Both hold for the demo API's page of ids 1 to 10.
- The `imageUrl` decoration of fetched users (`src/App.jsx:23-26`) is a string template over the `username`. The card never displays it, so it is left out.
- Fields that the API supplies but no form edits are not modelled: `username`, `website`, `address.suite`, `address.zipcode`, `address.geo`, and the rest of `company`. The object spreads copy them through unchanged, just as the modelled edits copy the untouched fields.
- The JavaScript handlers accept any key from `e.target.name` and any `(field, subField)` pair. The model accepts only the names the forms actually send (`TextField`, `NestedPath`). Arbitrary keys, such as one that overwrites `id` or turns `address` into a string, are outside the model.
- Card.DistinctIdsDistinctAvatars: requires both ids to be non-zero, because an id of 0 falls back to the name and can collide (`Card.ZeroIdSeedCanCollide`). App.CardAvatarsDistinct carries the same requirement. Reachable states meet both requirements whenever the fetched page's ids are positive (`App.PositivePage`), as the demo API's are, and `App.ReachableAvatarsDistinct` states the result for them.
- Ids are unbounded integers. JavaScript numbers lose precision above 2^53, and that limit is not modelled.
- Rendering, Bootstrap modals and spinners, icons, `src/components/Avatar.jsx` (a wrapper over a third-party avatar library) and `src/main.jsx` (DOM mounting) are not part of this model.
- React scheduling and reconciliation are not modelled. Each handler is a synchronous function from the old state to the new one. Cards are not re-keyed or re-mounted as the list changes. The model fixes a card's `user` prop at mount. In the app, the prop is refreshed after a save, but the draft is never re-initialised from it, so the draft's id is unaffected.
