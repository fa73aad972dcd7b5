# Mergington High School activities: roster rules

A Dafny model of the roster-management core of the Mergington High School
activities API (`src/app.py`). The school's extracurricular activities live
in one document collection, one document per activity: its name, a
description, a schedule, a `max_participants` capacity and an ordered list of
participant emails. Three endpoints act on it: listing all activities,
signing a student up (`$push` of the email after a check that the activity
exists and the email is not yet enrolled) and removing a participant (`$pull`
of the email after a check that the activity exists and the email is
enrolled). A seeding routine wipes the collection and inserts the fixed
catalog of nine activities.

The model has three modules:

- `Roster` (`roster.dfy`): email lists, the roster invariant `NoDuplicates`
  and `Pull`, the store's `$pull` (delete every occurrence).
- `Store` (`store.dfy`): the document collection as an in-memory class
  `Collection`. Its `docs` field is the sequence of documents in natural
  order, so a query on `name` matches the first document with that name
  (`FirstIndex`), as `find_one` and `update_one` do. `nextId` stands in for
  the store's object-id generator; the class invariant `Valid` keeps every
  stored `_id` unique and below `nextId`, as the store's unique `_id` index
  does. Methods model `find_one`, `delete_many`,
  `insert_one` and `update_one` with `$push` / `$pull`.
- `App` (`app.dfy`): the endpoints as methods that take the collection as a
  parameter (`GetActivities`, `SignupForActivity`, `RemoveParticipant`,
  `InitializeDb`), the catalog `InitialActivities`, and the pure functions
  that specify them: `Listing` (the map `get_activities` builds), `Signup`
  and `Removal` (response plus resulting collection). An HTTP error becomes
  a `Response` value: `Ok(message)` for 200, `NotFound(detail)` for 404,
  `BadRequest(detail)` for 400. The details and messages are the source's
  Portuguese strings.

Each endpoint method's postcondition equates its response and the new
collection with the specification function applied to the old collection.
The lemmas state the roster rules about those functions in terms of the
listing clients see. Those lemmas assume `UniqueNames`: no two documents
share a name. Seeding gives that (`SeededInvariants`), and signup and removal
never add, drop or rename a document (`OnlyRostersDiffer`), so it persists.
Without it the listing shows the last document of a name while the
endpoints act on the first. Both endpoints keep the roster invariant
(`RostersDistinct`), and seeding establishes it.

Capacity is stored but never checked: `SignupEnrolls` has no precondition
on `maxParticipants`, so a signup succeeds on a full activity.

Seeding is not run at start-up, because the call on line 105 of
`src/app.py` is commented out. So a `Collection` is built from whatever
documents the store already holds. The contracts of `Signup` and `Removal`,
the endpoint methods, `SignupThenRemoval` and the roster-invariant lemmas
hold for any collection. The listing-level lemmas (`ListingOfUnique`,
`ListingUpdate`, `SignupAlreadyEnrolled`, `SignupEnrolls`,
`RemovalNotEnrolled`, `RemovalWithdraws`, `RemovalShortensByOne`,
`ChessClubSignupTwice`) need unique names, and `RemovalShortensByOne` also
needs duplicate-free rosters.

## Model

| member | source | states |
|---|---|---|
| `Roster.Pull` | src/app.py:182-185 | `$pull` leaves no occurrence of the email, keeps every other email that was there and adds none, and never lengthens the roster |
| `Roster.PullSplits` | src/app.py:182-185 | pulling distributes over concatenation, so the remaining emails keep their relative order |
| `Roster.PullAbsent` | src/app.py:182-185 | pulling an email that is not enrolled leaves the roster as it was |
| `Roster.PullCounts` | src/app.py:182-185 | the pulled roster has zero copies of the email and exactly as many copies of every other email as before |
| `Roster.PullAt` | src/app.py:182-185 | on a roster without duplicates, pulling the email at position k deletes exactly that position, so the length drops by one |
| `Roster.PullKeepsDistinct` | src/app.py:182-185 | pulling never creates a duplicate |
| `Roster.PushKeepsDistinct` | src/app.py:157-164 | appending an email that is not enrolled keeps the roster free of duplicates |
| `Roster.PullUndoesPush` | src/app.py:161-185 | `$pull` of an email just appended by `$push`, when it was absent before, restores the roster |
| `Store.FirstIndex` | src/app.py:152-152 | the query on `name` matches nothing exactly when no document has that name; otherwise it matches a document with that name, and no earlier one has it |
| `Store.PushParticipant` | src/app.py:161-164 | `update_one` with `$push` changes at most rosters: same documents, same order, same ids, names and other fields |
| `Store.PullParticipant` | src/app.py:182-185 | `update_one` with `$pull` changes at most rosters in the same sense |
| `Store.FirstIndexIgnoresRosters` | src/app.py:173-185 | after a roster change the query on the name finds the same document, so the check and the update in one call hit one document |
| `Store.OnlyRostersDifferKeepsNames` | src/app.py:161-185 | a roster change keeps the set of names and their uniqueness |
| `Store.PushKeepsRostersDistinct` | src/app.py:157-164 | `$push` of an email the matched roster lacks keeps every roster free of duplicates |
| `Store.PullKeepsRostersDistinct` | src/app.py:182-185 | `$pull` keeps every roster free of duplicates |
| `Store.MakeDocument` | src/app.py:98-99 | the stored document is the catalog details with the `name` field and the `_id` added |
| `Store.Collection.constructor` | src/app.py:26-28 | the collection starts with the documents the store already holds, whose ids are unique, and the id generator resumes above all of them |
| `Store.Collection.FindOne` | src/app.py:152-153 | `find_one` returns nothing exactly when no document has the name, and otherwise the first document with it |
| `Store.Collection.DeleteMany` | src/app.py:94-94 | `delete_many({})` leaves the collection empty, and the invariant holds |
| `Store.Collection.InsertOne` | src/app.py:98-100 | `insert_one` appends the document with an id no stored document carries, returns that id, and keeps ids unique |
| `Store.Collection.UpdateOnePush` | src/app.py:161-164 | the collection becomes `PushParticipant` of the old one, and the id invariant is kept |
| `Store.Collection.UpdateOnePull` | src/app.py:182-185 | the collection becomes `PullParticipant` of the old one, and the id invariant is kept |
| `App.Response.StatusCode` | src/app.py:154-179 | a response is sent with 200 exactly on success, 404 exactly for the two not-found errors and 400 exactly for an existing enrolment |
| `App.SignupMessage` | src/app.py:166-166 | the signup confirmation names the email and then the activity |
| `App.RemovalMessage` | src/app.py:187-187 | the removal confirmation names the email and then the activity |
| `App.Strip` | src/app.py:141-142 | popping `name` and `_id` loses no other field: adding them back gives the document |
| `App.StripMakeDocument` | src/app.py:98-142 | popping the `name` and `_id` that seeding added gives back the catalog details |
| `App.Listing` | src/app.py:139-145 | the listing's keys are exactly the stored names |
| `App.ListingAt` | src/app.py:139-145 | a document appears stripped of `name` and `_id` under its name unless a later document has the same name |
| `App.ListingSource` | src/app.py:139-145 | every listed entry is some document of that name with `name` and `_id` dropped |
| `App.ListingOfUnique` | src/app.py:139-145 | under unique names every document appears, stripped, under its own name |
| `App.ListingUpdate` | src/app.py:139-145 | under unique names, replacing one document by one with the same name changes that listing entry and no other |
| `App.GetActivities` | src/app.py:132-145 | the endpoint returns exactly `Listing` of the stored documents |
| `App.ListingRostersDistinct` | src/app.py:132-145 | when no stored roster repeats an email, no listed roster does |
| `App.Signup` | src/app.py:148-166 | a failed signup leaves the collection unchanged, and any signup changes only rosters |
| `App.SignupUnknownActivity` | src/app.py:152-154 | signing up for a name that is not listed answers 404 "Atividade não encontrada" and leaves the collection unchanged |
| `App.SignupAlreadyEnrolled` | src/app.py:157-158 | signing up an email already on the roster answers 400 and leaves the collection unchanged |
| `App.SignupEnrolls` | src/app.py:157-166 | otherwise the signup answers 200 with its message, the activity's roster becomes the old roster with the email appended, every other field and every other activity stay the same, and capacity is not consulted |
| `App.SignupKeepsRostersDistinct` | src/app.py:157-164 | signup keeps every roster free of duplicates |
| `App.SignupForActivity` | src/app.py:148-166 | the endpoint's response and new collection are `Signup` of the old collection; it keeps the roster invariant and draws no ids |
| `App.Removal` | src/app.py:169-187 | a failed removal leaves the collection unchanged, and any removal changes only rosters |
| `App.RemovalUnknownActivity` | src/app.py:173-175 | removing from a name that is not listed answers 404 "Atividade não encontrada" and changes nothing |
| `App.RemovalNotEnrolled` | src/app.py:177-179 | removing an email not on the roster answers 404 "Participante não encontrado nesta atividade" and changes nothing |
| `App.RemovalWithdraws` | src/app.py:182-187 | otherwise the removal answers 200 with its message, deletes every occurrence of the email from that roster keeping the rest in order, and touches no other activity or field |
| `App.RemovalShortensByOne` | src/app.py:182-185 | on a roster without duplicates a successful removal shortens it by exactly one |
| `App.RemovalKeepsRostersDistinct` | src/app.py:182-185 | removal keeps every roster free of duplicates |
| `App.SignupThenRemoval` | src/app.py:161-185 | signing up an absent email and then removing it both succeed and restore the collection exactly |
| `App.RemoveParticipant` | src/app.py:169-187 | the endpoint's response and new collection are `Removal` of the old collection; it keeps the roster invariant and draws no ids |
| `App.CatalogWellFormed` | src/app.py:31-89 | the catalog `InitialActivities` (the nine entries, their details and rosters, in declaration order) has nine entries with distinct names, and no catalog roster repeats an email |
| `App.SeededInvariants` | src/app.py:92-100 | the seeded collection has unique names and duplicate-free rosters |
| `App.SeededListing` | src/app.py:92-100 | after seeding the listing has exactly the nine catalog names as keys, each mapped to its catalog details |
| `App.ChessClubSeeded` | src/app.py:32-36 | after seeding the chess club lists its two catalog members |
| `App.ChessClubSignupTwice` | src/app.py:148-166 | with the chess club's two members, a new email signs up with 200 and lands third; the same signup again answers 400 and leaves the collection as it is |
| `App.InitializeDb` | src/app.py:92-100 | seeding empties the collection and inserts one document per catalog entry, in order, with consecutive new ids, leaving unique names, unique ids and duplicate-free rosters |

## Left out

- The web framework: the app object, route decorators, the static-file mount and the redirect at `/` (src/app.py:17-23, 127-129). They are plumbing with no roster logic.
- The database connection: client construction, the start-up ping and the shutdown close (src/app.py:26-28, 108-124). These are network I/O; the collection is an in-memory stand-in.
- Console logging and the unused `bson` and `json` imports. They produce output only.
- Concurrency: each endpoint call is one atomic step, so the race between the `find_one` check and the `update_one` write is not modelled.
- Database failures: a connection error surfaces as an unhandled exception in the source, and the model has no such outcome.
- Object-id generation: ids come from a counter kept above every stored id, so they are new but carry no timestamp or randomness.
- Key order of the listing: `get_activities` returns a dict, whose JSON body lists activities in the order their names were first stored (catalog order after seeding). `Listing` is a map, so the response's key order is not modelled.
- Untyped documents: a document is a record with all six fields, so the `KeyError` a document missing `name` or `participants` would raise cannot occur.
- Serialisation: the shallow copy in seeding and the BSON encoding are not modelled; a stored roster is a value, shared with nothing.
- App.SignupAlreadyEnrolled: stated under unique names, since the listing then shows the document the endpoint checks; `Signup` itself covers any collection.
- App.SignupEnrolls: stated under unique names for the same reason.
- App.RemovalNotEnrolled: stated under unique names for the same reason.
- App.RemovalWithdraws: stated under unique names for the same reason.
- App.RemovalShortensByOne: stated under unique names for the same reason.
- App.ChessClubSignupTwice: stated under unique names for the same reason.
