# Star Wars favorites API — a Dafny model

A model of a small Flask/SQLAlchemy REST service. The service stores users, people,
planets and a favorites join table. Users bookmark a person or a planet through the
favorites table.

The model treats the database as an immutable value (`Database.Db`). It holds the four
tables as sequences, plus the next primary key the storage engine will give an inserted
favorite. Each route handler is a pure function:

- A read handler maps a database to a `Response`, which is a status code and a JSON body.
- A mutating handler maps a database to a `Step`, which is a response and the next database.

The commit of a mutation is a parameter (`App.Commit`). When it is `StorageFailure`, the
handler answers 500 and the tables are unchanged.

Modules:

- `Wrappers`, `Json`: `Option`, and the JSON values the serialisers build.
- `Tables`: what every table shares, written once over a key projection: whether a row
  carries a key (`HasKey`), whether a column is unique (`UniqueBy`), and the
  `filter_by(id=...)` lookup (`WithKey`).
- `Models` (src/models.py): the four record types and the `filter_by` queries on favorites
  (`Select`, `CountWhere`, `AnyMatch`). Also each `serialize` method, paired with a parser,
  so that "copied unchanged" is proved as a round trip.
- `Database`: the database value, the per-table existence checks, and `Valid`.
  `Valid` is the invariant of every reachable database: primary keys and usernames are
  unique, every favorite has exactly one target, every favorite references an existing
  user and target, and there is at most one favorite per (user, person) and per
  (user, planet).
- `App` (src/app.py): the ten route handlers.
- `Properties`: lemmas that relate several calls. Add and delete preserve `Valid`, so the
  delete lookup never sees two rows. Add followed by delete restores the favorites table.
  A repeated add is rejected. Serialised favorite counts move by one.
- `SchemaFinding`: the NOT NULL discrepancy listed under Findings.

A `favorite` array lists the related rows in table order. The source does not fix an
order for relationship results; the model assumes table order.

## Model

| member | source | states |
|---|---|---|
| Models.NewFavorite | src/app.py:125 | the inserted row carries the given id and user, the chosen target column holds the target, the other column is NULL, so it has exactly one target |
| Models.Select | src/app.py:104 | a `filter_by` query returns exactly the rows meeting the criteria, and as many as `CountWhere` counts |
| Models.CountPositiveIffAnyMatch | src/app.py:121 | the `exists()` check is true iff the matching-row count is positive |
| Models.DeleteRow | src/app.py:159 | deleting by primary key keeps exactly the rows with another id; the table only shrinks |
| Models.DeleteRowAt | src/app.py:159-160 | when primary keys are distinct, deleting row k's key removes that row alone and keeps the others in order |
| Models.SerializeFavorite | src/models.py:71-77 | the object has exactly the keys id, user_id, people_id and planets_id; a column is null iff its target is absent; parsing returns the same row |
| Models.SerializeFavorites | src/models.py:20 | the `favorite` array has one element per related row, and element i is row i serialised, so the rows keep their order |
| Models.FavoritesRoundTrip | src/models.py:20 | parsing a serialised `favorite` array returns the same rows in the same order |
| Models.SerializeUser | src/models.py:16-21 | the object has exactly the keys id, username and favorite; parsing returns the same user; `favorite` holds the rows with that `user_id`, and its length is their count |
| Models.SerializePerson | src/models.py:33-41 | the object has exactly the six person keys; parsing returns the same person; `favorite` holds the rows whose `people_id` is the person's id, and its length is their count |
| Models.SerializePlanet | src/models.py:53-61 | the object has exactly the six planet keys; `population` is the same string; parsing returns the same planet; `favorite` holds the rows whose `planets_id` is the planet's id |
| Tables.WithKey | src/app.py:71 | the lookup by id returns exactly the rows with that id, and at most one when ids are distinct; `get_planet` issues the same lookup at src/app.py:95 |
| Tables.WithKeyNonEmptyIffHasKey | src/app.py:95 | the lookup by id finds a row iff some row carries that id |
| Database.PairQueryMatchesAtMostOne | src/app.py:157 | when each pair has at most one favorite, a (user, target) query matches at most one row |
| App.GetUser | src/app.py:39-51 | 404 iff there are no users; otherwise 200 with one entry per user, each parsing back to that user and its favorites |
| App.GetAllPeople | src/app.py:53-65 | 404 iff there are no people; otherwise 200 with one entry per person, each parsing back to that person and its favorites |
| App.GetPeople | src/app.py:68-74 | only 200 or 404; a 200 carries a person with the requested id; with distinct ids, 200 iff the person exists |
| App.GetAllPlanets | src/app.py:77-89 | 404 iff there are no planets; otherwise 200 with one entry per planet, each parsing back to that planet and its favorites |
| App.GetPlanet | src/app.py:92-98 | only 200 or 404; a 200 carries a planet with the requested id; with distinct ids, 200 iff the planet exists |
| App.GetUserFavorites | src/app.py:101-109 | 404 iff no favorite has that `user_id`; otherwise 200 with exactly those rows, one entry each, in table order |
| App.AddFavorite | src/app.py:112-151 | 404 iff the user or target is missing; 400 iff both exist and the pair is already bookmarked; 201 iff neither and the commit succeeds; 500 otherwise; the database changes only on 201, by appending one row that makes the pair count 1 |
| App.AddFavoritePlanet | src/app.py:112-130 | 404 iff the user or planet is missing; a 201 appends exactly one row with `people_id` NULL and `planets_id` the planet, for a pair that had no row; otherwise nothing changes |
| App.AddFavoritePerson | src/app.py:133-151 | 404 iff the user or person is missing; a 201 appends exactly one row with `planets_id` NULL and `people_id` the person, for a pair that had no row; otherwise nothing changes |
| App.DeleteFavorite | src/app.py:154-177 | 404 iff no row matches; 200 iff exactly one row matches and the commit succeeds; otherwise 500; only a 200 changes the database, which then has fewer rows, no new ones, and no row for the pair |
| App.DeleteFavoritePlanet | src/app.py:154-164 | 404 iff no favorite has the (user, planet) pair; after a 200 no remaining row has that pair and every remaining row was there before |
| App.DeleteFavoritePerson | src/app.py:167-177 | 404 iff no favorite has the (user, person) pair; after a 200 no remaining row has that pair and every remaining row was there before |
| Properties.AppendKeepsDistinct | src/app.py:125-127 | appending a row with a fresh id, for a pair no row has, keeps favorite ids distinct and pairs unique |
| Properties.AddPreservesValid | src/app.py:115-128 | an add keeps unique keys and usernames, exactly one target per favorite, existing references, and at most one favorite per pair |
| Properties.AddTwiceRejected | src/app.py:121-123 | after a successful add, the same add answers 400 and changes nothing |
| Properties.AddGrowsSerialisedFavorites | src/models.py:14-20 | a successful add grows the user's serialised `favorite` array by one, and the target's favorite count by one |
| Properties.DeleteNeverAmbiguous | src/app.py:157-164 | when no pair is bookmarked twice, a delete answers 500 only when its commit fails; a delete that commits answers only 200 or 404, never the 500 of a multi-row lookup |
| Properties.DeleteRemovesExactlyMatchingRow | src/app.py:157-161 | on a valid database, a successful delete removes exactly the one matching row and keeps all other rows in order |
| Properties.RemoveAtKeepsDistinct | src/app.py:159 | removing one row keeps favorite ids distinct and pairs unique |
| Properties.DeletePreservesValid | src/app.py:154-164 | a delete keeps every part of the invariant |
| Properties.AddThenDeleteRestores | src/app.py:121-161 | deleting a pair that an add just created answers 200 and restores the favorites table; only the id counter has advanced |
| Properties.DeleteShrinksUserListing | src/app.py:104 | after a successful delete, the user's favorites listing has one entry fewer and contains no favorite with the deleted target |
| Properties.ApplyPreservesValid | src/app.py:112-177 | each of the four mutating routes preserves the invariant |
| Properties.RunPreservesValid | src/app.py:112-177 | any sequence of mutating requests from a valid database reaches a valid database |
| Properties.ReachableDeleteNeverAmbiguous | src/app.py:157-164 | after any history of requests, a delete that commits answers 200 or 404 |
| SchemaFinding.AnnotatedSchemaRefusesEveryInsert | src/models.py:68-69 | every row the add handlers build leaves one target NULL, so a table with the annotated NOT NULL columns refuses each of their inserts |
| SchemaFinding.AddFavoriteAsAnnotated | src/app.py:125-130 | against the annotated schema, an add never answers 201 and never changes the database; a fresh valid pair answers 500 |
| SchemaFinding.AnnotatedSchemaRejectsFreshPlanet | src/app.py:125-130 | with user 1 and planet 1 present and no favorites, the annotated schema answers 500 and stores nothing, while nullable targets give 201 and one row |
| SchemaFinding.NullableSchemaStoresFreshPair | src/app.py:125-128 | with nullable targets, an existing user and target with no favorite yet give 201 and exactly one row for the pair |

## Left out

- Flask application setup, CORS, the admin UI, migrations, the sitemap route and the `DATABASE_URL` scheme rewrite (src/app.py:14-37) are configuration and I/O.
- SQLAlchemy sessions, queries and transactions, and foreign-key enforcement by the engine, are abstracted into pure table values. A commit is a parameter that either succeeds or fails.
- Favorite primary keys come from a counter, `nextFavoriteId`, which is above every existing id. The engine's actual key allocation is not modelled.
- Failures of the read queries are left out. This covers the 500 branch of `get_user_favorites` (src/app.py:108-109) and a backend error that the get-by-id routes fold into 404. Only `scalar_one`'s "not exactly one row" case is modelled as the 404.
- Only the commit can fail in the mutating routes; an exception raised by their existence queries is not modelled.
- Path ids are unbounded. On the default SQLite database (src/app.py:21), an id of 2^63 or more cannot be bound to a 64-bit INTEGER, and the query raises. The mutating routes and `get_user_favorites` then answer 500 (src/app.py:108-109, 129-130, 150-151, 163-164). The model answers such an id like any other absent id: 404 from the add and delete routes and from `get_user_favorites`.
- JSON encoding by `jsonify`, the message texts and the exception text returned with a 500 are left out. A body is only its envelope kind.
- The check-then-insert race between concurrent requests is left out; the model serves one request at a time.
- Users, people and planets are created outside the API, so no operation creates them. Their key and `username` uniqueness are part of `Valid`, which the mutating routes preserve.
- App.GetPeople: the "200 iff the person exists" direction is stated only when person ids are distinct. Without that, `scalar_one` answers 404 for a duplicated id, and the contract says only that a 200 carries a matching person.
- App.GetPlanet: the "200 iff the planet exists" direction is stated only when planet ids are distinct, for the same reason.

## Findings

| source | as written | input that shows it | evidently intended | confidence | as-written member | corrected member |
|---|---|---|---|---|---|---|
| src/models.py:68-69 | `people_id` and `planets_id` are annotated `Mapped[int]`. Under SQLAlchemy 2.0 that makes them NOT NULL, yet both add handlers insert a row with one of them `None` (src/app.py:125, 146). The commit therefore fails, and the handler answers 500. | user 1 and planet 1 exist and have no favorite; POST /user/1/favorites/planets/1 | nullable target columns (`Mapped[Optional[int]]`), so the add stores the row and answers 201 | not executed; medium: holds when the table was created from these annotations | SchemaFinding.AddFavoriteAsAnnotated | SchemaFinding.NullableSchemaStoresFreshPair |
