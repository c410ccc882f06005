/**
 The favorites columns `people_id` and `planets_id` are annotated `Mapped[int]` rather
 than `Mapped[Optional[int]]` (src/models.py:68-69). Under SQLAlchemy 2.0 a non-Optional
 annotation without an explicit `nullable` makes the column NOT NULL, while both add
 handlers insert a row whose other target is `None` (src/app.py:125, 146). A table
 created from these annotations therefore rejects every insert the API makes, and the
 handler answers 500 instead of 201.

 `AddFavoriteAsAnnotated` models the handler against that schema; `App.AddFavorite`
 (with nullable targets) is the intended behaviour the rest of the model uses.
 */
module SchemaFinding {
  import opened Wrappers
  import opened Models
  import opened Database
  import opened App

  /** The NOT NULL constraints a table created from the annotations enforces. */
  predicate AnnotatedSchemaAccepts(f: Favorite)
  {
    f.peopleId.Some? && f.planetsId.Some?
  }

  /** The commit of an insert under the annotated schema: the engine refuses a row with
      a NULL in either target column. */
  function CommitUnderAnnotatedSchema(f: Favorite): Commit
  {
    if AnnotatedSchemaAccepts(f) then Committed else StorageFailure
  }

  /** Every row the add handlers build leaves one target NULL, so the annotated schema
      refuses every insert they make. */
  lemma AnnotatedSchemaRefusesEveryInsert(id: int, userId: int, column: Column, targetId: int)
    ensures CommitUnderAnnotatedSchema(NewFavorite(id, userId, column, targetId)) == StorageFailure
  {
    var row := NewFavorite(id, userId, column, targetId);
    assert Target(row, Other(column)) == None;
  }

  /** The add handler as written, run against the annotated schema: no request ever
      stores a favorite. */
  function AddFavoriteAsAnnotated(db: Db, column: Column, userId: nat, targetId: nat): (r: Step)
    ensures r.response.status != CREATED
    ensures r.db == db
    ensures UserExists(db, userId) && TargetExists(db, column, targetId)
            && !AnyMatch(db.favorites, ByPair(userId, column, targetId))
            ==> r.response.status == SERVER_ERROR
  {
    var row := NewFavorite(db.nextFavoriteId, userId, column, targetId);
    CountPositiveIffAnyMatch(db.favorites, ByPair(userId, column, targetId));
    AddFavorite(db, column, userId, targetId, CommitUnderAnnotatedSchema(row))
  }

  /** A concrete request that shows the discrepancy: user 1 and planet 1 exist and have
      no favorite yet, yet the annotated schema turns the add into a 500 with nothing
      stored, whereas the nullable schema stores the favorite with a NULL person. */
  lemma AnnotatedSchemaRejectsFreshPlanet()
    ensures var db := Db([User(1, "luke")], [], [Planet(1, "Tatooine", "200000", "desert", "arid")], [], 1);
            && AddFavoriteAsAnnotated(db, PlanetsColumn, 1, 1).response.status == SERVER_ERROR
            && AddFavoriteAsAnnotated(db, PlanetsColumn, 1, 1).db.favorites == []
            && AddFavorite(db, PlanetsColumn, 1, 1, Committed).response.status == CREATED
            && AddFavorite(db, PlanetsColumn, 1, 1, Committed).db.favorites == [Favorite(1, 1, None, Some(1))]
  {
    var db := Db([User(1, "luke")], [], [Planet(1, "Tatooine", "200000", "desert", "arid")], [], 1);
    assert UserExists(db, 1) by { assert db.users[0].id == 1; }
    assert PlanetExists(db, 1) by { assert db.planets[0].id == 1; }
  }

  /** With nullable targets, the intended behaviour: an existing user and target with no
      favorite yet always yield 201 and exactly one stored row for the pair. */
  lemma NullableSchemaStoresFreshPair(db: Db, column: Column, userId: nat, targetId: nat)
    requires UserExists(db, userId) && TargetExists(db, column, targetId)
    requires !AnyMatch(db.favorites, ByPair(userId, column, targetId))
    ensures var r := AddFavorite(db, column, userId, targetId, Committed);
            r.response.status == CREATED
            && CountWhere(r.db.favorites, ByPair(userId, column, targetId)) == 1
  {
    CountPositiveIffAnyMatch(db.favorites, ByPair(userId, column, targetId));
  }
}
