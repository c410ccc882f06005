/**
 Properties that relate several handler calls: the mutating handlers keep the database
 `Valid`, so the delete lookup never sees two rows (and never reaches its 500 branch
 through that path); a successful add is undone by the matching delete; a second add of
 the same pair is rejected; and the favorite counts that the serialisers report move by
 exactly one.
 */
module Properties {
  import opened Wrappers
  import opened Models
  import opened Tables
  import opened Database
  import opened App

  /** One mutating request, with the storage engine's answer to its commit. */
  datatype Request =
    | AddPlanet(user: nat, planet: nat, commit: Commit)
    | AddPerson(user: nat, person: nat, commit: Commit)
    | DeletePlanet(user: nat, planet: nat, commit: Commit)
    | DeletePerson(user: nat, person: nat, commit: Commit)

  /** Route dispatch for the four mutating endpoints. */
  function Apply(db: Db, req: Request): Step
  {
    match req
    case AddPlanet(u, p, c) => AddFavoritePlanet(db, u, p, c)
    case AddPerson(u, p, c) => AddFavoritePerson(db, u, p, c)
    case DeletePlanet(u, p, c) => DeleteFavoritePlanet(db, u, p, c)
    case DeletePerson(u, p, c) => DeleteFavoritePerson(db, u, p, c)
  }

  /** The database after serving the requests one at a time, in order. */
  function Run(db: Db, reqs: seq<Request>): Db
    decreases |reqs|
  {
    if |reqs| == 0 then db else Run(Apply(db, reqs[0]).db, reqs[1..])
  }

  // ---------------------------------------------------------------------------
  // Adding
  // ---------------------------------------------------------------------------

  /** Appending a row with a fresh key, for a pair no row has, keeps primary keys
      distinct and pairs unique. */
  lemma AppendKeepsDistinct(rows: seq<Favorite>, row: Favorite)
    requires UniqueBy(rows, FavoriteId) && OnePerPair(rows)
    requires forall i :: 0 <= i < |rows| ==> rows[i].id != row.id
    requires forall i, col :: 0 <= i < |rows| ==> !SamePair(rows[i], row, col)
    ensures UniqueBy(rows + [row], FavoriteId) && OnePerPair(rows + [row])
  {
    var s := rows + [row];
    forall i, j, col | 0 <= i < j < |s|
      ensures FavoriteId(s[i]) != FavoriteId(s[j]) && !SamePair(s[i], s[j], col)
    {
      assert s[i] == rows[i];
      assert s[j] == if j == |rows| then row else rows[j];
    }
  }

  /** An add keeps every part of `Valid`: the new row has a fresh id, exactly one target,
      an existing user and target, and a pair nobody had bookmarked. */
  lemma AddPreservesValid(db: Db, column: Column, userId: nat, targetId: nat, commit: Commit)
    requires Valid(db)
    ensures Valid(AddFavorite(db, column, userId, targetId, commit).db)
  {
    var r := AddFavorite(db, column, userId, targetId, commit);
    if r.response.status == CREATED {
      var c := ByPair(userId, column, targetId);
      var rows := db.favorites;
      var row := NewFavorite(db.nextFavoriteId, userId, column, targetId);
      assert r.db == db.(favorites := rows + [row], nextFavoriteId := db.nextFavoriteId + 1);
      CountPositiveIffAnyMatch(rows, c);
      forall i, col | 0 <= i < |rows|
        ensures rows[i].id != row.id && !SamePair(rows[i], row, col)
      {
        assert rows[i] in rows;
        if col == column {
          assert !Matches(rows[i], c);
        } else {
          assert col == Other(column);
        }
      }
      AppendKeepsDistinct(rows, row);
      forall f | f in r.db.favorites
        ensures f.id < r.db.nextFavoriteId && HasExactlyOneTarget(f) && ReferencesExist(r.db, f)
      {
        if f != row {
          assert f in rows;
        } else {
          match column
          case PeopleColumn =>
          case PlanetsColumn =>
        }
      }
    }
  }

  /** Once a pair is bookmarked, adding it again is answered with 400 and changes nothing. */
  lemma AddTwiceRejected(db: Db, column: Column, userId: nat, targetId: nat, commit: Commit)
    requires AddFavorite(db, column, userId, targetId, Committed).response.status == CREATED
    ensures var once := AddFavorite(db, column, userId, targetId, Committed).db;
            var twice := AddFavorite(once, column, userId, targetId, commit);
            twice.response.status == BAD_REQUEST && twice.db == once
  {
    var once := AddFavorite(db, column, userId, targetId, Committed).db;
    assert UserExists(once, userId) == UserExists(db, userId);
    assert TargetExists(once, column, targetId) == TargetExists(db, column, targetId);
  }

  /** A successful add grows the serialised `favorite` array of the user, and of the
      target, by exactly one. */
  lemma AddGrowsSerialisedFavorites(db: Db, user: User, column: Column, targetId: nat, commit: Commit)
    requires user.id >= 0
    requires AddFavorite(db, column, user.id, targetId, commit).response.status == CREATED
    ensures var after := AddFavorite(db, column, user.id, targetId, commit).db;
            |SerializeUser(user, after.favorites).fields["favorite"].items|
              == |SerializeUser(user, db.favorites).fields["favorite"].items| + 1
    ensures var after := AddFavorite(db, column, user.id, targetId, commit).db;
            CountWhere(after.favorites, ByTarget(column, targetId)) == CountWhere(db.favorites, ByTarget(column, targetId)) + 1
  {
    var row := NewFavorite(db.nextFavoriteId, user.id, column, targetId);
    var after := AddFavorite(db, column, user.id, targetId, commit).db;
    assert after.favorites == db.favorites + [row];
    CountAppend(db.favorites, [row], ByUser(user.id));
    CountAppend(db.favorites, [row], ByTarget(column, targetId));
    assert [row][1..] == [];
  }

  // ---------------------------------------------------------------------------
  // Deleting
  // ---------------------------------------------------------------------------

  /** When no pair is bookmarked twice, the lookup never sees the several rows that would
      make `scalar_one_or_none` raise: a delete answers 500 only when its commit fails, so
      a delete that commits answers 200 or 404. */
  lemma DeleteNeverAmbiguous(db: Db, column: Column, userId: nat, targetId: nat, commit: Commit)
    requires OnePerPair(db.favorites)
    ensures DeleteFavorite(db, column, userId, targetId, commit).response.status == SERVER_ERROR ==> commit == StorageFailure
    ensures DeleteFavorite(db, column, userId, targetId, Committed).response.status in {OK, NOT_FOUND}
  {
    PairQueryMatchesAtMostOne(db.favorites, userId, column, targetId);
  }

  /** On a valid database a successful delete removes exactly the one matching row, in
      place, and keeps every other row in order. */
  lemma DeleteRemovesExactlyMatchingRow(db: Db, column: Column, userId: nat, targetId: nat, commit: Commit)
    requires Valid(db)
    requires DeleteFavorite(db, column, userId, targetId, commit).response.status == OK
    ensures exists k :: 0 <= k < |db.favorites| && Matches(db.favorites[k], ByPair(userId, column, targetId))
              && DeleteFavorite(db, column, userId, targetId, commit).db.favorites == db.favorites[..k] + db.favorites[k + 1..]
  {
    var c := ByPair(userId, column, targetId);
    var rows := Select(db.favorites, c);
    assert rows[0] in rows;
    var k :| 0 <= k < |db.favorites| && db.favorites[k] == rows[0];
    DeleteRowAt(db.favorites, k);
  }

  /** Removing one row keeps primary keys distinct and pairs unique. */
  lemma RemoveAtKeepsDistinct(rows: seq<Favorite>, k: nat)
    requires k < |rows|
    requires UniqueBy(rows, FavoriteId) && OnePerPair(rows)
    ensures UniqueBy(rows[..k] + rows[k + 1..], FavoriteId) && OnePerPair(rows[..k] + rows[k + 1..])
  {
    var s := rows[..k] + rows[k + 1..];
    forall i, j, col | 0 <= i < j < |s|
      ensures FavoriteId(s[i]) != FavoriteId(s[j]) && !SamePair(s[i], s[j], col)
    {
      var i' := if i < k then i else i + 1;
      var j' := if j < k then j else j + 1;
      assert s[i] == rows[i'] && s[j] == rows[j'];
    }
  }

  /** A delete keeps every part of `Valid`. */
  lemma DeletePreservesValid(db: Db, column: Column, userId: nat, targetId: nat, commit: Commit)
    requires Valid(db)
    ensures Valid(DeleteFavorite(db, column, userId, targetId, commit).db)
  {
    var r := DeleteFavorite(db, column, userId, targetId, commit);
    if r.response.status == OK {
      DeleteRemovesExactlyMatchingRow(db, column, userId, targetId, commit);
      var rows := db.favorites;
      var k :| 0 <= k < |rows| && r.db.favorites == rows[..k] + rows[k + 1..];
      RemoveAtKeepsDistinct(rows, k);
      assert r.db == db.(favorites := rows[..k] + rows[k + 1..]);
      forall f | f in r.db.favorites
        ensures f.id < r.db.nextFavoriteId && HasExactlyOneTarget(f) && ReferencesExist(r.db, f)
      {
        assert f in rows;
      }
    }
  }

  /** Deleting the pair a successful add just created restores the favorites table; only
      the id counter has moved on. */
  lemma AddThenDeleteRestores(db: Db, column: Column, userId: nat, targetId: nat)
    requires Valid(db)
    requires AddFavorite(db, column, userId, targetId, Committed).response.status == CREATED
    ensures var added := AddFavorite(db, column, userId, targetId, Committed).db;
            var removed := DeleteFavorite(added, column, userId, targetId, Committed);
            removed.response.status == OK
            && removed.db.favorites == db.favorites
            && removed.db == db.(nextFavoriteId := db.nextFavoriteId + 1)
  {
    var c := ByPair(userId, column, targetId);
    var favs := db.favorites;
    var row := NewFavorite(db.nextFavoriteId, userId, column, targetId);
    var added := AddFavorite(db, column, userId, targetId, Committed).db;
    assert added == db.(favorites := favs + [row], nextFavoriteId := db.nextFavoriteId + 1);
    SelectLast(favs, row, c);
    forall i | 0 <= i < |favs|
      ensures favs[i].id != row.id
    {
      assert favs[i] in favs;
    }
    DeleteRowLast(favs, row);
  }

  /** After a successful delete on a valid database, the user's favorites listing has
      one entry fewer, and no listed favorite is the deleted pair. */
  lemma DeleteShrinksUserListing(db: Db, column: Column, userId: nat, targetId: nat, commit: Commit)
    requires Valid(db)
    requires DeleteFavorite(db, column, userId, targetId, commit).response.status == OK
    ensures var after := DeleteFavorite(db, column, userId, targetId, commit).db;
            CountWhere(after.favorites, ByUser(userId)) + 1 == CountWhere(db.favorites, ByUser(userId))
    ensures var after := DeleteFavorite(db, column, userId, targetId, commit).db;
            forall f :: f in Select(after.favorites, ByUser(userId)) ==> Target(f, column) != Some(targetId)
  {
    var after := DeleteFavorite(db, column, userId, targetId, commit).db;
    DeleteRemovesExactlyMatchingRow(db, column, userId, targetId, commit);
    var rows := db.favorites;
    var k :| 0 <= k < |rows| && Matches(rows[k], ByPair(userId, column, targetId))
             && after.favorites == rows[..k] + rows[k + 1..];
    CountRemoveAt(rows, k, ByUser(userId));
  }

  // ---------------------------------------------------------------------------
  // Sequences of requests
  // ---------------------------------------------------------------------------

  lemma ApplyPreservesValid(db: Db, req: Request)
    requires Valid(db)
    ensures Valid(Apply(db, req).db)
  {
    match req
    case AddPlanet(u, p, c) => AddPreservesValid(db, PlanetsColumn, u, p, c);
    case AddPerson(u, p, c) => AddPreservesValid(db, PeopleColumn, u, p, c);
    case DeletePlanet(u, p, c) => DeletePreservesValid(db, PlanetsColumn, u, p, c);
    case DeletePerson(u, p, c) => DeletePreservesValid(db, PeopleColumn, u, p, c);
  }

  /** Every database reachable from a valid one through the API is valid. */
  lemma {:induction false} RunPreservesValid(db: Db, reqs: seq<Request>)
    requires Valid(db)
    ensures Valid(Run(db, reqs))
    decreases |reqs|
  {
    if |reqs| > 0 {
      ApplyPreservesValid(db, reqs[0]);
      RunPreservesValid(Apply(db, reqs[0]).db, reqs[1..]);
    }
  }

  /** Hence, after any history of requests, a delete that commits answers 200 or 404. */
  lemma ReachableDeleteNeverAmbiguous(db: Db, reqs: seq<Request>, column: Column, userId: nat, targetId: nat)
    requires Valid(db)
    ensures DeleteFavorite(Run(db, reqs), column, userId, targetId, Committed).response.status in {OK, NOT_FOUND}
  {
    RunPreservesValid(db, reqs);
    DeleteNeverAmbiguous(Run(db, reqs), column, userId, targetId, Committed);
  }
}
