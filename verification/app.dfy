/**
 The route handlers, each a pure transition from a database (and the path parameters)
 to a response, and for the two mutating pairs also to the next database. Flask's
 `<int:...>` converter only matches digit strings, so path parameters are `nat`.
 The commit of a mutation is a parameter: the storage engine either commits or fails,
 and a failure is answered with 500 and leaves the tables as they were.
 */
module App {
  import opened Wrappers
  import opened Json
  import opened Models
  import opened Tables
  import opened Database

  const OK: int := 200
  const CREATED: int := 201
  const BAD_REQUEST: int := 400
  const NOT_FOUND: int := 404
  const SERVER_ERROR: int := 500

  /** The JSON envelope: `{"results": [...]}`, `{"result": {...}}`, or `{"msg": ...}`
      (with an `error` detail on 500). Message texts are not modelled. */
  datatype Body =
    | Results(items: seq<Value>)
    | Result(item: Value)
    | Message
    | ErrorMessage

  datatype Response = Response(status: int, body: Body)

  /** What the storage engine does with `db.session.commit()`. */
  datatype Commit = Committed | StorageFailure

  /** The response to a mutating request and the database after it. */
  datatype Step = Step(response: Response, db: Db)

  // ---------------------------------------------------------------------------
  // Listing handlers
  // ---------------------------------------------------------------------------

  /** GET /user: every user, serialised with its favorites; 404 when there are none. */
  function GetUser(db: Db): (r: Response)
    ensures r.status == NOT_FOUND <==> |db.users| == 0
    ensures r.status == NOT_FOUND || r.status == OK
    ensures r.status == OK ==>
      && r.body.Results?
      && |r.body.items| == |db.users|
      && forall i :: 0 <= i < |db.users| ==>
           ParseUser(r.body.items[i]) == Some((db.users[i], Select(db.favorites, ByUser(db.users[i].id))))
  {
    if |db.users| == 0 then Response(NOT_FOUND, Message)
    else Response(OK, Results(seq(|db.users|, i requires 0 <= i < |db.users| => SerializeUser(db.users[i], db.favorites))))
  }

  /** GET /people: every person, serialised with its favorites; 404 when there are none. */
  function GetAllPeople(db: Db): (r: Response)
    ensures r.status == NOT_FOUND <==> |db.people| == 0
    ensures r.status == NOT_FOUND || r.status == OK
    ensures r.status == OK ==>
      && r.body.Results?
      && |r.body.items| == |db.people|
      && forall i :: 0 <= i < |db.people| ==>
           ParsePerson(r.body.items[i]) == Some((db.people[i], Select(db.favorites, ByTarget(PeopleColumn, db.people[i].id))))
  {
    if |db.people| == 0 then Response(NOT_FOUND, Message)
    else Response(OK, Results(seq(|db.people|, i requires 0 <= i < |db.people| => SerializePerson(db.people[i], db.favorites))))
  }

  /** GET /planets: every planet, serialised with its favorites; 404 when there are none. */
  function GetAllPlanets(db: Db): (r: Response)
    ensures r.status == NOT_FOUND <==> |db.planets| == 0
    ensures r.status == NOT_FOUND || r.status == OK
    ensures r.status == OK ==>
      && r.body.Results?
      && |r.body.items| == |db.planets|
      && forall i :: 0 <= i < |db.planets| ==>
           ParsePlanet(r.body.items[i]) == Some((db.planets[i], Select(db.favorites, ByTarget(PlanetsColumn, db.planets[i].id))))
  {
    if |db.planets| == 0 then Response(NOT_FOUND, Message)
    else Response(OK, Results(seq(|db.planets|, i requires 0 <= i < |db.planets| => SerializePlanet(db.planets[i], db.favorites))))
  }

  // ---------------------------------------------------------------------------
  // Get-by-id handlers (`scalar_one`: anything but exactly one row is a 404)
  // ---------------------------------------------------------------------------

  /** GET /people/<id>. */
  function GetPeople(db: Db, peopleId: nat): (r: Response)
    ensures r.status == NOT_FOUND || r.status == OK
    ensures r.status == OK ==>
      && r.body.Result?
      && exists i :: 0 <= i < |db.people| && db.people[i].id == peopleId
           && ParsePerson(r.body.item) == Some((db.people[i], Select(db.favorites, ByTarget(PeopleColumn, peopleId))))
    ensures UniqueBy(db.people, PersonId) ==> (r.status == OK <==> PersonExists(db, peopleId))
  {
    var rows := WithKey(db.people, PersonId, peopleId);
    if |rows| == 1 then
      assert rows[0] in rows;
      Response(OK, Result(SerializePerson(rows[0], db.favorites)))
    else
      WithKeyNonEmptyIffHasKey(db.people, PersonId, peopleId);
      Response(NOT_FOUND, Message)
  }

  /** GET /planets/<id>. */
  function GetPlanet(db: Db, planetsId: nat): (r: Response)
    ensures r.status == NOT_FOUND || r.status == OK
    ensures r.status == OK ==>
      && r.body.Result?
      && exists i :: 0 <= i < |db.planets| && db.planets[i].id == planetsId
           && ParsePlanet(r.body.item) == Some((db.planets[i], Select(db.favorites, ByTarget(PlanetsColumn, planetsId))))
    ensures UniqueBy(db.planets, PlanetId) ==> (r.status == OK <==> PlanetExists(db, planetsId))
  {
    var rows := WithKey(db.planets, PlanetId, planetsId);
    if |rows| == 1 then
      assert rows[0] in rows;
      Response(OK, Result(SerializePlanet(rows[0], db.favorites)))
    else
      WithKeyNonEmptyIffHasKey(db.planets, PlanetId, planetsId);
      Response(NOT_FOUND, Message)
  }

  /** GET /user/<id>/favorites: the user's favorite rows; 404 when there are none
      (whether or not the user exists). */
  function GetUserFavorites(db: Db, userId: nat): (r: Response)
    ensures r.status == NOT_FOUND <==> !AnyMatch(db.favorites, ByUser(userId))
    ensures r.status == NOT_FOUND || r.status == OK
    ensures r.status == OK ==>
      && r.body.Results?
      && |r.body.items| == CountWhere(db.favorites, ByUser(userId))
      && ParseFavorites(r.body.items) == Some(Select(db.favorites, ByUser(userId)))
      && forall f :: f in Select(db.favorites, ByUser(userId)) <==> f in db.favorites && f.userId == userId
  {
    var rows := Select(db.favorites, ByUser(userId));
    CountPositiveIffAnyMatch(db.favorites, ByUser(userId));
    if |rows| > 0 then
      FavoritesRoundTrip(rows);
      Response(OK, Results(SerializeFavorites(rows)))
    else Response(NOT_FOUND, Message)
  }

  // ---------------------------------------------------------------------------
  // Adding a favorite
  // ---------------------------------------------------------------------------

  /** POST /user/<id>/favorites/{people,planets}/<id>: 404 unless both the user and the
      target exist, 400 when the pair is already bookmarked, otherwise one new row with
      the other target NULL (201), or 500 with nothing stored when the commit fails. */
  function AddFavorite(db: Db, column: Column, userId: nat, targetId: nat, commit: Commit): (r: Step)
    ensures r.response.status == NOT_FOUND <==> !UserExists(db, userId) || !TargetExists(db, column, targetId)
    ensures r.response.status == BAD_REQUEST <==>
      UserExists(db, userId) && TargetExists(db, column, targetId) && CountWhere(db.favorites, ByPair(userId, column, targetId)) > 0
    ensures r.response.status == CREATED <==>
      UserExists(db, userId) && TargetExists(db, column, targetId) && CountWhere(db.favorites, ByPair(userId, column, targetId)) == 0
      && commit == Committed
    ensures r.response.status in {NOT_FOUND, BAD_REQUEST, CREATED, SERVER_ERROR}
    ensures r.response.status != CREATED ==> r.db == db
    ensures r.response.status == CREATED ==>
      && r.db.users == db.users && r.db.people == db.people && r.db.planets == db.planets
      && |r.db.favorites| == |db.favorites| + 1
      && r.db.favorites[..|db.favorites|] == db.favorites
      && CountWhere(r.db.favorites, ByPair(userId, column, targetId)) == 1
  {
    CountPositiveIffAnyMatch(db.favorites, ByPair(userId, column, targetId));
    if !UserExists(db, userId) || !TargetExists(db, column, targetId) then
      Step(Response(NOT_FOUND, Message), db)
    else if AnyMatch(db.favorites, ByPair(userId, column, targetId)) then
      Step(Response(BAD_REQUEST, Message), db)
    else
      match commit
      case StorageFailure => Step(Response(SERVER_ERROR, ErrorMessage), db)
      case Committed =>
        var row := NewFavorite(db.nextFavoriteId, userId, column, targetId);
        CountAppend(db.favorites, [row], ByPair(userId, column, targetId));
        assert [row][1..] == [];
        Step(Response(CREATED, Message),
             db.(favorites := db.favorites + [row], nextFavoriteId := db.nextFavoriteId + 1))
  }

  /** POST /user/<id>/favorites/planets/<id>. */
  function AddFavoritePlanet(db: Db, userId: nat, planetId: nat, commit: Commit): (r: Step)
    ensures r.response.status == NOT_FOUND <==> !UserExists(db, userId) || !PlanetExists(db, planetId)
    ensures r.response.status != CREATED ==> r.db == db
    ensures r.response.status == CREATED ==>
      && r.db.favorites == db.favorites + [Favorite(db.nextFavoriteId, userId, None, Some(planetId))]
      && !AnyMatch(db.favorites, ByPair(userId, PlanetsColumn, planetId))
  {
    CountPositiveIffAnyMatch(db.favorites, ByPair(userId, PlanetsColumn, planetId));
    AddFavorite(db, PlanetsColumn, userId, planetId, commit)
  }

  /** POST /user/<id>/favorites/people/<id>. */
  function AddFavoritePerson(db: Db, userId: nat, peopleId: nat, commit: Commit): (r: Step)
    ensures r.response.status == NOT_FOUND <==> !UserExists(db, userId) || !PersonExists(db, peopleId)
    ensures r.response.status != CREATED ==> r.db == db
    ensures r.response.status == CREATED ==>
      && r.db.favorites == db.favorites + [Favorite(db.nextFavoriteId, userId, Some(peopleId), None)]
      && !AnyMatch(db.favorites, ByPair(userId, PeopleColumn, peopleId))
  {
    CountPositiveIffAnyMatch(db.favorites, ByPair(userId, PeopleColumn, peopleId));
    AddFavorite(db, PeopleColumn, userId, peopleId, commit)
  }

  // ---------------------------------------------------------------------------
  // Deleting a favorite
  // ---------------------------------------------------------------------------

  /** DELETE /user/<id>/favorites/{people,planets}/<id>. `scalar_one_or_none` yields
      nothing (404), the one matching row (deleted by primary key, 200), or raises when
      several rows match (500); a failed commit is also a 500. */
  function DeleteFavorite(db: Db, column: Column, userId: nat, targetId: nat, commit: Commit): (r: Step)
    ensures r.response.status == NOT_FOUND <==> CountWhere(db.favorites, ByPair(userId, column, targetId)) == 0
    ensures r.response.status == OK <==>
      CountWhere(db.favorites, ByPair(userId, column, targetId)) == 1 && commit == Committed
    ensures r.response.status in {NOT_FOUND, OK, SERVER_ERROR}
    ensures r.response.status != OK ==> r.db == db
    ensures r.response.status == OK ==>
      && r.db.users == db.users && r.db.people == db.people && r.db.planets == db.planets
      && r.db.nextFavoriteId == db.nextFavoriteId
      && |r.db.favorites| < |db.favorites|
      && (forall f :: f in r.db.favorites ==> f in db.favorites)
      && !AnyMatch(r.db.favorites, ByPair(userId, column, targetId))
  {
    var c := ByPair(userId, column, targetId);
    var rows := Select(db.favorites, c);
    if |rows| > 1 then
      Step(Response(SERVER_ERROR, ErrorMessage), db)
    else if |rows| == 0 then
      Step(Response(NOT_FOUND, Message), db)
    else
      match commit
      case StorageFailure => Step(Response(SERVER_ERROR, ErrorMessage), db)
      case Committed =>
        var row := rows[0];
        assert row in rows;
        var remaining := DeleteRow(db.favorites, row.id);
        assert remaining != db.favorites by {
          assert row in db.favorites && row !in remaining;
        }
        assert forall g :: g in rows ==> g == row by {
          assert rows == [row];
        }
        forall i | 0 <= i < |remaining|
          ensures !Matches(remaining[i], c)
        {
          assert remaining[i] in remaining;
        }
        Step(Response(OK, Message), db.(favorites := remaining))
  }

  /** DELETE /user/<id>/favorites/planets/<id>. */
  function DeleteFavoritePlanet(db: Db, userId: nat, planetId: nat, commit: Commit): (r: Step)
    ensures r.response.status == NOT_FOUND <==> !AnyMatch(db.favorites, ByPair(userId, PlanetsColumn, planetId))
    ensures r.response.status != OK ==> r.db == db
    ensures r.response.status == OK ==>
      forall f :: f in r.db.favorites ==> f in db.favorites && !(f.userId == userId && f.planetsId == Some(planetId))
  {
    CountPositiveIffAnyMatch(db.favorites, ByPair(userId, PlanetsColumn, planetId));
    var r := DeleteFavorite(db, PlanetsColumn, userId, planetId, commit);
    assert r.response.status == OK ==> forall f :: f in r.db.favorites ==> !Matches(f, ByPair(userId, PlanetsColumn, planetId));
    r
  }

  /** DELETE /user/<id>/favorites/people/<id>. */
  function DeleteFavoritePerson(db: Db, userId: nat, peopleId: nat, commit: Commit): (r: Step)
    ensures r.response.status == NOT_FOUND <==> !AnyMatch(db.favorites, ByPair(userId, PeopleColumn, peopleId))
    ensures r.response.status != OK ==> r.db == db
    ensures r.response.status == OK ==>
      forall f :: f in r.db.favorites ==> f in db.favorites && !(f.userId == userId && f.peopleId == Some(peopleId))
  {
    CountPositiveIffAnyMatch(db.favorites, ByPair(userId, PeopleColumn, peopleId));
    var r := DeleteFavorite(db, PeopleColumn, userId, peopleId, commit);
    assert r.response.status == OK ==> forall f :: f in r.db.favorites ==> !Matches(f, ByPair(userId, PeopleColumn, peopleId));
    r
  }
}
