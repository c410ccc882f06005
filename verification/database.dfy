/**
 The database as an immutable value: the four tables, plus the next primary key the
 storage engine will hand to an inserted favorite. The storage engine itself (sessions,
 transactions, constraint enforcement) is abstracted away; what the handlers rely on is
 stated as the well-formedness predicate `Valid`.
 */
module Database {
  import opened Wrappers
  import opened Models
  import opened Tables

  datatype Db = Db(
    users: seq<User>,
    people: seq<Person>,
    planets: seq<Planet>,
    favorites: seq<Favorite>,
    nextFavoriteId: int)

  // ---------------------------------------------------------------------------
  // Existence checks (`select(...).filter_by(id=...).exists()`)
  // ---------------------------------------------------------------------------

  predicate UserExists(db: Db, id: int)
  {
    HasKey(db.users, UserId, id)
  }

  predicate PersonExists(db: Db, id: int)
  {
    HasKey(db.people, PersonId, id)
  }

  predicate PlanetExists(db: Db, id: int)
  {
    HasKey(db.planets, PlanetId, id)
  }

  /** Whether the row a favorite's target column would reference exists. */
  predicate TargetExists(db: Db, column: Column, id: int)
  {
    match column
    case PeopleColumn => PersonExists(db, id)
    case PlanetsColumn => PlanetExists(db, id)
  }

  // ---------------------------------------------------------------------------
  // Well-formedness
  // ---------------------------------------------------------------------------

  /** Two favorites of the same user that share a non-NULL target in `column`. */
  predicate SamePair(f: Favorite, g: Favorite, column: Column)
  {
    f.userId == g.userId && Target(f, column).Some? && Target(f, column) == Target(g, column)
  }

  /** At most one favorite per (user, person) and per (user, planet). */
  ghost predicate OnePerPair(rows: seq<Favorite>)
  {
    forall i, j, column :: 0 <= i < j < |rows| ==> !SamePair(rows[i], rows[j], column)
  }

  /** The row references an existing user and an existing person or planet. */
  ghost predicate ReferencesExist(db: Db, f: Favorite)
  {
    && UserExists(db, f.userId)
    && (f.peopleId.Some? ==> PersonExists(db, f.peopleId.value))
    && (f.planetsId.Some? ==> PlanetExists(db, f.planetsId.value))
  }

  /** What every reachable database satisfies: primary keys and `username` are unique,
      the id counter is above every favorite id, every favorite has exactly one target
      whose row exists, and no (user, target) pair is bookmarked twice. */
  ghost predicate Valid(db: Db)
  {
    && UniqueBy(db.users, UserId)
    && UniqueBy(db.users, Username)
    && UniqueBy(db.people, PersonId)
    && UniqueBy(db.planets, PlanetId)
    && UniqueBy(db.favorites, FavoriteId)
    && (forall f :: f in db.favorites ==> f.id < db.nextFavoriteId)
    && (forall f :: f in db.favorites ==> HasExactlyOneTarget(f) && ReferencesExist(db, f))
    && OnePerPair(db.favorites)
  }

  /** Under `OnePerPair`, a (user, target) query matches at most one row. */
  lemma {:induction false} PairQueryMatchesAtMostOne(rows: seq<Favorite>, user: int, column: Column, target: int)
    requires OnePerPair(rows)
    ensures CountWhere(rows, ByPair(user, column, target)) <= 1
  {
    if |rows| > 0 {
      var c := ByPair(user, column, target);
      var tail := rows[1..];
      assert OnePerPair(tail) by {
        forall i, j, col | 0 <= i < j < |tail|
          ensures !SamePair(tail[i], tail[j], col)
        {
          assert tail[i] == rows[i + 1] && tail[j] == rows[j + 1];
        }
      }
      PairQueryMatchesAtMostOne(tail, user, column, target);
      if Matches(rows[0], c) {
        CountPositiveIffAnyMatch(tail, c);
        if AnyMatch(tail, c) {
          var k :| 0 <= k < |tail| && Matches(tail[k], c);
          assert SamePair(rows[0], rows[k + 1], column);
        }
      }
    }
  }
}
