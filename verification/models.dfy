/**
 The four record types of the schema (users, people, planets and the favorites
 join table), the `filter_by` queries issued against the favorites table, and the
 `serialize` methods that flatten a record into a JSON object. Each serialiser is
 paired with a parser that recovers the record from the object, so that "values are
 copied unchanged" is stated as a round trip.
 */
module Models {
  import opened Wrappers
  import opened Json
  import opened Tables

  datatype User = User(id: int, username: string)

  datatype Person = Person(id: int, name: string, gender: string, eyeColor: string, skinColor: string)

  /** `population` is stored as text and is never converted to a number. */
  datatype Planet = Planet(id: int, name: string, population: string, terrain: string, climate: string)

  /** A row of the favorites table; `None` is a NULL foreign key. */
  datatype Favorite = Favorite(id: int, userId: int, peopleId: Option<int>, planetsId: Option<int>)

  /** Primary-key and unique-column projections, for the generic table definitions. */
  function UserId(u: User): int { u.id }
  function Username(u: User): string { u.username }
  function PersonId(p: Person): int { p.id }
  function PlanetId(p: Planet): int { p.id }
  function FavoriteId(f: Favorite): int { f.id }

  /** The two target columns of a favorite. */
  datatype Column = PeopleColumn | PlanetsColumn

  function Target(f: Favorite, column: Column): Option<int>
  {
    match column
    case PeopleColumn => f.peopleId
    case PlanetsColumn => f.planetsId
  }

  function Other(column: Column): (r: Column)
    ensures r != column
  {
    match column
    case PeopleColumn => PlanetsColumn
    case PlanetsColumn => PeopleColumn
  }

  /** A favorite bookmarks exactly one person or exactly one planet. */
  predicate HasExactlyOneTarget(f: Favorite)
  {
    f.peopleId.Some? != f.planetsId.Some?
  }

  /** The row the add handlers insert: the chosen column holds the target, the other is NULL. */
  function NewFavorite(id: int, userId: int, column: Column, targetId: int): (f: Favorite)
    ensures f.id == id && f.userId == userId
    ensures Target(f, column) == Some(targetId) && Target(f, Other(column)) == None
    ensures HasExactlyOneTarget(f)
  {
    match column
    case PeopleColumn => Favorite(id, userId, Some(targetId), None)
    case PlanetsColumn => Favorite(id, userId, None, Some(targetId))
  }

  // ---------------------------------------------------------------------------
  // Queries on the favorites table
  // ---------------------------------------------------------------------------

  /** The `filter_by` criteria the source uses on the favorites table. A NULL column
      never equals an integer, so a target criterion only matches a set column. */
  datatype Criteria =
    | ByUser(user: int)
    | ByTarget(column: Column, target: int)
    | ByPair(user: int, column: Column, target: int)

  predicate Matches(f: Favorite, c: Criteria)
  {
    match c
    case ByUser(u) => f.userId == u
    case ByTarget(col, t) => Target(f, col) == Some(t)
    case ByPair(u, col, t) => f.userId == u && Target(f, col) == Some(t)
  }

  /** Number of rows meeting the criteria. */
  function CountWhere(rows: seq<Favorite>, c: Criteria): nat
  {
    if |rows| == 0 then 0
    else (if Matches(rows[0], c) then 1 else 0) + CountWhere(rows[1..], c)
  }

  /** Whether some row meets the criteria (the `exists()` queries). */
  predicate AnyMatch(rows: seq<Favorite>, c: Criteria)
  {
    exists i :: 0 <= i < |rows| && Matches(rows[i], c)
  }

  /** The rows a `filter_by` query returns, in table order. */
  function Select(rows: seq<Favorite>, c: Criteria): (r: seq<Favorite>)
    ensures |r| == CountWhere(rows, c)
    ensures forall f :: f in r <==> f in rows && Matches(f, c)
  {
    if |rows| == 0 then []
    else
      assert rows == [rows[0]] + rows[1..];
      var rest := Select(rows[1..], c);
      if Matches(rows[0], c) then [rows[0]] + rest else rest
  }

  /** The table after deleting the row with primary key `id`. */
  function DeleteRow(rows: seq<Favorite>, id: int): (r: seq<Favorite>)
    ensures forall f {:trigger f in r} :: f in r <==> f in rows && f.id != id
    ensures |r| <= |rows|
    ensures |r| == |rows| ==> r == rows
  {
    if |rows| == 0 then []
    else
      assert rows == [rows[0]] + rows[1..];
      var rest := DeleteRow(rows[1..], id);
      if rows[0].id == id then rest else [rows[0]] + rest
  }

  lemma {:induction false} CountPositiveIffAnyMatch(rows: seq<Favorite>, c: Criteria)
    ensures CountWhere(rows, c) > 0 <==> AnyMatch(rows, c)
  {
    if |rows| > 0 {
      CountPositiveIffAnyMatch(rows[1..], c);
      if AnyMatch(rows, c) && !Matches(rows[0], c) {
        var i :| 0 <= i < |rows| && Matches(rows[i], c);
        assert Matches(rows[1..][i - 1], c);
      }
      if AnyMatch(rows[1..], c) {
        var i :| 0 <= i < |rows[1..]| && Matches(rows[1..][i], c);
        assert Matches(rows[i + 1], c);
      }
    }
  }

  lemma {:induction false} SelectAppend(a: seq<Favorite>, b: seq<Favorite>, c: Criteria)
    ensures Select(a + b, c) == Select(a, c) + Select(b, c)
  {
    if |a| > 0 {
      assert (a + b)[1..] == a[1..] + b;
      SelectAppend(a[1..], b, c);
    } else {
      assert a + b == b;
    }
  }

  /** A query no earlier row meets returns exactly an appended row that meets it. */
  lemma SelectLast(a: seq<Favorite>, x: Favorite, c: Criteria)
    requires CountWhere(a, c) == 0 && Matches(x, c)
    ensures Select(a + [x], c) == [x]
  {
    SelectAppend(a, [x], c);
    assert [x][1..] == [];
  }

  lemma {:induction false} CountAppend(a: seq<Favorite>, b: seq<Favorite>, c: Criteria)
    ensures CountWhere(a + b, c) == CountWhere(a, c) + CountWhere(b, c)
  {
    SelectAppend(a, b, c);
  }

  lemma {:induction false} DeleteRowAppend(a: seq<Favorite>, b: seq<Favorite>, id: int)
    ensures DeleteRow(a + b, id) == DeleteRow(a, id) + DeleteRow(b, id)
  {
    if |a| > 0 {
      var ab := a + b;
      assert ab[0] == a[0] && ab[1..] == a[1..] + b;
      DeleteRowAppend(a[1..], b, id);
      var rest, kept := DeleteRow(a[1..], id), DeleteRow(b, id);
      assert [a[0]] + (rest + kept) == ([a[0]] + rest) + kept;
    } else {
      assert a + b == b;
    }
  }

  /** Deleting a primary key no row carries leaves the table as it was. */
  lemma {:induction false} DeleteAbsentRow(rows: seq<Favorite>, id: int)
    requires forall i :: 0 <= i < |rows| ==> rows[i].id != id
    ensures DeleteRow(rows, id) == rows
  {
    if |rows| > 0 {
      DeleteAbsentRow(rows[1..], id);
      assert rows == [rows[0]] + rows[1..];
    }
  }

  /** Deleting the key of a row no other row carries removes that row alone. */
  lemma DeleteRowCons(x: Favorite, rest: seq<Favorite>, id: int)
    ensures DeleteRow([x] + rest, id) == if x.id == id then DeleteRow(rest, id) else [x] + DeleteRow(rest, id)
  {
    assert ([x] + rest)[0] == x && ([x] + rest)[1..] == rest;
  }

  lemma DeleteRowAround(a: seq<Favorite>, x: Favorite, b: seq<Favorite>)
    requires forall i :: 0 <= i < |a| ==> a[i].id != x.id
    requires forall i :: 0 <= i < |b| ==> b[i].id != x.id
    ensures DeleteRow(a + [x] + b, x.id) == a + b
  {
    DeleteRowAppend(a + [x], b, x.id);
    DeleteRowAppend(a, [x], x.id);
    DeleteAbsentRow(a, x.id);
    DeleteAbsentRow(b, x.id);
    DeleteRowCons(x, [], x.id);
    assert [x] + [] == [x] && a + [] == a;
  }

  /** Deleting the key of a just-appended row whose key no earlier row carries undoes
      the append. */
  lemma DeleteRowLast(a: seq<Favorite>, x: Favorite)
    requires forall i :: 0 <= i < |a| ==> a[i].id != x.id
    ensures DeleteRow(a + [x], x.id) == a
  {
    DeleteRowAround(a, x, []);
    assert a + [x] + [] == a + [x] && a + [] == a;
  }

  /** When primary keys are distinct, deleting the key of row `k` removes exactly that row. */
  lemma {:induction false} DeleteRowAt(rows: seq<Favorite>, k: nat)
    requires k < |rows|
    requires UniqueBy(rows, FavoriteId)
    ensures DeleteRow(rows, rows[k].id) == rows[..k] + rows[k + 1..]
  {
    var head, tail := rows[..k], rows[k + 1..];
    forall i | 0 <= i < |head|
      ensures head[i].id != rows[k].id
    {
      assert head[i] == rows[i] && FavoriteId(rows[i]) != FavoriteId(rows[k]);
    }
    forall i | 0 <= i < |tail|
      ensures tail[i].id != rows[k].id
    {
      assert tail[i] == rows[k + 1 + i] && FavoriteId(rows[k]) != FavoriteId(rows[k + 1 + i]);
    }
    assert rows == head + [rows[k]] + tail;
    DeleteRowAround(head, rows[k], tail);
  }

  /** Removing one matching row lowers the count of matching rows by one. */
  lemma {:induction false} CountRemoveAt(rows: seq<Favorite>, k: nat, c: Criteria)
    requires k < |rows| && Matches(rows[k], c)
    ensures CountWhere(rows[..k] + rows[k + 1..], c) + 1 == CountWhere(rows, c)
  {
    assert rows == rows[..k] + [rows[k]] + rows[k + 1..];
    CountAppend(rows[..k] + [rows[k]], rows[k + 1..], c);
    CountAppend(rows[..k], [rows[k]], c);
    CountAppend(rows[..k], rows[k + 1..], c);
    assert [rows[k]][1..] == [];
  }

  // ---------------------------------------------------------------------------
  // Serialisation
  // ---------------------------------------------------------------------------

  function OptionalInt(o: Option<int>): Value
  {
    match o
    case None => Null
    case Some(n) => Int(n)
  }

  function ParseOptionalInt(v: Value): Option<Option<int>>
  {
    match v
    case Null => Some(None)
    case Int(n) => Some(Some(n))
    case _ => None
  }

  function ParseInt(fields: map<string, Value>, key: string): Option<int>
  {
    if key in fields && fields[key].Int? then Some(fields[key].n) else None
  }

  function ParseStr(fields: map<string, Value>, key: string): Option<string>
  {
    if key in fields && fields[key].Str? then Some(fields[key].s) else None
  }

  const FavoriteKeys: set<string> := {"id", "user_id", "people_id", "planets_id"}
  const UserKeys: set<string> := {"id", "username", "favorite"}
  const PersonKeys: set<string> := {"id", "name", "gender", "eye_color", "skin_color", "favorite"}
  const PlanetKeys: set<string> := {"id", "name", "population", "terrain", "climate", "favorite"}

  /** `Favorites.serialize`: the four columns, with NULL for an absent target. */
  function SerializeFavorite(f: Favorite): (v: Value)
    ensures v.Object? && v.fields.Keys == FavoriteKeys
    ensures v.fields["people_id"] == Null <==> f.peopleId == None
    ensures v.fields["planets_id"] == Null <==> f.planetsId == None
    ensures ParseFavorite(v) == Some(f)
  {
    Object(map[
      "id" := Int(f.id),
      "user_id" := Int(f.userId),
      "people_id" := OptionalInt(f.peopleId),
      "planets_id" := OptionalInt(f.planetsId)
    ])
  }

  function ParseFavorite(v: Value): Option<Favorite>
  {
    if !v.Object? then None
    else
      var id := ParseInt(v.fields, "id");
      var user := ParseInt(v.fields, "user_id");
      var person := if "people_id" in v.fields then ParseOptionalInt(v.fields["people_id"]) else None;
      var planet := if "planets_id" in v.fields then ParseOptionalInt(v.fields["planets_id"]) else None;
      if id.Some? && user.Some? && person.Some? && planet.Some?
      then Some(Favorite(id.value, user.value, person.value, planet.value))
      else None
  }

  /** The `favorite` array: one serialised element per related row, in row order. */
  function SerializeFavorites(rows: seq<Favorite>): (vs: seq<Value>)
    ensures |vs| == |rows|
    ensures forall i {:trigger vs[i]} :: 0 <= i < |rows| ==> vs[i] == SerializeFavorite(rows[i])
  {
    if |rows| == 0 then [] else [SerializeFavorite(rows[0])] + SerializeFavorites(rows[1..])
  }

  function ParseFavorites(vs: seq<Value>): Option<seq<Favorite>>
  {
    if |vs| == 0 then Some([])
    else
      var head, tail := ParseFavorite(vs[0]), ParseFavorites(vs[1..]);
      if head.Some? && tail.Some? then Some([head.value] + tail.value) else None
  }

  lemma {:induction false} FavoritesRoundTrip(rows: seq<Favorite>)
    ensures ParseFavorites(SerializeFavorites(rows)) == Some(rows)
  {
    if |rows| > 0 {
      var vs, rest := SerializeFavorites(rows), SerializeFavorites(rows[1..]);
      assert vs == [SerializeFavorite(rows[0])] + rest;
      assert vs[0] == SerializeFavorite(rows[0]) && vs[1..] == rest;
      FavoritesRoundTrip(rows[1..]);
      assert ParseFavorites(vs) == Some([rows[0]] + rows[1..]);
      assert rows == [rows[0]] + rows[1..];
    }
  }

  /** `User.serialize`; the relationship behind `favorite` joins on `user_id`. */
  function SerializeUser(u: User, favorites: seq<Favorite>): (v: Value)
    ensures v.Object? && v.fields.Keys == UserKeys
    ensures v.fields["favorite"].Array?
    ensures |v.fields["favorite"].items| == CountWhere(favorites, ByUser(u.id))
    ensures ParseUser(v) == Some((u, Select(favorites, ByUser(u.id))))
  {
    var related := Select(favorites, ByUser(u.id));
    FavoritesRoundTrip(related);
    Object(map[
      "id" := Int(u.id),
      "username" := Str(u.username),
      "favorite" := Array(SerializeFavorites(related))
    ])
  }

  function ParseRelated(fields: map<string, Value>): Option<seq<Favorite>>
  {
    if "favorite" in fields && fields["favorite"].Array? then ParseFavorites(fields["favorite"].items) else None
  }

  function ParseUser(v: Value): Option<(User, seq<Favorite>)>
  {
    if !v.Object? then None
    else
      var id := ParseInt(v.fields, "id");
      var username := ParseStr(v.fields, "username");
      var related := ParseRelated(v.fields);
      if id.Some? && username.Some? && related.Some?
      then Some((User(id.value, username.value), related.value))
      else None
  }

  /** `People.serialize`; the relationship behind `favorite` joins on `people_id`. */
  function SerializePerson(p: Person, favorites: seq<Favorite>): (v: Value)
    ensures v.Object? && v.fields.Keys == PersonKeys
    ensures v.fields["favorite"].Array?
    ensures |v.fields["favorite"].items| == CountWhere(favorites, ByTarget(PeopleColumn, p.id))
    ensures ParsePerson(v) == Some((p, Select(favorites, ByTarget(PeopleColumn, p.id))))
  {
    var related := Select(favorites, ByTarget(PeopleColumn, p.id));
    FavoritesRoundTrip(related);
    Object(map[
      "id" := Int(p.id),
      "name" := Str(p.name),
      "gender" := Str(p.gender),
      "eye_color" := Str(p.eyeColor),
      "skin_color" := Str(p.skinColor),
      "favorite" := Array(SerializeFavorites(related))
    ])
  }

  function ParsePerson(v: Value): Option<(Person, seq<Favorite>)>
  {
    if !v.Object? then None
    else
      var id := ParseInt(v.fields, "id");
      var name := ParseStr(v.fields, "name");
      var gender := ParseStr(v.fields, "gender");
      var eyeColor := ParseStr(v.fields, "eye_color");
      var skinColor := ParseStr(v.fields, "skin_color");
      var related := ParseRelated(v.fields);
      if id.Some? && name.Some? && gender.Some? && eyeColor.Some? && skinColor.Some? && related.Some?
      then Some((Person(id.value, name.value, gender.value, eyeColor.value, skinColor.value), related.value))
      else None
  }

  /** `Planets.serialize`; the relationship behind `favorite` joins on `planets_id`.
      `population` is passed through as the same string. */
  function SerializePlanet(p: Planet, favorites: seq<Favorite>): (v: Value)
    ensures v.Object? && v.fields.Keys == PlanetKeys
    ensures v.fields["population"] == Str(p.population)
    ensures v.fields["favorite"].Array?
    ensures |v.fields["favorite"].items| == CountWhere(favorites, ByTarget(PlanetsColumn, p.id))
    ensures ParsePlanet(v) == Some((p, Select(favorites, ByTarget(PlanetsColumn, p.id))))
  {
    var related := Select(favorites, ByTarget(PlanetsColumn, p.id));
    FavoritesRoundTrip(related);
    Object(map[
      "id" := Int(p.id),
      "name" := Str(p.name),
      "population" := Str(p.population),
      "terrain" := Str(p.terrain),
      "climate" := Str(p.climate),
      "favorite" := Array(SerializeFavorites(related))
    ])
  }

  function ParsePlanet(v: Value): Option<(Planet, seq<Favorite>)>
  {
    if !v.Object? then None
    else
      var id := ParseInt(v.fields, "id");
      var name := ParseStr(v.fields, "name");
      var population := ParseStr(v.fields, "population");
      var terrain := ParseStr(v.fields, "terrain");
      var climate := ParseStr(v.fields, "climate");
      var related := ParseRelated(v.fields);
      if id.Some? && name.Some? && population.Some? && terrain.Some? && climate.Some? && related.Some?
      then Some((Planet(id.value, name.value, population.value, terrain.value, climate.value), related.value))
      else None
  }
}
