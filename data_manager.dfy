/** The data-access facade `SQLiteDataManager`: the three tables are fields
    of the object, every mutating call updates them in place or leaves them
    as they were (commit or rollback), and every query reads them. Each
    mutating method is proved to do exactly what the matching function of
    module Tables describes. */
module DataManager {
  import opened Records
  import Tables

  /** Some element of a non-empty set: the next row a table scan visits. */
  method Choose(s: set<int>) returns (x: int)
    requires s != {}
    ensures x in s
  {
    if forall y :: y !in s {
      assert false;
    }
    x :| x in s;
  }

  /** The key SQLite gives a row inserted without a primary key: one more
      than the largest key in use, and never below 1. */
  method NextRowId(inUse: set<int>) returns (id: int)
    ensures id > 0 && id !in inUse
    ensures forall k :: k in inUse ==> k < id
    ensures id == 1 || id - 1 in inUse
  {
    id := 1;
    var todo := inUse;
    while todo != {}
      invariant todo <= inUse
      invariant id > 0
      invariant forall k :: k in inUse && k !in todo ==> k < id
      invariant id == 1 || id - 1 in inUse
      decreases |todo|
    {
      var k := Choose(todo);
      if k >= id {
        id := k + 1;
      }
      todo := todo - {k};
    }
  }

  /** The query `filter(user_id == userId, movie_id == movieId).first()`
      over `lib`: the key of an entry linking the pair, if there is one. */
  method FindPair(lib: map<int, LibraryEntry>, userId: int, movieId: int) returns (key: Option<int>)
    ensures key.None? <==> Tables.PairKeys(lib, userId, movieId) == {}
    ensures key.Some? ==> key.value in Tables.PairKeys(lib, userId, movieId)
  {
    var todo := lib.Keys;
    while todo != {}
      invariant todo <= lib.Keys
      invariant forall k :: k in lib && k !in todo ==> !Tables.IsPair(lib[k], userId, movieId)
      decreases |todo|
    {
      var k := Choose(todo);
      if Tables.IsPair(lib[k], userId, movieId) {
        assert k in Tables.PairKeys(lib, userId, movieId);
        return Some(k);
      }
      todo := todo - {k};
    }
    assert forall k :: k !in Tables.PairKeys(lib, userId, movieId);
    return None;
  }

  class SQLiteDataManager {
    /** The path of the database file; the model does not open it. */
    const dbFileName: string
    var users: map<int, User>
    var movies: map<int, Movie>
    var library: map<int, LibraryEntry>

    /** The tables as a value. */
    function Store(): Tables.Db
      reads this
    {
      Tables.Db(users, movies, library)
    }

    /** The schema's constraints hold in the current tables. */
    predicate Valid()
      reads this
    {
      Tables.Valid(Store())
    }

    /** A data manager over a database whose tables currently hold `initial`. */
    constructor (dbFileName: string, initial: Tables.Db)
      requires Tables.Valid(initial)
      ensures Valid() && Store() == initial && this.dbFileName == dbFileName
    {
      this.dbFileName := dbFileName;
      users, movies, library := initial.users, initial.movies, initial.library;
    }

    /** `get_all_users`: every stored user, each once, in no particular
        order (an empty table gives the empty list). */
    method GetAllUsers() returns (r: seq<User>)
      requires Valid()
      ensures |r| == |users|
      ensures forall x :: x in r <==> x in users.Values
      ensures forall i, j :: 0 <= i < j < |r| ==> r[i] != r[j]
    {
      r := [];
      var todo := users.Keys;
      while todo != {}
        invariant todo <= users.Keys
        invariant |r| + |todo| == |users.Keys|
        invariant forall i :: 0 <= i < |r| ==>
          r[i].id.Some? && r[i].id.value in users && r[i].id.value !in todo && users[r[i].id.value] == r[i]
        invariant forall k :: k in users && k !in todo ==> users[k] in r
        invariant forall i, j :: 0 <= i < j < |r| ==> r[i] != r[j]
        decreases |todo|
      {
        var k := Choose(todo);
        assert users[k].id == Some(k);
        r := r + [users[k]];
        todo := todo - {k};
      }
      assert |users.Keys| == |users|;
      forall x | x in users.Values ensures x in r {
        if forall k :: k in users ==> users[k] != x {
          assert false;
        }
      }
    }

    /** `get_user_movies`: `None` (the source's `False`) for a non-positive
        id; otherwise every movie some library entry links to the user, each
        once, in no particular order. */
    method GetUserMovies(userId: int) returns (r: Option<seq<Movie>>)
      requires Valid()
      ensures r.None? <==> userId <= 0
      ensures r.Some? ==> forall m :: m in Tables.UserMovieIds(Store(), userId) ==> movies[m] in r.value
      ensures r.Some? ==> forall i :: 0 <= i < |r.value| ==>
        && r.value[i].id.Some?
        && r.value[i].id.value in Tables.UserMovieIds(Store(), userId)
        && movies[r.value[i].id.value] == r.value[i]
      ensures r.Some? ==> forall i, j :: 0 <= i < j < |r.value| ==> r.value[i] != r.value[j]
    {
      if userId <= 0 {
        return None;
      }
      var found: seq<Movie> := [];
      ghost var ids: set<int> := {};
      var todo := library.Keys;
      while todo != {}
        invariant todo <= library.Keys
        invariant ids <= movies.Keys
        invariant forall m :: m in ids <==>
          m in movies && exists k :: k in library && k !in todo && Tables.IsPair(library[k], userId, m)
        invariant forall i :: 0 <= i < |found| ==>
          found[i].id.Some? && found[i].id.value in ids && movies[found[i].id.value] == found[i]
        invariant forall m :: m in ids ==> movies[m] in found
        invariant forall i, j :: 0 <= i < j < |found| ==> found[i] != found[j]
        decreases |todo|
      {
        var k := Choose(todo);
        var e := library[k];
        if e.userId == Some(userId) && e.movieId.Some? && e.movieId.value in movies {
          var m := e.movieId.value;
          assert m !in ids by {
            assert forall j :: j in library && j !in todo ==> j != k;
          }
          assert movies[m].id == Some(m);
          found := found + [movies[m]];
          ids := ids + {m};
        }
        todo := todo - {k};
      }
      forall m | m in Tables.UserMovieIds(Store(), userId) ensures m in ids {
        var k := Tables.PairKeysWitness(library, userId, m);
      }
      return Some(found);
    }

    /** `add_user`: adds the user under `id` (the one it carries or a fresh
        autoincrement key) unless the commit refuses it. */
    method AddUser(user: User) returns (ok: bool, id: int)
      requires Valid()
      modifies this
      ensures Valid()
      ensures Tables.AssignedId(user.id, old(users).Keys, id)
      ensures Tables.Outcome(ok, Store()) == Tables.AddUser(old(Store()), user, id)
    {
      var autoId := NextRowId(users.Keys);
      id := if user.id.Some? then user.id.value else autoId;
      if user.name.None? || id in users {
        return false, id;
      }
      users := users[id := user.(id := Some(id))];
      ok := true;
    }

    /** `add_movie`: adds the movie under `id` unless the commit refuses it. */
    method AddMovie(movie: Movie) returns (ok: bool, id: int)
      requires Valid()
      modifies this
      ensures Valid()
      ensures Tables.AssignedId(movie.id, old(movies).Keys, id)
      ensures Tables.Outcome(ok, Store()) == Tables.AddMovie(old(Store()), movie, id)
    {
      var autoId := NextRowId(movies.Keys);
      id := if movie.id.Some? then movie.id.value else autoId;
      if movie.title.None? || id in movies {
        return false, id;
      }
      movies := movies[id := movie.(id := Some(id))];
      ok := true;
    }

    /** `update_movie`: replaces the stored movie with the same id. */
    method UpdateMovie(movie: Movie) returns (ok: bool)
      requires Valid()
      modifies this
      ensures Valid()
      ensures Tables.Outcome(ok, Store()) == Tables.UpdateMovie(old(Store()), movie)
    {
      if movie.id.None? || movie.id.value == 0 {
        return false;
      }
      var id := movie.id.value;
      if id !in movies {
        return false;
      }
      var remaining := movies - {id};
      if movie.title.None? {
        return false;
      }
      movies := remaining[id := movie];
      ok := true;
    }

    /** `update_relationship`: replaces the stored entry with the same id. */
    method UpdateRelationship(rel: LibraryEntry) returns (ok: bool)
      requires Valid()
      modifies this
      ensures Valid()
      ensures Tables.Outcome(ok, Store()) == Tables.UpdateRelationship(old(Store()), rel)
    {
      if rel.id.None? || rel.id.value !in library {
        return false;
      }
      var id := rel.id.value;
      var rest := library - {id};
      if rel.userId.None? || rel.movieId.None? {
        return false;
      }
      var clash := FindPair(rest, rel.userId.value, rel.movieId.value);
      if clash.Some? {
        return false;
      }
      library := rest[id := Tables.WithDefaults(rel, id)];
      ok := true;
    }

    /** `delete_movie`: removes the movie row with that id. */
    method DeleteMovie(movieId: int) returns (ok: bool)
      requires Valid()
      modifies this
      ensures Valid()
      ensures Tables.Outcome(ok, Store()) == Tables.DeleteMovie(old(Store()), movieId)
    {
      if movieId <= 0 {
        return false;
      }
      if movieId !in movies {
        return false;
      }
      movies := movies - {movieId};
      ok := true;
    }

    /** `remove_movie_from_user`: deletes the entry linking the pair. */
    method RemoveMovieFromUser(userId: int, movieId: int) returns (ok: bool)
      requires Valid()
      modifies this
      ensures Valid()
      ensures Tables.Outcome(ok, Store()) == Tables.RemoveMovieFromUser(old(Store()), userId, movieId)
    {
      if movieId <= 0 {
        return false;
      }
      if userId <= 0 {
        return false;
      }
      var key := FindPair(library, userId, movieId);
      if key.None? {
        return false;
      }
      Tables.PairKeysAtMostOne(library, userId, movieId, key.value);
      library := library - {key.value};
      ok := true;
    }

    /** `add_user_movie_relationship`: adds the entry under `id` unless the
        commit refuses it. */
    method AddUserMovieRelationship(rel: LibraryEntry) returns (ok: bool, id: int)
      requires Valid()
      modifies this
      ensures Valid()
      ensures Tables.AssignedId(rel.id, old(library).Keys, id)
      ensures Tables.Outcome(ok, Store()) == Tables.AddUserMovieRelationship(old(Store()), rel, id)
    {
      var autoId := NextRowId(library.Keys);
      id := if rel.id.Some? then rel.id.value else autoId;
      if id in library || rel.userId.None? || rel.movieId.None? {
        return false, id;
      }
      var clash := FindPair(library, rel.userId.value, rel.movieId.value);
      if clash.Some? {
        return false, id;
      }
      ghost var before := Store();
      library := library[id := Tables.WithDefaults(rel, id)];
      ok := true;
      assert Store() == Tables.AddUserMovieRelationship(before, rel, id).db;
    }

    /** `get_user_by_id`: the user with that primary key, or `None` (the
        source's `False`) for a non-positive id or a missing row. */
    function GetUserById(userId: int): (r: Option<User>)
      reads this
      requires Valid()
      ensures r.Some? <==> userId > 0 && userId in users
      ensures r.Some? ==> r.value == users[userId] && r.value.id == Some(userId) && r.value.name.Some?
    {
      if userId <= 0 then None
      else if userId !in users then None
      else Some(users[userId])
    }

    /** `get_movie_by_id`: the movie with that primary key, or `None`. */
    function GetMovieById(movieId: int): (r: Option<Movie>)
      reads this
      requires Valid()
      ensures r.Some? <==> movieId > 0 && movieId in movies
      ensures r.Some? ==> r.value == movies[movieId] && r.value.id == Some(movieId) && r.value.title.Some?
    {
      if movieId <= 0 then None
      else if movieId !in movies then None
      else Some(movies[movieId])
    }

    /** `get_user_movie_relationship`: the entry linking the pair, or `None`
        for a non-positive id or an unlinked pair. */
    method GetUserMovieRelationship(userId: int, movieId: int) returns (r: Option<LibraryEntry>)
      requires Valid()
      ensures r.Some? <==> userId > 0 && movieId > 0 && Tables.PairKeys(library, userId, movieId) != {}
      ensures r.Some? ==>
        && r.value.id.Some? && r.value.id.value in library && library[r.value.id.value] == r.value
        && Tables.IsPair(r.value, userId, movieId)
    {
      if userId <= 0 {
        return None;
      }
      if movieId <= 0 {
        return None;
      }
      var key := FindPair(library, userId, movieId);
      if key.None? {
        return None;
      }
      assert key.value in library;
      assert Tables.EntryRow(key.value, library[key.value]);
      return Some(library[key.value]);
    }
  }
}
