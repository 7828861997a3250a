/** Properties that relate several data-manager calls to each other, stated
    on the table model of module Tables. */
module TableProperties {
  import opened Records
  import opened Tables

  /** A successful `remove_movie_from_user` deletes exactly one entry: the
      one linking the pair. */
  lemma RemoveMovieFromUserDeletesOne(db: Db, userId: int, movieId: int)
    requires Valid(db)
    requires RemoveMovieFromUser(db, userId, movieId).ok
    ensures var after := RemoveMovieFromUser(db, userId, movieId).db;
      && |after.library| == |db.library| - 1
      && exists k :: k in db.library && IsPair(db.library[k], userId, movieId)
                     && after.library == db.library - {k}
  {
    var after := RemoveMovieFromUser(db, userId, movieId).db;
    var k := LinkingKey(db, userId, movieId);
    PairKeysAtMostOne(db.library, userId, movieId, k);
    assert after.library == db.library - {k};
    assert k in db.library.Keys;
    assert |after.library.Keys| == |db.library.Keys - {k}| == |db.library.Keys| - 1;
  }

  /** The key of the entry a successful `remove_movie_from_user` deletes. */
  lemma LinkingKey(db: Db, userId: int, movieId: int) returns (k: int)
    requires RemoveMovieFromUser(db, userId, movieId).ok
    ensures k in PairKeys(db.library, userId, movieId)
  {
    k := PairKeysWitness(db.library, userId, movieId);
  }

  /** After `remove_movie_from_user` (whatever it returned) no entry links
      the pair, so `get_user_movie_relationship` finds nothing. */
  lemma RemoveThenNotFound(db: Db, userId: int, movieId: int)
    requires Valid(db)
    requires userId > 0 && movieId > 0
    ensures PairKeys(RemoveMovieFromUser(db, userId, movieId).db.library, userId, movieId) == {}
  {
    var r := RemoveMovieFromUser(db, userId, movieId);
    if r.ok {
      forall k | k in r.db.library ensures !IsPair(r.db.library[k], userId, movieId) {
        assert k !in PairKeys(db.library, userId, movieId);
      }
    }
  }

  /** A successful `add_user_movie_relationship` adds exactly one entry and
      it is the only one linking its pair. */
  lemma AddRelationshipAddsOne(db: Db, rel: LibraryEntry, id: int)
    requires Valid(db) && AssignedId(rel.id, db.library.Keys, id)
    requires AddUserMovieRelationship(db, rel, id).ok
    ensures var after := AddUserMovieRelationship(db, rel, id).db;
      && |after.library| == |db.library| + 1
      && PairKeys(after.library, rel.userId.value, rel.movieId.value) == {id}
  {
    var after := AddUserMovieRelationship(db, rel, id).db;
    assert after.library.Keys == db.library.Keys + {id};
    assert id in PairKeys(after.library, rel.userId.value, rel.movieId.value);
    PairKeysAtMostOne(after.library, rel.userId.value, rel.movieId.value, id);
  }

  /** Linking a pair that is already linked fails and changes nothing. */
  lemma AddRelationshipTwiceFails(db: Db, rel: LibraryEntry, id: int, again: LibraryEntry, id2: int)
    requires Valid(db) && AssignedId(rel.id, db.library.Keys, id)
    requires AddUserMovieRelationship(db, rel, id).ok
    requires again.userId == rel.userId && again.movieId == rel.movieId
    requires AssignedId(again.id, AddUserMovieRelationship(db, rel, id).db.library.Keys, id2)
    ensures var after := AddUserMovieRelationship(db, rel, id).db;
      AddUserMovieRelationship(after, again, id2) == Outcome(false, after)
  {
    var after := AddUserMovieRelationship(db, rel, id).db;
    assert id in PairKeys(after.library, rel.userId.value, rel.movieId.value);
  }

  /** `remove_movie_from_user` undoes a successful
      `add_user_movie_relationship` of the same pair. */
  lemma RemoveUndoesAdd(db: Db, rel: LibraryEntry, id: int)
    requires Valid(db) && AssignedId(rel.id, db.library.Keys, id)
    requires AddUserMovieRelationship(db, rel, id).ok
    requires rel.userId.value > 0 && rel.movieId.value > 0
    ensures var after := AddUserMovieRelationship(db, rel, id).db;
      RemoveMovieFromUser(after, rel.userId.value, rel.movieId.value) == Outcome(true, db)
  {
    var after := AddUserMovieRelationship(db, rel, id).db;
    AddRelationshipAddsOne(db, rel, id);
    var back := RemoveMovieFromUser(after, rel.userId.value, rel.movieId.value);
    assert back.db.library == db.library;
  }

  /** After linking `movieId` to `userId`, the user's movies gain that movie
      when it exists; no other user's movies change. */
  lemma UserMoviesAfterAdd(db: Db, rel: LibraryEntry, id: int, userId: int)
    requires Valid(db) && AssignedId(rel.id, db.library.Keys, id)
    requires AddUserMovieRelationship(db, rel, id).ok
    ensures var after := AddUserMovieRelationship(db, rel, id).db;
      UserMovieIds(after, userId) ==
        if userId == rel.userId.value && rel.movieId.value in db.movies
        then UserMovieIds(db, userId) + {rel.movieId.value}
        else UserMovieIds(db, userId)
  {
    var after := AddUserMovieRelationship(db, rel, id).db;
    forall m | m in db.movies
      ensures PairKeys(after.library, userId, m) ==
        if userId == rel.userId.value && m == rel.movieId.value
        then PairKeys(db.library, userId, m) + {id}
        else PairKeys(db.library, userId, m)
    {
    }
  }

  /** After unlinking a pair, the user's movies lose that movie; no other
      user's movies change. */
  lemma UserMoviesAfterRemove(db: Db, userId: int, movieId: int, u: int)
    requires Valid(db)
    requires RemoveMovieFromUser(db, userId, movieId).ok
    ensures UserMovieIds(RemoveMovieFromUser(db, userId, movieId).db, u) ==
      if u == userId then UserMovieIds(db, u) - {movieId} else UserMovieIds(db, u)
  {
    var after := RemoveMovieFromUser(db, userId, movieId).db;
    var k := LinkingKey(db, userId, movieId);
    PairKeysAtMostOne(db.library, userId, movieId, k);
    assert after.library == db.library - {k};
    forall m | m in db.movies
      ensures PairKeys(after.library, u, m) ==
        if u == userId && m == movieId then {} else PairKeys(db.library, u, m)
    {
    }
  }

  /** After `delete_movie`, no user lists the deleted movie any more, though
      the entries that linked it remain; every other movie stays listed. */
  lemma UserMoviesAfterDelete(db: Db, movieId: int, userId: int)
    requires DeleteMovie(db, movieId).ok
    ensures var after := DeleteMovie(db, movieId).db;
      && UserMovieIds(after, userId) == UserMovieIds(db, userId) - {movieId}
      && PairKeys(after.library, userId, movieId) == PairKeys(db.library, userId, movieId)
  {
  }

  /** `update_movie` changes no user's list of movie ids. */
  lemma UserMoviesAfterUpdate(db: Db, movie: Movie, userId: int)
    ensures UserMovieIds(UpdateMovie(db, movie).db, userId) == UserMovieIds(db, userId)
  {
  }
}
