/** The database behind the data manager, as a value: three tables keyed by
    primary key, the constraints the schema declares on them, and one
    function per mutating facade call giving the flag it returns and the
    tables after the call has committed or rolled back. */
module Tables {
  import opened Records

  /** The three tables `users`, `movies` and `user_movie_library`. */
  datatype Db = Db(
    users: map<int, User>,
    movies: map<int, Movie>,
    library: map<int, LibraryEntry>)

  /** What a mutating call returns and what the tables hold afterwards. */
  datatype Outcome = Outcome(ok: bool, db: Db)

  /** A stored user: its primary key column equals its key, name is NOT NULL. */
  predicate UserRow(k: int, u: User) {
    u.id == Some(k) && u.name.Some?
  }

  /** A stored movie: its primary key column equals its key, title is NOT NULL. */
  predicate MovieRow(k: int, m: Movie) {
    m.id == Some(k) && m.title.Some?
  }

  /** A stored library entry: user_id, movie_id and is_favorite are NOT NULL. */
  predicate EntryRow(k: int, e: LibraryEntry) {
    e.id == Some(k) && e.userId.Some? && e.movieId.Some? && e.isFavorite.Some?
  }

  predicate IsPair(e: LibraryEntry, userId: int, movieId: int) {
    e.userId == Some(userId) && e.movieId == Some(movieId)
  }

  /** The UNIQUE (user_id, movie_id) constraint `unique_user_movie`. */
  predicate PairsUnique(lib: map<int, LibraryEntry>) {
    forall j, k :: j in lib && k in lib && j != k ==>
      lib[j].userId != lib[k].userId || lib[j].movieId != lib[k].movieId
  }

  /** Every constraint the schema declares holds. Foreign keys are not
      among them: SQLite does not enforce them unless asked to. */
  predicate Valid(db: Db) {
    && (forall k :: k in db.users ==> UserRow(k, db.users[k]))
    && (forall k :: k in db.movies ==> MovieRow(k, db.movies[k]))
    && (forall k :: k in db.library ==> EntryRow(k, db.library[k]))
    && PairsUnique(db.library)
  }

  /** Keys of the entries linking `userId` to `movieId`: what
      `filter(user_id == .., movie_id == ..)` selects. */
  function PairKeys(lib: map<int, LibraryEntry>, userId: int, movieId: int): set<int> {
    set k | k in lib && IsPair(lib[k], userId, movieId)
  }

  /** The ids of the movies `Movie.query.join(UserMovieLibrary)
      .filter(user_id == userId)` returns: the inner join skips entries
      whose movie_id names no movie. */
  function UserMovieIds(db: Db, userId: int): set<int> {
    set m | m in db.movies && PairKeys(db.library, userId, m) != {}
  }

  /** The primary key a newly written row receives: the one the caller set
      or, when it is unset, an autoincrement value not yet in use. */
  predicate AssignedId(given: Option<int>, inUse: set<int>, id: int) {
    match given
    case Some(g) => id == g
    case None => id > 0 && id !in inUse
  }

  /** The row written for `e` under key `id`, with the column defaults
      (is_favorite false, notes empty) for what was left unset. The defaults
      leave only the two link columns able to violate NOT NULL, and a row
      that already satisfies the constraints and has notes is written as
      it is. */
  function WithDefaults(e: LibraryEntry, id: int): (r: LibraryEntry)
    ensures EntryRow(id, r) <==> e.userId.Some? && e.movieId.Some?
    ensures EntryRow(id, e) && e.notes.Some? ==> r == e
  {
    LibraryEntry(
      Some(id), e.userId, e.movieId,
      if e.isFavorite.Some? then e.isFavorite else Some(false),
      if e.notes.Some? then e.notes else Some(""))
  }

  /** `add_user`: written under its id when the name is set and the id is
      free; otherwise the commit fails and is rolled back. */
  function AddUser(db: Db, user: User, id: int): (r: Outcome)
    requires AssignedId(user.id, db.users.Keys, id)
    ensures r.ok <==> user.name.Some? && id !in db.users
    ensures !r.ok ==> r.db == db
    ensures r.ok ==>
      && r.db.users.Keys == db.users.Keys + {id}
      && r.db.users[id] == User(Some(id), user.name)
      && (forall k :: k in db.users ==> r.db.users[k] == db.users[k])
      && r.db.movies == db.movies && r.db.library == db.library
    ensures Valid(db) ==> Valid(r.db)
  {
    if user.name.None? || id in db.users then Outcome(false, db)
    else Outcome(true, db.(users := db.users[id := user.(id := Some(id))]))
  }

  /** `add_movie`: written under its id when the title is set and the id is
      free; otherwise rolled back. */
  function AddMovie(db: Db, movie: Movie, id: int): (r: Outcome)
    requires AssignedId(movie.id, db.movies.Keys, id)
    ensures r.ok <==> movie.title.Some? && id !in db.movies
    ensures !r.ok ==> r.db == db
    ensures r.ok ==>
      && r.db.movies.Keys == db.movies.Keys + {id}
      && r.db.movies[id] == movie.(id := Some(id))
      && (forall k :: k in db.movies ==> r.db.movies[k] == db.movies[k])
      && r.db.users == db.users && r.db.library == db.library
    ensures Valid(db) ==> Valid(r.db)
  {
    if movie.title.None? || id in db.movies then Outcome(false, db)
    else Outcome(true, db.(movies := db.movies[id := movie.(id := Some(id))]))
  }

  /** `update_movie`: a missing or zero id and an id no movie has are
      refused; otherwise the old row is deleted and the new one added, which
      the commit refuses when the title is unset. */
  function UpdateMovie(db: Db, movie: Movie): (r: Outcome)
    ensures r.ok <==>
      movie.id.Some? && movie.id.value != 0 && movie.id.value in db.movies && movie.title.Some?
    ensures !r.ok ==> r.db == db
    ensures r.ok ==>
      && r.db.movies.Keys == db.movies.Keys
      && r.db.movies[movie.id.value] == movie
      && (forall k :: k in db.movies && k != movie.id.value ==> r.db.movies[k] == db.movies[k])
      && r.db.users == db.users && r.db.library == db.library
    ensures Valid(db) ==> Valid(r.db)
  {
    if movie.id.None? || movie.id.value == 0 then Outcome(false, db)
    else if movie.id.value !in db.movies then Outcome(false, db)
    else if movie.title.None? then Outcome(false, db)
    else
      var id := movie.id.value;
      Outcome(true, db.(movies := (db.movies - {id})[id := movie]))
  }

  /** `update_relationship`: the old entry is deleted and the new one added.
      With no entry under the id, deleting the missing row raises and the
      call is rolled back; the commit also fails when user_id or movie_id is
      unset or the pair belongs to another entry. */
  function UpdateRelationship(db: Db, rel: LibraryEntry): (r: Outcome)
    ensures r.ok <==>
      && rel.id.Some? && rel.id.value in db.library
      && rel.userId.Some? && rel.movieId.Some?
      && PairKeys(db.library, rel.userId.value, rel.movieId.value) <= {rel.id.value}
    ensures !r.ok ==> r.db == db
    ensures r.ok ==>
      && r.db.library.Keys == db.library.Keys
      && r.db.library[rel.id.value] == WithDefaults(rel, rel.id.value)
      && (forall k :: k in db.library && k != rel.id.value ==> r.db.library[k] == db.library[k])
      && r.db.users == db.users && r.db.movies == db.movies
    ensures Valid(db) ==> Valid(r.db)
  {
    if rel.id.None? || rel.id.value !in db.library then Outcome(false, db)
    else
      var id := rel.id.value;
      var rest := db.library - {id};
      if rel.userId.None? || rel.movieId.None? then Outcome(false, db)
      else if PairKeys(rest, rel.userId.value, rel.movieId.value) != {} then Outcome(false, db)
      else Outcome(true, db.(library := rest[id := WithDefaults(rel, id)]))
  }

  /** `delete_movie`: a non-positive id and an id no movie has are refused;
      otherwise the movie row goes and nothing else changes. */
  function DeleteMovie(db: Db, movieId: int): (r: Outcome)
    ensures r.ok <==> movieId > 0 && movieId in db.movies
    ensures !r.ok ==> r.db == db
    ensures r.ok ==>
      && r.db.movies.Keys == db.movies.Keys - {movieId}
      && (forall k :: k in r.db.movies ==> r.db.movies[k] == db.movies[k])
      && r.db.users == db.users && r.db.library == db.library
    ensures Valid(db) ==> Valid(r.db)
  {
    if movieId <= 0 then Outcome(false, db)
    else if movieId !in db.movies then Outcome(false, db)
    else Outcome(true, db.(movies := db.movies - {movieId}))
  }

  /** `remove_movie_from_user`: non-positive ids are refused (movie_id is
      checked first), a pair no entry links is refused, otherwise the entry
      for the pair is deleted. */
  function RemoveMovieFromUser(db: Db, userId: int, movieId: int): (r: Outcome)
    ensures r.ok <==> userId > 0 && movieId > 0 && PairKeys(db.library, userId, movieId) != {}
    ensures !r.ok ==> r.db == db
    ensures r.ok ==>
      && r.db.library.Keys == db.library.Keys - PairKeys(db.library, userId, movieId)
      && (forall k :: k in r.db.library ==> r.db.library[k] == db.library[k])
      && r.db.users == db.users && r.db.movies == db.movies
    ensures Valid(db) ==> Valid(r.db)
  {
    if movieId <= 0 then Outcome(false, db)
    else if userId <= 0 then Outcome(false, db)
    else
      var keys := PairKeys(db.library, userId, movieId);
      if keys == {} then Outcome(false, db)
      else Outcome(true, db.(library := db.library - keys))
  }

  /** `add_user_movie_relationship`: the commit fails when the id is taken,
      user_id or movie_id is unset, or an entry already links the pair. */
  function AddUserMovieRelationship(db: Db, rel: LibraryEntry, id: int): (r: Outcome)
    requires AssignedId(rel.id, db.library.Keys, id)
    ensures r.ok <==>
      && id !in db.library && rel.userId.Some? && rel.movieId.Some?
      && PairKeys(db.library, rel.userId.value, rel.movieId.value) == {}
    ensures !r.ok ==> r.db == db
    ensures r.ok ==>
      && r.db.library.Keys == db.library.Keys + {id}
      && r.db.library[id] == WithDefaults(rel, id)
      && (forall k :: k in db.library ==> r.db.library[k] == db.library[k])
      && r.db.users == db.users && r.db.movies == db.movies
    ensures Valid(db) ==> Valid(r.db)
  {
    if id in db.library || rel.userId.None? || rel.movieId.None? then Outcome(false, db)
    else if PairKeys(db.library, rel.userId.value, rel.movieId.value) != {} then Outcome(false, db)
    else Outcome(true, db.(library := db.library[id := WithDefaults(rel, id)]))
  }

  /** An entry linking the pair, when there is one. */
  lemma PairKeysWitness(lib: map<int, LibraryEntry>, userId: int, movieId: int) returns (k: int)
    requires PairKeys(lib, userId, movieId) != {}
    ensures k in lib && IsPair(lib[k], userId, movieId)
  {
    if forall j :: j !in PairKeys(lib, userId, movieId) {
      assert false;
    }
    k :| k in PairKeys(lib, userId, movieId);
  }

  /** Under the unique constraint a pair is linked by at most one entry. */
  lemma PairKeysAtMostOne(lib: map<int, LibraryEntry>, userId: int, movieId: int, k: int)
    requires PairsUnique(lib)
    requires k in PairKeys(lib, userId, movieId)
    ensures PairKeys(lib, userId, movieId) == {k}
  {
    forall j | j in PairKeys(lib, userId, movieId) ensures j == k {
      assert IsPair(lib[j], userId, movieId) && IsPair(lib[k], userId, movieId);
    }
  }
}
