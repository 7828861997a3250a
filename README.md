# MoviWeb data manager, modelled in Dafny

MoviWeb is a small movie-tracking web application. Users keep a library of
movies. Movie metadata comes from the OMDb API. Everything is stored in three
SQLite tables through the data-access facade `SQLiteDataManager`. This project
models that facade and the pure part of the OMDb client, and proves what their
code promises.

- `records.dfy` (module `Records`): the entities `User`, `Movie` and
  `LibraryEntry`. Every column is an `Option`, where `None` is Python's `None`.
- `tables.dfy` (module `Tables`): the database as a value `Db` holding three
  maps from primary key to row. `Valid` states the schema's constraints:
  the key equals the row's id, the NOT NULL columns are set, and
  `(user_id, movie_id)` is UNIQUE. There is one function per mutating facade
  call. It returns an `Outcome`: the flag the call returns, and the tables
  after commit or rollback. Each function's contract gives the exact success
  condition, all-or-nothing (a failed call returns the tables unchanged), the
  rows a successful call touches, and preservation of `Valid`.
- `properties.dfy` (module `TableProperties`): lemmas that relate calls to
  each other. Removing a pair deletes exactly one entry and undoes adding it.
  A pair cannot be linked twice. A user's movie list after add, remove,
  delete and update is stated in terms of the list before.
- `data_manager.dfy` (module `DataManager`): the class `SQLiteDataManager`.
  Its fields `users`, `movies` and `library` are maps that the methods update
  in place. Each mutating method is proved to produce exactly the `Outcome`
  of the matching `Tables` function. The queries `get_all_users`,
  `get_user_movies` and `.filter(...).first()` scan a table in a loop. Each
  is proved against the set of rows it must return. Primary-key lookups are
  functions on the fields.
- `omdb_api.dfy` (module `OmdbApi`): `safe_get`, the response-to-record
  step of `get_movie_info`, and the stripped `t` request parameter. Python's
  `str.strip` is modelled together with `str.isspace`'s set of whitespace
  characters.

Modelling choices:
- Python's `isinstance` checks become Dafny types, so a wrongly typed argument
  cannot be passed.
- The sentinel `False` of the getters is `None` of an `Option` result.
- Autoincrement is modelled as follows. A mutating function takes the id the
  row receives. That id is either the one the caller set, or an unused
  positive key (`AssignedId`). The methods pick one more than the largest key
  in use, or 1 when no key is positive (`NextRowId`). This follows SQLite's
  usual choice for a table without the AUTOINCREMENT keyword; the cases where
  SQLite chooses differently are listed under "Left out".
- The add methods also return the id assigned to the row. This stands for
  the primary key SQLAlchemy writes back into the added object, which the
  caller reads at `app.py:141`.

Two points about the code:
- The foreign keys `user_id` and `movie_id` are declared at
  `datamanager/sqlite_data_manager.py:69-70`, but SQLite does not enforce
  them by default. So `Valid` does not require that a library entry names an
  existing user and movie.
- `update_relationship` guards on the argument (`if not relationship`,
  `datamanager/sqlite_data_manager.py:207`) where the looked-up row was
  meant. The guard therefore never fires. A missing entry instead makes
  `session.delete(None)` raise, and that exception is rolled back. The
  observable result is the same (`False`, tables unchanged), and the model
  states that result.

The definitions every contract relies on, and the source lines they state:
- `Tables.Valid`: the NOT NULL columns and the UNIQUE (user_id, movie_id)
  constraint, `datamanager/sqlite_data_manager.py:13, 37, 69-71, 76`.
- `Tables.UserMovieIds`: the inner join of `get_user_movies`,
  `datamanager/sqlite_data_manager.py:114-115`.
- `Tables.PairKeys`: the filter on user_id and movie_id,
  `datamanager/sqlite_data_manager.py:261-264` and `:347-350`.

## Model

| member | source | states |
|---|---|---|
| `Tables.WithDefaults` | datamanager/sqlite_data_manager.py:69-72 | with the column defaults applied, the written entry satisfies the NOT NULL constraints exactly when user_id and movie_id are set; an entry that already satisfies them and has notes is written unchanged |
| `Tables.PairKeysAtMostOne` | datamanager/sqlite_data_manager.py:76 | under the UNIQUE (user_id, movie_id) constraint, at most one entry links a given pair |
| `Tables.AddUser` | datamanager/sqlite_data_manager.py:127-144 | succeeds exactly when the name is set (NOT NULL) and the id is free; on failure the tables are unchanged; on success exactly one user row is added and the other tables are untouched; constraints are preserved |
| `Tables.AddMovie` | datamanager/sqlite_data_manager.py:147-164 | succeeds exactly when the title is set and the id is free; on failure the tables are unchanged; on success exactly one movie row is added; constraints are preserved |
| `Tables.UpdateMovie` | datamanager/sqlite_data_manager.py:167-195 | fails with the tables unchanged when the id is unset or 0, no movie has it, or the new title is unset (the last as for a fresh row; see "Left out" on UpdateMovie and UpdateRelationship); on success only the movie with that id changes, to the new fields |
| `Tables.UpdateRelationship` | datamanager/sqlite_data_manager.py:198-222 | fails with the tables unchanged when no entry has the id, user or movie id is unset (as for a fresh row; see "Left out" on UpdateMovie and UpdateRelationship), or another entry links the pair; on success only that entry is replaced |
| `Tables.DeleteMovie` | datamanager/sqlite_data_manager.py:225-248 | succeeds exactly when the id is positive and a movie has it; on success only that movie row is removed and the library is untouched; on failure nothing changes |
| `Tables.RemoveMovieFromUser` | datamanager/sqlite_data_manager.py:251-281 | succeeds exactly when both ids are positive and an entry links the pair; on success only entries linking the pair are removed; on failure nothing changes |
| `Tables.AddUserMovieRelationship` | datamanager/sqlite_data_manager.py:284-301 | fails with the tables unchanged when the id is taken, user or movie id is unset, or the pair is already linked; on success exactly one entry is added; uniqueness is preserved |
| `TableProperties.RemoveMovieFromUserDeletesOne` | datamanager/sqlite_data_manager.py:260-276 | a successful remove deletes exactly one entry, the one linking the pair, and the library shrinks by one |
| `TableProperties.RemoveThenNotFound` | datamanager/sqlite_data_manager.py:347-356 | after a remove with positive ids, whatever it returned, no entry links the pair, so the relationship lookup finds nothing |
| `TableProperties.AddRelationshipAddsOne` | datamanager/sqlite_data_manager.py:290-296 | a successful add grows the library by one, and the new entry is the only one linking its pair |
| `TableProperties.AddRelationshipTwiceFails` | datamanager/sqlite_data_manager.py:76 | adding a second entry for a pair that is already linked returns false and changes nothing |
| `TableProperties.RemoveUndoesAdd` | datamanager/sqlite_data_manager.py:284-301 | removing a pair just added restores the tables exactly as they were before the add |
| `TableProperties.UserMoviesAfterAdd` | datamanager/sqlite_data_manager.py:114-115 | after linking a movie, that user's join gains the movie if it exists; no other user's join changes |
| `TableProperties.UserMoviesAfterRemove` | datamanager/sqlite_data_manager.py:114-115 | after unlinking a pair, that user's join loses exactly that movie; no other user's join changes |
| `TableProperties.UserMoviesAfterDelete` | datamanager/sqlite_data_manager.py:233-242 | after deleting a movie, no user's join lists it, while the entries that linked it remain |
| `TableProperties.UserMoviesAfterUpdate` | datamanager/sqlite_data_manager.py:184-187 | updating a movie leaves every user's join of movie ids unchanged |
| `DataManager.NextRowId` | datamanager/sqlite_data_manager.py:12 | the autoincrement key is positive and larger than every key in use, so it is fresh; it is 1 or one more than a key in use |
| `DataManager.FindPair` | datamanager/sqlite_data_manager.py:261-264 | the scan finds nothing exactly when no entry links the pair; otherwise it returns the key of one that does |
| `DataManager.SQLiteDataManager.constructor` | datamanager/sqlite_data_manager.py:91-93 | the manager holds its file name and the database's current tables, which satisfy the constraints |
| `DataManager.SQLiteDataManager.GetAllUsers` | datamanager/sqlite_data_manager.py:96-105 | returns every stored user exactly once, and nothing else; an empty table gives the empty list |
| `DataManager.SQLiteDataManager.GetUserMovies` | datamanager/sqlite_data_manager.py:108-123 | `None` exactly when the id is not positive; otherwise exactly the movies some entry links to the user, each once, and the empty list when there are none |
| `DataManager.SQLiteDataManager.AddUser` | datamanager/sqlite_data_manager.py:127-144 | the new tables and the flag are those of `Tables.AddUser`, with the assigned id given or fresh; constraints hold afterwards |
| `DataManager.SQLiteDataManager.AddMovie` | datamanager/sqlite_data_manager.py:147-164 | the new tables and the flag are those of `Tables.AddMovie`, with the assigned id given or fresh |
| `DataManager.SQLiteDataManager.UpdateMovie` | datamanager/sqlite_data_manager.py:167-195 | the new tables and the flag are those of `Tables.UpdateMovie` |
| `DataManager.SQLiteDataManager.UpdateRelationship` | datamanager/sqlite_data_manager.py:198-222 | the new tables and the flag are those of `Tables.UpdateRelationship` |
| `DataManager.SQLiteDataManager.DeleteMovie` | datamanager/sqlite_data_manager.py:225-248 | the new tables and the flag are those of `Tables.DeleteMovie` |
| `DataManager.SQLiteDataManager.RemoveMovieFromUser` | datamanager/sqlite_data_manager.py:251-281 | the new tables and the flag are those of `Tables.RemoveMovieFromUser` |
| `DataManager.SQLiteDataManager.AddUserMovieRelationship` | datamanager/sqlite_data_manager.py:284-301 | the new tables and the flag are those of `Tables.AddUserMovieRelationship`, with the assigned id given or fresh |
| `DataManager.SQLiteDataManager.GetUserById` | datamanager/sqlite_data_manager.py:304-318 | `None` exactly when the id is not positive or no user has it; otherwise the stored user, whose id is that id |
| `DataManager.SQLiteDataManager.GetMovieById` | datamanager/sqlite_data_manager.py:321-335 | `None` exactly when the id is not positive or no movie has it; otherwise the stored movie with that id |
| `DataManager.SQLiteDataManager.GetUserMovieRelationship` | datamanager/sqlite_data_manager.py:338-360 | `None` exactly when an id is not positive or no entry links the pair; otherwise the stored entry linking it |
| `OmdbApi.SafeGet` | omdbapi.py:15-20 | an absent key gives the default, an "N/A" value gives the default, and any other value is returned unchanged |
| `OmdbApi.ParseResponse` | omdbapi.py:53-63 | no record unless Response is "True"; otherwise a missing or "N/A" title, year, director or poster falls back to 'Unknown Title', '0', 'Unknown Director' or None, and a present field is taken as is |
| `OmdbApi.Strip` | omdbapi.py:40 | the result is the input without its surrounding whitespace: what is cut off is whitespace, and the result neither starts nor ends with whitespace |
| `OmdbApi.StrippedUnique` | omdbapi.py:40 | that description fixes the stripped string uniquely |
| `OmdbApi.StripIdempotent` | omdbapi.py:40 | stripping twice gives the same string as stripping once |
| `OmdbApi.RequestParams` | omdbapi.py:39-42 | the `t` parameter is the title with its surrounding whitespace removed, and `apikey` is the configured key |

## Left out

- Flask routes, forms, templates, flash messages, logging, JSON
  serialisation and database file creation (`app.py`, `api.py`,
  `app_setup.py`) are HTTP and configuration plumbing. The route tests in
  `test_app.py` are left out for the same reason.
- The OMDb HTTP request, `raise_for_status` and `.json()` are network I/O.
  `ParseResponse` takes the decoded response as a string-to-string map.
  Non-string JSON values are not modelled.
- `OmdbApi.ParseResponse`: does not model the `rating` field. Its
  `float(...)` conversion is floating-point parsing, and a value that does
  not parse raises an error that `get_movie_info` does not catch.
- Database errors other than the constraint failures the schema declares
  are not modelled. For the queries this means the `except` branches that
  return `[]` or `False`; for the mutations, any other failure of the commit.
- `date_added` is not modelled, because its value is a clock reading.
- The order of the rows returned by `.all()` is not modelled. The list
  contracts state which rows appear, and that each appears once.
- Which entry `.first()` returns when several match is not modelled. Under
  the UNIQUE constraint at most one matches.
- ORM object identity is not modelled. Arguments are values. So re-adding an
  object that is already in the session, or passing the same object that a
  getter returned, behaves like passing a fresh object with the same fields.
- An explicitly set `None` for `is_favorite` or `notes` is treated like an
  unset attribute, so the column default applies.
- `UpdateMovie` and `UpdateRelationship` are modelled as written: delete the
  old row, then insert the argument as a fresh row. SQLAlchemy turns this into
  a single UPDATE, and the rows it writes differ from the model's in two
  ways. First, when the argument is the object a getter returned (as at
  `app.py:192-215`), an attribute set to `None` is written as NULL; the model
  writes the INSERT default (`""` for notes, false for is_favorite). Second,
  when a fresh object replaces the row, attributes it leaves unset keep the
  old row's values; the model writes them as unset (`None`, or the default).
  For the NOT NULL columns the returned flag differs too, in both directions.
  A fresh object with `title` unset (movie), or with `user_id` or `movie_id`
  unset (entry), makes the UPDATE keep the old value and the call return
  `True`; the model returns `False` with the tables unchanged. A getter's
  entry with `is_favorite` set to `None` makes the UPDATE write NULL into the
  NOT NULL column at `datamanager/sqlite_data_manager.py:71`, so the commit
  fails and the call returns `False`; the model commits and writes false.
- `DeleteMovie`: does not model what happens to library entries that still
  reference the deleted movie. The relationship at
  `datamanager/sqlite_data_manager.py:43` declares no cascade. With that
  declaration SQLAlchemy most likely sets those entries' `movie_id` to NULL.
  That breaks the NOT NULL constraint at line 70, so the commit fails, is
  rolled back, and the call returns `False`. The model instead lets the
  delete succeed and leaves those entries as they are. The inner join of
  `get_user_movies` then skips them (`UserMoviesAfterDelete`).
- SQLite's 64-bit INTEGER keys are not modelled; ids are unbounded. An id
  outside the 64-bit range makes the insert fail, so the call returns
  `False`, but the model accepts it. When the largest key is already
  2^63-1, SQLite picks a random unused key rather than one more than the
  largest. When only negative keys are in use, SQLite's choice can be 0 or
  negative, while the model always picks a positive key.
- Foreign-key enforcement is not modelled, because SQLite does not enforce
  foreign keys by default.
- `print` messages and the `__str__`, `__repr__` and `to_dict` formatting
  are presentation-only.
