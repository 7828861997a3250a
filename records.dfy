/** The three mapped entities of the movie library and the Option type that
    stands for Python's None.

    Every column is an Option so that an object built by a caller may leave
    any of them unset: the store itself (module Tables) decides which ones
    must be present for a row to be written. */
module Records {

  /** None models Python's None (an unset attribute or a missing row). */
  datatype Option<+T> = None | Some(value: T)

  /** Table `users`: an autoincrement primary key and a NOT NULL name. */
  datatype User = User(id: Option<int>, name: Option<string>)

  /** Table `movies`: an autoincrement primary key, a NOT NULL title and
      four nullable columns. */
  datatype Movie = Movie(
    id: Option<int>,
    title: Option<string>,
    director: Option<string>,
    year: Option<string>,
    rating: Option<int>,
    poster: Option<string>)

  /** Table `user_movie_library`: one row links a user to a movie. user_id,
      movie_id and is_favorite are NOT NULL; is_favorite defaults to false and
      notes to the empty string. */
  datatype LibraryEntry = LibraryEntry(
    id: Option<int>,
    userId: Option<int>,
    movieId: Option<int>,
    isFavorite: Option<bool>,
    notes: Option<string>)
}
