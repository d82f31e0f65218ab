/**
 * `DataManager`: user and movie operations over the two tables, with the
 * movie record enriched from an OMDb lookup when an API key is configured.
 *
 * The database is the object's state: the two tables as maps from primary
 * key to row, and for each table the next primary key to hand out. Each
 * operation is one atomic step from the committed state before it to the
 * committed state after it.
 */
module Manager {
  import opened Wrappers
  import opened Models
  import opened Listing
  import opened Omdb

  /** Python truthiness of an optional text: present and not empty. */
  predicate TruthyText(s: Option<string>)
  {
    s.Some? && s.value != ""
  }

  /** Python truthiness of an optional integer: present and not zero. */
  predicate TruthyInt(n: Option<int>)
  {
    n.Some? && n.value != 0
  }

  /**
   * The row `add_movie` inserts, from the lookup result (`None` when no
   * lookup was made or it found nothing).
   */
  function NewMovie(id: int, userId: int, title: string, movieData: Option<LookupRecord>): (m: Movie)
    ensures m.id == id && m.userId == userId
    ensures movieData.None? ==> m.name == title && m.director.None? && m.year.None? && m.posterUrl.None?
    ensures movieData.Some? ==>
      m.name == movieData.value.title && m.director == movieData.value.director && m.posterUrl == movieData.value.poster
    ensures m.year.Some? <==> movieData.Some? && movieData.value.year.Some? && IsDigitString(movieData.value.year.value)
    ensures m.year.Some? ==> m.year.value == DigitsValue(movieData.value.year.value)
  {
    match movieData
    case None => Movie(id, title, None, None, None, userId)
    case Some(data) => Movie(id, data.title, data.director, ParseYear(data.year), data.poster, userId)
  }

  /**
   * The row after `update_movie`'s partial patch: a field takes its argument
   * only when that argument is truthy.
   */
  function Patch(m: Movie, newTitle: Option<string>, director: Option<string>, year: Option<int>): (r: Movie)
    ensures r.id == m.id && r.posterUrl == m.posterUrl && r.userId == m.userId
    ensures TruthyText(newTitle) ==> r.name == newTitle.value
    ensures TruthyText(director) ==> r.director == director
    ensures TruthyInt(year) ==> r.year == year
    ensures !TruthyText(newTitle) ==> r.name == m.name
    ensures !TruthyText(director) ==> r.director == m.director
    ensures !TruthyInt(year) ==> r.year == m.year
  {
    m.(name := if TruthyText(newTitle) then newTitle.value else m.name,
       director := if TruthyText(director) then director else m.director,
       year := if TruthyInt(year) then year else m.year)
  }

  /** Applying the same patch twice changes nothing more than applying it once. */
  lemma PatchIdempotent(m: Movie, newTitle: Option<string>, director: Option<string>, year: Option<int>)
    ensures Patch(Patch(m, newTitle, director, year), newTitle, director, year) == Patch(m, newTitle, director, year)
  {
  }

  /**
   * A patch leaves the row as it was exactly when every truthy argument
   * already equals the field it would set.
   */
  lemma PatchUnchanged(m: Movie, newTitle: Option<string>, director: Option<string>, year: Option<int>)
    ensures Patch(m, newTitle, director, year) == m <==>
      && (TruthyText(newTitle) ==> newTitle.value == m.name)
      && (TruthyText(director) ==> director == m.director)
      && (TruthyInt(year) ==> year == m.year)
  {
  }

  /** A patch can fill in a director or a year but never clear one. */
  lemma PatchNeverClears(m: Movie, newTitle: Option<string>, director: Option<string>, year: Option<int>)
    ensures m.director.Some? ==> Patch(m, newTitle, director, year).director.Some?
    ensures m.year.Some? ==> Patch(m, newTitle, director, year).year.Some?
  {
  }

  /**
   * Concrete lookups: a numeric Year becomes an integer and the lookup's
   * Title and Director are stored; "N/A" and a range of years become NULL.
   */
  lemma NewMovieExamples()
    ensures
      var found := LookupRecord("Inception", Some("Christopher Nolan"), Some("2010"), None);
      NewMovie(7, 3, "inception", Some(found)) == Movie(7, "Inception", Some("Christopher Nolan"), Some(2010), None, 3)
    ensures NewMovie(7, 3, "x", Some(LookupRecord("X", None, Some("N/A"), None))).year == None
    ensures NewMovie(7, 3, "x", Some(LookupRecord("X", None, Some("2010\U{2013}2012"), None))).year == None
    ensures NewMovie(7, 3, "x", Some(LookupRecord("X", None, Some(""), None))).year == None
  {
    var v := "2010";
    assert v[..3] == "201" && v[..3][..2] == "20" && v[..3][..2][..1] == "2" && "2"[..0] == [];
    assert DigitsValue("2") == 2;
    assert DigitsValue("20") == 20;
    assert DigitsValue("201") == 201;
    assert DigitsValue(v) == 2010;
    assert !IsDigit('N');
    assert !IsDigit('\U{2013}') && "2010\U{2013}2012"[4] == '\U{2013}';
  }

  class DataManager {
    /** The configured OMDb API key, if any. */
    const omdbApiKey: Option<string>
    /** The `user` table, by primary key. */
    var users: map<int, User>
    /** The `movie` table, by primary key. */
    var movies: map<int, Movie>
    /** The primary key the next inserted user gets. */
    var nextUserId: int
    /** The primary key the next inserted movie gets. */
    var nextMovieId: int

    function State(): Store
      reads this
    {
      Store(users, movies)
    }

    /** Rows are stored under their own ids, and every id handed out so far is below the counter. */
    ghost predicate Valid()
      reads this
    {
      && PrimaryKeys(State())
      && 1 <= nextUserId && 1 <= nextMovieId
      && (forall id :: id in users ==> 1 <= id < nextUserId)
      && (forall id :: id in movies ==> 1 <= id < nextMovieId)
    }

    /** The foreign-key constraint of `movie.user_id` holds: no movie is an orphan. */
    ghost predicate ReferencesIntact()
      reads this
    {
      ForeignKeys(State())
    }

    /** A lookup is made only when an API key is configured and not empty. */
    predicate LookupEnabled()
    {
      TruthyText(omdbApiKey)
    }

    constructor (omdbApiKey: Option<string>)
      ensures Valid() && ReferencesIntact()
      ensures this.omdbApiKey == omdbApiKey
      ensures users == map[] && movies == map[]
    {
      this.omdbApiKey := omdbApiKey;
      users, movies := map[], map[];
      nextUserId, nextMovieId := 1, 1;
    }

    /** Inserts one user with the given name under a fresh primary key. */
    method CreateUser(name: string) returns (u: User)
      requires Valid()
      modifies this
      ensures Valid()
      ensures u.name == name && u.id !in old(users)
      ensures users == old(users)[u.id := u]
      ensures movies == old(movies) && nextMovieId == old(nextMovieId)
      ensures old(ReferencesIntact()) ==> ReferencesIntact()
      ensures multiset(GetUsers())[u] == 1
    {
      u := User(nextUserId, name);
      users := users[u.id := u];
      nextUserId := nextUserId + 1;
    }

    /** All users, ordered by name: every stored user exactly once and nothing else. */
    function GetUsers(): (r: seq<User>)
      reads this
      requires Valid()
      ensures SortedBy(r, UserName)
      ensures forall u :: multiset(r)[u] == (if u.id in users && users[u.id] == u then 1 else 0)
    {
      SortByName(Rows(users, 1, nextUserId, UserId, (u: User) => true), UserName)
    }

    /** The movies owned by `userId`, ordered by name: each exactly once and nothing else. */
    function GetMovies(userId: int): (r: seq<Movie>)
      reads this
      requires Valid()
      ensures SortedBy(r, MovieName)
      ensures forall m ::
        multiset(r)[m] == (if m.id in movies && movies[m.id] == m && m.userId == userId then 1 else 0)
    {
      SortByName(Rows(movies, 1, nextMovieId, MovieId, (m: Movie) => m.userId == userId), MovieName)
    }

    /**
     * Inserts one movie owned by `userId` and returns it; `reply` is what the
     * OMDb request would deliver, consulted only when a lookup is enabled.
     */
    method AddMovie(userId: int, title: string, reply: Reply) returns (m: Movie)
      requires Valid()
      modifies this
      ensures Valid()
      ensures m.id !in old(movies) && movies == old(movies)[m.id := m]
      ensures m == NewMovie(m.id, userId, title, if LookupEnabled() then FetchOmdbData(reply) else None)
      ensures !LookupEnabled() ==> m == Movie(m.id, title, None, None, None, userId)
      ensures users == old(users) && nextUserId == old(nextUserId)
      ensures ReferencesIntact() <==> old(ReferencesIntact()) && userId in users
      ensures multiset(GetMovies(userId))[m] == 1
    {
      var movieData := if LookupEnabled() then FetchOmdbData(reply) else None;
      m := NewMovie(nextMovieId, userId, title, movieData);
      InsertMovieReferences(State(), m);
      movies := movies[m.id := m];
      nextMovieId := nextMovieId + 1;
    }

    /**
     * Patches the movie `movieId` field by field and returns it, or returns
     * `None` and changes nothing when there is no such movie.
     */
    method UpdateMovie(movieId: int, newTitle: Option<string>, director: Option<string>, year: Option<int>)
      returns (r: Option<Movie>)
      requires Valid()
      modifies this
      ensures Valid()
      ensures r.None? <==> movieId !in old(movies)
      ensures r.None? ==> movies == old(movies)
      ensures r.Some? ==> r.value == Patch(old(movies)[movieId], newTitle, director, year)
      ensures r.Some? ==> movies == old(movies)[movieId := r.value]
      ensures users == old(users) && nextUserId == old(nextUserId) && nextMovieId == old(nextMovieId)
      ensures ReferencesIntact() == old(ReferencesIntact())
    {
      if movieId !in movies {
        return None;
      }
      var movie := movies[movieId];
      if TruthyText(newTitle) {
        movie := movie.(name := newTitle.value);
      }
      if TruthyText(director) {
        movie := movie.(director := director);
      }
      if TruthyInt(year) {
        movie := movie.(year := year);
      }
      assert movie.id == movieId;
      ReplaceMovieReferences(State(), movie);
      movies := movies[movieId := movie];
      r := Some(movie);
    }

    /** Deletes the movie `movieId`; reports whether there was one to delete. */
    method DeleteMovie(movieId: int) returns (deleted: bool)
      requires Valid()
      modifies this
      ensures Valid()
      ensures deleted <==> movieId in old(movies)
      ensures movies == old(movies) - {movieId}
      ensures !deleted ==> movies == old(movies)
      ensures users == old(users) && nextUserId == old(nextUserId) && nextMovieId == old(nextMovieId)
      ensures old(ReferencesIntact()) ==> ReferencesIntact()
    {
      if movieId !in movies {
        return false;
      }
      movies := movies - {movieId};
      deleted := true;
    }
  }
}
