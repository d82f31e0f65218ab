/**
 * The two-table schema: `user` and `movie`, each keyed by an integer
 * primary key, with `movie.user_id` a non-null foreign key to `user.id`
 * and the one-to-many relationship declared with cascade
 * "all, delete-orphan".
 *
 * Nullability is carried by the types: a `string` or `int` column is
 * NOT NULL, an `Option` column may hold NULL.
 */
module Models {
  import opened Wrappers

  /** A row of `user`: primary key and a NOT NULL name. */
  datatype User = User(id: int, name: string)

  /**
   * A row of `movie`: primary key, NOT NULL title, nullable director, year
   * and poster URL, and the NOT NULL id of the owning user.
   */
  datatype Movie = Movie(
    id: int,
    name: string,
    director: Option<string>,
    year: Option<int>,
    posterUrl: Option<string>,
    userId: int)

  /** The contents of both tables, each indexed by primary key. */
  datatype Store = Store(users: map<int, User>, movies: map<int, Movie>)

  function UserId(u: User): int { u.id }
  function UserName(u: User): string { u.name }
  function MovieId(m: Movie): int { m.id }
  function MovieName(m: Movie): string { m.name }

  /** Every row is stored under its own primary key. */
  predicate PrimaryKeys(s: Store)
  {
    && (forall id :: id in s.users ==> s.users[id].id == id)
    && (forall id :: id in s.movies ==> s.movies[id].id == id)
  }

  /** Every movie's `user_id` names a stored user: there is no orphan. */
  predicate ForeignKeys(s: Store)
  {
    forall id :: id in s.movies ==> s.movies[id].userId in s.users
  }

  /** Both integrity constraints of the schema. */
  predicate Consistent(s: Store)
  {
    PrimaryKeys(s) && ForeignKeys(s)
  }

  /** The ids of the movies that `userId` owns (the `User.movies` relationship). */
  function MoviesOwnedBy(s: Store, userId: int): set<int>
  {
    set id | id in s.movies && s.movies[id].userId == userId
  }

  /**
   * Under the primary-key constraint a stored row is determined by its id.
   * This follows in one step from `PrimaryKeys`; that new ids are fresh is
   * promised by the insert operations of `DataManager` and its `Valid()`.
   */
  lemma UniqueIds(s: Store)
    requires PrimaryKeys(s)
    ensures forall i, j :: i in s.users && j in s.users && s.users[i].id == s.users[j].id ==> i == j
    ensures forall i, j :: i in s.movies && j in s.movies && s.movies[i].id == s.movies[j].id ==> i == j
  {
  }

  /** Inserting a movie keeps the foreign-key constraint exactly when its owner is stored. */
  lemma InsertMovieReferences(s: Store, m: Movie)
    requires m.id !in s.movies
    ensures ForeignKeys(Store(s.users, s.movies[m.id := m])) <==> ForeignKeys(s) && m.userId in s.users
  {
    var after := Store(s.users, s.movies[m.id := m]);
    if ForeignKeys(after) {
      assert after.movies[m.id] == m;
      forall id | id in s.movies ensures s.movies[id].userId in s.users {
        assert after.movies[id] == s.movies[id];
      }
    }
  }

  /** Replacing a movie by a row with the same owner leaves the foreign-key constraint as it was. */
  lemma ReplaceMovieReferences(s: Store, m: Movie)
    requires m.id in s.movies && m.userId == s.movies[m.id].userId
    ensures ForeignKeys(Store(s.users, s.movies[m.id := m])) == ForeignKeys(s)
  {
    var after := Store(s.users, s.movies[m.id := m]);
    if ForeignKeys(after) {
      forall id | id in s.movies ensures s.movies[id].userId in s.users {
        assert after.movies[id].userId in after.users;
        if id != m.id {
          assert after.movies[id] == s.movies[id];
        }
      }
    }
  }

  /**
   * Deleting a user under the "all, delete-orphan" cascade: the user goes,
   * and so does every movie it owns; every other row is kept as it was.
   */
  function DeleteUser(s: Store, userId: int): (r: Store)
    ensures r.users == s.users - {userId}
    ensures MoviesOwnedBy(r, userId) == {}
    ensures forall id :: id in r.movies ==> id in s.movies && r.movies[id] == s.movies[id]
    ensures forall id :: id in s.movies && s.movies[id].userId != userId ==> id in r.movies
    ensures Consistent(s) ==> Consistent(r)
  {
    Store(s.users - {userId}, map id | id in s.movies && s.movies[id].userId != userId :: s.movies[id])
  }

  /**
   * Why the cascade is needed: removing only the user row keeps the
   * foreign-key constraint exactly when the user owned no movie.
   */
  lemma {:induction false} DeleteWithoutCascade(s: Store, userId: int)
    requires ForeignKeys(s)
    ensures ForeignKeys(Store(s.users - {userId}, s.movies)) <==> MoviesOwnedBy(s, userId) == {}
  {
    var after := Store(s.users - {userId}, s.movies);
    if ForeignKeys(after) {
      forall id | id in s.movies ensures s.movies[id].userId != userId {
        assert s.movies[id].userId in after.users;
      }
      assert forall id :: id !in MoviesOwnedBy(s, userId);
    } else {
      var id :| id in s.movies && s.movies[id].userId !in after.users;
      assert id in MoviesOwnedBy(s, userId);
    }
  }
}
