# MoviWeb data layer in Dafny

This project models the data-access layer of MoviWeb, a small Flask application in which users keep personal movie lists. The layer is the `DataManager` class (data_manager.py) over the two SQLAlchemy tables `user` and `movie` (models.py). It can create and list users, list a user's movies by name, add a movie (looking it up on OMDb first when an API key is configured), patch a movie, and delete a movie.

The database is held in the `DataManager` object itself:

- `users` is the `user` table, a map from primary key to `User`.
- `movies` is the `movie` table, a map from primary key to `Movie`.
- `nextUserId` and `nextMovieId` give each table its next fresh primary key. Both start at 1.

Each method is one committed, atomic step. `Valid()` says that every row is stored under its own id and that every id is below its table's counter. `ReferencesIntact()` is the schema's foreign-key constraint: every movie's `user_id` names a stored user.

Modules:

- `Wrappers`: `Option`, which stands for a nullable value or Python's `None`.
- `Models` (models.py): the `User`, `Movie` and `Store` datatypes. NOT NULL columns are plain types and nullable columns are `Option`. Also here: the primary-key and foreign-key predicates, and `DeleteUser`, the "all, delete-orphan" cascade, written as a function on the store.
- `Listing`: ordering by name. SQLite's default BINARY collation amounts to lexicographic order on code points (`NameLe`). `Rows` lists a keyed map in id order, filtered by a predicate. `SortByName` is an insertion sort.
- `Omdb`: what a lookup reply can be (`Reply`) and what `_fetch_omdb_data` makes of it (`FetchOmdbData`). Also the year conversion `int(y) if y.isdigit() else None` (`ParseYear`), with `DecimalString` as its inverse.
- `Manager`: the `DataManager` class, `NewMovie` (the row that `add_movie` builds), `Patch` (the field rules of `update_movie`), and the truthiness tests that the source applies to its arguments.

The model follows what the code does, including where that is less than one might expect of such a layer:

- **Names are non-null only.** Names must not be NULL, but nothing requires them to be non-empty, so an empty name is accepted.
- **Year is not range-checked.** An ASCII digit string becomes its integer value, so `"0000"` gives year 0 and `"02010"` gives 2010. The model makes no four-digit or "plausible" check, and neither does the code. The code's only limit is SQLite's 64-bit INTEGER (see "## Left out").
- **Foreign keys are not enforced.** SQLite does not enforce foreign keys unless `PRAGMA foreign_keys` is switched on; app.py never does that, and `add_movie` does not check the owner. So `AddMovie` stores a movie for an unknown `userId`. Its contract says that the foreign-key constraint holds afterwards exactly when it held before and the owner exists.
- **`add_movie` never returns `None`.** Its docstring says it returns `None` when the lookup fails. In the code a failed lookup only falls back to the verbatim title, and a movie is always inserted and returned.

## Model

| member | source | states |
|---|---|---|
| `Manager.DataManager.constructor` | data_manager.py:12-17 | records the given API key; the tables start empty (a shared, already filled database is left out), valid and without orphans |
| `Manager.DataManager.LookupEnabled` | data_manager.py:47 | a lookup is made exactly when the API key is truthy: present and not empty |
| `Manager.TruthyText` | data_manager.py:67-70 | Python truthiness of an optional text argument: present and not the empty string |
| `Manager.TruthyInt` | data_manager.py:71 | Python truthiness of an optional integer argument: present and not zero |
| `Manager.DataManager.CreateUser` | data_manager.py:21-26 | adds exactly one user, with the given name under an id not used before; no other user, no movie and no id counter of the other table changes; a store without orphans stays so; the new user appears exactly once in `GetUsers()` |
| `Manager.DataManager.GetUsers` | data_manager.py:28-30 | the result is sorted by name, and every stored user appears in it exactly once, with nothing else |
| `Manager.DataManager.GetMovies` | data_manager.py:34-36 | the result is sorted by name, and holds exactly the stored movies whose `userId` is the argument, each once |
| `Manager.DataManager.AddMovie` | data_manager.py:38-59 | inserts exactly one movie (never returns `None`; the 64-bit limit on the year is left out) under a fresh id and returns it; the row comes from the lookup when the key is truthy and is verbatim otherwise (title as given, director, year and poster NULL); users are unchanged; orphan-free afterwards exactly when orphan-free before and the owner exists; the movie is listed once for its owner |
| `Manager.NewMovie` | data_manager.py:47-55 | with no lookup record, the title is verbatim and the other three fields are NULL; with one, title, director and poster are copied from it; year is present exactly when the record's Year is a non-empty all-digit string, and is then its decimal value; owner and id are the given ones |
| `Manager.NewMovieExamples` | data_manager.py:49-53 | a lookup of "Inception" with Year "2010" stores title "Inception", director "Christopher Nolan", year 2010; a Year of "N/A", "2010–2012" or "" stores NULL |
| `Manager.DataManager.UpdateMovie` | data_manager.py:61-75 | a missing id gives `None` and changes nothing; otherwise exactly that movie is replaced by its patch and returned; users, the other movies and the foreign-key status are unchanged |
| `Manager.Patch` | data_manager.py:67-72 | name, director and year each take the argument when it is truthy and keep their value otherwise; an empty title or director and year 0 count as absent; id, poster URL and owner never change |
| `Manager.PatchIdempotent` | data_manager.py:67-72 | applying the same patch twice gives the same row as applying it once |
| `Manager.PatchUnchanged` | data_manager.py:67-72 | a patch leaves the row unchanged if and only if each truthy argument already equals its field |
| `Manager.PatchNeverClears` | data_manager.py:67-72 | a present director or year is never cleared to NULL by a patch |
| `Manager.DataManager.DeleteMovie` | data_manager.py:77-85 | returns true exactly when the id was stored; the table afterwards is the old table without that id, so a missing id changes nothing; users are unchanged; no orphan is created |
| `Omdb.FetchOmdbData` | data_manager.py:97-105 | the lookup yields a record exactly when a reply was received and its Response is "True", and then yields that reply's record; request failures and every other Response yield `None` |
| `Omdb.IsDigitString` | data_manager.py:52 | `str.isdigit()` on ASCII text: at least one character, and every character a digit 0-9 |
| `Omdb.DigitsValue` | data_manager.py:52 | `int()` on a string of ASCII digits: its base-10 value |
| `Omdb.ParseYear` | data_manager.py:52 | the year is present exactly when the Year key is present and passes `isdigit()` (non-empty, ASCII digits only), and is then the string's base-10 value |
| `Omdb.ParseDecimalString` | data_manager.py:52 | every natural number written in decimal parses back to itself |
| `Omdb.CanonicalRoundTrip` | data_manager.py:52 | a digit string without leading zeros is exactly the decimal text of the value it parses to |
| `Omdb.DecimalStringCanonical` | data_manager.py:52 | the decimal text of a number is a digit string without leading zeros |
| `Omdb.DigitsValueBound` | data_manager.py:52 | a k-digit Year parses to a value below 10^k |
| `Omdb.LeadingZeroIgnored` | data_manager.py:52 | a leading zero does not change the parsed value |
| `Listing.NameLe` | data_manager.py:30 | SQLite's default BINARY collation on names: lexicographic order on code points, with a proper prefix first |
| `Listing.SortByName` | data_manager.py:30 | the ordering step of `order_by(name)` returns a permutation of its input that is sorted by name |
| `Listing.InsertSorted` | data_manager.py:30 | inserting one row into a sorted listing keeps it sorted |
| `Listing.Rows` | data_manager.py:36 | the filter step of `filter_by`: each stored row in the id range that satisfies the filter appears exactly once, and nothing else does |
| `Listing.NameLeTotal` | data_manager.py:30 | any two names are comparable under the collation |
| `Listing.NameLeTransitive` | data_manager.py:30 | the collation order is transitive |
| `Listing.NameLeAntisymmetric` | data_manager.py:30 | two names that each sort no later than the other are equal, so the order is total on names |
| `Models.PrimaryKeys` | models.py:16-38 | every user and every movie is stored under its own integer primary key |
| `Models.ForeignKeys` | models.py:45 | every movie's non-null `user_id` names a stored user |
| `Models.MoviesOwnedBy` | models.py:20-24 | the `User.movies` relationship: the ids of the movies whose `user_id` is the user's id |
| `Models.UniqueIds` | models.py:16-38 | under the primary-key constraint, two stored users or two stored movies with the same id are the same row |
| `Models.DeleteUser` | models.py:20-24 | deleting a user removes that user and every movie it owns and keeps every other row unchanged; a consistent store stays consistent (no orphan remains) |
| `Models.DeleteWithoutCascade` | models.py:20-24 | removing only the user row keeps the foreign-key constraint if and only if the user owned no movie, which is why the cascade is declared |
| `Models.InsertMovieReferences` | models.py:45 | inserting a movie keeps the foreign-key constraint if and only if it held before and the new movie's owner is stored |
| `Models.ReplaceMovieReferences` | models.py:45 | replacing a movie with a row that has the same owner leaves the foreign-key constraint as it was |

## Left out

- The HTTP request of `_fetch_omdb_data` is network I/O: `requests.get` with its URL, parameters and 5-second timeout, `raise_for_status` and JSON decoding. The model receives what the request delivered as a `Reply`: `RequestFailed` for every `RequestException` (which includes the JSON decode error of current `requests`), or the decoded object.
- A positive OMDb reply with no Title key is not modelled. Its NULL name would make the insert fail on the NOT NULL column. A JSON `null` or non-text value for Year is not modelled either; `isdigit` would raise on it.
- `Omdb.ParseYear`: only ASCII digits are modelled. `str.isdigit` also accepts other Unicode digits. For decimal digits such as Arabic-Indic "٢٠١٠" or fullwidth "２０１０", `int()` gives 2010 and the code stores that year; the model stores NULL there. For digits that are not decimal, such as "²", `int()` raises.
- Manager.DataManager.constructor: the source's `__init__` only records the API key. The tables are the single process-wide `db` kept in an SQLite file, shared by every `DataManager`, so a new instance can see rows that already exist. The model's constructor starts from empty tables. Every method assumes only `Valid()`, not empty tables.
- Manager.DataManager.AddMovie: SQLite INTEGER is 64-bit, and Python's sqlite3 raises `OverflowError` when binding an integer outside [-2^63, 2^63 - 1]. A Year such as "99999999999999999999" therefore makes the source's commit raise and store nothing. The model's integers are unbounded, so it stores that year. The same limit on `user_id` is not modelled either.
- Manager.DataManager.UpdateMovie: for the same reason, a year argument outside the 64-bit range (or a `movie_id` outside it) makes the source raise and change nothing. The model stores the year.
- A JSON body that is not an object (a list, say) makes `data.get` raise `AttributeError`, which is not a `RequestException` and is not caught. `Reply` cannot represent this case.
- Primary keys come from a per-table counter, so every new id is one never used before. SQLite picks the largest existing rowid plus one, which can reuse the id of a deleted last row. The properties proved rely only on the id being fresh.
- Session mechanics, commits, transactions, rollback and concurrent requests are not modelled. Each method is one atomic step.
- Column length limits (`String(100)`, `String(255)`, `String(1024)`) are not modelled, because SQLite does not enforce them. `__repr__` is not modelled.
- app.py is not part of this model: the Flask app, the database URI, `db.create_all`, the home route and `app.run`.
- The layer has no delete-user operation. The cascade is modelled as `Models.DeleteUser`, a function on the store, and not as a `DataManager` method. Duplicate-name checks and name validation are not in this code, so they are not modelled.
- A Python caller could pass `None` as a name, title or user id. That is not modelled: these parameters are plain values.
- Ties among equal names: SQLite does not fix their order. `GetUsers` and `GetMovies` promise only sortedness and exact contents, not an order among rows with the same name.
