# FareShare backend: table rules and database URL handling

A Dafny model of three parts of the FareShare ride-sharing backend.

- **The `reviews` table** (module `Reviews`). A row holds a ride, a reviewer, a reviewee, an integer rating and an optional comment. The rating is checked to lie in 1..5. The ordered triple (ride_id, reviewer_id, reviewee_id) is unique. The foreign keys delete a review when its ride, its reviewer or its reviewee is deleted.
- **The `bookings` table** (module `Bookings`). A row holds a ride, a passenger, a seat count of at least 1, an amount paid and a status. The amount is a NUMERIC(6,2) that may not be negative; the model holds it in cents, 0..999999. The status is one of "pending", "confirmed", "cancelled", "completed". An insert that leaves out the amount gets 0.00, and one that leaves out the status gets "pending". Bookings are deleted with their ride and with their passenger.
- **The database configuration** (module `DbConfig`). `Normalize` turns DATABASE_URL into the URL the asyncpg driver is given. A missing or empty URL is an error. A URL starting with `postgresql://` gets every `postgresql://` replaced by `postgresql+asyncpg://`. A URL mentioning `render.com` is cut at its first `?sslmode=`, or, when it has none, at its first `&sslmode=`. `ConnectArgs` sets `ssl` exactly when the URL mentions `render.com`. The class `Database` holds the module globals that `init_db` sets and `get_async_session` checks.

Each table is a value: a sequence of rows plus the sets of ride ids and user ids that its foreign keys point to (`Schema.Parents`). Because of that, foreign-key existence and ON DELETE CASCADE are part of the model. An INSERT names each column as left out (the server default applies), an explicit NULL, or a value (`Schema.Field`). A rejected statement returns the PostgreSQL error it raises (`Schema.Violation`), and in `Apply` it leaves the table as it was. In an UPDATE the new value is converted when the statement is planned, so a status that does not fit String(20) is refused even when no row matches. For the order of checks the model uses PostgreSQL's: conversion to the column type first (INTEGER range, NUMERIC(6,2) overflow, String(20) length, where a longer value whose excess is all spaces is cut to 20 characters instead of refused), then the defaults, then NOT NULL in column order, then the CHECK constraints in alphabetical order of name, then the primary key, then the unique constraint, then the foreign keys. The primary-key and foreign-key constraint names are PostgreSQL's defaults (`reviews_pkey`, `reviews_ride_id_fkey`, …). The acceptance lemmas do not depend on this order.

The module `Text` gives the Python string operations the configuration uses: `startswith`, `in`, `split(sep)[0]` and `replace`, each with Python's semantics. `ReplaceAll` replaces every non-overlapping occurrence from left to right.

The SSL flag is computed from the normalized URL, as `init_db` does. It is not computed from the raw DATABASE_URL.

## Model

| member | source | states |
|---|---|---|
| `Schema.Parents.After` | backend/src/models/review.py:65-95 | Creating a ride or user adds its id and deleting one removes it. Every other id in the rides and users tables stays exactly as it was. |
| `Schema.ToVarchar` | backend/src/models/booking.py:101-102 | Assignment to a VARCHAR(n) column succeeds exactly when the value has at most n characters or only spaces past the n-th. The stored value is then the first min(length, n) characters, and only spaces were dropped. |
| `Reviews.Insert` | backend/src/models/review.py:141-144 | An accepted insert appends exactly one row, with the given id, ride, reviewer, reviewee and rating. An omitted or NULL comment is stored as NULL and a given one as given. Every earlier row and the parent tables are unchanged. |
| `Reviews.InsertAcceptedIff` | backend/src/models/review.py:67-145 | The insert is accepted iff ride_id, reviewer_id, reviewee_id and rating are all present, the rating is in 1..5, no row has the same id or the same triple, and the ride and both users exist. The comment may be absent. |
| `Reviews.RatingOutOfRangeRejected` | backend/src/models/review.py:131-136 | A rating outside 1..5 (0, 6, any negative) is always refused. Once the ids are present and the rating fits an INTEGER, the error is check_rating_range. |
| `Reviews.InsertPreservesValid` | backend/src/models/review.py:131-145 | After an accepted insert, every rating is in 1..5, every reference resolves, and no id or triple occurs twice. |
| `Reviews.DuplicateTripleRejected` | backend/src/models/review.py:137-144 | An insert whose (ride, reviewer, reviewee) triple is already in the table is refused, and the table is unchanged. |
| `Reviews.DifferentTriplesBothAccepted` | backend/src/models/review.py:141-144 | Uniqueness is on the ordered triple only: two inserts that each fit the table and differ in id and in triple are both accepted, one after the other. |
| `Reviews.MutualReviewsAccepted` | backend/src/models/review.py:30-43 | Two distinct users may review each other on the same ride: both inserts are accepted and the table grows by two rows. |
| `Reviews.Cascade` | backend/src/models/review.py:61-96 | A ride or user deletion keeps exactly the rows that do not reference the deleted ride or user, and keeps ids and triples distinct. |
| `Reviews.DeleteRide` | backend/src/models/review.py:65-69 | Deleting a ride removes exactly the reviews with that ride_id. Only that ride leaves the set of rides, and the set of users is unchanged. A valid table stays valid, so no row appears twice. |
| `Reviews.DeleteUser` | backend/src/models/review.py:75-95 | Deleting a user removes exactly the reviews the user wrote or received. Only that user leaves the set of users, and the set of rides is unchanged. A valid table stays valid, so no row appears twice. |
| `Reviews.Apply` | backend/src/models/review.py:61-145 | A ride or user change turns the parent sets into `Parents.After` of that change and keeps exactly the reviews it does not cascade to. An accepted insert yields exactly the table `Insert` gives: one new row with the given columns after the unchanged old rows, with the same parents. A rejected insert leaves the database exactly as it was. |
| `Reviews.ApplyPreservesValid` | backend/src/models/review.py:131-145 | Any single statement (insert, ride or user creation, cascading delete) keeps the table valid. |
| `Reviews.RunPreservesValid` | backend/src/models/review.py:131-145 | After any sequence of statements from a valid table, every rating is in 1..5, every reference resolves, and no triple occurs twice. |
| `Bookings.Insert` | backend/src/models/booking.py:86-107 | An accepted insert appends exactly one row with the given id, ride, passenger and seats. A left-out amount becomes 0 and a left-out status becomes "pending"; given values are stored as given. Earlier rows are unchanged. |
| `Bookings.InsertAcceptedIff` | backend/src/models/booking.py:53-138 | The insert is accepted iff ride_id, passenger_id and seats_reserved are present, seats is in 1..2^31-1, the amount is not NULL and (if given) is in 0..999999 cents, the status is not NULL and (if given) is one of the four strings, the id is fresh, and the ride and passenger exist. |
| `Bookings.DefaultsApply` | backend/src/models/booking.py:86-138 | A booking with the amount and status left out is stored with 0.00 and "pending", and is accepted and valid whenever it reserves at least one seat, with a fresh id, on an existing ride and passenger. |
| `Bookings.InsertPreservesValid` | backend/src/models/booking.py:123-138 | After an accepted insert, every booking has seats > 0, an amount in 0..999999 cents, an allowed status and existing parents, and ids stay distinct. |
| `Bookings.SetStatus` | backend/src/models/booking.py:101-107 | The status UPDATE applied row by row: same length, every row with the given id carries the new status, and every other row is untouched. |
| `Bookings.UpdateStatus` | backend/src/models/booking.py:101-107 | A status that does not fit String(20), because it has non-space characters past the 20th, is refused as too long whether or not a row matches. Otherwise an UPDATE whose id matches no booking changes nothing and succeeds, even with a NULL or unknown status. A failing update raises only a too-long value, a NOT NULL violation or check_booking_status. A successful one keeps the parents and the row count. |
| `Bookings.OverlongStatusNeverStored` | backend/src/models/booking.py:101-102 | A status longer than 20 characters never changes the table. On an existing booking it is refused as check_booking_status when everything past the 20th character is spaces (the value is cut, and the cut value is no allowed status), and as too long otherwise. |
| `Bookings.UpdateStatusSpec` | backend/src/models/booking.py:101-138 | On an existing booking, a status update succeeds iff the new status is one of the four allowed strings, whatever the current status. That booking then has the new status with every other field unchanged, and all other rows are untouched. |
| `Bookings.UpdateStatusPreservesValid` | backend/src/models/booking.py:134-138 | An accepted status update keeps the table valid. |
| `Bookings.Cascade` | backend/src/models/booking.py:50-70 | A ride or user deletion keeps exactly the bookings that do not reference the deleted ride or passenger, and keeps ids distinct. |
| `Bookings.DeleteRide` | backend/src/models/booking.py:50-59 | Deleting a ride removes exactly its bookings. Only that ride leaves the set of rides, and the set of users is unchanged. A valid table stays valid, so no row appears twice. |
| `Bookings.DeleteUser` | backend/src/models/booking.py:61-70 | Deleting a user removes exactly the bookings where the user is the passenger. Only that user leaves the set of users, and the set of rides is unchanged. A valid table stays valid, so no row appears twice. |
| `Bookings.Apply` | backend/src/models/booking.py:50-138 | A ride or user change turns the parent sets into `Parents.After` of that change and keeps exactly the bookings it does not cascade to. An accepted insert yields exactly the table `Insert` gives, with one new row after the unchanged old rows. An accepted status update yields exactly the table `UpdateStatus` gives, whose rows `UpdateStatusSpec` pins down. A rejected insert or update leaves the database exactly as it was. |
| `Bookings.ApplyPreservesValid` | backend/src/models/booking.py:123-138 | Any single statement (insert, status update, ride or user creation, cascading delete) keeps the table valid. |
| `Bookings.RunPreservesValid` | backend/src/models/booking.py:123-138 | After any sequence of statements from a valid table, every booking satisfies the three checks and both foreign keys, and no id occurs twice. |
| `Text.StartsWith` | backend/src/config/db.py:29 | `s.startswith(p)` holds exactly when `s` is at least as long as `p` and agrees with it at every index of `p`. |
| `Text.IndexOf` | backend/src/config/db.py:38-41 | Gives the index of the first occurrence of a pattern when there is one, and none exactly when the pattern does not occur. |
| `Text.Contains` | backend/src/config/db.py:36-40 | Python's `p in s` holds exactly when `p` occurs in `s`. |
| `Text.Before` | backend/src/config/db.py:39-41 | `s.split(sep)[0]` is a prefix of `s` that contains no `sep`. When `sep` occurs, the prefix ends exactly at its first occurrence; otherwise it is all of `s`. |
| `Text.ReplaceAll` | backend/src/config/db.py:30 | `s.replace(pat, rep)` with a non-empty `pat` that does not occur in `s` returns `s` unchanged. |
| `Text.ReplaceAllAtStart` | backend/src/config/db.py:29-30 | A string starting with `pat` is rewritten to `rep` followed by the rewrite of the rest, so the result starts with `rep`. |
| `Text.ReplaceAllGrows` | backend/src/config/db.py:30 | With a replacement at least as long as the pattern, the result is never shorter than the input. It is strictly longer as soon as the pattern occurs anywhere. |
| `Text.ReplaceAllKeepsPrefix` | backend/src/config/db.py:30 | When the first character of the replacement does not occur in `q`, the rewritten string starts with `q` only if the original did. |
| `Text.ReplaceAllLeavesNoPattern` | backend/src/config/db.py:30 | Every occurrence is replaced: when the replacement neither contains the pattern, nor ends with a beginning of it, nor starts with a character found later in it, the result contains no occurrence of the pattern. |
| `Text.ReplaceAllSelf` | backend/src/config/db.py:30 | Replacing a non-empty pattern by itself changes nothing. |
| `DbConfig.ToAsyncScheme` | backend/src/config/db.py:28-32 | A `postgresql://` URL becomes `postgresql+asyncpg://` followed by the replace-all rewrite of the rest. Any other URL passes unchanged. |
| `DbConfig.ToAsyncSchemeIsNotPrefixSwap` | backend/src/config/db.py:29-30 | The rewrite is a replace-all, not a prefix swap. If `postgresql://` occurs again after the scheme, the result differs from swapping only the scheme. |
| `DbConfig.AsyncSchemeCannotRecreateSyncScheme` | backend/src/config/db.py:30 | `postgresql+asyncpg://` does not contain `postgresql://`, no tail of it begins `postgresql://`, and its `p` occurs nowhere else in `postgresql://`. |
| `DbConfig.ToAsyncSchemeLeavesNoSyncScheme` | backend/src/config/db.py:29-30 | After the scheme step on a `postgresql://` URL, no `postgresql://` remains anywhere in it. |
| `DbConfig.StripSslMode` | backend/src/config/db.py:34-41 | The result is always a prefix of the input. Without `render.com` it is the input itself. With `render.com` it contains no `?sslmode=`, and it ends at the first `?sslmode=`; failing that, at the first `&sslmode=`; failing both, it is the whole input. |
| `DbConfig.Normalize` | backend/src/config/db.py:23-41 | The result is an error (MissingDatabaseUrl) iff the URL is absent or empty. Otherwise it is the SSL-mode cut of the scheme-rewritten URL, and so a prefix of it. |
| `DbConfig.NormalizeKeepsAsyncScheme` | backend/src/config/db.py:29-41 | A `postgresql://` URL always normalises to a URL that starts with `postgresql+asyncpg://`: the sslmode cut never reaches into the scheme. |
| `DbConfig.NormalizeLeavesNoSyncScheme` | backend/src/config/db.py:29-41 | A `postgresql://` URL normalises to a URL with no `postgresql://` left in it. |
| `DbConfig.NormalizeWithRender` | backend/src/config/db.py:36-41 | With `render.com` in the rewritten URL, the result has no `?sslmode=`. It ends where the first `?sslmode=` began or, when there is none, where the first `&sslmode=` began. |
| `DbConfig.NormalizeWithoutRender` | backend/src/config/db.py:36 | Without `render.com`, the result is the scheme-rewritten URL itself. |
| `DbConfig.ConnectArgs` | backend/src/config/db.py:68-73 | `ssl` is present, with value true, exactly when `render.com` occurs in the URL; no other connect argument is set. |
| `DbConfig.Load` | backend/src/config/db.py:22-47 | Loading fails with MissingDatabaseUrl iff normalisation fails. Otherwise the fresh state holds the normalised URL, with no engine and no session factory. |
| `DbConfig.Database.constructor` | backend/src/config/db.py:45-47 | Both globals start as None. |
| `DbConfig.Database.InitDb` | backend/src/config/db.py:53-91 | Sets the engine on the URL with `ConnectArgs` of that URL, and sets the session factory over that engine. |
| `DbConfig.Database.CloseDb` | backend/src/config/db.py:94-102 | Disposes the engine once if there is one, and resets neither global. |
| `DbConfig.Database.GetAsyncSession` | backend/src/config/db.py:105-118 | Fails with NotInitialized iff no session factory has been set. Otherwise it returns a session of that factory. |

## Left out

- The SQLAlchemy engine and pool settings, `async_sessionmaker`, and the commit, rollback and close around a session in `get_async_session` and `get_db`. These are calls into libraries whose code is not part of this model.
- `load_dotenv` and `os.getenv`: environment input. DATABASE_URL is a parameter of `Load` and `Normalize`.
- The `toJson` patching of `Base` in `init_db`, and what `dispose()` does. The model only counts disposals.
- Generated values: `gen_random_uuid()` ids become a parameter of each insert. The `created_at` and `booked_at` timestamps (`func.now()`) are not modelled.
- ORM relationships and their loading strategy, indexes, column comments and `__repr__`. These affect performance and presentation, not which rows exist.
- The booking lifecycle pending → confirmed → completed is described but not enforced. The model allows any transition between the four statuses, as the check constraint does.
- The rule that the amount is usually seats × price share is not enforced, so it is not modelled.
- The amount is given in whole cents. Rounding a value with more than two decimals into NUMERIC(6,2) is not modelled.
- The new status of an UPDATE is a value given with the statement. A status computed per row from other columns, which would be converted only for matching rows, is not modelled.
- Concurrency and transactions: statements are applied one at a time, each atomically.
- Identifiers are natural numbers standing for UUIDs; only equality between them matters.
- Python strings are sequences of code points; the model uses Dafny's `char` and does no normalisation.
- Text.Before: requires a non-empty separator. Python raises ValueError for an empty one, and the configuration only passes the constants `?sslmode=` and `&sslmode=`.
- `Text.ReplaceAll` models `str.replace` without its optional count argument, which the configuration does not use.
- The development orchestration script that sets up the virtual environment and starts the two servers is not part of this model.
