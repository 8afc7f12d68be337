# Quiz and score bookkeeping of the SQL learning site

This project models the server side of a small Flask/SQLAlchemy quiz site for learning SQL (`app.py`).
Users register, log in, take one quiz per SQL topic and build up an aggregate score.
The model is a state machine over an in-memory store:

- a user table (`map<UserId, User>`);
- the quiz table, seeded before the site runs (`seq<Question>`, a constant of the store);
- the best-score table keyed by `ScoreKey(userId, topic)`.

Keying the score table by the pair gives the unique constraint on (user_id, topic) by construction.
The session cookie is an explicit `Session` value with optional `userId` and `username`.
Handlers that read the session take it as a parameter. Those that can change it return the new session.

Modules:

- `Wrappers` (`wrappers.dfy`): `Option` and `Result`.
- `Scoring` (`scoring.dfy`): the quiz table rows, the query by topic, the distinct topics, and the scoring loop of a submission.
  - `ScoreAttempt` is the loop.
  - `CorrectCount` is its specification.
  - Lemmas tie the count to the set of correctly answered positions and cover the all-correct and all-unanswered cases.
- `ScoreBook` (`scorebook.dfy`): the best-score table, the sum of a user's per-topic bests, and `Reconcile`, the rule a submission applies to the table.
  - `ReconcileKeepsTopicSums` is the core invariant: aggregate = sum of that user's per-topic bests.
  - `ReplayKeepsBest` shows that over any run of submissions the stored best is the maximum seen and never decreases.
- `Auth` (`auth.dfy`): the session value, the salted password hash and logout.
- `App` (`store.dfy`): the `Store` class. Its fields are the three tables plus the next user id.
  - `Valid()` holds the invariant `Consistent`: usernames are unique, every score row belongs to an existing user and is non-negative, and every user's aggregate equals the sum of that user's rows.
  - Each route is a method. Each state-changing method states the whole new state in terms of the old one.
  - Value-level lemmas (`RegisterKeepsConsistent`, `UnregisterKeepsConsistent`, `SubmitKeepsConsistent`) carry the invariant across each step.

Readings fixed by the model:

- **Placeholder rows** (app.py:34, app.py:62). Registration writes placeholder rows with `score=None` into a column whose default is 0. SQLAlchemy's ORM leaves a None-valued column out of the INSERT, so the default fires. The model therefore stores 0 for an unattempted topic. With that reading, the subtraction at app.py:175 is always defined.
- **Answers** (app.py:162-163). A submitted form is `map<int, int>` from question id to the parsed option number. A question whose field is absent or empty has no entry and counts as incorrect, as `if selected_option and ...` does. An out-of-range number simply never matches. A non-numeric answer, on which `int()` raises, cannot be written in this type; the model leaves that case out (see "## Left out").
- **Looking users up** (app.py:84). `unregister` looks the user up by the session's `username`. All other routes use `user_id`. The model keeps that difference.

## Model

| member | source | states |
|---|---|---|
| `Scoring.QuestionsOf` | app.py:155 | the topic's quiz holds each quiz-table question with that topic exactly as many times as the table does, and nothing else; so its length, the reported total, is the number of the topic's questions |
| `Scoring.TopicsAreNonEmptyQuizzes` | app.py:60 | a topic is among the distinct topics iff it has at least one question |
| `Scoring.CorrectCount` | app.py:158-164 | the attempt score never exceeds the number of questions |
| `Scoring.CorrectCountIsPositionCount` | app.py:158-164 | the attempt score equals the number of positions whose submitted answer equals the correct option |
| `Scoring.AllCorrectScoresTotal` | app.py:161-164 | answering every question correctly gives current score == total |
| `Scoring.UnansweredScoresZero` | app.py:162-163 | unanswered questions count as incorrect: a form with no answers scores 0 |
| `Scoring.ScoreAttempt` | app.py:158-164 | the scoring loop returns total = number of topic questions and current = the count of correct answers, 0 <= current <= total |
| `ScoreBook.Reconcile` | app.py:166-182 | previous = stored score or 0 without a row; the row then exists and holds max(previous, current); the aggregate rises by max(0, current - previous); no other row changes and only that key can be added |
| `ScoreBook.ReconcileNeverLowers` | app.py:174-179 | no stored best score decreases under a submission |
| `ScoreBook.ReconcileKeepsTopicSums` | app.py:174-184 | the user's sum of per-topic bests rises by exactly the delta added to the aggregate; every other user's sum is unchanged |
| `ScoreBook.ReplayKeepsBest` | app.py:166-182 | over any sequence of submissions on one (user, topic) the stored score ends at the maximum of the initial score and all attempts, never below the initial one, and the user's sum moves by exactly the stored score's rise |
| `ScoreBook.PlaceholderCount` | app.py:60-63 | registration seeds as many rows as there are distinct topics |
| `ScoreBook.SeedingKeepsTopicSums` | app.py:56-65 | the seeded rows give the new user a topic sum of 0 (matching score=0) and leave other users' sums unchanged |
| `ScoreBook.WithoutUserKeepsOthers` | app.py:88 | the bulk delete removes every row of that user and keeps every other row and every other user's sum |
| `Auth.CheckAcceptsOnlyTheHashedPassword` | app.py:113 | records the collision-freedom assumed of the hashing library: a generated hash checks exactly against the password it was made from (true by the model's definitions, not proved of the library) |
| `Auth.Logout` | app.py:125-126 | after logout neither user_id nor username is set |
| `Auth.LogoutIdempotent` | app.py:122-127 | logging out twice equals logging out once |
| `App.Named` | app.py:111 | the username lookup returns a user with that name, and returns none exactly when no user has it |
| `App.RegisterKeepsConsistent` | app.py:50-65 | adding a user with a free name, score 0 and placeholder rows keeps usernames unique and aggregate = sum of bests |
| `App.UnregisterKeepsConsistent` | app.py:86-92 | deleting a user and that user's rows keeps the store consistent |
| `App.SubmitKeepsConsistent` | app.py:166-184 | the reconciled table with the aggregate raised by delta >= 0 keeps the store consistent |
| `App.Store.AggregateNonNegative` | app.py:16 | a stored aggregate score is never negative |
| `App.Store.FindByUsername` | app.py:111 | finds the unique user with the given name, none when the name is free |
| `App.Store.Register` | app.py:45-66 | a taken name yields AccountExists and leaves the store unchanged; otherwise adds one user with score 0 under a fresh id plus one 0-row per distinct topic, keeping the invariant |
| `App.Store.SeedPlaceholders` | app.py:60-63 | the loop adds exactly one 0-row per topic for the new user and nothing else |
| `App.Store.Unregister` | app.py:78-98 | without a username in the session nothing changes; otherwise the named user and all of that user's rows are gone, other rows stay, the name no longer resolves (so a later login fails), and the session is cleared even when no user matched |
| `App.Store.Login` | app.py:103-120 | sets user_id and username only for an existing user whose password checks; otherwise the session is unchanged and InvalidCredentials is returned |
| `App.Store.ScorePageFor` | app.py:130-144 | no user_id redirects to login; a user_id that no longer resolves clears both keys and redirects; otherwise shows the user's name and aggregate, which equals the sum of bests and is non-negative |
| `App.Store.Dashboard` | app.py:130-144 | the dashboard applies the session gate and shows name and aggregate |
| `App.Store.UserScoreDisplay` | app.py:245-259 | the score display applies the same gate and shows the same data |
| `App.Store.RecordAttempt` | app.py:166-182 | the row update and aggregate update follow `Reconcile` exactly; no other user and no id changes |
| `App.Store.SubmitQuiz` | app.py:149-192 | without user_id redirects and changes nothing; otherwise reports (previous, current, total), stores the reconciled table, raises only this user's aggregate by the delta (never lowering it) and keeps the invariant |

## Left out

- Flask plumbing is not modelled: templates, redirects, the request object and the GET view of a quiz. The GET view renders `QuestionsOf` for the topic. The home route and the static topic pages (app.py:199-242) are not modelled either.
- SQLAlchemy mechanics are not modelled: sessions, commits, rollbacks, table creation and configuration. Each handler is one atomic step.
- The IntegrityError branch of registration (app.py:68-70) only matters for two concurrent registrations, which a sequential model cannot have. Its effect matches the modelled pre-check.
- Password hashing is foreign code. `PasswordHash` keeps the salt and treats the hash as collision-free. Its cryptographic strength is not modelled. The random salt is a parameter of `Register`.
- App.Store.Register: new users get ids from a counter that never reuses a value. SQLite's rowid allocation hands out one more than the current largest id, so the id of a deleted most-recent user can be reused. The model does not capture that reuse.
- App.Store.SubmitQuiz: requires that the session's user_id resolve to a stored user. The source dereferences the user without the check that `dashboard` makes, so a stale session there raises instead of redirecting.
- Scoring.ScoreAttempt: takes answers already parsed as integers. `int()` raising on a non-numeric answer, or on a non-numeric stored correct option, is not modelled.
- Column length limits (String(80) and so on) are not modelled, because SQLite does not enforce them.
- The front-end script (static/js/script.js) lays out page elements with floating-point trigonometry. It is presentation only.
