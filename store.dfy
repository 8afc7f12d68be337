/** The application's store and its request handlers: registration,
    unregistration, login, the session-gated score pages and quiz
    submission. Each handler is one atomic step on the store. */
module App {
  import opened Wrappers
  import opened Auth
  import opened Scoring
  import opened ScoreBook

  /** One row of the user table. */
  datatype User = User(username: string, password: PasswordHash, score: int)

  /** The errors the register and login pages show: AccountExists stands for
      the text "Account already exists", InvalidCredentials for "Invalid
      username or password". */
  datatype AuthError = AccountExists | InvalidCredentials

  /** What the dashboard and score display routes answer. */
  datatype ScorePage = RedirectToLogin | ShowScore(username: string, score: int)

  /** What a quiz submission answers. */
  datatype QuizReply = QuizRedirectToLogin | QuizResult(previousScore: int, currentScore: nat, total: nat)

  ghost predicate UsernamesUnique(users: map<UserId, User>)
  {
    forall a, b :: a in users && b in users && users[a].username == users[b].username ==> a == b
  }

  /** Whether some user has this name (the pre-check of registration). */
  predicate NameTaken(users: map<UserId, User>, name: string)
  {
    exists id :: id in users && users[id].username == name
  }

  /** The user with this name, if any: the query by username. */
  ghost function Named(users: map<UserId, User>, name: string): (r: Option<UserId>)
    ensures r.Some? ==> r.value in users && users[r.value].username == name
    ensures r.None? <==> !NameTaken(users, name)
  {
    if NameTaken(users, name) then
      var id :| id in users && users[id].username == name; Some(id)
    else None
  }

  /** Usernames are unique, ids are below nextId, every score row belongs
      to an existing user and is non-negative, and every user's aggregate
      score is the sum of that user's per-topic bests. */
  ghost predicate Consistent(users: map<UserId, User>, scores: ScoreTable, nextId: UserId)
  {
    && UsernamesUnique(users)
    && (forall id :: id in users ==> id < nextId)
    && (forall k :: k in scores ==> k.userId in users && scores[k] >= 0)
    && (forall id :: id in users ==> users[id].score == TopicSum(scores, id))
  }

  /** Registering a free name keeps the tables consistent. */
  lemma RegisterKeepsConsistent(users: map<UserId, User>, scores: ScoreTable, nextId: UserId,
                                username: string, hash: PasswordHash, topics: set<string>)
    requires Consistent(users, scores, nextId)
    requires !NameTaken(users, username)
    ensures Consistent(users[nextId := User(username, hash, 0)],
                       scores + PlaceholderRows(nextId, topics), nextId + 1)
  {
    var users' := users[nextId := User(username, hash, 0)];
    var scores' := scores + PlaceholderRows(nextId, topics);
    SeedingKeepsTopicSums(scores, nextId, topics);
    forall a, b | a in users' && b in users' && users'[a].username == users'[b].username
      ensures a == b
    {
      if a != nextId && b != nextId {
        assert users[a].username == users[b].username;
      }
    }
  }

  /** Unregistering a user keeps the tables consistent. */
  lemma UnregisterKeepsConsistent(users: map<UserId, User>, scores: ScoreTable, nextId: UserId, id: UserId)
    requires Consistent(users, scores, nextId)
    ensures Consistent(users - {id}, WithoutUser(scores, id), nextId)
  {
    WithoutUserKeepsOthers(scores, id);
  }

  /** A quiz submission keeps the tables consistent: the reconciled table
      and the aggregate raised by the delta agree again. */
  lemma SubmitKeepsConsistent(users: map<UserId, User>, scores: ScoreTable, nextId: UserId,
                              u: UserId, topic: string, current: nat)
    requires Consistent(users, scores, nextId)
    requires u in users
    ensures var r := Reconcile(scores, u, topic, current);
      && r.delta >= 0
      && Consistent(users[u := users[u].(score := users[u].score + r.delta)], r.scores, nextId)
  {
    var r := Reconcile(scores, u, topic, current);
    var users' := users[u := users[u].(score := users[u].score + r.delta)];
    ReconcileKeepsTopicSums(scores, u, topic, current);
    forall a, b | a in users' && b in users' && users'[a].username == users'[b].username
      ensures a == b
    {
      assert users[a].username == users[b].username;
    }
  }

  class Store {
    /** The user table, by id. */
    var users: map<UserId, User>
    /** The best-score table. */
    var scores: ScoreTable
    /** The id the next registered user receives. */
    var nextId: UserId
    /** The quiz table, seeded before the application runs. */
    const questions: seq<Question>

    /** The tables satisfy Consistent. */
    ghost predicate Valid()
      reads this
    {
      Consistent(users, scores, nextId)
    }

    constructor (questions: seq<Question>)
      ensures Valid()
      ensures this.questions == questions && users == map[] && scores == map[] && nextId == 1
    {
      this.questions := questions;
      users := map[];
      scores := map[];
      nextId := 1;
    }

    /** An aggregate score is never negative. */
    lemma AggregateNonNegative(id: UserId)
      requires Valid() && id in users
      ensures users[id].score >= 0
    {
      SumNonNegative(RowsOf(scores, id));
    }

    /** Looks a user up by username. */
    method FindByUsername(name: string) returns (id: Option<UserId>)
      requires Valid()
      ensures id == Named(users, name)
      ensures id.Some? <==> NameTaken(users, name)
    {
      if NameTaken(users, name) {
        var i :| i in users && users[i].username == name;
        id := Some(i);
      } else {
        id := None;
      }
    }

    /** The registration loop that adds one placeholder row, holding 0, per
        distinct topic for the new user. An internal step of Register only:
        it neither needs nor keeps Valid(), which Register restores. */
    method SeedPlaceholders(id: UserId, topics: set<string>)
      modifies this
      ensures scores == old(scores) + PlaceholderRows(id, topics)
      ensures users == old(users) && nextId == old(nextId)
    {
      var remaining := topics;
      while remaining != {}
        invariant remaining <= topics
        invariant users == old(users) && nextId == old(nextId)
        invariant scores == old(scores) + PlaceholderRows(id, topics - remaining)
        decreases remaining
      {
        var t :| t in remaining;
        scores := scores[ScoreKey(id, t) := 0];
        remaining := remaining - {t};
      }
      assert topics - remaining == topics;
    }

    /** The register route (POST). */
    method Register(username: string, password: string, salt: string) returns (r: Result<UserId, AuthError>)
      requires Valid()
      modifies this
      ensures Valid()
      ensures NameTaken(old(users), username) ==>
        r == Failure(AccountExists) && users == old(users) && scores == old(scores) && nextId == old(nextId)
      ensures !NameTaken(old(users), username) ==>
        && r == Success(old(nextId))
        && old(nextId) !in old(users)
        && users == old(users)[old(nextId) := User(username, GeneratePasswordHash(password, salt), 0)]
        && scores == old(scores) + PlaceholderRows(old(nextId), Topics(questions))
        && nextId == old(nextId) + 1
    {
      var hash := GeneratePasswordHash(password, salt);
      if NameTaken(users, username) {
        return Failure(AccountExists);
      }
      var id := nextId;
      users := users[id := User(username, hash, 0)];
      nextId := nextId + 1;
      var topics := Topics(questions);
      SeedPlaceholders(id, topics);
      RegisterKeepsConsistent(old(users), old(scores), id, username, hash, topics);
      r := Success(id);
    }

    /** The unregister route: with a username in the session, deletes that
        user's score rows and the user, then clears the session. */
    method Unregister(s: Session) returns (s': Session)
      requires Valid()
      modifies this
      ensures Valid()
      ensures nextId == old(nextId)
      ensures s.username.None? ==> s' == s && users == old(users) && scores == old(scores)
      ensures s.username.Some? ==> s' == Anonymous && !NameTaken(users, s.username.value)
      ensures s.username.Some? ==>
        match Named(old(users), s.username.value)
        case None => users == old(users) && scores == old(scores)
        case Some(id) => users == old(users) - {id} && scores == WithoutUser(old(scores), id)
    {
      if s.username.None? {
        return s;
      }
      var found := FindByUsername(s.username.value);
      if found.Some? {
        var id := found.value;
        UnregisterKeepsConsistent(users, scores, nextId, id);
        scores := WithoutUser(scores, id);
        users := users - {id};
      }
      s' := Anonymous;
    }

    /** The login route (POST): opens a session for a known user whose
        password checks; otherwise the session is unchanged. */
    method Login(s: Session, username: string, password: string) returns (s': Session, err: Option<AuthError>)
      requires Valid()
      ensures match Named(users, username)
        case Some(id) =>
          if CheckPasswordHash(users[id].password, password)
          then s' == Session(Some(id), Some(username)) && err == None
          else s' == s && err == Some(InvalidCredentials)
        case None => s' == s && err == Some(InvalidCredentials)
    {
      var found := FindByUsername(username);
      if found.Some? && CheckPasswordHash(users[found.value].password, password) {
        s' := Session(Some(found.value), Some(users[found.value].username));
        err := None;
      } else {
        s' := s;
        err := Some(InvalidCredentials);
      }
    }

    /** The session gate of the score pages: no 'user_id' redirects to login;
        a 'user_id' that no longer resolves also clears both keys; otherwise
        the user's name and aggregate score are shown. */
    method ScorePageFor(s: Session) returns (page: ScorePage, s': Session)
      requires Valid()
      ensures s.userId.None? ==> page == RedirectToLogin && s' == s
      ensures s.userId.Some? && s.userId.value !in users ==>
        page == RedirectToLogin && s' == Anonymous
      ensures s.userId.Some? && s.userId.value in users ==>
        && s' == s
        && page == ShowScore(users[s.userId.value].username, users[s.userId.value].score)
        && page.score == TopicSum(scores, s.userId.value)
        && page.score >= 0
    {
      if s.userId.None? {
        return RedirectToLogin, s;
      }
      var id := s.userId.value;
      if id !in users {
        return RedirectToLogin, Logout(s);
      }
      AggregateNonNegative(id);
      page := ShowScore(users[id].username, users[id].score);
      s' := s;
    }

    /** The dashboard route. */
    method Dashboard(s: Session) returns (page: ScorePage, s': Session)
      requires Valid()
      ensures s.userId.None? ==> page == RedirectToLogin && s' == s
      ensures s.userId.Some? && s.userId.value !in users ==> page == RedirectToLogin && s' == Anonymous
      ensures s.userId.Some? && s.userId.value in users ==>
        s' == s && page == ShowScore(users[s.userId.value].username, users[s.userId.value].score)
    {
      page, s' := ScorePageFor(s);
    }

    /** The score display route. */
    method UserScoreDisplay(s: Session) returns (page: ScorePage, s': Session)
      requires Valid()
      ensures s.userId.None? ==> page == RedirectToLogin && s' == s
      ensures s.userId.Some? && s.userId.value !in users ==> page == RedirectToLogin && s' == Anonymous
      ensures s.userId.Some? && s.userId.value in users ==>
        s' == s && page == ShowScore(users[s.userId.value].username, users[s.userId.value].score)
    {
      page, s' := ScorePageFor(s);
    }

    /** The reconciliation step of a quiz submission: looks up the (user,
        topic) row and keeps the better of its score and `current`, creating
        the row when it is missing, then adds the rise to the user's
        aggregate. Answers the previous score, 0 without a row. An internal
        step of SubmitQuiz only: it neither needs nor keeps Valid(), which
        SubmitQuiz restores. */
    method RecordAttempt(u: UserId, topic: string, current: nat) returns (previous: int)
      requires u in users
      modifies this
      ensures previous == Reconcile(old(scores), u, topic, current).previous
      ensures scores == Reconcile(old(scores), u, topic, current).scores
      ensures users.Keys == old(users).Keys
      ensures users[u] == old(users)[u].(score := old(users)[u].score + Reconcile(old(scores), u, topic, current).delta)
      ensures forall v :: v in users && v != u ==> users[v] == old(users)[v]
      ensures nextId == old(nextId)
    {
      var key := ScoreKey(u, topic);
      previous := if key in scores then scores[key] else 0;
      var diff: int;
      if key !in scores {
        scores := scores[key := current];
        diff := current;
      } else {
        diff := current - scores[key];
        if current > scores[key] {
          scores := scores[key := current];
        } else {
          diff := 0;
        }
      }
      if diff > 0 {
        users := users[u := users[u].(score := users[u].score + diff)];
      }
    }

    /** The quiz route (POST): scores the submitted form against the topic's
        questions, raises the stored best for (user, topic) only when the new
        score is higher, and adds exactly that rise to the user's aggregate. */
    method SubmitQuiz(s: Session, topic: string, answers: Answers) returns (reply: QuizReply)
      requires Valid()
      requires s.userId.Some? ==> s.userId.value in users
      modifies this
      ensures Valid()
      ensures nextId == old(nextId)
      ensures s.userId.None? ==> reply == QuizRedirectToLogin && users == old(users) && scores == old(scores)
      ensures s.userId.Some? ==>
        var u := s.userId.value;
        var qs := QuestionsOf(questions, topic);
        var current := CorrectCount(qs, answers);
        var r := Reconcile(old(scores), u, topic, current);
        && reply == QuizResult(r.previous, current, |qs|)
        && scores == r.scores
        && users.Keys == old(users).Keys
        && users[u] == old(users)[u].(score := old(users)[u].score + r.delta)
        && (forall v :: v in users && v != u ==> users[v] == old(users)[v])
        && users[u].score >= old(users)[u].score
    {
      if s.userId.None? {
        return QuizRedirectToLogin;
      }
      var u := s.userId.value;
      var qs := QuestionsOf(questions, topic);
      var current, total := ScoreAttempt(qs, answers);
      SubmitKeepsConsistent(users, scores, nextId, u, topic, current);
      ghost var users' := users[u := users[u].(score := users[u].score + Reconcile(scores, u, topic, current).delta)];
      var previous := RecordAttempt(u, topic, current);
      assert users == users';
      reply := QuizResult(previous, current, total);
    }
  }
}
