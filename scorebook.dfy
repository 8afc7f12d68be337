/** The per-(user, topic) best-score table and the rule that reconciles a new
    attempt with it. */
module ScoreBook {

  type UserId = int

  /** (user id, topic): the pair the score table keeps unique. Keying the
      table by it leaves room for at most one row per pair. */
  datatype ScoreKey = ScoreKey(userId: UserId, topic: string)

  /** The score table: best score per (user, topic). A row seeded at
      registration holds the column default 0. */
  type ScoreTable = map<ScoreKey, int>

  function Max(a: int, b: int): int
  {
    if a < b then b else a
  }

  /** The stored best for a key, 0 when there is no row. */
  function Stored(scores: ScoreTable, key: ScoreKey): int
  {
    if key in scores then scores[key] else 0
  }

  ghost function Pick<K>(s: set<K>): K
    requires s != {}
  {
    var k :| k in s; k
  }

  /** The sum of all values of a map. */
  ghost function SumValues<K>(m: map<K, int>): int
    decreases |m|
  {
    if m == map[] then 0
    else
      var k := Pick(m.Keys);
      assert m.Keys - {k} < m.Keys;
      m[k] + SumValues(m - {k})
  }

  /** Taking any one key out of the sum leaves its value to be added back. */
  lemma {:induction false} SumRemove<K>(m: map<K, int>, k: K)
    requires k in m
    ensures SumValues(m) == m[k] + SumValues(m - {k})
    decreases |m|
  {
    var j := Pick(m.Keys);
    if j != k {
      assert (m - {j}).Keys < m.Keys;
      assert (m - {k}).Keys < m.Keys;
      SumRemove(m - {j}, k);
      SumRemove(m - {k}, j);
      assert m - {j} - {k} == m - {k} - {j};
    }
  }

  /** Writing v at k changes the sum by v minus what k held before. */
  lemma SumUpdate<K>(m: map<K, int>, k: K, v: int)
    ensures SumValues(m[k := v]) == SumValues(m) - (if k in m then m[k] else 0) + v
  {
    SumRemove(m[k := v], k);
    if k in m {
      SumRemove(m, k);
      assert m[k := v] - {k} == m - {k};
    } else {
      assert m[k := v] - {k} == m;
    }
  }

  /** A map whose values are all 0 sums to 0. */
  lemma {:induction false} SumOfZeros<K>(m: map<K, int>)
    requires forall k :: k in m ==> m[k] == 0
    ensures SumValues(m) == 0
    decreases |m|
  {
    if m != map[] {
      var k := Pick(m.Keys);
      assert (m - {k}).Keys < m.Keys;
      SumOfZeros(m - {k});
    }
  }

  /** A map whose values are all non-negative has a non-negative sum. */
  lemma {:induction false} SumNonNegative<K>(m: map<K, int>)
    requires forall k :: k in m ==> m[k] >= 0
    ensures SumValues(m) >= 0
    decreases |m|
  {
    if m != map[] {
      var k := Pick(m.Keys);
      assert (m - {k}).Keys < m.Keys;
      SumNonNegative(m - {k});
    }
  }

  /** The rows of one user. */
  function RowsOf(scores: ScoreTable, u: UserId): ScoreTable
  {
    map k | k in scores && k.userId == u :: scores[k]
  }

  /** The sum of one user's per-topic best scores. */
  ghost function TopicSum(scores: ScoreTable, u: UserId): int
  {
    SumValues(RowsOf(scores, u))
  }

  /** The placeholder rows registration seeds for a new user: one per topic,
      each holding 0. */
  function PlaceholderRows(u: UserId, topics: set<string>): ScoreTable
  {
    map t | t in topics :: ScoreKey(u, t) := 0
  }

  /** Registration seeds exactly as many rows as there are distinct topics. */
  lemma {:induction false} PlaceholderCount(u: UserId, topics: set<string>)
    ensures |PlaceholderRows(u, topics)| == |topics|
    decreases topics
  {
    if topics != {} {
      var t :| t in topics;
      var rest := topics - {t};
      PlaceholderCount(u, rest);
      var keys := PlaceholderRows(u, topics).Keys;
      var restKeys := PlaceholderRows(u, rest).Keys;
      assert keys == restKeys + {ScoreKey(u, t)};
      assert ScoreKey(u, t) !in restKeys;
      assert |keys| == |restKeys| + 1;
    }
  }

  /** Seeding a new user's rows gives that user a topic sum of 0 and leaves
      every other user's sum as it was. */
  lemma SeedingKeepsTopicSums(scores: ScoreTable, u: UserId, topics: set<string>)
    requires forall k :: k in scores ==> k.userId != u
    ensures TopicSum(scores + PlaceholderRows(u, topics), u) == 0
    ensures forall v :: v != u ==> TopicSum(scores + PlaceholderRows(u, topics), v) == TopicSum(scores, v)
  {
    var seeded := scores + PlaceholderRows(u, topics);
    assert RowsOf(seeded, u) == PlaceholderRows(u, topics);
    SumOfZeros(PlaceholderRows(u, topics));
    forall v | v != u
      ensures TopicSum(seeded, v) == TopicSum(scores, v)
    {
      assert RowsOf(seeded, v) == RowsOf(scores, v);
    }
  }

  /** The bulk delete of one user's rows. */
  function WithoutUser(scores: ScoreTable, u: UserId): (r: ScoreTable)
  {
    map k | k in scores && k.userId != u :: scores[k]
  }

  /** Deleting one user's rows removes all of them and keeps every other
      user's rows, and so every other user's topic sum. */
  lemma WithoutUserKeepsOthers(scores: ScoreTable, u: UserId)
    ensures forall k :: k in WithoutUser(scores, u) ==> k.userId != u
    ensures forall k :: k in scores && k.userId != u ==> k in WithoutUser(scores, u) && WithoutUser(scores, u)[k] == scores[k]
    ensures forall v :: v != u ==> TopicSum(WithoutUser(scores, u), v) == TopicSum(scores, v)
  {
    forall v | v != u
      ensures TopicSum(WithoutUser(scores, u), v) == TopicSum(scores, v)
    {
      assert RowsOf(WithoutUser(scores, u), v) == RowsOf(scores, v);
    }
  }

  /** What a quiz submission does to the score table: the new table, the
      previous score reported back, and the increase of the aggregate. */
  datatype Reconciled = Reconciled(scores: ScoreTable, previous: int, delta: int)

  /** The reconciliation rule of a quiz submission with score `current` by
      user u on `topic`. */
  function Reconcile(scores: ScoreTable, u: UserId, topic: string, current: nat): (r: Reconciled)
    ensures r.previous == Stored(scores, ScoreKey(u, topic))
    ensures ScoreKey(u, topic) in r.scores
    ensures r.scores[ScoreKey(u, topic)] == Max(r.previous, current)
    ensures r.delta == Max(0, current - r.previous)
    ensures r.scores.Keys == scores.Keys + {ScoreKey(u, topic)}
    ensures forall k :: k in scores && k != ScoreKey(u, topic) ==> r.scores[k] == scores[k]
  {
    var key := ScoreKey(u, topic);
    if key !in scores then
      Reconciled(scores[key := current], 0, current)
    else
      var diff := current - scores[key];
      if current > scores[key] then Reconciled(scores[key := current], scores[key], diff)
      else Reconciled(scores, scores[key], 0)
  }

  /** The stored best of a key never decreases under a submission. */
  lemma ReconcileNeverLowers(scores: ScoreTable, u: UserId, topic: string, current: nat)
    ensures forall k :: k in scores ==>
      k in Reconcile(scores, u, topic, current).scores && Reconcile(scores, u, topic, current).scores[k] >= scores[k]
  {
  }

  /** The core invariant: a submission raises the user's sum of topic bests
      by exactly the delta added to the aggregate score, and leaves every
      other user's sum unchanged. */
  lemma ReconcileKeepsTopicSums(scores: ScoreTable, u: UserId, topic: string, current: nat)
    ensures TopicSum(Reconcile(scores, u, topic, current).scores, u) == TopicSum(scores, u) + Reconcile(scores, u, topic, current).delta
    ensures forall v :: v != u ==> TopicSum(Reconcile(scores, u, topic, current).scores, v) == TopicSum(scores, v)
  {
    var r := Reconcile(scores, u, topic, current);
    var key := ScoreKey(u, topic);
    var mine := RowsOf(scores, u);
    assert RowsOf(r.scores, u) == mine[key := r.scores[key]];
    SumUpdate(mine, key, r.scores[key]);
    forall v | v != u
      ensures TopicSum(r.scores, v) == TopicSum(scores, v)
    {
      assert RowsOf(r.scores, v) == RowsOf(scores, v);
    }
  }

  /** Submitting the attempt scores in order, all for one user and topic. */
  function Replay(scores: ScoreTable, u: UserId, topic: string, attempts: seq<nat>): ScoreTable
    decreases |attempts|
  {
    if attempts == [] then scores
    else Replay(Reconcile(scores, u, topic, attempts[0]).scores, u, topic, attempts[1..])
  }

  /** The largest of b and the attempts. */
  function BestOf(b: int, attempts: seq<nat>): int
    decreases |attempts|
  {
    if attempts == [] then b else BestOf(Max(b, attempts[0]), attempts[1..])
  }

  lemma {:induction false} BestOfBounds(b: int, attempts: seq<nat>)
    ensures BestOf(b, attempts) >= b
    ensures forall i :: 0 <= i < |attempts| ==> BestOf(b, attempts) >= attempts[i]
    decreases |attempts|
  {
    if attempts != [] {
      BestOfBounds(Max(b, attempts[0]), attempts[1..]);
      forall i | 0 < i < |attempts|
        ensures BestOf(b, attempts) >= attempts[i]
      {
        assert attempts[i] == attempts[1..][i - 1];
      }
    }
  }

  /** Over any sequence of submissions on one (user, topic), the stored
      score ends at the best of what was stored and every attempt, so it
      never decreases; the user's topic sum rises by exactly the stored
      score's rise; no other user's sum moves. */
  lemma {:induction false} ReplayKeepsBest(scores: ScoreTable, u: UserId, topic: string, attempts: seq<nat>)
    ensures Stored(Replay(scores, u, topic, attempts), ScoreKey(u, topic)) == BestOf(Stored(scores, ScoreKey(u, topic)), attempts)
    ensures Stored(Replay(scores, u, topic, attempts), ScoreKey(u, topic)) >= Stored(scores, ScoreKey(u, topic))
    ensures TopicSum(Replay(scores, u, topic, attempts), u) - Stored(Replay(scores, u, topic, attempts), ScoreKey(u, topic))
         == TopicSum(scores, u) - Stored(scores, ScoreKey(u, topic))
    ensures forall v :: v != u ==> TopicSum(Replay(scores, u, topic, attempts), v) == TopicSum(scores, v)
    decreases |attempts|
  {
    BestOfBounds(Stored(scores, ScoreKey(u, topic)), attempts);
    if attempts != [] {
      var r := Reconcile(scores, u, topic, attempts[0]);
      ReconcileKeepsTopicSums(scores, u, topic, attempts[0]);
      ReplayKeepsBest(r.scores, u, topic, attempts[1..]);
    }
  }
}
