/** Scoring of one quiz attempt: which questions make up a topic's quiz and
    how many of them a submitted form answers correctly. */
module Scoring {

  /** One row of the quiz table. The source keeps the correct option as text
      and compares it through int(); the record keeps that parsed number. */
  datatype Question = Question(
    id: int,
    topic: string,
    text: string,
    option1: string,
    option2: string,
    option3: string,
    option4: string,
    correctOption: int)

  /** A submitted quiz form, already parsed: question id to the chosen option
      number. A question whose field is absent or empty has no entry. */
  type Answers = map<int, int>

  /** The questions of one topic, in table order (the query by topic): each
      question of the topic as many times as the table holds it, no other. */
  function QuestionsOf(qs: seq<Question>, topic: string): (r: seq<Question>)
    ensures |r| <= |qs|
    ensures forall q :: q in r <==> q in qs && q.topic == topic
    ensures forall q :: multiset(r)[q] == (if q.topic == topic then multiset(qs)[q] else 0)
  {
    if qs == [] then []
    else
      assert qs == [qs[0]] + qs[1..];
      if qs[0].topic == topic then [qs[0]] + QuestionsOf(qs[1..], topic)
      else QuestionsOf(qs[1..], topic)
  }

  /** The distinct topics present in the quiz table. */
  function Topics(qs: seq<Question>): set<string>
  {
    set q | q in qs :: q.topic
  }

  /** A topic is listed among the distinct topics exactly when it has questions. */
  lemma TopicsAreNonEmptyQuizzes(qs: seq<Question>, topic: string)
    ensures topic in Topics(qs) <==> QuestionsOf(qs, topic) != []
  {
  }

  /** A question counts when an answer was given and it names the correct option. */
  predicate AnsweredCorrectly(q: Question, answers: Answers)
  {
    q.id in answers && answers[q.id] == q.correctOption
  }

  /** The number of questions of qs that the answers get right. */
  function CorrectCount(qs: seq<Question>, answers: Answers): (n: nat)
    ensures n <= |qs|
  {
    if qs == [] then 0
    else
      CorrectCount(qs[..|qs| - 1], answers)
        + (if AnsweredCorrectly(qs[|qs| - 1], answers) then 1 else 0)
  }

  /** The positions of the correctly answered questions. */
  function CorrectPositions(qs: seq<Question>, answers: Answers): set<nat>
  {
    set i: nat | i < |qs| && AnsweredCorrectly(qs[i], answers)
  }

  /** The attempt score is the number of correctly answered positions. */
  lemma {:induction false} CorrectCountIsPositionCount(qs: seq<Question>, answers: Answers)
    ensures CorrectCount(qs, answers) == |CorrectPositions(qs, answers)|
  {
    if qs != [] {
      var n := |qs| - 1;
      var front := qs[..n];
      CorrectCountIsPositionCount(front, answers);
      var before := CorrectPositions(front, answers);
      assert n !in before;
      if AnsweredCorrectly(qs[n], answers) {
        assert CorrectPositions(qs, answers) == before + {n};
      } else {
        assert CorrectPositions(qs, answers) == before;
      }
    }
  }

  /** Answering every question correctly scores the full total. */
  lemma {:induction false} AllCorrectScoresTotal(qs: seq<Question>, answers: Answers)
    requires forall q :: q in qs ==> AnsweredCorrectly(q, answers)
    ensures CorrectCount(qs, answers) == |qs|
  {
    if qs != [] {
      var n := |qs| - 1;
      assert qs[n] in qs;
      forall q | q in qs[..n] ensures AnsweredCorrectly(q, answers) {
        assert q in qs;
      }
      AllCorrectScoresTotal(qs[..n], answers);
    }
  }

  /** Unanswered questions count as incorrect: an empty form scores 0. */
  lemma {:induction false} UnansweredScoresZero(qs: seq<Question>, answers: Answers)
    requires forall q :: q in qs ==> q.id !in answers
    ensures CorrectCount(qs, answers) == 0
  {
    if qs != [] {
      var n := |qs| - 1;
      assert qs[n] in qs;
      forall q | q in qs[..n] ensures q.id !in answers {
        assert q in qs;
      }
      UnansweredScoresZero(qs[..n], answers);
    }
  }

  /** Scores a submitted form against a topic's questions: the loop of the
      quiz handler that adds one per correctly answered question. */
  method ScoreAttempt(questions: seq<Question>, answers: Answers) returns (current: nat, total: nat)
    ensures total == |questions|
    ensures current == CorrectCount(questions, answers)
    ensures current <= total
  {
    current := 0;
    total := |questions|;
    for i := 0 to |questions|
      invariant current == CorrectCount(questions[..i], answers)
    {
      assert questions[..i + 1][..i] == questions[..i];
      var q := questions[i];
      if q.id in answers && answers[q.id] == q.correctOption {
        current := current + 1;
      }
    }
    assert questions[..|questions|] == questions;
  }
}
