/** The counters shown under the sheet: answered questions, correct, incorrect, and
    "Sin evaluar". */
module Summary {

  /** A subset is no larger than its superset. */
  lemma SubsetSize<T>(a: set<T>, b: set<T>)
    requires a <= b
    ensures |a| <= |b|
  {
    var rest := b - a;
    assert b == a + rest;
    assert a !! rest;
  }

  /** `Object.keys(answers).length`: the answered count, also the condition under which the
      statistics are shown. */
  function AnsweredCount(answers: map<int, char>): (r: nat)
    ensures r == 0 <==> answers == map[]
  {
    assert answers == map[] <==> answers.Keys == {};
    |answers|
  }

  /** "Correctas": the questions flagged correct. */
  function CorrectCount(correctness: map<int, bool>): (r: nat)
    ensures r <= |correctness|
    ensures r > 0 <==> exists k :: k in correctness && correctness[k]
  {
    var t := set k | k in correctness && correctness[k];
    SubsetSize(t, correctness.Keys);
    if exists k :: k in correctness && correctness[k] then
      var k :| k in correctness && correctness[k];
      assert k in t;
      |t|
    else
      assert t == {};
      |t|
  }

  /** "Incorrectas": the questions flagged incorrect. */
  function IncorrectCount(correctness: map<int, bool>): (r: nat)
    ensures r <= |correctness|
    ensures r > 0 <==> exists k :: k in correctness && !correctness[k]
  {
    var f := set k | k in correctness && !correctness[k];
    SubsetSize(f, correctness.Keys);
    if exists k :: k in correctness && !correctness[k] then
      var k :| k in correctness && !correctness[k];
      assert k in f;
      |f|
    else
      assert f == {};
      |f|
  }

  /** "Sin evaluar": answered minus flagged, an int because it is a plain difference. It
      goes below zero only when some flagged question has no answer. */
  function Unevaluated(answers: map<int, char>, correctness: map<int, bool>): (r: int)
    ensures r < 0 ==> exists k :: k in correctness && k !in answers
  {
    if exists k :: k in correctness && k !in answers then
      |answers| - |correctness|
    else
      SubsetSize(correctness.Keys, answers.Keys);
      |answers| - |correctness|
  }

  /** Every flag is counted once, as correct or as incorrect. */
  lemma VerdictsPartition(correctness: map<int, bool>)
    ensures CorrectCount(correctness) + IncorrectCount(correctness) == |correctness|
  {
    var t := set k | k in correctness && correctness[k];
    var f := set k | k in correctness && !correctness[k];
    assert t + f == correctness.Keys;
    assert t !! f;
  }

  /** When every flagged question is answered, "Sin evaluar" is the number of answered
      questions without a flag. */
  lemma UnevaluatedWhenFlagsAreAnswered(answers: map<int, char>, correctness: map<int, bool>)
    requires correctness.Keys <= answers.Keys
    ensures Unevaluated(answers, correctness) == |answers.Keys - correctness.Keys| >= 0
  {
    var rest := answers.Keys - correctness.Keys;
    assert answers.Keys == rest + correctness.Keys;
    assert rest !! correctness.Keys;
  }

  /** Clearing one answer of a fully evaluated sheet keeps its flag: with another answer
      left the statistics stay on screen and "Sin evaluar" shows -1. */
  lemma ClearedAnswerLeavesNegativeUnevaluated(answers: map<int, char>, correctness: map<int, bool>, q: int)
    requires answers.Keys == correctness.Keys && q in answers && |answers| >= 2
    ensures AnsweredCount(answers - {q}) > 0
    ensures Unevaluated(answers - {q}, correctness) == -1
  {
    assert (answers - {q}).Keys == answers.Keys - {q};
    assert answers.Keys == (answers.Keys - {q}) + {q};
  }

  /** The case of two evaluated answers with the first one cleared. */
  lemma ClearedFirstOfTwo()
    ensures var answers := map[1 := 'A', 2 := 'B'] - {1};
            AnsweredCount(answers) == 1 && Unevaluated(answers, map[1 := true, 2 := true]) == -1
  {
    var before := map[1 := 'A', 2 := 'B'];
    var flags := map[1 := true, 2 := true];
    assert before.Keys == {1, 2} == flags.Keys;
    ClearedAnswerLeavesNegativeUnevaluated(before, flags, 1);
    assert before - {1} == map[2 := 'B'];
  }
}
