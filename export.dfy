/** The records `exportAnswers` builds, one per question from 1 to the count, before they
    are turned into the downloaded JSON text. */
module ExportRecords {

  const NoAnswer: string := "Sin respuesta"
  const Correct: string := "Sí"
  const Incorrect: string := "No"
  const NotEvaluated: string := "No evaluada"

  datatype Record = Record(pregunta: int, respuesta: string, correcta: string)

  /** The record for question q. An answer is one letter, so it is never taken for the
      "Sin respuesta" fallback of `answers[i] || 'Sin respuesta'`. */
  function RecordFor(q: int, answers: map<int, char>, correctness: map<int, bool>): (r: Record)
    ensures r.pregunta == q
    ensures r.respuesta == NoAnswer <==> q !in answers
    ensures r.correcta == NotEvaluated <==> q !in correctness
    ensures r.correcta == Correct <==> q in correctness && correctness[q]
    ensures r.correcta == Incorrect <==> q in correctness && !correctness[q]
  {
    assert |NoAnswer| == 13 && |NotEvaluated| == 11 && Correct[0] != Incorrect[0];
    Record(
      q,
      if q in answers then [answers[q]] else NoAnswer,
      if q in correctness then (if correctness[q] then Correct else Incorrect) else NotEvaluated)
  }

  /** The export of a sheet with n questions: records 1..n in ascending order (none when
      n is not positive, as the `for` loop does not run). */
  function Export(n: int, answers: map<int, char>, correctness: map<int, bool>): (r: seq<Record>)
    ensures |r| == if n > 0 then n else 0
    ensures forall i :: 0 <= i < |r| ==> r[i].pregunta == i + 1
    ensures forall i :: 0 <= i < |r| ==> r[i] == RecordFor(i + 1, answers, correctness)
  {
    if n <= 0 then [] else Export(n - 1, answers, correctness) + [RecordFor(n, answers, correctness)]
  }

  /** An answer for a question beyond n appears in no record of the export. */
  lemma ExportMissesLaterAnswers(n: int, answers: map<int, char>, correctness: map<int, bool>)
    requires forall q :: q in answers ==> q > n
    ensures forall i :: 0 <= i < |Export(n, answers, correctness)| ==>
              Export(n, answers, correctness)[i].respuesta == NoAnswer
  {
    var r := Export(n, answers, correctness);
    forall i | 0 <= i < |r| ensures r[i].respuesta == NoAnswer {
      assert r[i] == RecordFor(i + 1, answers, correctness);
    }
  }

  // ---------------------------------------------------------------------------
  // Reading a sheet back from its export.

  /** The answers a reader of the export recovers: one-letter answers stand for
      themselves, anything else for no answer. */
  function AnswersRead(recs: seq<Record>): map<int, char> {
    if recs == [] then map[]
    else
      var last := recs[|recs| - 1];
      var prior := AnswersRead(recs[..|recs| - 1]);
      if |last.respuesta| == 1 then prior[last.pregunta := last.respuesta[0]] else prior
  }

  /** The correctness flags a reader of the export recovers from "Sí" and "No". */
  function FlagsRead(recs: seq<Record>): map<int, bool> {
    if recs == [] then map[]
    else
      var last := recs[|recs| - 1];
      var prior := FlagsRead(recs[..|recs| - 1]);
      if last.correcta == Correct then prior[last.pregunta := true]
      else if last.correcta == Incorrect then prior[last.pregunta := false]
      else prior
  }

  /** The entries of a record for questions 1..n. */
  function Within<V>(m: map<int, V>, n: int): (r: map<int, V>)
    ensures forall k :: k in r <==> k in m && 1 <= k <= n
    ensures forall k :: k in r ==> r[k] == m[k]
  {
    map k | k in m && 1 <= k <= n :: m[k]
  }

  lemma AnswersReadSnoc(recs: seq<Record>, last: Record)
    ensures AnswersRead(recs + [last]) ==
      if |last.respuesta| == 1 then AnswersRead(recs)[last.pregunta := last.respuesta[0]] else AnswersRead(recs)
  {
    assert (recs + [last])[..|recs|] == recs;
  }

  lemma FlagsReadSnoc(recs: seq<Record>, last: Record)
    ensures FlagsRead(recs + [last]) ==
      if last.correcta == Correct then FlagsRead(recs)[last.pregunta := true]
      else if last.correcta == Incorrect then FlagsRead(recs)[last.pregunta := false]
      else FlagsRead(recs)
  {
    assert (recs + [last])[..|recs|] == recs;
  }

  /** A record holds a one-letter answer exactly when its question is answered. */
  lemma RecordForAnswer(q: int, answers: map<int, char>, correctness: map<int, bool>)
    ensures |RecordFor(q, answers, correctness).respuesta| == 1 <==> q in answers
    ensures q in answers ==> RecordFor(q, answers, correctness).respuesta[0] == answers[q]
  {
    assert |NoAnswer| == 13;
  }

  lemma {:induction false} ExportAnswersReadBack(n: int, answers: map<int, char>, correctness: map<int, bool>)
    ensures AnswersRead(Export(n, answers, correctness)) == Within(answers, n)
  {
    if n > 0 {
      var prev := Export(n - 1, answers, correctness);
      var last := RecordFor(n, answers, correctness);
      assert Export(n, answers, correctness) == prev + [last];
      ExportAnswersReadBack(n - 1, answers, correctness);
      AnswersReadSnoc(prev, last);
      var w := Within(answers, n - 1);
      assert AnswersRead(prev) == w;
      WithinStep(answers, n);
      RecordForAnswer(n, answers, correctness);
      if n in answers {
        assert AnswersRead(prev + [last]) == w[n := answers[n]];
      } else {
        assert AnswersRead(prev + [last]) == w;
      }
    } else {
      assert Within(answers, n) == map[];
    }
  }

  lemma {:induction false} ExportFlagsReadBack(n: int, answers: map<int, char>, correctness: map<int, bool>)
    ensures FlagsRead(Export(n, answers, correctness)) == Within(correctness, n)
  {
    if n > 0 {
      var prev := Export(n - 1, answers, correctness);
      var last := RecordFor(n, answers, correctness);
      assert Export(n, answers, correctness) == prev + [last];
      ExportFlagsReadBack(n - 1, answers, correctness);
      FlagsReadSnoc(prev, last);
      WithinStep(correctness, n);
      if n in correctness {
        assert last.correcta == (if correctness[n] then Correct else Incorrect);
        assert Correct != Incorrect;
      } else {
        assert last.correcta == NotEvaluated;
        assert NotEvaluated != Correct && NotEvaluated != Incorrect;
      }
    } else {
      assert Within(correctness, n) == map[];
    }
  }

  lemma WithinStep<V>(m: map<int, V>, n: int)
    requires n > 0
    ensures Within(m, n) == if n in m then Within(m, n - 1)[n := m[n]] else Within(m, n - 1)
  {
  }

  /** The export is lossless on the displayed questions and blind to every other one:
      reading it back gives exactly the answers and flags for questions 1..n. */
  lemma ExportReadBack(n: int, answers: map<int, char>, correctness: map<int, bool>)
    ensures AnswersRead(Export(n, answers, correctness)) == Within(answers, n)
    ensures FlagsRead(Export(n, answers, correctness)) == Within(correctness, n)
  {
    ExportAnswersReadBack(n, answers, correctness);
    ExportFlagsReadBack(n, answers, correctness);
  }

  /** Three questions, question 1 answered "A" and marked correct. */
  lemma ExportOfThree()
    ensures Export(3, map[1 := 'A'], map[1 := true]) ==
      [Record(1, "A", "Sí"), Record(2, "Sin respuesta", "No evaluada"), Record(3, "Sin respuesta", "No evaluada")]
  {
    var answers, correctness := map[1 := 'A'], map[1 := true];
    RecordsOfThree(answers, correctness);
    var e := Export(3, answers, correctness);
    assert |e| == 3;
    assert e[0] == Record(1, "A", "Sí");
    assert e[1] == Record(2, NoAnswer, NotEvaluated);
    assert e[2] == Record(3, NoAnswer, NotEvaluated);
  }

  /** The three records of that sheet, one question at a time. */
  lemma RecordsOfThree(answers: map<int, char>, correctness: map<int, bool>)
    requires answers == map[1 := 'A'] && correctness == map[1 := true]
    ensures RecordFor(1, answers, correctness) == Record(1, "A", "Sí")
    ensures RecordFor(2, answers, correctness) == Record(2, NoAnswer, NotEvaluated)
    ensures RecordFor(3, answers, correctness) == Record(3, NoAnswer, NotEvaluated)
  {
  }
}
