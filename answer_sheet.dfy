/** The answer-sheet component as a state machine: its four state fields, the
    `hasHydrated` flag, the browser storage it writes through to, and one method per
    handler. `JSON.parse` and `JSON.stringify` are supplied when the sheet is created. */
module AnswerSheet {
  import opened Maybe
  import opened Decimal
  import opened Json
  import opened Persistence
  import opened ExportRecords
  import opened Alphabet
  import opened Summary

  /** m without the keys lo..hi. */
  function WithoutRange<V>(m: map<int, V>, lo: int, hi: int): (r: map<int, V>)
    ensures forall k :: k in r <==> k in m && !(lo <= k <= hi)
    ensures forall k :: k in r ==> r[k] == m[k]
  {
    map k | k in m && !(lo <= k <= hi) :: m[k]
  }

  /** The `for` loop of `decreaseQuestions`: a copy of m with the keys lo..hi deleted one
      by one. */
  method DeleteRange<V>(m: map<int, V>, lo: int, hi: int) returns (r: map<int, V>)
    ensures r == WithoutRange(m, lo, hi)
  {
    r := m;
    var i := lo;
    while i <= hi
      invariant lo <= i && (i <= hi + 1 || i == lo)
      invariant r == WithoutRange(m, lo, i - 1)
    {
      r := r - {i};
      i := i + 1;
    }
  }

  /** Writing both keys makes their earlier removal invisible. */
  lemma RemovedThenWritten(s: map<string, string>, a: string, c: string, x: string, y: string)
    ensures (s - {a, c})[a := x][c := y] == s[a := x][c := y]
  {
    var l := (s - {a, c})[a := x][c := y];
    var r := s[a := x][c := y];
    assert l.Keys == r.Keys;
  }

  class ExamAnswerSheet {
    var numQuestions: int
    var answers: map<int, char>
    var correctness: map<int, bool>
    var optionsPerQuestion: int
    var hasHydrated: bool
    /** The browser's key-value storage. */
    var storage: map<string, string>

    const parse: string -> Option<Value>
    const stringify: Value -> string

    /** The settings stay where the controls and the hydration bounds keep them: at least
        one question, and 3 to 6 options, which is what `Options` needs. */
    ghost predicate Valid()
      reads this
    {
      numQuestions >= 1 && MinOptions <= optionsPerQuestion <= MaxOptions
    }

    /** `generateOptions(optionsPerQuestion)`: the letters offered on every question, the
        first ones of A..F. */
    function Options(): (r: string)
      reads this
      requires Valid()
      ensures |r| == optionsPerQuestion
      ensures r == "ABCDEF"[..optionsPerQuestion]
    {
      SelectorAlphabets();
      OptionsPrefix(optionsPerQuestion, 6);
      GenerateOptions(optionsPerQuestion)
    }

    /** The text the write-through stores for each field. */
    function AnswersText(): string
      reads this`answers
    {
      stringify(AnswersJson(answers))
    }

    function CorrectnessText(): string
      reads this`correctness
    {
      stringify(CorrectnessJson(correctness))
    }

    /** The component on mount: default state, writes not yet enabled. */
    constructor (initial: map<string, string>, parse: string -> Option<Value>, stringify: Value -> string)
      ensures Valid()
      ensures numQuestions == DefaultNumQuestions && optionsPerQuestion == DefaultOptionsPerQuestion
      ensures answers == map[] && correctness == map[]
      ensures !hasHydrated && storage == initial
      ensures this.parse == parse && this.stringify == stringify
    {
      numQuestions := DefaultNumQuestions;
      answers := map[];
      correctness := map[];
      optionsPerQuestion := DefaultOptionsPerQuestion;
      hasHydrated := false;
      storage := initial;
      this.parse := parse;
      this.stringify := stringify;
    }

    /** The loading effect: each stored value that passes validation replaces the field,
        every other field keeps its value; nothing is written. */
    method Hydrate()
      requires Valid() && !hasHydrated
      modifies this`answers, this`correctness, this`numQuestions, this`optionsPerQuestion
      ensures Valid()
      ensures answers == HydratedRecord(Lookup(storage, AnswersKey), parse, AnswerOf, old(answers))
      ensures correctness == HydratedRecord(Lookup(storage, CorrectnessKey), parse, FlagOf, old(correctness))
      ensures numQuestions ==
        HydratedNumber(Lookup(storage, NumQuestionsKey), MinStoredQuestions, MaxStoredQuestions, old(numQuestions))
      ensures optionsPerQuestion ==
        HydratedNumber(Lookup(storage, OptionsKey), MinOptions, MaxOptions, old(optionsPerQuestion))
    {
      answers := HydrateRecord(Lookup(storage, AnswersKey), parse, AnswerOf, answers);
      correctness := HydrateRecord(Lookup(storage, CorrectnessKey), parse, FlagOf, correctness);
      var numQ := StoredNumber(Lookup(storage, NumQuestionsKey), MinStoredQuestions, MaxStoredQuestions);
      if numQ.Some? {
        numQuestions := numQ.value;
      }
      var optionsNum := StoredNumber(Lookup(storage, OptionsKey), MinOptions, MaxOptions);
      if optionsNum.Some? {
        optionsPerQuestion := optionsNum.value;
      }
    }

    /** The effect that runs after the first paint and opens the write-through. */
    method EnableWriteThrough()
      modifies this`hasHydrated
      ensures hasHydrated
    {
      hasHydrated := true;
    }

    /** One write-through effect: stores `text` under `key` once writes are enabled. */
    method Save(key: string, text: string)
      modifies this`storage
      ensures storage == if hasHydrated then old(storage)[key := text] else old(storage)
    {
      if hasHydrated {
        storage := storage[key := text];
      }
    }

    /** `handleAnswerChange`: question q gets the option; nothing else in memory changes. */
    method HandleAnswerChange(q: int, option: char)
      modifies this`answers, this`storage
      ensures answers == old(answers)[q := option]
      ensures storage == if hasHydrated then old(storage)[AnswersKey := AnswersText()] else old(storage)
    {
      answers := answers[q := option];
      Save(AnswersKey, AnswersText());
    }

    /** `handleCorrectnessChange`: question q gets the flag; nothing else in memory changes. */
    method HandleCorrectnessChange(q: int, isCorrect: bool)
      modifies this`correctness, this`storage
      ensures correctness == old(correctness)[q := isCorrect]
      ensures storage == if hasHydrated then old(storage)[CorrectnessKey := CorrectnessText()] else old(storage)
    {
      correctness := correctness[q := isCorrect];
      Save(CorrectnessKey, CorrectnessText());
    }

    /** `clearIndividualAnswer`: removes q from the answers only; its flag, if any, stays. */
    method ClearIndividualAnswer(q: int)
      modifies this`answers, this`storage
      ensures answers == old(answers) - {q}
      ensures storage == if hasHydrated then old(storage)[AnswersKey := AnswersText()] else old(storage)
    {
      answers := answers - {q};
      Save(AnswersKey, AnswersText());
    }

    /** `clearIndividualCorrectness`: removes q from the flags only. */
    method ClearIndividualCorrectness(q: int)
      modifies this`correctness, this`storage
      ensures correctness == old(correctness) - {q}
      ensures storage == if hasHydrated then old(storage)[CorrectnessKey := CorrectnessText()] else old(storage)
    {
      correctness := correctness - {q};
      Save(CorrectnessKey, CorrectnessText());
    }

    /** `increaseQuestions`: five more questions, with no upper bound. */
    method IncreaseQuestions()
      requires Valid()
      modifies this`numQuestions, this`storage
      ensures Valid()
      ensures numQuestions == old(numQuestions) + 5
      ensures storage == if hasHydrated then old(storage)[NumQuestionsKey := IntToString(numQuestions)] else old(storage)
    {
      numQuestions := numQuestions + 5;
      Save(NumQuestionsKey, IntToString(numQuestions));
    }

    /** `decreaseQuestions`: above five questions, drops the last five and deletes their
        answers and flags (questions old-4..old); at five or fewer, does nothing. */
    method DecreaseQuestions()
      requires Valid()
      modifies this`numQuestions, this`answers, this`correctness, this`storage
      ensures Valid()
      ensures old(numQuestions) > 5 ==>
        && numQuestions == old(numQuestions) - 5
        && answers == WithoutRange(old(answers), old(numQuestions) - 4, old(numQuestions))
        && correctness == WithoutRange(old(correctness), old(numQuestions) - 4, old(numQuestions))
        && storage == if hasHydrated
                      then old(storage)[NumQuestionsKey := IntToString(numQuestions)]
                                       [AnswersKey := AnswersText()][CorrectnessKey := CorrectnessText()]
                      else old(storage)
      ensures old(numQuestions) <= 5 ==>
        numQuestions == old(numQuestions) && answers == old(answers) &&
        correctness == old(correctness) && storage == old(storage)
    {
      if numQuestions > 5 {
        KeysDistinct();
        var last := numQuestions;
        var newAnswers := DeleteRange(answers, last - 4, last);
        var newCorrectness := DeleteRange(correctness, last - 4, last);
        numQuestions := last - 5;
        answers := newAnswers;
        correctness := newCorrectness;
        Save(NumQuestionsKey, IntToString(numQuestions));
        Save(AnswersKey, AnswersText());
        Save(CorrectnessKey, CorrectnessText());
      }
    }

    /** The options selector: sets the number of options and empties answers and flags.
        The options key is written only when the value changes, as the effect depends on
        the value. */
    method ChangeOptionsPerQuestion(n: int)
      requires Valid() && MinOptions <= n <= MaxOptions
      modifies this`optionsPerQuestion, this`answers, this`correctness, this`storage
      ensures Valid()
      ensures optionsPerQuestion == n && answers == map[] && correctness == map[]
      ensures storage == if hasHydrated
                         then (if n != old(optionsPerQuestion) then old(storage)[OptionsKey := IntToString(n)]
                               else old(storage))[AnswersKey := AnswersText()][CorrectnessKey := CorrectnessText()]
                         else old(storage)
    {
      KeysDistinct();
      var changed := n != optionsPerQuestion;
      optionsPerQuestion := n;
      // `{}`, written as in ClearAllAnswers
      answers := answers - answers.Keys;
      correctness := correctness - correctness.Keys;
      if changed {
        Save(OptionsKey, IntToString(n));
      }
      Save(AnswersKey, AnswersText());
      Save(CorrectnessKey, CorrectnessText());
    }

    /** `clearAllAnswers`: empties answers and flags and removes both storage keys; once
        writes are enabled the write-through then stores the empty records under them. */
    method ClearAllAnswers()
      modifies this`answers, this`correctness, this`storage
      ensures answers == map[] && correctness == map[]
      ensures storage == if hasHydrated
                         then old(storage)[AnswersKey := AnswersText()][CorrectnessKey := CorrectnessText()]
                         else old(storage) - {AnswersKey, CorrectnessKey}
    {
      // Every question removed: the records become `{}` (written this way rather than
      // as the literal so the solver does not unfold the encoding of a literal record).
      answers := answers - answers.Keys;
      correctness := correctness - correctness.Keys;
      RemovedThenWritten(storage, AnswersKey, CorrectnessKey, AnswersText(), CorrectnessText());
      storage := storage - {AnswersKey, CorrectnessKey};
      Save(AnswersKey, AnswersText());
      Save(CorrectnessKey, CorrectnessText());
    }

    /** `exportAnswers`: the loop pushing one record per question 1..numQuestions. */
    method ExportAnswers() returns (results: seq<Record>)
      ensures results == Export(numQuestions, answers, correctness)
    {
      results := [];
      var i := 1;
      while i <= numQuestions
        invariant 1 <= i <= (if numQuestions > 0 then numQuestions + 1 else 1)
        invariant results == Export(i - 1, answers, correctness)
      {
        results := results + [RecordFor(i, answers, correctness)];
        i := i + 1;
      }
    }
  }

  /** A session driven before writes are enabled: the flag of question q outlives its
      cleared answer, the export record of q still reports it, and storage is untouched. */
  method ClearedAnswerKeepsFlag(q: int, option: char, parse: string -> Option<Value>, stringify: Value -> string)
    returns (answersLeft: map<int, char>, flags: map<int, bool>, record: Record)
    ensures q !in answersLeft && flags == map[q := true]
    ensures record == Record(q, NoAnswer, Correct)
  {
    var sheet := new ExamAnswerSheet(map[], parse, stringify);
    sheet.HandleAnswerChange(q, option);
    sheet.HandleCorrectnessChange(q, true);
    sheet.ClearIndividualAnswer(q);
    assert sheet.storage == map[];
    answersLeft := sheet.answers;
    flags := sheet.correctness;
    record := RecordFor(q, sheet.answers, sheet.correctness);
  }

  /** A stored answer for question 500 is adopted and counted in "Respuestas completadas",
      while the hydrated count is at most 200: the count shows an answer that no record of
      the export carries. */
  lemma AnsweredBeyondCount(storage: map<string, string>, parse: string -> Option<Value>,
                            correctness: map<int, bool>)
    requires AnswersKey in storage && storage[AnswersKey] != ""
    requires parse(storage[AnswersKey]) == Some(Object(map["500" := Str("A")]))
    ensures var answers := HydratedRecord(Lookup(storage, AnswersKey), parse, AnswerOf, map[]);
            var n := HydratedNumber(Lookup(storage, NumQuestionsKey), MinStoredQuestions, MaxStoredQuestions,
                                    DefaultNumQuestions);
            var exported := Export(n, answers, correctness);
            && AnsweredCount(answers) == 1
            && n < 500
            && forall i :: 0 <= i < |exported| ==> exported[i].respuesta == NoAnswer
  {
    HydrationIgnoresQuestionCount(storage[AnswersKey], parse);
    var answers := HydratedRecord(Lookup(storage, AnswersKey), parse, AnswerOf, map[]);
    var n := HydratedNumber(Lookup(storage, NumQuestionsKey), MinStoredQuestions, MaxStoredQuestions,
                            DefaultNumQuestions);
    OnlyQuestion500(answers, n, correctness);
  }

  /** The sheet with only question 500 answered, seen by a count below 500. */
  lemma OnlyQuestion500(answers: map<int, char>, n: int, correctness: map<int, bool>)
    requires answers == map[500 := 'A'] && n < 500
    ensures AnsweredCount(answers) == 1
    ensures forall i :: 0 <= i < |Export(n, answers, correctness)| ==>
              Export(n, answers, correctness)[i].respuesta == NoAnswer
  {
    assert answers.Keys == {500};
    ExportMissesLaterAnswers(n, answers, correctness);
  }
}
