/** The durable side of the sheet: the four storage keys, the validation applied to each
    stored value when the sheet starts (ExamAnswerSheet.jsx, `validateLocalStorageData`
    and the numeric bounds checks), and the JSON object each record is stored as. */
module Persistence {
  import opened Maybe
  import opened Decimal
  import opened Json

  const AnswersKey: string := "examAnswers"
  const CorrectnessKey: string := "examCorrectness"
  const NumQuestionsKey: string := "examNumQuestions"
  const OptionsKey: string := "examOptionsPerQuestion"

  const DefaultNumQuestions: int := 20
  const DefaultOptionsPerQuestion: int := 4
  const MinStoredQuestions: int := 1
  const MaxStoredQuestions: int := 200
  const MinOptions: int := 3
  const MaxOptions: int := 6

  /** `localStorage.getItem(key)`: None stands for null. */
  function Lookup(storage: map<string, string>, key: string): Option<string> {
    if key in storage then Some(storage[key]) else None
  }

  /** What the validator holds after `if (!data) return null` and `JSON.parse(data)`:
      None when the text is null, empty, or not JSON (`parse` yields None where
      `JSON.parse` throws). */
  function Parsed(data: Option<string>, parse: string -> Option<Value>): Option<Value>
  {
    if data.None? || data.value == "" then None else parse(data.value)
  }

  /** A property name of a stored record must read as a positive integer. */
  predicate PositiveKey(key: string) {
    ParseInt(key).Some? && ParseInt(key).value > 0
  }

  /** A parsed value the validator accepts as answers or correctness: an object (not null,
      not an array, not a primitive) whose every property name is a positive integer. */
  predicate IsQuestionRecord(v: Value) {
    v.Object? && forall k :: k in v.fields ==> PositiveKey(k)
  }

  /** The record `validateLocalStorageData` returns for a stored text, None for null. */
  function RecordIn(data: Option<string>, parse: string -> Option<Value>): Option<map<string, Value>>
  {
    var p := Parsed(data, parse);
    if p.Some? && IsQuestionRecord(p.value) then Some(p.value.fields) else None
  }

  /** `validateLocalStorageData(data, 'answers' | 'correctness')`: the loop over the
      property names returns null at the first one that is not a positive integer. */
  method ValidateLocalStorageData(data: Option<string>, parse: string -> Option<Value>)
    returns (r: Option<map<string, Value>>)
    ensures r.Some? <==> Parsed(data, parse).Some? && IsQuestionRecord(Parsed(data, parse).value)
    ensures r.Some? ==> Parsed(data, parse) == Some(Object(r.value))
    ensures r == RecordIn(data, parse)
  {
    if data.None? || data.value == "" {
      return None;
    }
    var parsed := parse(data.value);
    if parsed.None? || !parsed.value.Object? {
      return None;
    }
    var fields := parsed.value.fields;
    var pending := fields.Keys;
    while pending != {}
      invariant pending <= fields.Keys
      invariant forall k :: k in fields && k !in pending ==> PositiveKey(k)
      decreases pending
    {
      var key :| key in pending;
      if !PositiveKey(key) {
        return None;
      }
      pending := pending - {key};
    }
    return Some(fields);
  }

  /** A stored numeric setting: `parseInt` of a non-empty text, kept only when it lies in
      lo..hi; None means the sheet keeps the value it already has. */
  function StoredNumber(data: Option<string>, lo: int, hi: int): (r: Option<int>)
    ensures r.Some? ==> lo <= r.value <= hi
    ensures r.Some? ==> data.Some? && ParseInt(data.value) == r
  {
    if data.None? || data.value == "" then None
    else
      var n := ParseInt(data.value);
      if n.Some? && lo <= n.value <= hi then n else None
  }

  /** What the sheet holds for a numeric setting after hydration. */
  function HydratedNumber(data: Option<string>, lo: int, hi: int, current: int): (r: int)
    ensures r == current || lo <= r <= hi
  {
    match StoredNumber(data, lo, hi)
    case Some(n) => n
    case None => current
  }

  /** A number written with `toString()` is read back exactly when it lies within the
      bounds; otherwise hydration keeps the current value. */
  lemma StoredNumberRoundTrip(n: int, lo: int, hi: int)
    ensures StoredNumber(Some(IntToString(n)), lo, hi) == if lo <= n <= hi then Some(n) else None
  {
    ParseIntOfIntToString(n);
  }

  /** The count grows without bound (`increaseQuestions`), but a count above 200 that the
      write-through stored is thrown away on the next start, for the default 20. */
  lemma LargeCountIsForgotten(n: int)
    requires n > MaxStoredQuestions
    ensures HydratedNumber(Some(IntToString(n)), MinStoredQuestions, MaxStoredQuestions, DefaultNumQuestions)
            == DefaultNumQuestions
  {
    StoredNumberRoundTrip(n, MinStoredQuestions, MaxStoredQuestions);
  }

  // ---------------------------------------------------------------------------
  // The JSON object a record is stored as, and the record read back from one.

  /** The object `JSON.stringify` receives for a record: each question number becomes
      the decimal text of that number as property name. */
  function RecordJson<V>(m: map<int, V>, enc: V -> Value): (v: Value)
    ensures v.Object?
    ensures forall k :: k in m ==> IntToString(k) in v.fields && v.fields[IntToString(k)] == enc(m[k])
  {
    IntToStringInjective();
    Object(map k | k in m :: IntToString(k) := enc(m[k]))
  }

  /** Every property name of a written record is the text of one of its question numbers. */
  lemma RecordJsonNames<V>(m: map<int, V>, enc: V -> Value, s: string)
    requires s in RecordJson(m, enc).fields
    ensures exists k :: k in m && s == IntToString(k)
  {
  }

  /** A property name as JavaScript writes a number: the sheet looks question q up under
      the name `String(q)` only. */
  predicate IsCanonicalKey(key: string) {
    ParseInt(key).Some? && IntToString(ParseInt(key).value) == key
  }

  /** The question-number record held in memory after a stored object is adopted: the
      entries whose name is the decimal text of a number and whose value `dec` reads. */
  function RecordOf<V>(fields: map<string, Value>, dec: Value -> Option<V>): (m: map<int, V>)
    ensures forall k :: k in m ==> IntToString(k) in fields && dec(fields[IntToString(k)]) == Some(m[k])
  {
    map key | key in fields && IsCanonicalKey(key) && dec(fields[key]).Some?
      :: ParseInt(key).value := dec(fields[key]).value
  }

  /** The answer for a question, stored as a one-letter string. */
  function AnswerValue(c: char): Value {
    Str([c])
  }

  function AnswerOf(v: Value): Option<char> {
    if v.Str? && |v.s| == 1 then Some(v.s[0]) else None
  }

  /** The correctness flag for a question, stored as a JSON boolean. */
  function FlagValue(b: bool): Value {
    Bool(b)
  }

  function FlagOf(v: Value): Option<bool> {
    if v.Bool? then Some(v.b) else None
  }

  lemma AnswerCodec()
    ensures forall c :: AnswerOf(AnswerValue(c)) == Some(c)
  {
  }

  lemma FlagCodec()
    ensures forall b :: FlagOf(FlagValue(b)) == Some(b)
  {
  }

  function AnswersJson(answers: map<int, char>): Value {
    RecordJson(answers, AnswerValue)
  }

  function CorrectnessJson(correctness: map<int, bool>): Value {
    RecordJson(correctness, FlagValue)
  }

  /** What the sheet holds for a record after hydration: the stored record if the
      validator accepts it, the current one otherwise. */
  function HydratedRecord<V>(data: Option<string>, parse: string -> Option<Value>,
                             dec: Value -> Option<V>, current: map<int, V>): map<int, V>
  {
    match RecordIn(data, parse)
    case Some(fields) => RecordOf(fields, dec)
    case None => current
  }

  /** One record of the mount effect: the validated stored record, decoded, replaces
      the current one; a rejected or missing record leaves the current one. */
  method HydrateRecord<V>(data: Option<string>, parse: string -> Option<Value>,
                          dec: Value -> Option<V>, current: map<int, V>) returns (m: map<int, V>)
    ensures m == HydratedRecord(data, parse, dec, current)
  {
    var valid := ValidateLocalStorageData(data, parse);
    m := current;
    if valid.Some? {
      m := RecordOf(valid.value, dec);
    }
  }

  /** A record the sheet writes passes the validator exactly when all its question
      numbers are positive. */
  lemma RecordJsonAccepted<V>(m: map<int, V>, enc: V -> Value)
    ensures IsQuestionRecord(RecordJson(m, enc)) <==> forall k :: k in m ==> k > 0
  {
    var v := RecordJson(m, enc);
    if IsQuestionRecord(v) {
      forall k | k in m ensures k > 0 {
        ParseIntOfIntToString(k);
        assert PositiveKey(IntToString(k));
      }
    }
    if forall k :: k in m ==> k > 0 {
      forall s | s in v.fields ensures PositiveKey(s) {
        RecordJsonNames(m, enc, s);
        var k :| k in m && s == IntToString(k);
        ParseIntOfIntToString(k);
      }
    }
  }

  /** The number a canonical property name denotes is found in the record under it. */
  lemma RecordOfHas<V>(fields: map<string, Value>, dec: Value -> Option<V>, k: int)
    requires IntToString(k) in fields && dec(fields[IntToString(k)]).Some?
    ensures k in RecordOf(fields, dec) && RecordOf(fields, dec)[k] == dec(fields[IntToString(k)]).value
  {
    ParseIntOfIntToString(k);
    assert IsCanonicalKey(IntToString(k));
  }

  /** A question read back from a written record was in the record. */
  lemma ReadBackWritten<V>(m: map<int, V>, enc: V -> Value, dec: Value -> Option<V>, k: int)
    requires k in RecordOf(RecordJson(m, enc).fields, dec)
    ensures k in m
  {
    RecordJsonNames(m, enc, IntToString(k));
    var j :| j in m && IntToString(k) == IntToString(j);
    ParseIntOfIntToString(j);
    ParseIntOfIntToString(k);
  }

  /** A question of a written record is read back with its value. */
  lemma ReadBackValue<V>(m: map<int, V>, enc: V -> Value, dec: Value -> Option<V>, k: int)
    requires forall x :: dec(enc(x)) == Some(x)
    requires k in m
    ensures k in RecordOf(RecordJson(m, enc).fields, dec)
    ensures RecordOf(RecordJson(m, enc).fields, dec)[k] == m[k]
  {
    var f := RecordJson(m, enc).fields;
    assert dec(f[IntToString(k)]) == Some(m[k]);
    RecordOfHas(f, dec, k);
  }

  /** Two records with the same questions and the same values are equal. */
  lemma SameEntries<V>(r: map<int, V>, m: map<int, V>)
    requires forall k :: k in m ==> k in r && r[k] == m[k]
    requires forall k :: k in r ==> k in m
    ensures r == m
  {
    assert forall k :: k in r <==> k in m;
    assert r.Keys == m.Keys;
    assert forall k :: k in r ==> r[k] == m[k];
  }

  /** Reading a written record back gives the record itself. */
  lemma {:induction false} RecordRoundTrip<V>(m: map<int, V>, enc: V -> Value, dec: Value -> Option<V>)
    requires forall x :: dec(enc(x)) == Some(x)
    ensures RecordOf(RecordJson(m, enc).fields, dec) == m
  {
    var f := RecordJson(m, enc).fields;
    var r := RecordOf(f, dec);
    forall k | k in m ensures k in r && r[k] == m[k] {
      ReadBackValue(m, enc, dec, k);
    }
    forall k | k in r ensures k in m {
      ReadBackWritten(m, enc, dec, k);
    }
    SameEntries(r, m);
  }

  /** An object whose properties are all strings or booleans: the shape of every record
      the sheet stores. */
  predicate FlatObject(v: Value) {
    v.Object? && forall s :: s in v.fields ==> v.fields[s].Str? || v.fields[s].Bool?
  }

  /** The JSON library as the sheet relies on it, for the values it stores: the text of a
      flat object is never empty and parses back to that object. (Numbers are left out:
      `JSON.stringify` does not keep integers beyond 2^53.) */
  ghost predicate FaithfulJson(parse: string -> Option<Value>, stringify: Value -> string) {
    forall v :: FlatObject(v) ==> stringify(v) != "" && parse(stringify(v)) == Some(v)
  }

  /** A record whose values are encoded as strings or booleans is stored as a flat object. */
  lemma RecordJsonFlat<V>(m: map<int, V>, enc: V -> Value)
    requires forall x :: enc(x).Str? || enc(x).Bool?
    ensures FlatObject(RecordJson(m, enc))
  {
    var v := RecordJson(m, enc);
    forall s | s in v.fields ensures v.fields[s].Str? || v.fields[s].Bool? {
      RecordJsonNames(m, enc, s);
      var k :| k in m && s == IntToString(k);
      assert v.fields[s] == enc(m[k]);
    }
  }

  /** Writing a record through `stringify` and hydrating from that text gives the record
      back when its question numbers are positive; otherwise the whole stored record is
      rejected and the sheet keeps what it had. */
  lemma HydratedRecordRoundTrip<V>(m: map<int, V>, enc: V -> Value, dec: Value -> Option<V>,
                                   parse: string -> Option<Value>, stringify: Value -> string,
                                   current: map<int, V>)
    requires FaithfulJson(parse, stringify)
    requires forall x :: enc(x).Str? || enc(x).Bool?
    requires forall x :: dec(enc(x)) == Some(x)
    ensures HydratedRecord(Some(stringify(RecordJson(m, enc))), parse, dec, current)
            == if forall k :: k in m ==> k > 0 then m else current
  {
    var v := RecordJson(m, enc);
    RecordJsonFlat(m, enc);
    assert stringify(v) != "" && parse(stringify(v)) == Some(v);
    assert Parsed(Some(stringify(v)), parse) == Some(v);
    RecordJsonAccepted(m, enc);
    if forall k :: k in m ==> k > 0 {
      assert RecordIn(Some(stringify(v)), parse) == Some(v.fields);
      RecordRoundTrip(m, enc, dec);
    } else {
      assert RecordIn(Some(stringify(v)), parse) == None;
    }
  }

  /** Answers round trip through storage. */
  lemma AnswersRoundTrip(answers: map<int, char>, parse: string -> Option<Value>,
                         stringify: Value -> string, current: map<int, char>)
    requires FaithfulJson(parse, stringify)
    requires forall k :: k in answers ==> k > 0
    ensures HydratedRecord(Some(stringify(AnswersJson(answers))), parse, AnswerOf, current) == answers
  {
    AnswerCodec();
    HydratedRecordRoundTrip(answers, AnswerValue, AnswerOf, parse, stringify, current);
  }

  /** Correctness flags round trip through storage. */
  lemma CorrectnessRoundTrip(correctness: map<int, bool>, parse: string -> Option<Value>,
                             stringify: Value -> string, current: map<int, bool>)
    requires FaithfulJson(parse, stringify)
    requires forall k :: k in correctness ==> k > 0
    ensures HydratedRecord(Some(stringify(CorrectnessJson(correctness))), parse, FlagOf, current) == correctness
  {
    FlagCodec();
    HydratedRecordRoundTrip(correctness, FlagValue, FlagOf, parse, stringify, current);
  }

  /** Hydration does not compare question numbers with the question count: a stored
      answer for question 500 is adopted even though the count is at most 200. */
  lemma HydrationIgnoresQuestionCount(text: string, parse: string -> Option<Value>)
    requires text != ""
    requires parse(text) == Some(Object(map["500" := Str("A")]))
    ensures HydratedRecord(Some(text), parse, AnswerOf, map[]) == map[500 := 'A']
  {
    var fields := map["500" := Str("A")];
    FiveHundred();
    assert PositiveKey("500");
    assert IsQuestionRecord(Object(fields));
    assert RecordIn(Some(text), parse) == Some(fields);
    var r := RecordOf(fields, AnswerOf);
    RecordOfHas(fields, AnswerOf, 500);
    forall k | k in r ensures k == 500 {
      assert IntToString(k) == "500";
      ParseIntOfIntToString(k);
    }
    SameEntries(r, map[500 := 'A']);
  }

  lemma FiveHundred()
    ensures ParseInt("500") == Some(500) && IntToString(500) == "500"
  {
    assert DigitChar(0) == '0' && DigitChar(5) == '5';
    assert NatToString(5) == "5";
    assert NatToString(50) == "5" + "0" == "50";
    assert NatToString(500) == "50" + "0" == "500";
    assert IntToString(500) == NatToString(500);
    ParseIntOfIntToString(500);
  }

  /** One bad property name discards the whole stored record. */
  lemma ZeroKeyRejectsRecord(text: string, parse: string -> Option<Value>)
    requires text != ""
    requires parse(text) == Some(Object(map["1" := Str("A"), "0" := Str("B")]))
    ensures RecordIn(Some(text), parse) == None
  {
    assert "0"[0] == '0' && AllDigits("0");
    assert ParseInt("0") == Some(0);
    assert !PositiveKey("0");
  }

  /** An array, or null, is not a record, whatever it holds. */
  lemma ArrayOrNullRejected(text: string, parse: string -> Option<Value>)
    requires text != ""
    requires parse(text).Some? && (parse(text).value.Array? || parse(text).value.Null?)
    ensures RecordIn(Some(text), parse) == None
  {
  }

  // ---------------------------------------------------------------------------
  // The four keys together.

  lemma KeysDistinct()
    ensures AnswersKey != CorrectnessKey && AnswersKey != NumQuestionsKey && AnswersKey != OptionsKey
    ensures CorrectnessKey != NumQuestionsKey && CorrectnessKey != OptionsKey && NumQuestionsKey != OptionsKey
  {
    assert |AnswersKey| == 11 && |CorrectnessKey| == 15;
    assert |NumQuestionsKey| == 16 && |OptionsKey| == 22;
  }

  /** The storage once each of the four write-through effects has run for a state. */
  function Persisted(numQuestions: int, options: int, answers: map<int, char>, correctness: map<int, bool>,
                     stringify: Value -> string): map<string, string>
  {
    map[AnswersKey := stringify(AnswersJson(answers)),
        CorrectnessKey := stringify(CorrectnessJson(correctness)),
        NumQuestionsKey := IntToString(numQuestions),
        OptionsKey := IntToString(options)]
  }

  /** Reloading from what the write-through stored restores the sheet, given positive
      question numbers and settings within the hydration bounds; a count or an options
      value outside its bounds is replaced by what the sheet starts with. */
  lemma {:induction false} PersistedRoundTrip(numQuestions: int, options: int, answers: map<int, char>,
                                              correctness: map<int, bool>,
                                              parse: string -> Option<Value>, stringify: Value -> string)
    requires FaithfulJson(parse, stringify)
    requires forall k :: k in answers ==> k > 0
    requires forall k :: k in correctness ==> k > 0
    ensures var stored := Persisted(numQuestions, options, answers, correctness, stringify);
      && HydratedRecord(Lookup(stored, AnswersKey), parse, AnswerOf, map[]) == answers
      && HydratedRecord(Lookup(stored, CorrectnessKey), parse, FlagOf, map[]) == correctness
      && HydratedNumber(Lookup(stored, NumQuestionsKey), MinStoredQuestions, MaxStoredQuestions, DefaultNumQuestions)
         == (if MinStoredQuestions <= numQuestions <= MaxStoredQuestions then numQuestions else DefaultNumQuestions)
      && HydratedNumber(Lookup(stored, OptionsKey), MinOptions, MaxOptions, DefaultOptionsPerQuestion)
         == (if MinOptions <= options <= MaxOptions then options else DefaultOptionsPerQuestion)
  {
    var stored := Persisted(numQuestions, options, answers, correctness, stringify);
    KeysDistinct();
    assert Lookup(stored, AnswersKey) == Some(stringify(AnswersJson(answers)));
    assert Lookup(stored, CorrectnessKey) == Some(stringify(CorrectnessJson(correctness)));
    assert Lookup(stored, NumQuestionsKey) == Some(IntToString(numQuestions));
    assert Lookup(stored, OptionsKey) == Some(IntToString(options));
    AnswersRoundTrip(answers, parse, stringify, map[]);
    CorrectnessRoundTrip(correctness, parse, stringify, map[]);
    StoredNumberRoundTrip(numQuestions, MinStoredQuestions, MaxStoredQuestions);
    StoredNumberRoundTrip(options, MinOptions, MaxOptions);
  }
}
