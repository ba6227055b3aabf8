/**
 * The question-import script: `load_questions` turns a decoded JSON document
 * into question rows, entry by entry, stopping at the first bad entry, and
 * `main` checks the file, loads everything, and only then clears (on
 * `--clear`) and inserts.
 */
module ImportQuestions {
  import opened Wrappers
  import opened Strings
  import opened JsonText
  import opened Db

  /** A value `json.load` can produce (floating-point numbers aside). An
      object keeps its members in document order, duplicates included. */
  datatype Json =
    | JNull
    | JBool(b: bool)
    | JInt(i: int)
    | JString(s: string)
    | JArray(items: seq<Json>)
    | JObject(members: seq<(string, Json)>)

  /** What reading the file gave: a document, or a JSON decode error. */
  datatype Loaded = Decoded(value: Json) | Undecodable

  /** Why one entry was refused. `NotContainer` is the `TypeError` that a
      key test on a number, boolean or null raises outside the `try`, which
      ends the script with a traceback rather than with its own message. */
  datatype Problem = MissingKeys | InvalidField | NotContainer

  /** Every way the script stops with exit status 1. Entry indices are
      1-based, as in its messages. */
  datatype ImportError =
    | FileMissing
    | DecodeFailed
    | RootNotList
    | BadEntry(index: nat, problem: Problem)

  // ------------------------------------------------------------------
  // Python semantics of the operations applied to an entry
  // ------------------------------------------------------------------

  predicate IsSubstring(k: string, s: string) {
    exists i :: 0 <= i <= |s| && k <= s[i..]
  }

  /** `k in entry`: a key of a dict, an element of a list, a substring of a
      str; `None` stands for the `TypeError` on any other value. */
  function Contains(entry: Json, k: string): Option<bool> {
    match entry
    case JObject(ms) => Some(exists i :: 0 <= i < |ms| && ms[i].0 == k)
    case JArray(xs) => Some(JString(k) in xs)
    case JString(s) => Some(IsSubstring(k, s))
    case _ => None
  }

  /** `all(k in entry for k in ("stage", "prompt", "answer"))`. */
  function HasRequiredKeys(entry: Json): Option<bool> {
    if Contains(entry, "stage").None? then None
    else Some(Contains(entry, "stage") == Some(true) && Contains(entry, "prompt") == Some(true)
              && Contains(entry, "answer") == Some(true))
  }

  /** The position of the last member with key `k`, if any. */
  function LastIndexOf(ms: seq<(string, Json)>, k: string): (r: Option<nat>)
    ensures r.None? <==> forall i :: 0 <= i < |ms| ==> ms[i].0 != k
    ensures r.Some? ==> r.value < |ms| && ms[r.value].0 == k && forall j :: r.value < j < |ms| ==> ms[j].0 != k
  {
    if ms == [] then None
    else if ms[|ms| - 1].0 == k then Some(|ms| - 1)
    else LastIndexOf(ms[..|ms| - 1], k)
  }

  /** `entry[k]` on the dict `json.load` builds: of duplicate keys, the
      last one wins. */
  function Lookup(ms: seq<(string, Json)>, k: string): (r: Option<Json>)
    ensures r.None? <==> forall i :: 0 <= i < |ms| ==> ms[i].0 != k
    ensures r.Some? ==> exists i :: 0 <= i < |ms| && ms[i] == (k, r.value) && forall j :: i < j < |ms| ==> ms[j].0 != k
  {
    match LastIndexOf(ms, k)
    case None => None
    case Some(i) =>
      assert ms[i] == (k, ms[i].1);
      Some(ms[i].1)
  }

  predicate IsDigit(c: char) {
    '0' <= c <= '9'
  }

  /** The digits of `int()`'s base-10 form: digits, with single underscores
      allowed between two of them. */
  predicate DigitPart(d: string) {
    && d != [] && IsDigit(d[0]) && IsDigit(d[|d| - 1])
    && (forall i :: 0 <= i < |d| ==> IsDigit(d[i]) || d[i] == '_')
    && (forall i :: 0 <= i < |d| - 1 ==> !(d[i] == '_' && d[i + 1] == '_'))
  }

  /** The value of a digit part; underscores carry no value. */
  function DigitsValue(d: string): nat {
    if d == [] then 0
    else if IsDigit(d[|d| - 1]) then DigitsValue(d[..|d| - 1]) * 10 + (d[|d| - 1] as int - '0' as int)
    else DigitsValue(d[..|d| - 1])
  }

  /** `int(s)` for a str: surrounding whitespace, an optional sign, then a
      digit part; anything else is the `ValueError`, here `None`. */
  function ParseInt(s: string): Option<int> {
    ParseStripped(Strip(s))
  }

  /** The sign and digits that `int()` reads once the whitespace is gone. */
  function ParseStripped(t: string): Option<int> {
    if t == [] then None
    else if t[0] == '-' || t[0] == '+' then
      if !DigitPart(t[1..]) then None
      else if t[0] == '-' then Some(-(DigitsValue(t[1..]) as int))
      else Some(DigitsValue(t[1..]))
    else if DigitPart(t) then Some(DigitsValue(t))
    else None
  }

  /** `int(v)` for a decoded value: booleans are 0 and 1, strings are
      parsed, null and containers raise. */
  function PyInt(v: Json): Option<int> {
    match v
    case JInt(i) => Some(i)
    case JBool(b) => Some(if b then 1 else 0)
    case JString(s) => ParseInt(s)
    case _ => None
  }

  /** Whether `repr` writes a character of a str as it is. Outside ASCII,
      every character except the Latin-1 controls, the no-break space and
      the soft hyphen is taken to be printable. */
  predicate ReprPrintable(c: char) {
    !(c as int < 0x20 || (0x7F <= c as int <= 0xA0) || c as int == 0xAD)
  }

  /** `repr` of one character of a str quoted with `q`. */
  function ReprChar(c: char, q: char): string {
    if c == '\\' then "\\\\"
    else if c == q then ['\\', q]
    else if c == '\t' then "\\t"
    else if c == '\n' then "\\n"
    else if c == '\r' then "\\r"
    else if c as int < 0x100 && !ReprPrintable(c) then "\\x" + [HexDigit(c as int / 16), HexDigit(c as int % 16)]
    else [c]
  }

  function ReprBody(s: string, q: char): string {
    if s == [] then [] else ReprChar(s[0], q) + ReprBody(s[1..], q)
  }

  /** `repr(s)`: single quotes, unless the text holds a single quote and no
      double quote. */
  function StrRepr(s: string): string {
    var q := if '\'' in s && '"' !in s then '"' else '\'';
    [q] + ReprBody(s, q) + [q]
  }

  function JoinComma(parts: seq<string>): string {
    if parts == [] then []
    else if |parts| == 1 then parts[0]
    else parts[0] + ", " + JoinComma(parts[1..])
  }

  /** `repr(v)`: a str is quoted, everything else reads as `str(v)`. */
  function Repr(v: Json): string {
    match v
    case JString(s) => StrRepr(s)
    case JNull => "None"
    case JBool(b) => if b then "True" else "False"
    case JInt(i) => IntToDecimal(i)
    case JArray(xs) =>
      "[" + JoinComma(seq(|xs|, i requires 0 <= i < |xs| => Repr(xs[i]))) + "]"
    case JObject(ms) =>
      "{" + JoinComma(seq(|ms|, i requires 0 <= i < |ms| => StrRepr(ms[i].0) + ": " + Repr(ms[i].1))) + "}"
  }

  /** `str(v)`: a str as it is, anything else as its `repr`. For an object,
      duplicate keys are not collapsed here. */
  function PyStr(v: Json): (r: string)
    ensures v.JString? ==> r == v.s
  {
    if v.JString? then v.s else Repr(v)
  }

  // ------------------------------------------------------------------
  // load_questions
  // ------------------------------------------------------------------

  /** The checks one entry goes through, in order: the key test, the
      subscripts and `int()` of the stage. On success, the stage and the
      values of the prompt and the answer. */
  function Verdict(entry: Json): Result<(int, Json, Json), Problem> {
    match HasRequiredKeys(entry)
    case None => Failure(NotContainer)
    case Some(false) => Failure(MissingKeys)
    case Some(true) =>
      if !entry.JObject? then Failure(InvalidField)
      else
        var ms := entry.members;
        var stage := PyInt(Lookup(ms, "stage").value);
        if stage.None? then Failure(InvalidField)
        else Success((stage.value, Lookup(ms, "prompt").value, Lookup(ms, "answer").value))
  }

  /** `str(v).strip()`, which cannot fail. */
  function Text(v: Json): string {
    Strip(PyStr(v))
  }

  /** One entry's fields after the checks and the conversions: its stage,
      its stripped prompt and its stripped answer. */
  function Fields(entry: Json): Result<(int, string, string), Problem> {
    match Verdict(entry)
    case Failure(p) => Failure(p)
    case Success(v) => Success((v.0, Text(v.1), Text(v.2)))
  }

  /** The 0-based position of the first failure in a sequence of results. */
  function FirstFailure<T, E>(rs: seq<Result<T, E>>): (r: Option<nat>)
    ensures r.None? <==> forall k :: 0 <= k < |rs| ==> rs[k].Success?
    ensures r.Some? ==> && r.value < |rs| && rs[r.value].Failure?
                        && forall k :: 0 <= k < r.value ==> rs[k].Success?
  {
    if rs == [] then None
    else if rs[0].Failure? then Some(0)
    else match FirstFailure(rs[1..])
      case None => None
      case Some(k) => Some(k + 1)
  }

  /** The failure found is the only one with no failure before it. */
  lemma FirstFailureIs<T, E>(rs: seq<Result<T, E>>, k: nat)
    requires k < |rs| && rs[k].Failure?
    requires forall j :: 0 <= j < k ==> rs[j].Success?
    ensures FirstFailure(rs) == Some(k)
  {
  }

  /** The checks of every entry, in order. */
  function Verdicts(entries: seq<Json>): (r: seq<Result<(int, Json, Json), Problem>>)
    ensures |r| == |entries| && forall k :: 0 <= k < |entries| ==> r[k] == Verdict(entries[k])
  {
    seq(|entries|, k requires 0 <= k < |entries| => Verdict(entries[k]))
  }

  /** The 0-based position of the first entry that is refused. */
  function FirstBad(entries: seq<Json>): (r: Option<nat>)
    ensures r.None? <==> forall k :: 0 <= k < |entries| ==> Verdict(entries[k]).Success?
    ensures r.Some? ==> && r.value < |entries| && Verdict(entries[r.value]).Failure?
                        && forall k :: 0 <= k < r.value ==> Verdict(entries[k]).Success?
  {
    FirstFailure(Verdicts(entries))
  }

  /** The question row of the entry at position `k`, whose fields passed. */
  function RowAt(items: seq<Json>, k: nat, newId: nat -> string): QuestionRow
    requires k < |items| && Verdict(items[k]).Success?
  {
    var v := Verdict(items[k]).value;
    QuestionRow(newId(k), v.0, Text(v.1), Text(v.2))
  }

  /** What `load_questions` returns or why it exits. `newId(k)` is the
      `uuid4()` drawn for the entry at position `k`. */
  function Load(data: Loaded, newId: nat -> string): Result<seq<QuestionRow>, ImportError> {
    match data
    case Undecodable => Failure(DecodeFailed)
    case Decoded(v) =>
      if !v.JArray? then Failure(RootNotList)
      else
        match FirstBad(v.items)
        case Some(k) => Failure(BadEntry(k + 1, Verdict(v.items[k]).error))
        case None => Success(seq(|v.items|, k requires 0 <= k < |v.items| => RowAt(v.items, k, newId)))
  }

  /** The outcomes of `load_questions`: a decode failure and a non-list root
      are refused; otherwise the result succeeds exactly when every entry
      passes, with one row per entry in input order, each the 4-tuple of
      a fresh id and the entry's converted fields; and a refusal names the
      first refused entry by its 1-based index, with its problem. */
  lemma LoadOutcomes(data: Loaded, newId: nat -> string)
    ensures data.Undecodable? ==> Load(data, newId) == Failure(DecodeFailed)
    ensures data.Decoded? && !data.value.JArray? ==> Load(data, newId) == Failure(RootNotList)
    ensures Load(data, newId).Success? <==>
      data.Decoded? && data.value.JArray? && forall k :: 0 <= k < |data.value.items| ==> Fields(data.value.items[k]).Success?
    ensures Load(data, newId).Success? ==>
      var rows := Load(data, newId).value;
      && |rows| == |data.value.items|
      && forall k :: 0 <= k < |rows| ==>
           rows[k].id == newId(k) && Fields(data.value.items[k]) == Success((rows[k].stage, rows[k].prompt, rows[k].answer))
    ensures Load(data, newId).Failure? && Load(data, newId).error.BadEntry? ==>
      var e := Load(data, newId).error;
      && data.Decoded? && data.value.JArray?
      && 1 <= e.index <= |data.value.items|
      && Fields(data.value.items[e.index - 1]) == Failure(e.problem)
      && forall k :: 0 <= k < e.index - 1 ==> Fields(data.value.items[k]).Success?
  {
    if data.Decoded? && data.value.JArray? {
      var items := data.value.items;
      forall k | 0 <= k < |items|
        ensures Fields(items[k]).Success? <==> Verdict(items[k]).Success?
        ensures Verdict(items[k]).Failure? ==> Fields(items[k]) == Failure(Verdict(items[k]).error)
      {
        FieldsOfVerdict(items[k]);
      }
    }
  }

  /** The fields convert exactly when the checks pass, and a refusal keeps
      its problem. */
  lemma FieldsOfVerdict(e: Json)
    ensures Fields(e).Success? <==> Verdict(e).Success?
    ensures Verdict(e).Failure? ==> Fields(e) == Failure(Verdict(e).error)
  {
  }

  /** The body of `load_questions`'s loop for one entry: the key test,
      then the conversions of the `try`. */
  method CheckEntry(entry: Json) returns (f: Result<(int, string, string), Problem>)
    ensures f == Fields(entry)
  {
    var keys := HasRequiredKeys(entry);
    if keys.None? {
      return Failure(NotContainer);
    }
    if !keys.value {
      return Failure(MissingKeys);
    }
    if !entry.JObject? {
      return Failure(InvalidField);
    }
    var stage := PyInt(Lookup(entry.members, "stage").value);
    if stage.None? {
      return Failure(InvalidField);
    }
    var prompt := Text(Lookup(entry.members, "prompt").value);
    var answer := Text(Lookup(entry.members, "answer").value);
    f := Success((stage.value, prompt, answer));
  }

  /** `load_questions`: a loop over the entries that appends one row per
      passing entry and exits at the first refused one. */
  method LoadQuestions(data: Loaded, newId: nat -> string) returns (r: Result<seq<QuestionRow>, ImportError>)
    ensures r == Load(data, newId)
  {
    if data.Undecodable? {
      return Failure(DecodeFailed);
    }
    if !data.value.JArray? {
      return Failure(RootNotList);
    }
    var items := data.value.items;
    ghost var fields := seq(|items|, j requires 0 <= j < |items| => Fields(items[j]));
    var questions: seq<QuestionRow> := [];
    for k := 0 to |items|
      invariant RowsSoFar(fields, k, questions, newId)
    {
      var f := CheckEntry(items[k]);
      assert f == fields[k];
      if f.Failure? {
        FirstBadAt(items, fields, k);
        return Failure(BadEntry(k + 1, f.error));
      }
      var row := RowOf(newId(k), f.value);
      LoadedStep(fields, k, questions, newId, row);
      questions := questions + [row];
    }
    LoadedAll(items, fields, questions, newId);
    r := Success(questions);
  }

  function RowOf(id: string, f: (int, string, string)): QuestionRow {
    QuestionRow(id, f.0, f.1, f.2)
  }

  /** The loop invariant of `load_questions`: the first `k` entries passed
      and `questions` holds their rows. `fields` lists what each entry
      converts to. */
  ghost predicate RowsSoFar(fields: seq<Result<(int, string, string), Problem>>, k: nat,
                            questions: seq<QuestionRow>, newId: nat -> string) {
    && k <= |fields| && |questions| == k
    && forall j :: 0 <= j < k ==> fields[j].Success? && questions[j] == RowOf(newId(j), fields[j].value)
  }

  lemma LoadedStep(fields: seq<Result<(int, string, string), Problem>>, k: nat,
                   questions: seq<QuestionRow>, newId: nat -> string, row: QuestionRow)
    requires RowsSoFar(fields, k, questions, newId) && k < |fields| && fields[k].Success?
    requires row == RowOf(newId(k), fields[k].value)
    ensures RowsSoFar(fields, k + 1, questions + [row], newId)
  {
    var q := questions + [row];
    forall j | 0 <= j < k + 1
      ensures fields[j].Success? && q[j] == RowOf(newId(j), fields[j].value)
    {
      if j < k {
        assert q[j] == questions[j];
      }
    }
  }

  lemma LoadedAll(items: seq<Json>, fields: seq<Result<(int, string, string), Problem>>,
                  questions: seq<QuestionRow>, newId: nat -> string)
    requires |fields| == |items| && forall j :: 0 <= j < |items| ==> fields[j] == Fields(items[j])
    requires RowsSoFar(fields, |items|, questions, newId)
    ensures FirstBad(items).None?
    ensures questions == seq(|items|, k requires 0 <= k < |items| => RowAt(items, k, newId))
  {
  }

  /** An entry refused after only passing ones is the first refused entry. */
  lemma FirstBadAt(items: seq<Json>, fields: seq<Result<(int, string, string), Problem>>, k: nat)
    requires |fields| == |items| && forall j :: 0 <= j < |items| ==> fields[j] == Fields(items[j])
    requires k < |items| && fields[k].Failure?
    requires forall j :: 0 <= j < k ==> fields[j].Success?
    ensures FirstBad(items) == Some(k)
  {
    var vs := Verdicts(items);
    forall j | 0 <= j < k ensures vs[j].Success? {
      assert fields[j] == Fields(items[j]);
    }
    assert fields[k] == Fields(items[k]);
    FirstFailureIs(vs, k);
  }

  // ------------------------------------------------------------------
  // Properties of the conversions
  // ------------------------------------------------------------------

  /** `int(str(n)) == n`: the decimal form of any integer parses back. */
  lemma ParseIntDecimal(n: int)
    ensures ParseInt(IntToDecimal(n)) == Some(n)
  {
    var m: nat := if n < 0 then -n else n;
    var d := NatToDecimal(m);
    DecimalValue(m);
    var s := IntToDecimal(n);
    if n < 0 {
      assert s == "-" + d;
      assert s[0] == '-' && s[1..] == d && s[|s| - 1] == d[|d| - 1];
      StripNoEdge(s);
      assert ParseStripped(s) == Some(-(DigitsValue(d) as int));
    } else {
      assert s == d;
      StripNoEdge(s);
      assert !(s[0] == '-' || s[0] == '+');
      assert ParseStripped(s) == Some(DigitsValue(d));
    }
  }

  lemma {:induction false} DecimalValue(n: nat)
    ensures DigitPart(NatToDecimal(n)) && DigitsValue(NatToDecimal(n)) == n
  {
    if n >= 10 {
      DecimalValue(n / 10);
      var d := NatToDecimal(n);
      assert d[..|d| - 1] == NatToDecimal(n / 10);
    }
  }

  /** Whitespace around a number does not change what `int()` reads. */
  lemma ParseIntIgnoresPadding(w: string, s: string, w': string)
    requires AllSpace(w) && AllSpace(w')
    ensures ParseInt(w + s + w') == ParseInt(s)
  {
    StripPadded(w, s, w');
  }

  /** The object for a row's fields, with a number for the stage. */
  function EntryOf(stage: int, prompt: string, answer: string): Json {
    JObject([("stage", JInt(stage)), ("prompt", JString(prompt)), ("answer", JString(answer))])
  }

  /** An entry written from a stage and two texts reads back as that stage
      and the stripped texts, so rows already stripped survive an export
      and re-import unchanged. */
  lemma EntryRoundTrip(stage: int, prompt: string, answer: string)
    ensures Fields(EntryOf(stage, prompt, answer)) == Success((stage, Strip(prompt), Strip(answer)))
  {
    EntryVerdict(stage, prompt, answer);
    assert Text(JString(prompt)) == Strip(prompt);
    assert Text(JString(answer)) == Strip(answer);
  }

  lemma EntryVerdict(stage: int, prompt: string, answer: string)
    ensures Verdict(EntryOf(stage, prompt, answer)) == Success((stage, JString(prompt), JString(answer)))
  {
    var e := EntryOf(stage, prompt, answer);
    var ms := e.members;
    assert ms[0].0 == "stage" && ms[1].0 == "prompt" && ms[2].0 == "answer";
    var ms2 := ms[..2];
    var ms1 := ms2[..1];
    assert ms2 == [ms[0], ms[1]] && ms1 == [ms[0]];
    assert |ms| == 3 && ms[2].0 != "stage" && ms[2].0 != "prompt";
    assert Lookup(ms, "stage") == Lookup(ms2, "stage");
    assert Lookup(ms2, "stage") == Lookup(ms1, "stage");
    assert Lookup(ms, "prompt") == Lookup(ms2, "prompt");
    assert HasRequiredKeys(e) == Some(true);
  }

  /** A list or a str that happens to contain the three key names passes
      the key test, but subscripting it with a str raises inside the `try`. */
  lemma NonObjectWithKeysIsInvalid()
    ensures Fields(JArray([JString("stage"), JString("prompt"), JString("answer")])) == Failure(InvalidField)
  {
    var xs := [JString("stage"), JString("prompt"), JString("answer")];
    assert xs[0] == JString("stage") && xs[1] == JString("prompt") && xs[2] == JString("answer");
    assert HasRequiredKeys(JArray(xs)) == Some(true);
  }

  /** Any object lacking one of the three keys is refused with the
      missing-keys message, whatever else it holds. */
  lemma EntryMissingKey(ms: seq<(string, Json)>, k: string)
    requires k == "stage" || k == "prompt" || k == "answer"
    requires forall i :: 0 <= i < |ms| ==> ms[i].0 != k
    ensures Fields(JObject(ms)) == Failure(MissingKeys)
  {
  }

  /** An object with all three keys whose stage `int()` rejects is refused
      as invalid. */
  lemma EntryBadStage(ms: seq<(string, Json)>)
    requires exists i :: 0 <= i < |ms| && ms[i].0 == "stage"
    requires exists i :: 0 <= i < |ms| && ms[i].0 == "prompt"
    requires exists i :: 0 <= i < |ms| && ms[i].0 == "answer"
    requires PyInt(Lookup(ms, "stage").value).None?
    ensures Fields(JObject(ms)) == Failure(InvalidField)
  {
  }

  /** An object with all three keys and an integral stage is accepted: its
      stage, and the stripped `str()` of the last prompt and answer members. */
  lemma EntryAccepted(ms: seq<(string, Json)>)
    requires exists i :: 0 <= i < |ms| && ms[i].0 == "stage"
    requires exists i :: 0 <= i < |ms| && ms[i].0 == "prompt"
    requires exists i :: 0 <= i < |ms| && ms[i].0 == "answer"
    requires PyInt(Lookup(ms, "stage").value).Some?
    ensures Fields(JObject(ms)) ==
      Success((PyInt(Lookup(ms, "stage").value).value, Text(Lookup(ms, "prompt").value), Text(Lookup(ms, "answer").value)))
  {
  }

  /** A number, a boolean or null makes `k in entry` raise: the entry is
      not a container. */
  lemma EntryNotContainer(e: Json)
    requires e.JNull? || e.JBool? || e.JInt?
    ensures Fields(e) == Failure(NotContainer)
  {
  }

  // ------------------------------------------------------------------
  // main
  // ------------------------------------------------------------------

  /** `main`: a missing file or any refusal by `load_questions` ends the
      script before the store is touched; otherwise `--clear` deletes every
      question first, and the rows are inserted after the remaining ones.
      The result is the number of rows inserted. */
  method ImportMain(store: Store, fileExists: bool, data: Loaded, clear: bool, newId: nat -> string)
    returns (r: Result<nat, ImportError>)
    requires store.Valid()
    modifies store
    ensures store.Valid()
    ensures store.users == old(store.users) && store.stats == old(store.stats) && store.tick == old(store.tick)
    ensures !fileExists ==> r == Failure(FileMissing)
    ensures fileExists && Load(data, newId).Failure? ==> r == Failure(Load(data, newId).error)
    ensures r.Failure? ==> store.questions == old(store.questions)
    ensures r.Success? ==>
      && fileExists && Load(data, newId).Success?
      && r.value == |Load(data, newId).value|
      && store.questions == (if clear then [] else old(store.questions)) + Load(data, newId).value
  {
    if !fileExists {
      return Failure(FileMissing);
    }
    var questions := LoadQuestions(data, newId);
    if questions.Failure? {
      return Failure(questions.error);
    }
    if clear {
      store.DeleteAllQuestions();
    }
    store.InsertQuestions(questions.value);
    r := Success(|questions.value|);
  }
}
