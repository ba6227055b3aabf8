/**
 * The HTTP layer: the `/join` request's field rules, the model whitelist of
 * `/model-run`, and the record-separator framing of its streamed body.
 *
 * Each record of the stream is written as `json.dumps(record)` followed by
 * one U+001E and encoded as UTF-8. The serialisation is printable ASCII, so
 * the separator occurs in the body only as a terminator, and splitting the
 * body on byte 0x1E gives back every record's text, in order.
 */
module Api {
  import opened Wrappers
  import opened Strings
  import opened Config
  import opened JsonText
  import opened LlmClient
  import opened Db
  import opened Session

  newtype byte = x: int | 0 <= x < 256

  /** `STREAM_CHUNK_DELIMITER`, the ASCII record separator. */
  const StreamChunkDelimiter: char := 0x1E as char
  const DelimiterByte: byte := 0x1E

  // ------------------------------------------------------------------
  // UTF-8
  // ------------------------------------------------------------------

  /** The UTF-8 encoding of one code point. */
  function Utf8Char(c: char): (b: seq<byte>)
    ensures 1 <= |b| <= 4
    ensures c as int < 0x80 <==> |b| == 1
    ensures |b| == 1 ==> b[0] as int == c as int
    ensures |b| > 1 ==> forall i :: 0 <= i < |b| ==> b[i] >= 0x80
  {
    var n := c as int;
    if n < 0x80 then [n as byte]
    else if n < 0x800 then [(0xC0 + n / 0x40) as byte, (0x80 + n % 0x40) as byte]
    else if n < 0x10000 then
      [(0xE0 + n / 0x1000) as byte, (0x80 + n / 0x40 % 0x40) as byte, (0x80 + n % 0x40) as byte]
    else
      [(0xF0 + n / 0x40000) as byte, (0x80 + n / 0x1000 % 0x40) as byte,
       (0x80 + n / 0x40 % 0x40) as byte, (0x80 + n % 0x40) as byte]
  }

  /** `str.encode("utf-8")`. */
  function Utf8(s: string): seq<byte> {
    if s == [] then [] else Utf8Char(s[0]) + Utf8(s[1..])
  }

  lemma {:induction false} Utf8Append(a: string, b: string)
    ensures Utf8(a + b) == Utf8(a) + Utf8(b)
  {
    if a == [] {
      assert a + b == b;
    } else {
      assert (a + b)[1..] == a[1..] + b;
      Utf8Append(a[1..], b);
    }
  }

  /** Text without the separator encodes to bytes without it: every byte of
      a multi-byte sequence is at least 0x80. */
  lemma {:induction false} Utf8NoDelimiter(s: string)
    requires forall i :: 0 <= i < |s| ==> s[i] != StreamChunkDelimiter
    ensures DelimiterByte !in Utf8(s)
  {
    if s != [] {
      Utf8NoDelimiter(s[1..]);
      assert Utf8Char(s[0])[0] != DelimiterByte;
    }
  }

  // ------------------------------------------------------------------
  // Framing
  // ------------------------------------------------------------------

  /** One framed record: its serialisation, one separator, as UTF-8. */
  function Frame(rec: Record): seq<byte> {
    Utf8(Dumps(rec) + [StreamChunkDelimiter])
  }

  /** A frame is the record's encoded text, which holds no separator,
      followed by exactly one separator. */
  lemma FrameShape(rec: Record)
    ensures Frame(rec) == Utf8(Dumps(rec)) + [DelimiterByte]
    ensures DelimiterByte !in Utf8(Dumps(rec))
  {
    Utf8Append(Dumps(rec), [StreamChunkDelimiter]);
    assert Utf8([StreamChunkDelimiter]) == [DelimiterByte];
    Utf8NoDelimiter(Dumps(rec));
  }

  function Frames(rs: seq<Record>): (fs: seq<seq<byte>>)
    ensures |fs| == |rs| && forall i :: 0 <= i < |rs| ==> fs[i] == Frame(rs[i])
  {
    if rs == [] then [] else [Frame(rs[0])] + Frames(rs[1..])
  }

  /** The encoded texts of the records, in order. */
  function Texts(rs: seq<Record>): (ts: seq<seq<byte>>)
    ensures |ts| == |rs| && forall i :: 0 <= i < |rs| ==> ts[i] == Utf8(Dumps(rs[i]))
  {
    if rs == [] then [] else [Utf8(Dumps(rs[0]))] + Texts(rs[1..])
  }

  /** The body: the yielded pieces one after another. */
  function Concat(pieces: seq<seq<byte>>): seq<byte> {
    if pieces == [] then [] else pieces[0] + Concat(pieces[1..])
  }

  /** `bytes.split(b"\x1e")`: the pieces between separators; there is one
      more piece than there are separators. */
  function Split(b: seq<byte>, d: byte): (r: seq<seq<byte>>)
    ensures |r| >= 1
  {
    if b == [] then [[]]
    else
      var rest := Split(b[1..], d);
      if b[0] == d then [[]] + rest else [[b[0]] + rest[0]] + rest[1..]
  }

  /** Splitting at a separator that ends a separator-free piece yields that
      piece, then the split of the remainder. */
  lemma {:induction false} SplitAtFirst(x: seq<byte>, d: byte, y: seq<byte>)
    requires d !in x
    ensures Split(x + [d] + y, d) == [x] + Split(y, d)
  {
    if x == [] {
      assert x + [d] + y == [d] + y;
      assert ([d] + y)[1..] == y;
    } else {
      assert (x + [d] + y)[1..] == x[1..] + [d] + y;
      SplitAtFirst(x[1..], d, y);
      assert [x[0]] + x[1..] == x;
    }
  }

  /** The framing round trip: splitting the body of any sequence of framed
      records on the separator recovers each record's text, in order, followed
      by the empty remainder after the last separator. */
  lemma {:induction false} SplitFrames(rs: seq<Record>)
    ensures Split(Concat(Frames(rs)), DelimiterByte) == Texts(rs) + [[]]
  {
    if rs != [] {
      SplitFrames(rs[1..]);
      FrameShape(rs[0]);
      var text := Utf8(Dumps(rs[0]));
      var rest := Concat(Frames(rs[1..]));
      assert Concat(Frames(rs)) == text + [DelimiterByte] + rest;
      SplitAtFirst(text, DelimiterByte, rest);
    }
  }

  /** UTF-8 decoding of bytes that are all ASCII, one character per byte;
      any byte from 0x80 up is refused. */
  function DecodeAscii(b: seq<byte>): Option<string> {
    if b == [] then Some([])
    else if b[0] >= 0x80 then None
    else match DecodeAscii(b[1..])
      case None => None
      case Some(t) => Some([b[0] as int as char] + t)
  }

  lemma {:induction false} DecodeAsciiUtf8(s: string)
    requires forall i :: 0 <= i < |s| ==> Printable(s[i])
    ensures DecodeAscii(Utf8(s)) == Some(s)
  {
    if s != [] {
      DecodeAsciiUtf8(s[1..]);
      var b := Utf8(s);
      assert b == [s[0] as int as byte] + Utf8(s[1..]);
      assert b[1..] == Utf8(s[1..]);
      assert [s[0]] + s[1..] == s;
    }
  }

  /** Reads one piece of the body back as a record. */
  function DecodeRecord(piece: seq<byte>): Option<Record> {
    match DecodeAscii(piece)
    case None => None
    case Some(text) => Loads(text)
  }

  /** The framing round trip, record by record: the pieces between
      separators decode to the streamed records, in order, and after the
      last separator nothing is left. */
  lemma SplitRecovers(rs: seq<Record>)
    ensures var parts := Split(Concat(Frames(rs)), DelimiterByte);
      && |parts| == |rs| + 1 && parts[|rs|] == []
      && forall i :: 0 <= i < |rs| ==> DecodeRecord(parts[i]) == Some(rs[i])
  {
    SplitFrames(rs);
    forall i | 0 <= i < |rs|
      ensures DecodeRecord(Texts(rs)[i]) == Some(rs[i])
    {
      DecodeAsciiUtf8(Dumps(rs[i]));
      LoadsDumps(rs[i]);
    }
  }

  // ------------------------------------------------------------------
  // _stream
  // ------------------------------------------------------------------

  /** What the model client's iteration produced: a dictionary, a string,
      or some other value. */
  datatype Chunk = DictChunk(record: Record) | StrChunk(text: string) | OtherChunk

  /** How the iteration ended: it ran out, or it raised an exception after
      the chunks it had produced. */
  datatype Ending = Exhausted | Raised

  const UnexpectedStringRecord: Record := [("type", "error"), ("delta", "Unexpected string chunk from LLM client")]
  const InternalErrorRecord: Record := [("type", "error"), ("error", "An internal error occurred while streaming the AI response.")]

  /** The records a chunk produces: a dictionary itself, a string one error
      record, any other value nothing. */
  function ChunkRecords(c: Chunk): seq<Record> {
    match c
    case DictChunk(rec) => [rec]
    case StrChunk(_) => [UnexpectedStringRecord]
    case OtherChunk => []
  }

  function AllChunkRecords(chunks: seq<Chunk>): seq<Record> {
    if chunks == [] then [] else ChunkRecords(chunks[0]) + AllChunkRecords(chunks[1..])
  }

  lemma {:induction false} AllChunkRecordsAppend(a: seq<Chunk>, b: seq<Chunk>)
    ensures AllChunkRecords(a + b) == AllChunkRecords(a) + AllChunkRecords(b)
  {
    if a == [] {
      assert a + b == b;
    } else {
      assert (a + b)[1..] == a[1..] + b;
      AllChunkRecordsAppend(a[1..], b);
    }
  }

  /** The records of the whole stream: those of the chunks, then one
      internal-error record if the iteration raised. */
  function StreamRecords(chunks: seq<Chunk>, ending: Ending): seq<Record> {
    AllChunkRecords(chunks) + (if ending == Raised then [InternalErrorRecord] else [])
  }

  /** The records of dictionary chunks are the dictionaries themselves. */
  lemma {:induction false} DictChunksRecords(rs: seq<Record>)
    ensures AllChunkRecords(seq(|rs|, i requires 0 <= i < |rs| => DictChunk(rs[i]))) == rs
  {
    if rs != [] {
      var cs := seq(|rs|, i requires 0 <= i < |rs| => DictChunk(rs[i]));
      assert cs[1..] == seq(|rs[1..]|, i requires 0 <= i < |rs[1..]| => DictChunk(rs[1..][i]));
      DictChunksRecords(rs[1..]);
    }
  }

  lemma {:induction false} FramesAppend(a: seq<Record>, b: seq<Record>)
    ensures Frames(a + b) == Frames(a) + Frames(b)
  {
    if a == [] {
      assert a + b == b;
    } else {
      assert (a + b)[1..] == a[1..] + b;
      FramesAppend(a[1..], b);
    }
  }

  /** One step of `_stream`: the pieces so far, extended by one chunk's
      frames, are the frames of the longer prefix. */
  lemma StreamStep(chunks: seq<Chunk>, i: nat)
    requires i < |chunks|
    ensures Frames(AllChunkRecords(chunks[..i + 1])) ==
            Frames(AllChunkRecords(chunks[..i])) + Frames(ChunkRecords(chunks[i]))
  {
    assert chunks[..i + 1] == chunks[..i] + [chunks[i]];
    AllChunkRecordsAppend(chunks[..i], [chunks[i]]);
    assert AllChunkRecords([chunks[i]]) == ChunkRecords(chunks[i]);
    FramesAppend(AllChunkRecords(chunks[..i]), ChunkRecords(chunks[i]));
  }

  /** The body of `_stream`'s loop for one chunk: a dictionary is framed as
      it is, a string becomes the framed error record, anything else is
      skipped. */
  method FrameChunk(chunk: Chunk) returns (out: seq<seq<byte>>)
    ensures out == Frames(ChunkRecords(chunk))
  {
    if chunk.DictChunk? {
      out := [Frame(chunk.record)];
    } else if chunk.StrChunk? {
      out := [Frame(UnexpectedStringRecord)];
    } else {
      out := [];
    }
  }

  /** `_stream`: yields one frame per record, in order; an exception ends
      the stream with one internal-error frame after the frames already
      yielded. */
  method Stream(chunks: seq<Chunk>, ending: Ending) returns (pieces: seq<seq<byte>>)
    ensures pieces == Frames(StreamRecords(chunks, ending))
  {
    pieces := [];
    for i := 0 to |chunks|
      invariant pieces == Frames(AllChunkRecords(chunks[..i]))
    {
      var out := FrameChunk(chunks[i]);
      StreamStep(chunks, i);
      pieces := pieces + out;
    }
    assert chunks[..|chunks|] == chunks;
    if ending == Raised {
      var last := ErrorFrames();
      FramesAppend(AllChunkRecords(chunks), [InternalErrorRecord]);
      pieces := pieces + last;
    } else {
      FramesAppend(AllChunkRecords(chunks), []);
    }
  }

  /** The frames of the exception path: the one internal-error record. */
  method ErrorFrames() returns (out: seq<seq<byte>>)
    ensures out == Frames([InternalErrorRecord])
  {
    out := [Frame(InternalErrorRecord)];
  }

  // ------------------------------------------------------------------
  // /model-run
  // ------------------------------------------------------------------

  datatype HttpError = HttpError(status: int, detail: string)

  /** `model in (claude_35_model, claude_37_model)`. */
  predicate SupportedModel(model: string, settings: Settings) {
    model == settings.claude35Model || model == settings.claude37Model
  }

  /** `model_run`: an unsupported model is refused with status 400 before any
      record is produced; otherwise the body frames the client's records,
      then an internal-error record if the provider stream raised. */
  method ModelRun(model: string, messages: seq<Message>, settings: Settings,
                  events: seq<Event>, ending: Ending)
    returns (r: Result<seq<seq<byte>>, HttpError>)
    ensures !SupportedModel(model, settings) ==> r == Failure(HttpError(400, "Unsupported model selected."))
    ensures SupportedModel(model, settings) ==>
      var records := Translate(ThinkingMode(model, settings), events) +
                     (if ending == Raised then [InternalErrorRecord] else []);
      && r == Success(Frames(records))
      && var parts := Split(Concat(r.value), DelimiterByte);
         |parts| == |records| + 1 && forall i :: 0 <= i < |records| ==> DecodeRecord(parts[i]) == Some(records[i])
  {
    if !SupportedModel(model, settings) {
      return Failure(HttpError(400, "Unsupported model selected."));
    }
    var request, records := ChatCompletionIter(model, messages, None, None, settings, events);
    var chunks := seq(|records|, i requires 0 <= i < |records| => DictChunk(records[i]));
    DictChunksRecords(records);
    var pieces := Stream(chunks, ending);
    SplitRecovers(StreamRecords(chunks, ending));
    r := Success(pieces);
  }

  /** The fast model never streams a thinking record. */
  lemma FastModelNeverThinks(settings: Settings, events: seq<Event>)
    requires settings.claude35Model != settings.claude37Model
    ensures forall i :: 0 <= i < |Translate(ThinkingMode(settings.claude35Model, settings), events)| ==>
      IsTextRecord(Translate(ThinkingMode(settings.claude35Model, settings), events)[i])
  {
    NoThinkingRecords(events);
  }

  // ------------------------------------------------------------------
  // /join
  // ------------------------------------------------------------------

  /** The `start_new` field: left out, `null`, or a boolean. */
  datatype StartNewField = Absent | Null | Given(flag: bool)

  /** The body of `/join` before validation. */
  datatype JoinRequest = JoinRequest(name: Option<string>, startNew: StartNewField)

  datatype ValidationError = NameMissing | NameTooShort | NameTooLong

  const NameMinLength: int := 1
  const NameMaxLength: int := 50

  /** The `JoinRequest` field rules and the `start_new` default: the name is
      required and has 1 to 50 characters before any stripping; a missing or
      `null` `start_new` means false. */
  function JoinArguments(req: JoinRequest): (r: Result<(string, bool), ValidationError>)
    ensures r.Success? <==> req.name.Some? && NameMinLength <= |req.name.value| <= NameMaxLength
    ensures r.Success? ==> r.value.0 == req.name.value && (r.value.1 <==> req.startNew == Given(true))
    ensures req.name.None? ==> r == Failure(NameMissing)
  {
    if req.name.None? then Failure(NameMissing)
    else if |req.name.value| < NameMinLength then Failure(NameTooShort)
    else if |req.name.value| > NameMaxLength then Failure(NameTooLong)
    else Success((req.name.value, req.startNew.Given? && req.startNew.flag))
  }

  /** `join_game`: an invalid body is refused without touching the store;
      a valid one joins under its name and its `start_new` flag, with the
      outcome `SessionService.join` gives for that flag. */
  method JoinGame(store: Store, req: JoinRequest) returns (r: Result<JoinResponse, ValidationError>)
    requires store.Valid()
    modifies store
    ensures store.Valid()
    ensures r.Failure? ==> JoinArguments(req) == Failure(r.error) && store.users == old(store.users) && store.tick == old(store.tick)
    ensures r.Success? <==> JoinArguments(req).Success?
    ensures r.Success? ==> r.value.user.name == Strip(req.name.value)
    ensures r.Success? ==> store.GetUser(r.value.user.id) == Some(r.value.user)
    ensures r.Success? ==> r.value.question == CurrentQuestion(store, r.value.user.currentStage)
    ensures r.Success? && JoinArguments(req).value.1 ==>
      var name := Strip(req.name.value);
      && r.value.user.id !in old(store.users) && r.value.user.currentStage == 1
      && store.users == Without(old(store.users), old(Oldest(store.users, name)))[r.value.user.id := UserRow(name, 1, old(store.tick))]
    ensures r.Success? && !JoinArguments(req).value.1 && old(Oldest(store.users, Strip(req.name.value))).Some? ==>
      && Some(r.value.user.id) == old(Oldest(store.users, Strip(req.name.value)))
      && store.users == old(store.users) && store.tick == old(store.tick)
    ensures r.Success? && !JoinArguments(req).value.1 && old(Oldest(store.users, Strip(req.name.value))).None? ==>
      var name := Strip(req.name.value);
      && r.value.user.id !in old(store.users) && r.value.user.currentStage == 1
      && store.users == old(store.users)[r.value.user.id := UserRow(name, 1, old(store.tick))]
    ensures store.questions == old(store.questions) && store.stats == old(store.stats)
  {
    var args := JoinArguments(req);
    if args.Failure? {
      return Failure(args.error);
    }
    var payload := Join(store, args.value.0, args.value.1);
    r := Success(payload);
  }

  /** A name of spaces passes the field rules and joins as the empty name. */
  lemma BlankNameJoinsEmpty()
    ensures JoinArguments(JoinRequest(Some("   "), Absent)) == Success(("   ", false))
    ensures Strip("   ") == ""
  {
    assert Strip("   ") == TrimRight(TrimLeft("   "));
  }
}
