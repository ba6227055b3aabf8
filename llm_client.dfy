/**
 * The request assembly and event translation of the model client.
 *
 * The provider's stream is given as the sequence of events it delivered;
 * the client and the network call themselves are not modelled.
 */
module LlmClient {
  import opened Wrappers
  import opened Config
  import opened JsonText

  /** The two temperatures the client sends: 1.0 when thinking is enabled,
      0.1 otherwise. No arithmetic is done on them. */
  datatype Temperature = TemperatureOne | TemperatureTenth

  /** `{"type": "enabled", "budget_tokens": b}`. */
  datatype ThinkingConfig = ThinkingEnabled(budgetTokens: int)

  /** The options dictionary: an optional `"thinking"` entry and a `"temperature"`. */
  datatype ModelOptions = ModelOptions(thinking: Option<ThinkingConfig>, temperature: Temperature)

  /** The smallest reasoning budget for which thinking is turned on. */
  const MinThinkingBudget: int := 1024

  /** `_get_model_specific_options`: thinking is on exactly for the reasoning
      model with a budget of at least 1024, and then the temperature is 1.0
      and the budget is the configured one; in every other case the
      temperature is 0.1. */
  function ModelSpecificOptions(modelName: string, settings: Settings): (o: ModelOptions)
    ensures o.thinking.Some? <==> modelName == settings.claude37Model && settings.llmReasoningBudget >= MinThinkingBudget
    ensures o.thinking.Some? ==> o.thinking.value.budgetTokens == settings.llmReasoningBudget && o.temperature == TemperatureOne
    ensures o.thinking.None? ==> o.temperature == TemperatureTenth
  {
    if modelName == settings.claude37Model then
      if settings.llmReasoningBudget >= MinThinkingBudget then
        ModelOptions(Some(ThinkingEnabled(settings.llmReasoningBudget)), TemperatureOne)
      else
        ModelOptions(None, TemperatureTenth)
    else
      ModelOptions(None, TemperatureTenth)
  }

  /** With the default settings the reasoning model thinks: the default
      budget sits exactly at the threshold. */
  lemma DefaultsEnableThinking()
    ensures ModelSpecificOptions(Defaults.claude37Model, Defaults).thinking == Some(ThinkingEnabled(1024))
    ensures ModelSpecificOptions(Defaults.claude35Model, Defaults).thinking.None?
  {
  }

  datatype Message = Message(role: string, content: string)

  /** The keyword arguments of `client.messages.create`. */
  datatype ApiParams = ApiParams(
    model: string,
    maxTokens: int,
    messages: seq<Message>,
    stream: bool,
    options: ModelOptions,
    system: Option<string>)

  /** `p` is the request built for these arguments: `max_tokens` is the
      argument when it is given and not zero (Python's `or`), else the
      configured default; the model options are merged in; `"system"` is
      present exactly when a non-empty system prompt was given. */
  ghost predicate IsRequestFor(p: ApiParams, model: string, messages: seq<Message>,
                               systemPrompt: Option<string>, maxTokens: Option<int>, settings: Settings)
  {
    && p.model == model && p.messages == messages && p.stream
    && (maxTokens.Some? && maxTokens.value != 0 ==> p.maxTokens == maxTokens.value)
    && (maxTokens.None? || maxTokens == Some(0) ==> p.maxTokens == settings.llmMaxTokens)
    && p.options == ModelSpecificOptions(model, settings)
    && (p.system.Some? <==> systemPrompt.Some? && systemPrompt.value != [])
    && (p.system.Some? ==> p.system == systemPrompt)
  }

  /** The assembly of `api_params` at the start of `chat_completion_iter`. */
  method BuildApiParams(model: string, messages: seq<Message>, systemPrompt: Option<string>,
                        maxTokens: Option<int>, settings: Settings) returns (p: ApiParams)
    ensures IsRequestFor(p, model, messages, systemPrompt, maxTokens, settings)
  {
    var resolvedMaxTokens := settings.llmMaxTokens;
    if maxTokens.Some? && maxTokens.value != 0 {
      resolvedMaxTokens := maxTokens.value;
    }
    var modelOpts := ModelSpecificOptions(model, settings);
    p := ApiParams(model, resolvedMaxTokens, messages, true, modelOpts, None);
    if systemPrompt.Some? && systemPrompt.value != [] {
      p := p.(system := systemPrompt);
    }
  }

  /** The delta carried by a content-block delta event. */
  datatype Delta = TextDelta(text: string) | ThinkingDelta(thinking: string) | OtherDelta

  /** A provider stream event: content-block deltas, and the rest (message
      start and stop, block start and stop, message deltas). */
  datatype Event = ContentBlockDelta(delta: Delta) | OtherEvent

  function TextRecord(t: string): Record {
    [("type", "text"), ("delta", t)]
  }

  function ThinkingRecord(t: string): Record {
    [("type", "thinking"), ("delta", t)]
  }

  ghost predicate IsTextRecord(r: Record) {
    |r| == 2 && r[0] == ("type", "text") && r[1].0 == "delta"
  }

  ghost predicate IsThinkingRecord(r: Record) {
    |r| == 2 && r[0] == ("type", "thinking") && r[1].0 == "delta"
  }

  /** Whether the stream is read in thinking mode. */
  function ThinkingMode(model: string, settings: Settings): bool {
    model == settings.claude37Model && ModelSpecificOptions(model, settings).thinking.Some?
  }

  /** What one event yields: text deltas become text records in both modes,
      thinking deltas become thinking records in thinking mode only, and
      every other event yields nothing. */
  function EventRecords(thinkingMode: bool, e: Event): (r: seq<Record>)
    ensures |r| <= 1
    ensures e.ContentBlockDelta? && e.delta.TextDelta? ==> r == [TextRecord(e.delta.text)]
    ensures e.ContentBlockDelta? && e.delta.ThinkingDelta? && thinkingMode ==> r == [ThinkingRecord(e.delta.thinking)]
    ensures !(e.ContentBlockDelta? && (e.delta.TextDelta? || (thinkingMode && e.delta.ThinkingDelta?))) ==> r == []
  {
    match e
    case ContentBlockDelta(TextDelta(t)) => [TextRecord(t)]
    case ContentBlockDelta(ThinkingDelta(t)) => if thinkingMode then [ThinkingRecord(t)] else []
    case _ => []
  }

  /** The records yielded for a sequence of events, in event order. */
  function Translate(thinkingMode: bool, events: seq<Event>): seq<Record> {
    if events == [] then [] else EventRecords(thinkingMode, events[0]) + Translate(thinkingMode, events[1..])
  }

  /** Translation is an order-preserving filter-map: it distributes over
      concatenation of event sequences. */
  lemma {:induction false} TranslateAppend(thinkingMode: bool, a: seq<Event>, b: seq<Event>)
    ensures Translate(thinkingMode, a + b) == Translate(thinkingMode, a) + Translate(thinkingMode, b)
  {
    if a == [] {
      assert a + b == b;
    } else {
      assert (a + b)[1..] == a[1..] + b;
      TranslateAppend(thinkingMode, a[1..], b);
    }
  }

  /** Outside thinking mode every record is a text record. */
  lemma {:induction false} NoThinkingRecords(events: seq<Event>)
    ensures forall i :: 0 <= i < |Translate(false, events)| ==> IsTextRecord(Translate(false, events)[i])
  {
    if events != [] {
      NoThinkingRecords(events[1..]);
    }
  }

  /** In thinking mode every record is a text or a thinking record. */
  lemma {:induction false} ThinkingModeRecords(events: seq<Event>)
    ensures forall i :: 0 <= i < |Translate(true, events)| ==>
      IsTextRecord(Translate(true, events)[i]) || IsThinkingRecord(Translate(true, events)[i])
  {
    if events != [] {
      ThinkingModeRecords(events[1..]);
    }
  }

  /** The text records in order. */
  function TextOnly(rs: seq<Record>): seq<Record> {
    if rs == [] then []
    else if |rs[0]| > 0 && rs[0][0] == ("type", "text") then [rs[0]] + TextOnly(rs[1..])
    else TextOnly(rs[1..])
  }

  /** The two modes agree on text: without thinking, the stream is the
      thinking-mode stream with its thinking records removed. */
  lemma {:induction false} ModesAgreeOnText(events: seq<Event>)
    ensures Translate(false, events) == TextOnly(Translate(true, events))
  {
    if events != [] {
      ModesAgreeOnText(events[1..]);
      var head := EventRecords(true, events[0]);
      assert Translate(true, events) == head + Translate(true, events[1..]);
      if head != [] {
        assert (head + Translate(true, events[1..]))[1..] == Translate(true, events[1..]);
      } else {
        assert head + Translate(true, events[1..]) == Translate(true, events[1..]);
      }
    }
  }

  /** `chat_completion_iter`: builds the request, then reads the events in
      the mode the options select, and yields their records in order. */
  method ChatCompletionIter(model: string, messages: seq<Message>, systemPrompt: Option<string>,
                            maxTokens: Option<int>, settings: Settings, events: seq<Event>)
    returns (request: ApiParams, records: seq<Record>)
    ensures IsRequestFor(request, model, messages, systemPrompt, maxTokens, settings)
    ensures records == Translate(ThinkingMode(model, settings), events)
  {
    request := BuildApiParams(model, messages, systemPrompt, maxTokens, settings);
    records := [];
    if model == settings.claude37Model && request.options.thinking.Some? {
      for i := 0 to |events|
        invariant records == Translate(true, events[..i])
      {
        var event := events[i];
        if event.ContentBlockDelta? {
          if event.delta.TextDelta? {
            records := records + [TextRecord(event.delta.text)];
          } else if event.delta.ThinkingDelta? {
            records := records + [ThinkingRecord(event.delta.thinking)];
          }
        }
        assert events[..i + 1] == events[..i] + [event];
        TranslateAppend(true, events[..i], [event]);
      }
    } else {
      for i := 0 to |events|
        invariant records == Translate(false, events[..i])
      {
        var event := events[i];
        if event.ContentBlockDelta? && event.delta.TextDelta? {
          records := records + [TextRecord(event.delta.text)];
        }
        assert events[..i + 1] == events[..i] + [event];
        TranslateAppend(false, events[..i], [event]);
      }
    }
    assert events[..|events|] == events;
  }
}
