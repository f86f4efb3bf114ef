/** Backend selection, prompt flattening and the local-daemon (Ollama) adapter
    of the model-provider layer (lib/ai/model-config.ts). */
module ModelConfig {
  import opened Js
  import opened Text

  /** The configuration record: the provider kind is whatever string the
      environment supplied, so it is kept as a string. */
  datatype Config = Config(
    provider: string,
    openaiApiKey: Option<string>,
    ollamaBaseUrl: Option<string>,
    ollamaModel: Option<string>)

  const OllamaProviderKind: string := "ollama"
  const DefaultOllamaHost: string := "http://localhost:11434"
  const DefaultOllamaModel: string := "llama2"
  const HostedModelId: string := "gpt-4-turbo-preview"

  /** JavaScript `value || fallback` on an optional string: an absent or empty value falls back. */
  function OrElse(value: Option<string>, fallback: string): (r: string)
  {
    if value.Some? && value.value != "" then value.value else fallback
  }

  // ---------------------------------------------------------------------------
  // Prompt flattening
  // ---------------------------------------------------------------------------

  /** Rendering of one entry of an array prompt: a string is kept, an object
      with both a `role` and a `content` key becomes `role: content`, and
      everything else is dumped with JSON.stringify. */
  function RenderEntry(rt: Runtime, p: Value): (r: string)
    ensures p.VString? ==> r == p.s
    ensures IsMessage(p) ==> r == Interpolate(rt, p.fields["role"]) + ": " + Interpolate(rt, p.fields["content"])
    ensures !p.VString? && !IsMessage(p) ==> r == rt.stringify(p)
  {
    match p
    case VString(s) => s
    case VObject(fields) =>
      if "role" in fields && "content" in fields
      then Interpolate(rt, fields["role"]) + ": " + Interpolate(rt, fields["content"])
      else rt.stringify(p)
    case _ => rt.stringify(p)
  }

  /** An object that has both a `role` and a `content` key. */
  predicate IsMessage(p: Value) {
    p.VObject? && "role" in p.fields && "content" in p.fields
  }

  /** The per-entry renderings of an array prompt, in entry order. */
  function Renderings(rt: Runtime, items: seq<Value>): (r: seq<string>)
    ensures |r| == |items|
    ensures forall i :: 0 <= i < |items| ==> r[i] == RenderEntry(rt, items[i])
  {
    if |items| == 0 then [] else [RenderEntry(rt, items[0])] + Renderings(rt, items[1..])
  }

  /** promptToString, as intended: total on every value. A string prompt is kept,
      an array prompt is the newline-join of its entries' renderings, and any
      other value is dumped with JSON.stringify. */
  function PromptToString(rt: Runtime, prompt: Value): (r: string)
    ensures prompt.VString? ==> r == prompt.s
    ensures !prompt.VString? && !prompt.VArray? ==> r == rt.stringify(prompt)
  {
    match prompt
    case VString(s) => s
    case VArray(items) => Join(Renderings(rt, items), "\n")
    case _ => rt.stringify(prompt)
  }

  /** For an array prompt whose renderings hold no newline and that has at least one
      entry, splitting the flat text on newlines gives back exactly the entries'
      renderings, in order: one line per entry. */
  lemma PromptLinesAreEntries(rt: Runtime, items: seq<Value>)
    requires |items| >= 1
    requires forall i :: 0 <= i < |items| ==> '\n' !in RenderEntry(rt, items[i])
    ensures |Split(PromptToString(rt, VArray(items)), '\n')| == |items|
    ensures forall i :: 0 <= i < |items| ==>
              Split(PromptToString(rt, VArray(items)), '\n')[i] == RenderEntry(rt, items[i])
  {
    SplitJoin(Renderings(rt, items), '\n');
  }

  /** A message record `{role, content}` whose two fields are strings. */
  datatype Message = Message(role: string, content: string)

  function MessageValue(m: Message): Value
  {
    VObject(map["role" := VString(m.role), "content" := VString(m.content)])
  }

  function MessageValues(ms: seq<Message>): (r: seq<Value>)
    ensures |r| == |ms|
    ensures forall i :: 0 <= i < |ms| ==> r[i] == MessageValue(ms[i])
  {
    if |ms| == 0 then [] else [MessageValue(ms[0])] + MessageValues(ms[1..])
  }

  /** A conversation of message records flattens to lines `role: content`, one per
      message, in message order, when no role or content holds a newline. */
  lemma MessagesFlattenToRoleLines(rt: Runtime, ms: seq<Message>)
    requires |ms| >= 1
    requires forall i :: 0 <= i < |ms| ==> '\n' !in ms[i].role && '\n' !in ms[i].content
    ensures |Split(PromptToString(rt, VArray(MessageValues(ms))), '\n')| == |ms|
    ensures forall i :: 0 <= i < |ms| ==>
              Split(PromptToString(rt, VArray(MessageValues(ms))), '\n')[i] == ms[i].role + ": " + ms[i].content
  {
    var items := MessageValues(ms);
    forall i | 0 <= i < |items|
      ensures RenderEntry(rt, items[i]) == ms[i].role + ": " + ms[i].content
      ensures '\n' !in RenderEntry(rt, items[i])
    {
      assert IsMessage(items[i]);
    }
    PromptLinesAreEntries(rt, items);
  }

  // ---------------------------------------------------------------------------
  // promptToString exactly as the code is written (see README, Findings)
  // ---------------------------------------------------------------------------

  const InOperatorTypeError: string := "TypeError: Cannot use 'in' operator to search for 'role'"

  /** One entry of `prompt.map(...)` as written: the `'role' in p` test runs on
      every non-string entry, and on a primitive it throws. */
  function RenderEntryAsWritten(rt: Runtime, p: Value): (r: Completion<string>)
    ensures r.Threw? <==> p.IsPrimitive()
    ensures r.Done? ==> r.value == RenderEntry(rt, p)
  {
    if p.IsPrimitive() then Threw(InOperatorTypeError) else Done(RenderEntry(rt, p))
  }

  /** `prompt.map(...)` as written: the first entry that throws aborts the map. */
  function RenderAllAsWritten(rt: Runtime, items: seq<Value>): (r: Completion<seq<string>>)
    ensures r.Threw? ==> r.error == InOperatorTypeError
    ensures r.Done? ==> |r.value| == |items|
    ensures r.Done? ==> forall i :: 0 <= i < |items| ==> r.value[i] == RenderEntry(rt, items[i])
  {
    if |items| == 0 then Done([])
    else
      match RenderEntryAsWritten(rt, items[0])
      case Threw(e) => Threw(e)
      case Done(line) =>
        match RenderAllAsWritten(rt, items[1..])
        case Threw(e) => Threw(e)
        case Done(lines) => Done([line] + lines)
  }

  /** promptToString exactly as written. */
  function PromptToStringAsWritten(rt: Runtime, prompt: Value): (r: Completion<string>)
    ensures prompt.VString? ==> r == Done(prompt.s)
    ensures !prompt.VString? && !prompt.VArray? ==> r == Done(rt.stringify(prompt))
    ensures r.Threw? ==> prompt.VArray? && r.error == InOperatorTypeError
  {
    match prompt
    case VString(s) => Done(s)
    case VArray(items) =>
      (match RenderAllAsWritten(rt, items)
       case Threw(e) => Threw(e)
       case Done(lines) => Done(Join(lines, "\n")))
    case _ => Done(rt.stringify(prompt))
  }

  /** As written, the map fails exactly when some entry is a primitive,
      and otherwise yields the intended renderings. */
  lemma {:induction false} RenderAllAsWrittenFails(rt: Runtime, items: seq<Value>)
    ensures RenderAllAsWritten(rt, items).Threw?
        <==> exists i :: 0 <= i < |items| && items[i].IsPrimitive()
    ensures RenderAllAsWritten(rt, items).Done? ==> RenderAllAsWritten(rt, items).value == Renderings(rt, items)
  {
    if |items| > 0 {
      RenderAllAsWrittenFails(rt, items[1..]);
      if exists i :: 0 <= i < |items[1..]| && items[1..][i].IsPrimitive() {
        var i :| 0 <= i < |items[1..]| && items[1..][i].IsPrimitive();
        assert items[i + 1].IsPrimitive();
      }
      if exists i :: 0 <= i < |items| && items[i].IsPrimitive() {
        var i :| 0 <= i < |items| && items[i].IsPrimitive();
        if i > 0 {
          assert items[1..][i - 1].IsPrimitive();
        }
      }
    }
  }

  /** On every prompt without primitive array entries, which is every prompt the
      hosted SDK's prompt type admits, the code as written and the intended
      total renderer agree. */
  lemma PromptToStringAgreesWhenNoPrimitiveEntry(rt: Runtime, prompt: Value)
    requires prompt.VArray? ==> forall i :: 0 <= i < |prompt.items| ==> !prompt.items[i].IsPrimitive()
    ensures PromptToStringAsWritten(rt, prompt) == Done(PromptToString(rt, prompt))
  {
    if prompt.VArray? {
      RenderAllAsWrittenFails(rt, prompt.items);
    }
  }

  /** The discrepancy: an array prompt with a numeric entry makes the code as
      written throw, although the renderer is meant never to fail. */
  lemma PromptToStringAsWrittenThrowsOnNumberEntry(rt: Runtime)
    ensures PromptToStringAsWritten(rt, VArray([VNumber(1.0)])) == Threw(InOperatorTypeError)
    ensures PromptToString(rt, VArray([VNumber(1.0)])) == rt.stringify(VNumber(1.0))
  {
    assert Renderings(rt, [VNumber(1.0)]) == [rt.stringify(VNumber(1.0))];
  }

  // ---------------------------------------------------------------------------
  // Backend selection
  // ---------------------------------------------------------------------------

  /** The daemon client: only its host is configured. */
  datatype OllamaClient = OllamaClient(host: string)

  /** createOllamaClient: the host is the configured base URL, or the local default
      when it is absent or empty. */
  function CreateOllamaClient(config: Config): (c: OllamaClient)
    ensures config.ollamaBaseUrl.Some? && config.ollamaBaseUrl.value != "" ==> c.host == config.ollamaBaseUrl.value
    ensures config.ollamaBaseUrl.None? || config.ollamaBaseUrl.value == "" ==> c.host == "http://localhost:11434"
    ensures c.host != ""
  {
    OllamaClient(OrElse(config.ollamaBaseUrl, DefaultOllamaHost))
  }

  /** The adapter object built for the daemon; the constant fields are those of the literal. */
  datatype OllamaAdapter = OllamaAdapter(
    client: OllamaClient,
    specificationVersion: string,
    provider: string,
    modelId: string,
    defaultObjectGenerationMode: string)

  /** What createModelProvider returns: the daemon adapter or the hosted client's model. */
  datatype LanguageModel = Ollama(adapter: OllamaAdapter) | Hosted(modelId: string)

  /** createModelProvider: provider `ollama` selects the daemon adapter, with the
      configured (or default `llama2`) model; anything else selects the hosted model. */
  function CreateModelProvider(config: Config): (m: LanguageModel)
    ensures m.Ollama? <==> config.provider == "ollama"
    ensures m.Ollama? ==>
              && m.adapter.provider == "ollama"
              && m.adapter.specificationVersion == "v1"
              && m.adapter.defaultObjectGenerationMode == "json"
              && m.adapter.client == CreateOllamaClient(config)
              && (config.ollamaModel.Some? && config.ollamaModel.value != "" ==> m.adapter.modelId == config.ollamaModel.value)
              && (config.ollamaModel.None? || config.ollamaModel.value == "" ==> m.adapter.modelId == "llama2")
    ensures m.Hosted? ==> m.modelId == "gpt-4-turbo-preview"
  {
    if config.provider == OllamaProviderKind then
      Ollama(OllamaAdapter(
        CreateOllamaClient(config), "v1", "ollama",
        OrElse(config.ollamaModel, DefaultOllamaModel), "json"))
    else
      Hosted(HostedModelId)
  }

  // ---------------------------------------------------------------------------
  // The daemon adapter's generate and stream operations
  // ---------------------------------------------------------------------------

  /** A call to the daemon's generate endpoint, from the client bound to `host`. */
  datatype DaemonRequest = DaemonRequest(host: string, model: string, prompt: string, stream: bool)

  datatype FinishReason = Stop
  datatype Usage = Usage(promptTokens: int, completionTokens: int)
  const ZeroUsage: Usage := Usage(0, 0)

  /** The canonical one-shot result; `rawPrompt` keeps the prompt as it was given. */
  datatype GenerateResult = GenerateResult(text: string, usage: Usage, finishReason: FinishReason, rawPrompt: Value)

  /** The canonical stream parts the adapter emits. */
  datatype StreamPart = TextDelta(textDelta: string) | Finish(finishReason: FinishReason, usage: Usage)

  /** doStream's result: the stream and the original prompt. */
  datatype StreamResult = StreamResult(stream: Stream<StreamPart>, rawPrompt: Value)

  function RequestFor(adapter: OllamaAdapter, rt: Runtime, prompt: Value, stream: bool): (q: DaemonRequest)
  {
    DaemonRequest(adapter.client.host, adapter.modelId, PromptToString(rt, prompt), stream)
  }

  /** doGenerate: one daemon call with the flattened prompt. Its reply text becomes the
      result text, with zero usage and reason `stop`; a failed call fails the operation. */
  function DoGenerate(adapter: OllamaAdapter, rt: Runtime, prompt: Value,
                      generate: DaemonRequest -> Completion<string>): (r: Completion<GenerateResult>)
    ensures var reply := generate(DaemonRequest(adapter.client.host, adapter.modelId, PromptToString(rt, prompt), false));
            && (r.Threw? <==> reply.Threw?)
            && (reply.Threw? ==> r.error == reply.error)
            && (reply.Done? ==> r.value == GenerateResult(reply.value, Usage(0, 0), Stop, prompt))
  {
    match generate(RequestFor(adapter, rt, prompt, false))
    case Threw(e) => Threw(e)
    case Done(response) => Done(GenerateResult(response, ZeroUsage, Stop, prompt))
  }

  /** One text-delta per daemon chunk, in chunk order. */
  function Deltas(chunks: seq<string>): (r: seq<StreamPart>)
    ensures |r| == |chunks|
    ensures forall i :: 0 <= i < |chunks| ==> r[i] == TextDelta(chunks[i])
  {
    if |chunks| == 0 then [] else Deltas(chunks[..|chunks| - 1]) + [TextDelta(chunks[|chunks| - 1])]
  }

  /** The stream the adapter builds over the daemon's chunks: the deltas, then one
      `finish` when the daemon's iterator is exhausted; its failure errors the stream. */
  function DaemonStream(source: ChunkSource<string>): Stream<StreamPart>
  {
    match source.end
    case Exhausted => Stream(Deltas(source.chunks) + [Finish(Stop, ZeroUsage)], Closed)
    case Failed(e) => Stream(Deltas(source.chunks), Errored(e))
  }

  /** The concatenated text of the text-delta parts. */
  function DeltaText(parts: seq<StreamPart>): string
  {
    if |parts| == 0 then ""
    else DeltaText(parts[..|parts| - 1]) + (match parts[|parts| - 1]
                                            case TextDelta(t) => t
                                            case Finish(_, _) => "")
  }

  /** The canonical stream invariant: a `finish` part occurs only as the very last
      part of a stream that closed normally, and a normally closed stream has one. */
  predicate IsCanonical(s: Stream<StreamPart>)
  {
    && (s.end.Closed? ==> |s.items| >= 1 && Last(s.items).Finish?)
    && (forall i :: 0 <= i < |s.items| && s.items[i].Finish? ==> i == |s.items| - 1 && s.end.Closed?)
  }

  /** The number of `finish` parts in a part list. */
  function FinishCount(parts: seq<StreamPart>): nat
  {
    if |parts| == 0 then 0
    else FinishCount(parts[..|parts| - 1]) + (if parts[|parts| - 1].Finish? then 1 else 0)
  }

  lemma {:induction false} FinishCountOfDeltas(chunks: seq<string>)
    ensures FinishCount(Deltas(chunks)) == 0
  {
    if |chunks| > 0 {
      FinishCountOfDeltas(chunks[..|chunks| - 1]);
      assert Deltas(chunks)[..|chunks| - 1] == Deltas(chunks[..|chunks| - 1]);
    }
  }

  lemma {:induction false} DeltaTextOfDeltas(chunks: seq<string>)
    ensures DeltaText(Deltas(chunks)) == Concat(chunks)
  {
    if |chunks| > 0 {
      DeltaTextOfDeltas(chunks[..|chunks| - 1]);
      assert Deltas(chunks)[..|chunks| - 1] == Deltas(chunks[..|chunks| - 1]);
    }
  }

  /** For N daemon chunks the stream holds exactly N text-deltas carrying the chunks
      in order; it then holds exactly one `finish` (stop, zero usage) and closes when
      the daemon's iterator is exhausted, and holds none and errors when it fails.
      The deltas concatenate to the concatenated chunks. */
  lemma DaemonStreamShape(source: ChunkSource<string>)
    ensures var s := DaemonStream(source);
            && IsCanonical(s)
            && s.items[..|source.chunks|] == Deltas(source.chunks)
            && (source.end.Exhausted? <==> s.end == Closed)
            && (source.end.Exhausted? ==> |s.items| == |source.chunks| + 1 && Last(s.items) == Finish(Stop, Usage(0, 0)))
            && (source.end.Failed? ==> |s.items| == |source.chunks| && s.end == Errored(source.end.error))
            && FinishCount(s.items) == (if source.end.Exhausted? then 1 else 0)
            && DeltaText(s.items) == Concat(source.chunks)
  {
    var s := DaemonStream(source);
    FinishCountOfDeltas(source.chunks);
    DeltaTextOfDeltas(source.chunks);
    if source.end.Exhausted? {
      assert s.items[..|s.items| - 1] == Deltas(source.chunks);
    }
  }

  /** doStream: a for-await loop that enqueues one text-delta per daemon chunk, then a
      `finish` part and a close; a failing iterator errors the stream instead. A
      failing initial daemon call fails the operation itself. */
  method DoStream(adapter: OllamaAdapter, rt: Runtime, prompt: Value,
                  generateStream: DaemonRequest -> Completion<ChunkSource<string>>)
    returns (r: Completion<StreamResult>)
    ensures var reply := generateStream(DaemonRequest(adapter.client.host, adapter.modelId, PromptToString(rt, prompt), true));
            && (r.Threw? <==> reply.Threw?)
            && (reply.Threw? ==> r.error == reply.error)
            && (reply.Done? ==> r.value == StreamResult(DaemonStream(reply.value), prompt))
  {
    var reply := generateStream(RequestFor(adapter, rt, prompt, true));
    if reply.Threw? {
      return Threw(reply.error);
    }
    var source := reply.value;
    var enqueued: seq<StreamPart> := [];
    for i := 0 to |source.chunks|
      invariant enqueued == Deltas(source.chunks[..i])
    {
      enqueued := enqueued + [TextDelta(source.chunks[i])];
      assert source.chunks[..i + 1][..i] == source.chunks[..i];
    }
    assert source.chunks[..|source.chunks|] == source.chunks;
    var ending: StreamEnd;
    match source.end {
      case Exhausted =>
        enqueued := enqueued + [Finish(Stop, ZeroUsage)];
        ending := Closed;
      case Failed(e) =>
        ending := Errored(e);
    }
    r := Done(StreamResult(Stream(enqueued, ending), prompt));
  }

  /** Streaming and one-shot generation agree whenever the daemon's chunks concatenate
      to its one-shot reply: the deltas then spell out the one-shot result text. */
  lemma StreamTextMatchesGenerate(adapter: OllamaAdapter, rt: Runtime, prompt: Value,
                                  generate: DaemonRequest -> Completion<string>,
                                  source: ChunkSource<string>)
    requires generate(RequestFor(adapter, rt, prompt, false)).Done?
    requires Concat(source.chunks) == generate(RequestFor(adapter, rt, prompt, false)).value
    ensures DoGenerate(adapter, rt, prompt, generate).Done?
    ensures DeltaText(DaemonStream(source).items) == DoGenerate(adapter, rt, prompt, generate).value.text
  {
    DaemonStreamShape(source);
  }

  /** The conversation `[{role: "user", content: "hi"}]` is sent to the daemon as
      "user: hi", and the daemon's "hello" comes back as the canonical result. */
  lemma GenerateUserHi(adapter: OllamaAdapter, rt: Runtime, generate: DaemonRequest -> Completion<string>)
    requires generate(DaemonRequest(adapter.client.host, adapter.modelId, "user: hi", false)) == Done("hello")
    ensures var prompt := VArray([VObject(map["role" := VString("user"), "content" := VString("hi")])]);
            DoGenerate(adapter, rt, prompt, generate) == Done(GenerateResult("hello", Usage(0, 0), Stop, prompt))
  {
    var prompt := VArray([VObject(map["role" := VString("user"), "content" := VString("hi")])]);
    var entry := prompt.items[0];
    assert IsMessage(entry);
    assert entry.fields["role"] == VString("user") && entry.fields["content"] == VString("hi");
    assert RenderEntry(rt, entry) == "user: hi";
    assert Renderings(rt, prompt.items) == ["user: hi"];
    assert PromptToString(rt, prompt) == "user: hi";
  }
}
