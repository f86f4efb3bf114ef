# Model-provider layer of hr-web-chatbot, in Dafny

This project models the LLM-provider layer of the chat application. It covers three parts.

- **Prompt flattening and the local-daemon (Ollama) adapter** (`lib/ai/model-config.ts`), in `model_config.dfy`.
  `promptToString` turns a prompt into one string. `createModelProvider` picks the daemon adapter or the hosted model and applies the host and model defaults. The adapter's `doGenerate` maps one daemon reply to the fixed result shape. Its `doStream` is a loop that turns the daemon's chunks into stream parts.
- **The webhook call and its line-buffered `data:` decoder** (`lib/ai/custom-api.ts`), in `custom_api.dfy`.
  `LineDecoder` is a class with the mutable `buffer` field. Its `Push` method is one iteration of the read loop: append, split on `\n`, keep the last piece, decode the complete lines. `CallCustomApi` makes the status and reader checks and runs the loop over the body's chunks. Both are proved against `DecodeText`, a pure function of the concatenated text.
- **The provider registry** (`lib/ai/providers.ts`), in `providers.dfy`.
  This is a pure function from the test flag and the environment to the one model instance and the table of four roles.

Shared shapes live in `js.dfy`: JavaScript values, `Completion` (a call returns or throws), chunk sources and streams. JavaScript's `split`, `join` and `+=` live in `text.dfy`, with their round-trip laws.

Foreign code is passed in as function-typed parameters:
- `ollama.generate` becomes `generate` / `generateStream`;
- `fetch` becomes `fetch`;
- `JSON.parse(s).text` becomes `parse: string -> Option<string>`;
- `JSON.stringify` and template-literal conversion become `Runtime`.

The process environment and the test flag are parameters of `LoadProviders`.

## Model

| member | source | states |
|---|---|---|
| `ModelConfig.RenderEntry` | lib/ai/model-config.ts:35-41 | a string entry renders as itself; an object with both `role` and `content` renders as `role: content` (string fields inserted verbatim); anything else renders as its JSON dump |
| `ModelConfig.PromptToString` | lib/ai/model-config.ts:31-45 | a string prompt is returned unchanged; a non-string, non-array prompt is its JSON dump; the function is total (corrected form, see Findings) |
| `ModelConfig.PromptLinesAreEntries` | lib/ai/model-config.ts:33-42 | for a non-empty array prompt with newline-free renderings, splitting the output on `\n` gives exactly one line per entry: the entries' renderings, in entry order |
| `ModelConfig.MessagesFlattenToRoleLines` | lib/ai/model-config.ts:36-42 | a conversation of `{role, content}` string records flattens to the lines `role: content`, one per message, in order |
| `ModelConfig.RenderEntryAsWritten` | lib/ai/model-config.ts:36-40 | as written, an entry throws exactly when it is a primitive; otherwise it renders as `RenderEntry` does |
| `ModelConfig.RenderAllAsWritten` | lib/ai/model-config.ts:34-42 | the `map` as written either throws the `in` operator's TypeError or yields one rendering per entry, each as `RenderEntry` renders it |
| `ModelConfig.PromptToStringAsWritten` | lib/ai/model-config.ts:31-45 | as written, a string prompt is returned unchanged and a non-array prompt is its JSON dump; it throws only on an array prompt, and then with the `in` operator's TypeError |
| `ModelConfig.RenderAllAsWrittenFails` | lib/ai/model-config.ts:34-42 | as written, the `map` throws exactly when some entry is a primitive; otherwise it yields the intended renderings |
| `ModelConfig.PromptToStringAgreesWhenNoPrimitiveEntry` | lib/ai/model-config.ts:31-45 | on every prompt without primitive array entries, the code as written returns exactly the corrected renderer's string |
| `ModelConfig.PromptToStringAsWrittenThrowsOnNumberEntry` | lib/ai/model-config.ts:37 | the array prompt `[1]` makes the code as written throw a TypeError, while the corrected renderer dumps the entry |
| `ModelConfig.CreateOllamaClient` | lib/ai/model-config.ts:19-23 | the daemon host is the configured base URL, or `http://localhost:11434` when it is absent or empty |
| `ModelConfig.CreateModelProvider` | lib/ai/model-config.ts:48-110 | provider `ollama` (and only it) yields the daemon adapter, with provider `ollama`, version `v1`, mode `json`, the configured host, and the configured model or `llama2` when absent or empty; any other provider yields the hosted `gpt-4-turbo-preview` model |
| `ModelConfig.DoGenerate` | lib/ai/model-config.ts:58-70 | the daemon is asked with the adapter's host and model and the flattened prompt; a failing call fails the operation with the same error; otherwise the text is the daemon's `response`, usage is zero, the reason is `stop` and `rawPrompt` is the original prompt |
| `ModelConfig.DoStream` | lib/ai/model-config.ts:71-105 | a failing initial daemon call fails the operation; otherwise the stream is `DaemonStream` of the daemon's chunks and `rawPrompt` is the original prompt (the loop's invariant: the parts enqueued so far are one text-delta per chunk read) |
| `ModelConfig.DaemonStreamShape` | lib/ai/model-config.ts:83-97 | for N chunks: N text-deltas carrying the chunks in order; when the iterator is exhausted, then exactly one `finish` (stop, zero usage) as the last part and a normal close; when it fails, no `finish` and an error end; the deltas concatenate to the concatenated chunks; `finish` only ever comes last |
| `ModelConfig.StreamTextMatchesGenerate` | lib/ai/model-config.ts:58-97 | when the daemon's chunks concatenate to its one-shot reply, the stream's delta text equals `doGenerate`'s result text |
| `ModelConfig.GenerateUserHi` | lib/ai/model-config.ts:58-69 | `[{role:"user", content:"hi"}]` is sent as `"user: hi"`, and a daemon reply `"hello"` yields `{text:"hello", usage 0/0, stop}` |
| `CustomApi.QueryRequest` | lib/ai/custom-api.ts:4-12 | the one request is a POST of JSON to `http://192.168.4.24:8001/query` whose body object has exactly the key `prompt`, holding the prompt |
| `CustomApi.CallCustomApi` | lib/ai/custom-api.ts:3-56 | a rejected fetch propagates its error; a non-ok status throws `Failed to fetch response from custom API` and a missing reader throws `No reader available`, in both cases whatever the body holds; otherwise the stream carries exactly `DecodeText` of the concatenated chunks (so it does not depend on where the body was split) and closes at the end of the body or errors when a read fails |
| `CustomApi.LineDecoder.constructor` | lib/ai/custom-api.ts:23-24 | a fresh decode starts with an empty buffer and nothing enqueued |
| `CustomApi.LineDecoder.Push` | lib/ai/custom-api.ts:29-48 | after each chunk: the buffer holds no `\n` and equals the pending tail of all text received; the fragments enqueued are those of the complete lines of old buffer plus chunk, appended to the earlier ones |
| `CustomApi.PendingIsTextAfterLastNewline` | lib/ai/custom-api.ts:33-35 | the kept piece holds no newline and is exactly the text after the last newline received (what precedes it is empty or ends in `\n`) |
| `CustomApi.ChunkStep` | lib/ai/custom-api.ts:33-35 | the complete lines of old text plus chunk are the old complete lines followed by those of buffer plus chunk, so keeping only the buffer loses nothing |
| `CustomApi.PushStep` | lib/ai/custom-api.ts:29-48 | decoding buffer plus chunk extends the fragments of the old text to exactly those of the new text |
| `CustomApi.PartialLineEmitsNothing` | lib/ai/custom-api.ts:29-50 | appending newline-free text never changes the fragments: only complete lines are decoded, and a trailing partial line is dropped unemitted |
| `CustomApi.DecodeLinesAppend` | lib/ai/custom-api.ts:37-48 | each line is decoded on its own: decoding a concatenation of line lists is the concatenation of their decodings, in line order |
| `CustomApi.UndecodableLineIsSkipped` | lib/ai/custom-api.ts:37-47 | a line without the `data: ` prefix, or whose payload does not parse, is skipped, and the lines around it decode as if it were absent |
| `CustomApi.DataLinePayload` | lib/ai/custom-api.ts:38-41 | a `data: ` line is decoded from exactly what follows its first six characters |
| `CustomApi.FragmentCount` | lib/ai/custom-api.ts:37-48 | the number of fragments equals the number of positions whose line decodes (a set of line indices, defined independently of the decoder's recursion) |
| `CustomApi.DataStreamDecodes` | lib/ai/custom-api.ts:29-48 | a body of valid `data: ` lines, followed by any partial line, yields one fragment per line, the payloads' texts in line order |
| `CustomApi.HelloExample` | lib/ai/custom-api.ts:29-48 | `data: {"text":"he"}\ndata: {"text":"llo"}\npart` decodes to `["he", "llo"]` |
| `Providers.ModelConfigFromEnv` | lib/ai/providers.ts:15-20 | the provider kind is `MODEL_PROVIDER`, or `ollama` when it is unset or empty; the key, base URL and model are passed through from the environment |
| `Providers.LoadProviders` | lib/ai/providers.ts:22-43 | the one instance is `createModelProvider` of the environment's configuration in both branches; exactly the four role names are bound; outside tests every binding runs on that instance, under test every binding is a fixture |
| `Providers.LiveRolesShareOneInstance` | lib/ai/providers.ts:33-43 | outside tests chat, title and artifact are the instance itself, and reasoning is the same instance wrapped with tag `think`; no other role is wrapped |
| `Providers.TestRolesUseDistinctFixtures` | lib/ai/providers.ts:24-32 | under test every role has its own fixture, and no role uses the config-built instance |
| `Providers.BothBranchesBindSameRoles` | lib/ai/providers.ts:24-43 | the test table and the live table bind the same role names |
| `Providers.DefaultsToDaemon` | lib/ai/providers.ts:15-22 | with `MODEL_PROVIDER` unset, every live role runs on the daemon adapter, with the configured or default model and host |

## Left out

- The network is not modelled: `ollama.generate`, `fetch` and the hosted `openai(...)` client. Their results are the function-typed parameters `generate`, `generateStream` and `fetch`. The hosted model is recorded only by its model id.
- `openaiApiKey` is read into the configuration, but `createModelProvider` never passes it on. The model keeps the field and uses it nowhere, like the code.
- `JSON.parse(...).text` is the abstract `parse`. A payload that parses to an object without `text` would make the code enqueue `undefined`. The model cannot express that: such a payload is either `Some` or `None`.
- `JSON.stringify` and the template literal's string conversion of non-string values are abstract, in `Runtime`. `JSON.stringify` returning `undefined` is not modelled (see the `ModelConfig.PromptToString` line below).
- UTF-8 decoding with `TextDecoder` is not modelled. Chunks are already-decoded strings.
- Stream machinery is not modelled: `ReadableStream` laziness, cancellation, backpressure, and `enqueue` failing on a cancelled stream. Each stream is the full list of what the controller received, plus how it ended.
- Object identity is not modelled. "The same instance" is value equality with `Registry.instance`.
- `customProvider`, `wrapLanguageModel` and `extractReasoningMiddleware` are foreign library code. The reasoning binding only records its tag (`think`), and role lookup on the provider object is not modelled.
- `isTestEnvironment`, `process.env` and the `models.test` fixtures are not modelled. The flag and the environment are parameters, and fixtures are known by name only.
- `rawCall.rawSettings` is always `{}` in the code. Only `rawPrompt` is kept.
- components/model-provider-selector.tsx is not part of this model: it is UI state and a POST.

- The webhook body is `{prompt}` (lib/ai/custom-api.ts:9-11).
- A text-delta may be empty: each daemon chunk's `response` is forwarded as it is.
- A zero-entry array prompt renders as `""`, which splits into one empty line, so `PromptLinesAreEntries` requires at least one entry.
- `ModelConfig.PromptToString`: `JSON.stringify(undefined)` is `undefined`, not a string, and the model's `stringify` always yields a string. So a top-level `undefined` prompt, which the code returns as `undefined`, is modelled as a string; and in the corrected form an `undefined` entry, which `join` renders as `""`, is modelled as its `stringify` result.
- `ModelConfig.DoGenerate`, `ModelConfig.DoStream`: both flatten the prompt with the corrected `PromptToString`. On an array prompt with a primitive entry the code rejects with the TypeError of lib/ai/model-config.ts:37 before any daemon call (lines 59 and 72); the model calls the daemon instead.

## Findings

| source | as written | input that shows it | evidently intended | confidence | as-written member | corrected member |
|---|---|---|---|---|---|---|
| lib/ai/model-config.ts:37 | every non-string array entry is tested with `'role' in p`; on a number, boolean, `null` or `undefined` entry the `in` operator throws a TypeError, so `promptToString` fails | the prompt `[1]` (an array with one numeric entry) | the fallback `JSON.stringify(p)` on the next line shows that every unrecognised entry should be dumped, so the renderer never fails | medium, not executed | `ModelConfig.PromptToStringAsWrittenThrowsOnNumberEntry` | `ModelConfig.PromptToString` |

The corrected `PromptToString` is what `DoGenerate` and `DoStream` use. `PromptToStringAgreesWhenNoPrimitiveEntry` proves that the two forms agree on every prompt without primitive entries. The SDK's prompt type only admits such prompts.
