/** The webhook backend call and its line-buffered `data:` stream decoder
    (lib/ai/custom-api.ts). */
module CustomApi {
  import opened Js
  import opened Text

  const Endpoint: string := "http://192.168.4.24:8001/query"
  const DataPrefix: string := "data: "
  const NotOkMessage: string := "Failed to fetch response from custom API"
  const NoReaderMessage: string := "No reader available"

  /** The one POST the call issues; `body` is the JSON value that is serialised. */
  datatype HttpRequest = HttpRequest(url: string, httpMethod: string, headers: map<string, string>, body: Value)

  /** The response: its `ok` flag and, when present, the body's chunks as decoded text. */
  datatype HttpResponse = HttpResponse(ok: bool, body: Option<ChunkSource<string>>)

  /** The request for a prompt: a JSON POST whose body is `{prompt}`. */
  function QueryRequest(prompt: string): (q: HttpRequest)
    ensures q.url == "http://192.168.4.24:8001/query" && q.httpMethod == "POST"
    ensures q.headers == map["Content-Type" := "application/json"]
    ensures q.body.VObject? && q.body.fields.Keys == {"prompt"} && q.body.fields["prompt"] == VString(prompt)
  {
    HttpRequest(Endpoint, "POST", map["Content-Type" := "application/json"],
                VObject(map["prompt" := VString(prompt)]))
  }

  // ---------------------------------------------------------------------------
  // The decoder's specification over the whole received text
  // ---------------------------------------------------------------------------

  /** The newline-terminated lines of the text received so far. */
  function CompleteLines(received: string): seq<string>
  {
    var pieces := Split(received, '\n');
    pieces[..|pieces| - 1]
  }

  /** The unterminated tail of the text received so far: what the buffer holds. */
  function Pending(received: string): string
  {
    Last(Split(received, '\n'))
  }

  /** One line: a `data: ` line yields its payload's `text` when the payload
      parses; every other line yields nothing. */
  function DecodeLine(parse: string -> Option<string>, line: string): Option<string>
  {
    if StartsWith(line, DataPrefix) then parse(line[|DataPrefix|..]) else None
  }

  /** The fragments that a sequence of complete lines yields, in line order. */
  function DecodeLines(parse: string -> Option<string>, lines: seq<string>): seq<string>
  {
    if |lines| == 0 then []
    else
      DecodeLines(parse, lines[..|lines| - 1])
      + (match DecodeLine(parse, Last(lines)) case Some(t) => [t] case None => [])
  }

  /** The fragments emitted for a received text: those of its complete lines. */
  function DecodeText(parse: string -> Option<string>, received: string): seq<string>
  {
    DecodeLines(parse, CompleteLines(received))
  }

  // ---------------------------------------------------------------------------
  // Lemmas about the specification
  // ---------------------------------------------------------------------------

  /** The pending tail holds no newline and is exactly the text after the last
      newline received: what precedes it is empty or ends in a newline. */
  lemma PendingIsTextAfterLastNewline(received: string)
    ensures '\n' !in Pending(received)
    ensures |Pending(received)| <= |received|
    ensures received[|received| - |Pending(received)|..] == Pending(received)
    ensures |Pending(received)| < |received| ==> received[|received| - |Pending(received)| - 1] == '\n'
  {
    var pieces := Split(received, '\n');
    LastPieceSeparatorFree(received, '\n');
    var head := pieces[..|pieces| - 1];
    if |pieces| == 1 {
      JoinSplit(received, '\n');
    } else {
      assert pieces == head + [Last(pieces)];
      JoinSnoc(head, Last(pieces), "\n");
      JoinSplit(received, '\n');
      assert received == Join(head, "\n") + "\n" + Last(pieces);
    }
  }

  /** Joining one more piece onto a non-empty list. */
  lemma {:induction false} JoinSnoc(parts: seq<string>, x: string, sep: string)
    requires |parts| >= 1
    ensures Join(parts + [x], sep) == Join(parts, sep) + sep + x
    decreases |parts|
  {
    if |parts| > 1 {
      JoinSnoc(parts[1..], x, sep);
      assert (parts + [x])[1..] == parts[1..] + [x];
    } else {
      assert (parts + [x])[1..] == [x];
    }
  }

  /** Decoding distributes over concatenation of line lists: every line is
      decoded on its own, whatever surrounds it. */
  lemma {:induction false} DecodeLinesAppend(parse: string -> Option<string>, a: seq<string>, b: seq<string>)
    ensures DecodeLines(parse, a + b) == DecodeLines(parse, a) + DecodeLines(parse, b)
    decreases |b|
  {
    if |b| == 0 {
      assert a + b == a;
    } else {
      var b' := b[..|b| - 1];
      assert (a + b)[..|a + b| - 1] == a + b';
      DecodeLinesAppend(parse, a, b');
    }
  }

  /** Appending a chunk to the received text: the complete lines are the old ones
      followed by the complete lines of pending tail plus chunk, and the new tail is
      the tail of pending tail plus chunk. This is what makes the buffer enough. */
  lemma ChunkStep(received: string, chunk: string)
    ensures CompleteLines(received + chunk)
         == CompleteLines(received) + CompleteLines(Pending(received) + chunk)
    ensures Pending(received + chunk) == Pending(Pending(received) + chunk)
  {
    var left := Split(received, '\n');
    var again := Split(Pending(received) + chunk, '\n');
    SplitAfterLastPiece(received, chunk, '\n');
    DropLastOfAppend(left[..|left| - 1], again);
  }

  /** Text without a newline appended at the end never changes what is emitted:
      only newline-terminated lines are examined, and a trailing partial line is never emitted. */
  lemma PartialLineEmitsNothing(parse: string -> Option<string>, received: string, partial: string)
    requires '\n' !in partial
    ensures DecodeText(parse, received + partial) == DecodeText(parse, received)
  {
    SplitAppend(received, partial, '\n');
    SplitWithoutSeparator(partial, '\n');
    var left := Split(received, '\n');
    assert Split(received + partial, '\n') == left[..|left| - 1] + [Last(left) + partial];
  }

  /** A line that yields nothing (one without the prefix, or whose payload does not parse)
      is skipped: the lines around it are decoded as if it were absent. */
  lemma UndecodableLineIsSkipped(parse: string -> Option<string>, before: seq<string>, line: string, after: seq<string>)
    requires DecodeLine(parse, line).None?
    ensures DecodeLines(parse, before + [line] + after) == DecodeLines(parse, before) + DecodeLines(parse, after)
  {
    var front := before + [line];
    DecodeLinesAppend(parse, front, after);
    assert front[..|front| - 1] == before;
    assert DecodeLines(parse, front) == DecodeLines(parse, before);
  }

  /** A `data: ` line yields the parse of exactly what follows the six prefix characters. */
  lemma DataLinePayload(parse: string -> Option<string>, payload: string)
    ensures DecodeLine(parse, "data: " + payload) == parse(payload)
  {
    assert ("data: " + payload)[..6] == "data: ";
    assert ("data: " + payload)[6..] == payload;
  }

  /** The positions of the lines that decode to a fragment. */
  function DecodableIndices(parse: string -> Option<string>, lines: seq<string>): set<int>
  {
    set i | 0 <= i < |lines| && DecodeLine(parse, lines[i]).Some?
  }

  /** The number of fragments equals the number of complete lines that decode. */
  lemma {:induction false} FragmentCount(parse: string -> Option<string>, lines: seq<string>)
    ensures |DecodeLines(parse, lines)| == |DecodableIndices(parse, lines)|
  {
    if |lines| > 0 {
      var n := |lines|;
      var front := lines[..n - 1];
      FragmentCount(parse, front);
      var earlier := DecodableIndices(parse, front);
      assert n - 1 !in earlier;
      if DecodeLine(parse, lines[n - 1]).Some? {
        assert DecodableIndices(parse, lines) == earlier + {n - 1};
      } else {
        assert DecodableIndices(parse, lines) == earlier;
      }
    }
  }

  /** A body made only of `data: ` lines, one per payload, each newline-terminated. */
  function DataStream(payloads: seq<string>): string
  {
    if |payloads| == 0 then ""
    else DataStream(payloads[..|payloads| - 1]) + (DataPrefix + Last(payloads) + "\n")
  }

  /** The lines of such a body. */
  function DataLines(payloads: seq<string>): (r: seq<string>)
    ensures |r| == |payloads|
    ensures forall i :: 0 <= i < |payloads| ==> r[i] == DataPrefix + payloads[i]
  {
    seq(|payloads|, i requires 0 <= i < |payloads| => DataPrefix + payloads[i])
  }

  /** A newline-free line followed by a newline is one complete line and leaves nothing pending. */
  lemma TerminatedLine(line: string)
    requires '\n' !in line
    ensures CompleteLines(line + "\n") == [line] && Pending(line + "\n") == ""
  {
    var newline := Split("\n", '\n');
    SplitCons('\n', "", '\n');
    assert ['\n'] + "" == "\n";
    assert newline == ["", ""];
    SplitWithoutSeparator(line, '\n');
    SplitAppend(line, "\n", '\n');
    assert Fuse([line], newline) == [line + ""] + [""];
    assert line + "" == line;
    assert Split(line + "\n", '\n') == [line, ""];
  }

  /** The complete lines of a body of `data: ` lines are exactly those lines, and
      nothing is left pending. */
  lemma {:induction false} DataStreamLines(payloads: seq<string>)
    requires forall i :: 0 <= i < |payloads| ==> '\n' !in payloads[i]
    ensures CompleteLines(DataStream(payloads)) == DataLines(payloads)
    ensures Pending(DataStream(payloads)) == ""
  {
    if |payloads| > 0 {
      var front := payloads[..|payloads| - 1];
      var line := DataPrefix + Last(payloads);
      DataStreamLines(front);
      ChunkStep(DataStream(front), line + "\n");
      TerminatedLine(line);
      assert "" + (line + "\n") == line + "\n";
      assert DataLines(payloads) == DataLines(front) + [line];
    }
  }

  /** The payloads' parsed texts, in order. */
  function ParsedTexts(parse: string -> Option<string>, payloads: seq<string>): (r: seq<string>)
    requires forall i :: 0 <= i < |payloads| ==> parse(payloads[i]).Some?
    ensures |r| == |payloads|
    ensures forall i :: 0 <= i < |payloads| ==> r[i] == parse(payloads[i]).value
  {
    seq(|payloads|, i requires 0 <= i < |payloads| => parse(payloads[i]).value)
  }

  lemma {:induction false} DataLinesDecode(parse: string -> Option<string>, payloads: seq<string>)
    requires forall i :: 0 <= i < |payloads| ==> parse(payloads[i]).Some?
    ensures DecodeLines(parse, DataLines(payloads)) == ParsedTexts(parse, payloads)
  {
    if |payloads| > 0 {
      var front := payloads[..|payloads| - 1];
      DataLinesDecode(parse, front);
      assert DataLines(payloads)[..|payloads| - 1] == DataLines(front);
      DataLinePayload(parse, Last(payloads));
      assert ParsedTexts(parse, payloads) == ParsedTexts(parse, front) + [parse(Last(payloads)).value];
    }
  }

  /** A body of `data: ` lines whose payloads all parse, followed by any partial line,
      decodes to the payloads' texts in line order: one fragment per line, and the
      partial line is dropped. */
  lemma DataStreamDecodes(parse: string -> Option<string>, payloads: seq<string>, partial: string)
    requires forall i :: 0 <= i < |payloads| ==> '\n' !in payloads[i] && parse(payloads[i]).Some?
    requires '\n' !in partial
    ensures DecodeText(parse, DataStream(payloads) + partial) == ParsedTexts(parse, payloads)
  {
    PartialLineEmitsNothing(parse, DataStream(payloads), partial);
    DataStreamLines(payloads);
    DataLinesDecode(parse, payloads);
  }

  /** The example body, written line by line, is the data-line body of its two
      payloads plus the partial line. */
  lemma HelloBody()
    ensures DataStream(["{\"text\":\"he\"}", "{\"text\":\"llo\"}"]) + "part"
         == "data: {\"text\":\"he\"}\n" + "data: {\"text\":\"llo\"}\n" + "part"
  {
    var p1, p2 := "{\"text\":\"he\"}", "{\"text\":\"llo\"}";
    var l1, l2 := "data: " + p1 + "\n", "data: " + p2 + "\n";
    assert [p1, p2][..1] == [p1] && [p1][..0] == [];
    assert DataStream([p1]) == "" + l1;
    assert DataStream([p1, p2]) == DataStream([p1]) + l2;
    assert l1 == "data: {\"text\":\"he\"}\n";
    assert l2 == "data: {\"text\":\"llo\"}\n";
  }

  /** `data: {"text":"he"}\ndata: {"text":"llo"}\npart` yields `["he", "llo"]`
      for a parser that reads those two payloads' `text`. */
  lemma HelloExample(parse: string -> Option<string>)
    requires parse("{\"text\":\"he\"}") == Some("he")
    requires parse("{\"text\":\"llo\"}") == Some("llo")
    ensures DecodeText(parse, "data: {\"text\":\"he\"}\n" + "data: {\"text\":\"llo\"}\n" + "part") == ["he", "llo"]
  {
    var payloads := ["{\"text\":\"he\"}", "{\"text\":\"llo\"}"];
    HelloBody();
    assert '\n' !in payloads[0] && '\n' !in payloads[1];
    DataStreamDecodes(parse, payloads, "part");
    var texts := ParsedTexts(parse, payloads);
    assert texts == ["he", "llo"];
  }

  /** Decoding one more line of a list. */
  lemma DecodeLinesSnoc(parse: string -> Option<string>, lines: seq<string>, k: nat)
    requires k < |lines|
    ensures DecodeLines(parse, lines[..k + 1])
         == DecodeLines(parse, lines[..k]) + (match DecodeLine(parse, lines[k]) case Some(t) => [t] case None => [])
  {
    assert lines[..k + 1][..k] == lines[..k];
  }

  /** What one read-loop iteration does to the specification: the buffer stands for
      the pending tail, so decoding the complete lines of buffer plus chunk extends
      the fragments of the old text to those of the new one. */
  lemma PushStep(parse: string -> Option<string>, received: string, chunk: string)
    ensures DecodeText(parse, received + chunk)
         == DecodeText(parse, received) + DecodeLines(parse, CompleteLines(Pending(received) + chunk))
    ensures Pending(received + chunk) == Pending(Pending(received) + chunk)
  {
    ChunkStep(received, chunk);
    DecodeLinesAppend(parse, CompleteLines(received), CompleteLines(Pending(received) + chunk));
  }

  // ---------------------------------------------------------------------------
  // The decoder state and the call
  // ---------------------------------------------------------------------------

  /** The state of one decode: the buffer of the pending partial line and the
      fragments handed to the stream's controller so far. `received` is the text
      of all chunks read, kept only for the proof. */
  class LineDecoder {
    const parse: string -> Option<string>
    var buffer: string
    var enqueued: seq<string>
    ghost var received: string

    ghost predicate Valid()
      reads this
    {
      && buffer == Pending(received)
      && enqueued == DecodeText(parse, received)
    }

    constructor (parse: string -> Option<string>)
      ensures Valid() && this.parse == parse
      ensures received == "" && buffer == "" && enqueued == []
    {
      this.parse := parse;
      buffer := "";
      enqueued := [];
      received := "";
    }

    /** One iteration of the read loop: append the chunk, split the buffer on
        newlines, keep the last piece, and decode every complete line. */
    method Push(chunk: string)
      requires Valid()
      modifies this
      ensures Valid()
      ensures received == old(received) + chunk
      ensures '\n' !in buffer
      ensures enqueued == old(enqueued) + DecodeLines(parse, CompleteLines(old(buffer) + chunk))
    {
      ghost var before, fragmentsBefore := received, enqueued;
      buffer := buffer + chunk;
      ghost var joined := buffer;
      var lines := Split(buffer, '\n');
      buffer := lines[|lines| - 1];
      lines := lines[..|lines| - 1];
      for k := 0 to |lines|
        invariant enqueued == fragmentsBefore + DecodeLines(parse, lines[..k])
        invariant buffer == Pending(joined) && received == before
      {
        var line := lines[k];
        DecodeLinesSnoc(parse, lines, k);
        if StartsWith(line, DataPrefix) {
          match parse(line[|DataPrefix|..]) {
            case Some(text) => enqueued := enqueued + [text];
            case None => continue;
          }
        }
      }
      assert buffer == Pending(joined);
      assert lines[..|lines|] == lines;
      PushStep(parse, before, chunk);
      PendingIsTextAfterLastNewline(joined);
      assert joined == Pending(before) + chunk;
      assert buffer == Pending(before + chunk);
      assert enqueued == DecodeText(parse, before + chunk);
      received := received + chunk;
    }
  }

  /** callCustomApi: one POST of the prompt. A rejected fetch, a non-ok status and a
      missing body reader each fail the call before anything is decoded. Otherwise the
      returned stream carries the fragments of the complete `data: ` lines of the whole
      body text, so they depend only on the concatenated chunks and not on where the
      body was split; the stream closes when the body ends and errors when a read fails. */
  method CallCustomApi(prompt: string, parse: string -> Option<string>,
                       fetch: HttpRequest -> Completion<HttpResponse>)
    returns (r: Completion<Stream<string>>)
    ensures fetch(QueryRequest(prompt)).Threw? ==> r == Threw(fetch(QueryRequest(prompt)).error)
    ensures fetch(QueryRequest(prompt)).Done? && !fetch(QueryRequest(prompt)).value.ok ==>
              r == Threw("Failed to fetch response from custom API")
    ensures fetch(QueryRequest(prompt)).Done? && fetch(QueryRequest(prompt)).value.ok
            && fetch(QueryRequest(prompt)).value.body.None? ==>
              r == Threw("No reader available")
    ensures fetch(QueryRequest(prompt)).Done? && fetch(QueryRequest(prompt)).value.ok
            && fetch(QueryRequest(prompt)).value.body.Some? ==>
              var source := fetch(QueryRequest(prompt)).value.body.value;
              r == Done(Stream(DecodeText(parse, Concat(source.chunks)),
                               if source.end.Exhausted? then Closed else Errored(source.end.error)))
  {
    var response := fetch(QueryRequest(prompt));
    if response.Threw? {
      return Threw(response.error);
    }
    if !response.value.ok {
      return Threw(NotOkMessage);
    }
    if response.value.body.None? {
      return Threw(NoReaderMessage);
    }
    var source := response.value.body.value;
    var decoder := new LineDecoder(parse);
    var i := 0;
    while i < |source.chunks|
      invariant 0 <= i <= |source.chunks|
      invariant decoder.Valid() && decoder.parse == parse
      invariant decoder.received == Concat(source.chunks[..i])
    {
      decoder.Push(source.chunks[i]);
      ConcatSnoc(source.chunks, i);
      i := i + 1;
    }
    assert source.chunks[..i] == source.chunks;
    // the buffer's residual partial line is dropped here
    var ending := if source.end.Exhausted? then Closed else Errored(source.end.error);
    r := Done(Stream(decoder.enqueued, ending));
  }
}
