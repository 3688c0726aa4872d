/**
 * The server-sent-event framing shared by the one-shot analysis and the chat stream.
 * A response body arrives as a sequence of decoded chunks; every chunk is split on
 * `'\n'` on its own, and each line of the form `data: <payload>` contributes the text
 * the payload carries, if any.
 */
module SseStream {
  import opened Wrappers
  import opened JsString

  const DataPrefix: string := "data: "
  const DoneMarker: string := "[DONE]"

  /** `JSON.parse(payload)` followed by `data.candidates?.[0]?.content?.parts?.[0]?.text`:
      `None` when the payload is not JSON or carries no text string. */
  type PayloadParser = string -> Option<string>

  /** What the network gives back: the status, the `error.message` of the error body (`None`
      when the body is not JSON or has no message), the decoded body chunks in arrival order,
      and the error a read rejects with after them, if any. */
  datatype ApiResponse = ApiResponse(
    ok: bool,
    status: nat,
    errorMessage: Option<string>,
    chunks: seq<string>,
    readError: Option<string>)

  /** The message of the error thrown for a response that is not ok. */
  function ErrorMessage(status: nat, serverMessage: Option<string>): (m: string)
    ensures m != ""
    ensures Truthy(serverMessage) ==> m == serverMessage.value
    ensures !Truthy(serverMessage) ==> StartsWith(m, "API Error: ")
  {
    if Truthy(serverMessage) then serverMessage.value else "API Error: " + NatToDecimal(status)
  }

  /** Without a usable server message, the status can be read back from the error message. */
  lemma ErrorMessageStatus(status: nat, serverMessage: Option<string>)
    requires !Truthy(serverMessage)
    ensures var m := ErrorMessage(status, serverMessage);
      AllDigits(m[11..]) && DecimalValue(m[11..]) == status
  {
    var m := ErrorMessage(status, serverMessage);
    assert m[11..] == NatToDecimal(status);
    DecimalRoundTrip(status);
  }

  /** The text one line of a chunk contributes, if any. */
  function LineFragment(line: string, parse: PayloadParser): (r: Option<string>)
    ensures !StartsWith(line, DataPrefix) ==> r == None
    ensures StartsWith(line, DataPrefix) && Trim(line[|DataPrefix|..]) == DoneMarker ==> r == None
    ensures r.Some? <==>
      StartsWith(line, DataPrefix) && Trim(line[|DataPrefix|..]) != DoneMarker
      && Truthy(parse(Trim(line[|DataPrefix|..])))
    ensures r.Some? ==> r == parse(Trim(line[|DataPrefix|..]))
  {
    if !StartsWith(line, DataPrefix) then None
    else
      var payload := Trim(line[|DataPrefix|..]);
      if payload == DoneMarker then None
      else
        var text := parse(payload);
        if Truthy(text) then text else None
  }

  function AsSeq(o: Option<string>): (r: seq<string>)
    ensures |r| <= 1
    ensures o.Some? ==> r == [o.value]
    ensures o.None? ==> r == []
  {
    if o.Some? then [o.value] else []
  }

  /** The fragments a sequence of lines contributes, in line order. */
  function LinesFragments(lines: seq<string>, parse: PayloadParser): (r: seq<string>)
    ensures |r| <= |lines|
    ensures forall k :: 0 <= k < |r| ==> r[k] != ""
    decreases |lines|
  {
    if lines == [] then []
    else LinesFragments(lines[..|lines| - 1], parse) + AsSeq(LineFragment(lines[|lines| - 1], parse))
  }

  /** The fragments one chunk contributes: its lines are the pieces between `'\n'`s of
      that chunk alone. */
  function ChunkFragments(chunk: string, parse: PayloadParser): (r: seq<string>)
    ensures forall k :: 0 <= k < |r| ==> r[k] != ""
  {
    LinesFragments(Split(chunk, '\n'), parse)
  }

  /** The fragments a whole body contributes, chunk after chunk. */
  function StreamFragments(chunks: seq<string>, parse: PayloadParser): (r: seq<string>)
    ensures forall k :: 0 <= k < |r| ==> r[k] != ""
    decreases |chunks|
  {
    if chunks == [] then []
    else StreamFragments(chunks[..|chunks| - 1], parse) + ChunkFragments(chunks[|chunks| - 1], parse)
  }

  /** The concatenation of fragments in order. */
  function Concat(fragments: seq<string>): string
    decreases |fragments|
  {
    if fragments == [] then "" else Concat(fragments[..|fragments| - 1]) + fragments[|fragments| - 1]
  }

  lemma {:induction false} ConcatAppend(a: seq<string>, b: seq<string>)
    ensures Concat(a + b) == Concat(a) + Concat(b)
    decreases |b|
  {
    if b != [] {
      var b' := b[..|b| - 1];
      assert (a + b)[..|a + b| - 1] == a + b';
      ConcatAppend(a, b');
    } else {
      assert a + b == a;
    }
  }

  /** The text is empty exactly when no fragment was produced, since every fragment is
      non-empty. */
  lemma {:induction false} ConcatEmpty(fragments: seq<string>)
    requires forall k :: 0 <= k < |fragments| ==> fragments[k] != ""
    ensures Concat(fragments) == "" <==> fragments == []
  {
    if fragments != [] {
      assert fragments[|fragments| - 1] != "";
    }
  }

  lemma {:induction false} LinesFragmentsAppend(a: seq<string>, b: seq<string>, parse: PayloadParser)
    ensures LinesFragments(a + b, parse) == LinesFragments(a, parse) + LinesFragments(b, parse)
    decreases |b|
  {
    if b != [] {
      var b' := b[..|b| - 1];
      assert (a + b)[..|a + b| - 1] == a + b';
      assert (a + b)[|a + b| - 1] == b[|b| - 1];
      LinesFragmentsAppend(a, b', parse);
    } else {
      assert a + b == a;
    }
  }

  lemma {:induction false} StreamFragmentsAppend(a: seq<string>, b: seq<string>, parse: PayloadParser)
    ensures StreamFragments(a + b, parse) == StreamFragments(a, parse) + StreamFragments(b, parse)
    decreases |b|
  {
    if b != [] {
      var b' := b[..|b| - 1];
      assert (a + b)[..|a + b| - 1] == a + b';
      assert (a + b)[|a + b| - 1] == b[|b| - 1];
      StreamFragmentsAppend(a, b', parse);
    } else {
      assert a + b == a;
    }
  }

  /** A line that is not a text event, such as a payload that does not parse, is skipped and
      the lines around it still contribute in order. */
  lemma SkippedLine(a: seq<string>, line: string, b: seq<string>, parse: PayloadParser)
    requires LineFragment(line, parse).None?
    ensures LinesFragments(a + [line] + b, parse) == LinesFragments(a, parse) + LinesFragments(b, parse)
  {
    var x := LinesFragments(a, parse);
    assert LinesFragments([line], parse) == [] by {
      assert LinesFragments([line], parse) == LinesFragments([], parse) + [];
    }
    assert LinesFragments(a + [line], parse) == x by {
      LinesFragmentsAppend(a, [line], parse);
      assert x + [] == x;
    }
    LinesFragmentsAppend(a + [line], b, parse);
  }

  /** A read that ends right after a newline loses nothing: the two chunks contribute what
      their concatenation would. */
  lemma ChunkBoundaryAfterNewline(x: string, y: string, parse: PayloadParser)
    ensures StreamFragments([x + "\n", y], parse) == ChunkFragments(x + "\n" + y, parse)
  {
    TrailingNewline(x, parse);
    NewlineJoin(x, y, parse);
    assert StreamFragments([x + "\n"], parse) == ChunkFragments(x, parse) by {
      assert StreamFragments([x + "\n"], parse) == StreamFragments([], parse) + ChunkFragments(x + "\n", parse);
    }
    assert [x + "\n", y][..1] == [x + "\n"];
  }

  /** A final newline adds nothing to a chunk. */
  lemma TrailingNewline(x: string, parse: PayloadParser)
    ensures ChunkFragments(x + "\n", parse) == ChunkFragments(x, parse)
  {
    assert x + "\n" == x + ['\n'] + "";
    SplitConcat(x, "", '\n');
    assert Split("", '\n') == [""];
    assert LinesFragments([""], parse) == [] by {
      assert LineFragment("", parse) == None;
      assert LinesFragments([""], parse) == LinesFragments([], parse) + [];
    }
    LinesFragmentsAppend(Split(x, '\n'), [""], parse);
    assert ChunkFragments(x, parse) + [] == ChunkFragments(x, parse);
  }

  /** Text joined at a newline contributes what its two sides do. */
  lemma NewlineJoin(x: string, y: string, parse: PayloadParser)
    ensures ChunkFragments(x + "\n" + y, parse) == ChunkFragments(x, parse) + ChunkFragments(y, parse)
  {
    SplitConcat(x, y, '\n');
    LinesFragmentsAppend(Split(x, '\n'), Split(y, '\n'), parse);
  }

  lemma OneLine(line: string, parse: PayloadParser)
    ensures LinesFragments([line], parse) == AsSeq(LineFragment(line, parse))
  {
    assert [line][..0] == [];
  }

  lemma OneChunk(chunk: string, parse: PayloadParser)
    ensures StreamFragments([chunk], parse) == ChunkFragments(chunk, parse)
  {
    assert [chunk][..0] == [];
  }

  /** A chunk without a newline is a single line. */
  lemma OneLineChunk(chunk: string, parse: PayloadParser)
    requires '\n' !in chunk
    ensures StreamFragments([chunk], parse) == AsSeq(LineFragment(chunk, parse))
  {
    OneChunk(chunk, parse);
    assert Split(chunk, '\n') == [chunk];
    OneLine(chunk, parse);
  }

  lemma TwoChunks(a: string, b: string, parse: PayloadParser)
    ensures StreamFragments([a, b], parse) == ChunkFragments(a, parse) + ChunkFragments(b, parse)
  {
    assert [a, b][..1] == [a];
    OneChunk(a, parse);
  }

  /** A one-line chunk that is not an event line contributes nothing. */
  lemma NonEventChunk(chunk: string, parse: PayloadParser)
    requires '\n' !in chunk && !StartsWith(chunk, DataPrefix)
    ensures ChunkFragments(chunk, parse) == []
  {
    OneLineChunk(chunk, parse);
    OneChunk(chunk, parse);
  }

  /** What follows a cut inside the prefix does not start with the prefix. */
  lemma CutInsidePrefix(line: string, k: nat)
    requires StartsWith(line, DataPrefix) && 0 < k < |DataPrefix|
    ensures !StartsWith(line[k..], DataPrefix)
  {
    assert line[k..][0] == line[..|DataPrefix|][k];
    assert DataPrefix[k] != 'd' by {
      assert DataPrefix == ['d', 'a', 't', 'a', ':', ' '];
    }
  }

  /** A `data:` line cut by a read boundary inside its prefix is lost: neither piece starts
      with the prefix, while the same line read whole contributes its text. */
  lemma SplitEventLost(line: string, k: nat, parse: PayloadParser)
    requires StartsWith(line, DataPrefix) && '\n' !in line
    requires 0 < k < |DataPrefix|
    ensures StreamFragments([line], parse) == AsSeq(LineFragment(line, parse))
    ensures StreamFragments([line[..k], line[k..]], parse) == []
  {
    OneLineChunk(line, parse);
    var a, b := line[..k], line[k..];
    assert '\n' !in a && '\n' !in b;
    NonEventChunk(a, parse);
    CutInsidePrefix(line, k);
    NonEventChunk(b, parse);
    TwoChunks(a, b, parse);
  }

  // ---------------------------------------------------------------------------
  // well-formed events

  /** The line that carries one event payload. */
  function EventLine(payload: string): string {
    DataPrefix + payload
  }

  function EventLines(payloads: seq<string>): (r: seq<string>)
    ensures |r| == |payloads|
    decreases |payloads|
  {
    if payloads == [] then [] else EventLines(payloads[..|payloads| - 1]) + [EventLine(payloads[|payloads| - 1])]
  }

  /** The fragment one well-formed payload denotes: none for `[DONE]` or an unusable payload. */
  function PayloadText(p: string, parse: PayloadParser): seq<string> {
    if p != DoneMarker && Truthy(parse(p)) then [parse(p).value] else []
  }

  /** The fragments a sequence of well-formed payloads denotes. */
  function Denoted(payloads: seq<string>, parse: PayloadParser): seq<string>
    decreases |payloads|
  {
    if payloads == [] then []
    else Denoted(payloads[..|payloads| - 1], parse) + PayloadText(payloads[|payloads| - 1], parse)
  }

  /** A payload that fits on one line and carries no surrounding white space. */
  predicate WellFormedPayload(p: string) {
    '\n' !in p && (p == [] || (!IsSpace(p[0]) && !IsSpace(p[|p| - 1])))
  }

  predicate AllWellFormed(payloads: seq<string>) {
    forall k :: 0 <= k < |payloads| ==> WellFormedPayload(payloads[k])
  }

  lemma EventLineFragment(p: string, parse: PayloadParser)
    requires WellFormedPayload(p)
    ensures AsSeq(LineFragment(EventLine(p), parse)) == PayloadText(p, parse)
  {
    var line := EventLine(p);
    assert StartsWith(line, DataPrefix);
    assert line[|DataPrefix|..] == p;
    TrimClean(p);
  }

  /** Framing a sequence of trimmed one-line payloads as `data:` lines and reading them back
      recovers, in order, the text of every payload that is neither `[DONE]` nor unusable. */
  lemma {:induction false} EventsRoundTrip(payloads: seq<string>, parse: PayloadParser)
    requires AllWellFormed(payloads)
    ensures LinesFragments(EventLines(payloads), parse) == Denoted(payloads, parse)
    decreases |payloads|
  {
    if payloads != [] {
      var init := payloads[..|payloads| - 1];
      var p := payloads[|payloads| - 1];
      var lines := EventLines(payloads);
      assert AllWellFormed(init) by {
        forall k | 0 <= k < |init| ensures WellFormedPayload(init[k]) {
          assert init[k] == payloads[k];
        }
      }
      EventsRoundTrip(init, parse);
      EventLineFragment(p, parse);
      assert lines[..|lines| - 1] == EventLines(init);
    }
  }

  lemma {:induction false} EventLinesOneLine(payloads: seq<string>)
    requires AllWellFormed(payloads)
    ensures forall k :: 0 <= k < |payloads| ==> '\n' !in EventLines(payloads)[k]
    decreases |payloads|
  {
    if payloads != [] {
      var init := payloads[..|payloads| - 1];
      assert AllWellFormed(init) by {
        forall k | 0 <= k < |init| ensures WellFormedPayload(init[k]) {
          assert init[k] == payloads[k];
        }
      }
      EventLinesOneLine(init);
      var p := payloads[|payloads| - 1];
      assert '\n' !in EventLine(p) by {
        assert WellFormedPayload(p);
        assert '\n' !in DataPrefix;
      }
    }
  }

  /** The framed events sent as one chunk, one line each. */
  lemma EventsChunkRoundTrip(payloads: seq<string>, parse: PayloadParser)
    requires |payloads| >= 1 && AllWellFormed(payloads)
    ensures ChunkFragments(Join(EventLines(payloads), "\n"), parse) == Denoted(payloads, parse)
  {
    EventLinesOneLine(payloads);
    SplitJoin(EventLines(payloads), '\n');
    EventsRoundTrip(payloads, parse);
  }

  // ---------------------------------------------------------------------------
  // the read loops

  lemma LinesStep(lines: seq<string>, j: nat, parse: PayloadParser)
    requires j < |lines|
    ensures LinesFragments(lines[..j + 1], parse)
      == LinesFragments(lines[..j], parse) + AsSeq(LineFragment(lines[j], parse))
  {
    assert lines[..j + 1][..j] == lines[..j];
  }

  lemma ChunksStep(chunks: seq<string>, i: nat, parse: PayloadParser)
    requires i < |chunks|
    ensures StreamFragments(chunks[..i + 1], parse)
      == StreamFragments(chunks[..i], parse) + ChunkFragments(chunks[i], parse)
  {
    assert chunks[..i + 1][..i] == chunks[..i];
  }

  lemma ConcatStep(a: seq<string>, o: Option<string>)
    ensures Concat(a + AsSeq(o)) == Concat(a) + (if o.Some? then o.value else "")
  {
    if o.Some? {
      assert (a + [o.value])[..|a|] == a;
    } else {
      assert a + [] == a;
    }
  }

  lemma AdvanceLine(before: seq<string>, lines: seq<string>, j: nat, parse: PayloadParser)
    requires j < |lines|
    ensures before + LinesFragments(lines[..j + 1], parse)
      == before + LinesFragments(lines[..j], parse) + AsSeq(LineFragment(lines[j], parse))
  {
    LinesStep(lines, j, parse);
    var a := LinesFragments(lines[..j], parse);
    var b := AsSeq(LineFragment(lines[j], parse));
    assert before + (a + b) == before + a + b;
  }

  /** The inner loop of `handleStreamResponse` over the lines of one chunk: each line's
      fragment is appended to the accumulated text. */
  method AccumulateChunk(chunk: string, parse: PayloadParser, accumulated: string, ghost taken: seq<string>)
    returns (text: string, ghost taken': seq<string>)
    requires accumulated == Concat(taken)
    ensures taken' == taken + LinesFragments(Split(chunk, '\n'), parse)
    ensures text == Concat(taken')
  {
    var lines := Split(chunk, '\n');
    text, taken' := accumulated, taken;
    var j := 0;
    while j < |lines|
      invariant 0 <= j <= |lines|
      invariant taken' == taken + LinesFragments(lines[..j], parse)
      invariant text == Concat(taken')
    {
      var textPart := LineFragment(lines[j], parse);
      AdvanceLine(taken, lines, j, parse);
      ConcatStep(taken', textPart);
      if textPart.Some? {
        text := text + textPart.value;
      }
      taken' := taken' + AsSeq(textPart);
      j := j + 1;
    }
    assert lines[..j] == lines;
  }

  /** `handleStreamResponse`: the error of a response that is not ok (before any chunk is
      read), the error of a failed read, or the concatenation of every fragment. */
  method HandleStreamResponse(resp: ApiResponse, parse: PayloadParser) returns (r: Result<string>)
    ensures !resp.ok ==> r == Failure(ErrorMessage(resp.status, resp.errorMessage))
    ensures resp.ok && resp.readError.Some? ==> r == Failure(resp.readError.value)
    ensures resp.ok && resp.readError.None? ==> r == Success(Concat(StreamFragments(resp.chunks, parse)))
  {
    if !resp.ok {
      return Failure(ErrorMessage(resp.status, resp.errorMessage));
    }
    var accumulated := "";
    ghost var taken: seq<string> := [];
    var i := 0;
    while i < |resp.chunks|
      invariant 0 <= i <= |resp.chunks|
      invariant taken == StreamFragments(resp.chunks[..i], parse)
      invariant accumulated == Concat(taken)
    {
      accumulated, taken := AccumulateChunk(resp.chunks[i], parse, accumulated, taken);
      ChunksStep(resp.chunks, i, parse);
      i := i + 1;
    }
    assert resp.chunks[..i] == resp.chunks;
    if resp.readError.Some? {
      return Failure(resp.readError.value);
    }
    return Success(accumulated);
  }

  /** The read loop of `streamChat`: the fragments it yields, in order, and the error it
      finally throws, if any. A response that is not ok yields nothing. */
  method YieldFragments(resp: ApiResponse, parse: PayloadParser) returns (fragments: seq<string>, error: Option<string>)
    ensures !resp.ok ==> fragments == [] && error == Some(ErrorMessage(resp.status, resp.errorMessage))
    ensures resp.ok ==> fragments == StreamFragments(resp.chunks, parse) && error == resp.readError
  {
    if !resp.ok {
      return [], Some(ErrorMessage(resp.status, resp.errorMessage));
    }
    fragments := [];
    var i := 0;
    while i < |resp.chunks|
      invariant 0 <= i <= |resp.chunks|
      invariant fragments == StreamFragments(resp.chunks[..i], parse)
    {
      var chunk := resp.chunks[i];
      var lines := Split(chunk, '\n');
      ghost var before := fragments;
      var j := 0;
      while j < |lines|
        invariant 0 <= j <= |lines|
        invariant fragments == before + LinesFragments(lines[..j], parse)
      {
        var textPart := LineFragment(lines[j], parse);
        AdvanceLine(before, lines, j, parse);
        if textPart.Some? {
          fragments := fragments + [textPart.value];
        }
        j := j + 1;
      }
      assert lines[..j] == lines;
      ChunksStep(resp.chunks, i, parse);
      i := i + 1;
    }
    assert resp.chunks[..i] == resp.chunks;
    error := resp.readError;
  }
}
