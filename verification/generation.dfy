/** The generation adapter: the transcript is embedded in a prompt and posted
    to a local completion server, whose streamed reply is a sequence of
    newline-delimited JSON objects. The adapter reads the whole stream,
    drops blank lines, parses every remaining line, and concatenates the
    `response` fields in arrival order. Every failure, wherever it happens,
    surfaces as the one generic error and no partial text. */
module Generation {
  import opened Wrappers
  import Text
  import Search

  /** The message of every failure of the adapter. */
  const FailureMessage: string := "Failed to summarize transcript"

  /** The instruction text around the transcript. Its wording is a business
      parameter, so the model keeps it abstract. */
  datatype Template = Template(before: string, after: string)

  /** What the body's reader delivers: the chunks read, already decoded to
      text, and whether the reader then reported `done` (`completes`) or one
      more `read()` rejected. */
  datatype Stream = Stream(chunks: seq<string>, completes: bool)

  /** What `fetch` to the completion server yields: a rejected request, or a
      response with its status and, when the body has a reader, its stream. */
  datatype Reply =
    | Unreachable
    | Response(ok: bool, body: Option<Stream>)

  /** The completion server, as seen by the adapter: the reply to a prompt,
      and the per-line parser. `parseLine` stands for `JSON.parse` followed by
      reading `.response`: `None` when either throws, otherwise the field as
      `join("")` renders it (`""` for an absent field). */
  datatype Backend = Backend(post: string -> Reply, parseLine: string -> Option<string>)

  /** The prompt sent to the server carries the transcript verbatim between
      the two halves of the template. */
  function Prompt(t: Template, transcript: string): (r: string)
    ensures |r| == |t.before| + |transcript| + |t.after|
    ensures r[..|t.before|] == t.before
    ensures r[|t.before|..|t.before| + |transcript|] == transcript
    ensures r[|t.before| + |transcript|..] == t.after
  {
    t.before + transcript + t.after
  }

  /** The read loop: appends each decoded chunk to the accumulated text
      until the reader reports it is done. */
  method ReadStream(chunks: seq<string>) returns (text: string)
    ensures text == Text.Join(chunks, "")
  {
    text := "";
    var i := 0;
    while i < |chunks|
      invariant 0 <= i <= |chunks|
      invariant text == Text.Join(chunks[..i], "")
    {
      if i > 0 {
        Text.JoinAppend(chunks[..i], chunks[i], "");
      }
      assert chunks[..i + 1] == chunks[..i] + [chunks[i]];
      text := text + chunks[i];
      i := i + 1;
    }
    assert chunks[..i] == chunks;
  }

  /** A line the filter drops: `line.trim() === ""`, which by
      `Text.TrimEmptyIff` holds exactly when the line is all whitespace. */
  predicate IsBlank(line: string) {
    Text.AllSpace(line)
  }

  /** `filter((line) => line.trim() !== "")`: `Search.Filter` with the
      non-blank test, so every non-blank line is kept, in order. */
  function NonBlank(lines: seq<string>): seq<string> {
    Search.Filter(lines, (line: string) => !IsBlank(line))
  }

  /** `map(JSON.parse).map((chunk) => chunk.response).join("")`: the
      concatenated fields, or `None` as soon as one line fails. A single
      line gives its own field; `FieldsAppend` extends this to any run of
      lines. */
  function Fields(lines: seq<string>, parseLine: string -> Option<string>): (r: Option<string>)
    ensures r.Some? <==> forall i :: 0 <= i < |lines| ==> parseLine(lines[i]).Some?
    ensures lines == [] ==> r == Some([])
    ensures |lines| == 1 ==> r == parseLine(lines[0])
  {
    if lines == [] then Some([])
    else
      match parseLine(lines[0])
      case None => None
      case Some(f) =>
        match Fields(lines[1..], parseLine)
        case None => None
        case Some(rest) =>
          assert rest == [] ==> f + rest == f;
          Some(f + rest)
  }

  /** The text the adapter extracts from the whole stream. */
  function Aggregate(text: string, parseLine: string -> Option<string>): Option<string> {
    Fields(NonBlank(Text.SplitOn(text, "\n")), parseLine)
  }

  /** `summarizeTranscript`: a rejected request, a non-success status, a
      missing reader, a rejected read and a malformed line all end in the
      same failure; otherwise the answer is the text extracted from the
      whole stream. */
  function SummarizeTranscript(t: Template, backend: Backend, transcript: string): (r: Result<string, string>)
    ensures r.Failure? ==> r.error == FailureMessage
    ensures var reply := backend.post(Prompt(t, transcript));
            r.Success? <==>
              && reply.Response? && reply.ok && reply.body.Some? && reply.body.value.completes
              && Aggregate(Text.Join(reply.body.value.chunks, ""), backend.parseLine).Some?
    ensures var reply := backend.post(Prompt(t, transcript));
            r.Success? ==>
              Some(r.value) == Aggregate(Text.Join(reply.body.value.chunks, ""), backend.parseLine)
  {
    match backend.post(Prompt(t, transcript))
    case Unreachable => Failure(FailureMessage)
    case Response(ok, body) =>
      if !ok then Failure(FailureMessage)
      else if body.None? then Failure(FailureMessage)
      else if !body.value.completes then Failure(FailureMessage)
      else
        match Aggregate(Text.Join(body.value.chunks, ""), backend.parseLine)
        case None => Failure(FailureMessage)
        case Some(summary) => Success(summary)
  }

  // ---------------------------------------------------------------------------
  // Properties

  /** Fields of consecutive runs of lines concatenate; a failure anywhere is
      a failure of the whole. */
  lemma {:induction false} FieldsAppend(a: seq<string>, b: seq<string>, parseLine: string -> Option<string>)
    ensures Fields(a + b, parseLine) ==
              if Fields(a, parseLine).Some? && Fields(b, parseLine).Some?
              then Some(Fields(a, parseLine).value + Fields(b, parseLine).value)
              else None
    decreases |a|
  {
    if a == [] {
      assert a + b == b;
      if Fields(b, parseLine).Some? {
        assert [] + Fields(b, parseLine).value == Fields(b, parseLine).value;
      }
    } else {
      assert (a + b)[1..] == a[1..] + b;
      FieldsAppend(a[1..], b, parseLine);
      match parseLine(a[0])
      case None =>
      case Some(f) =>
        if Fields(a[1..], parseLine).Some? && Fields(b, parseLine).Some? {
          assert f + (Fields(a[1..], parseLine).value + Fields(b, parseLine).value)
              == (f + Fields(a[1..], parseLine).value) + Fields(b, parseLine).value;
        }
    }
  }

  lemma NonBlankAppend(a: seq<string>, b: seq<string>)
    ensures NonBlank(a + b) == NonBlank(a) + NonBlank(b)
  {
    Search.FilterAppend(a, b, (line: string) => !IsBlank(line));
  }

  /** For a stream framed as one JSON object per line, the adapter's text is
      the concatenation of the fields of the non-blank lines, in order. */
  lemma NdjsonFraming(lines: seq<string>, parseLine: string -> Option<string>)
    requires |lines| >= 1
    requires SingleLines(lines)
    ensures Aggregate(Text.Join(lines, "\n"), parseLine) == Fields(NonBlank(lines), parseLine)
  {
    Text.SplitJoin(lines, '\n');
  }

  /** Lines free of the line separator. */
  predicate SingleLines(lines: seq<string>) {
    forall i :: 0 <= i < |lines| ==> '\n' !in lines[i]
  }

  lemma SingleLinesAppend(a: seq<string>, b: seq<string>)
    requires SingleLines(a) && SingleLines(b)
    ensures SingleLines(a + b)
  {
    forall i | 0 <= i < |a + b| ensures '\n' !in (a + b)[i] {
      if i >= |a| {
        assert (a + b)[i] == b[i - |a|];
      }
    }
  }

  /** A blank line anywhere in the stream changes nothing. */
  lemma BlankLineIgnored(before: seq<string>, blank: string, after: seq<string>, parseLine: string -> Option<string>)
    requires IsBlank(blank) && '\n' !in blank
    requires SingleLines(before) && SingleLines(after)
    requires |before + after| >= 1
    ensures Aggregate(Text.Join(before + [blank] + after, "\n"), parseLine)
         == Aggregate(Text.Join(before + after, "\n"), parseLine)
  {
    var withBlank := before + [blank] + after;
    var without := before + after;
    NonBlankSkips(before, blank, after);
    SingleLinesAppend(before, [blank]);
    SingleLinesAppend(before + [blank], after);
    SingleLinesAppend(before, after);
    NdjsonFraming(withBlank, parseLine);
    NdjsonFraming(without, parseLine);
  }

  lemma NonBlankSkips(before: seq<string>, blank: string, after: seq<string>)
    requires IsBlank(blank)
    ensures NonBlank(before + [blank] + after) == NonBlank(before + after)
  {
    NonBlankAppend(before + [blank], after);
    NonBlankAppend(before, [blank]);
    NonBlankAppend(before, after);
    assert NonBlank([blank]) == [];
  }

  /** A whitespace-only stream, the empty one included, has no non-blank line
      and yields the empty text. */
  lemma BlankStream(text: string, parseLine: string -> Option<string>)
    requires Text.AllSpace(text)
    ensures Aggregate(text, parseLine) == Some([])
  {
    var lines := Text.SplitOn(text, "\n");
    Text.JoinSplit(text, "\n");
    JoinAllSpace(lines, "\n");
    AllBlank(lines);
  }

  lemma {:induction false} AllBlank(lines: seq<string>)
    requires forall i :: 0 <= i < |lines| ==> IsBlank(lines[i])
    ensures NonBlank(lines) == []
    decreases |lines|
  {
    if lines != [] {
      AllBlank(lines[1..]);
    }
  }

  /** Every part of a whitespace-only join is whitespace-only. */
  lemma {:induction false} JoinAllSpace(parts: seq<string>, sep: string)
    requires Text.AllSpace(Text.Join(parts, sep))
    ensures forall i :: 0 <= i < |parts| ==> Text.AllSpace(parts[i])
    decreases |parts|
  {
    if |parts| > 1 {
      var tail := Text.Join(parts[1..], sep);
      var whole := parts[0] + sep + tail;
      assert forall k :: 0 <= k < |parts[0]| ==> whole[k] == parts[0][k];
      assert forall k :: 0 <= k < |tail| ==> whole[|parts[0]| + |sep| + k] == tail[k];
      JoinAllSpace(parts[1..], sep);
      forall i | 0 <= i < |parts| ensures Text.AllSpace(parts[i]) {
        if i > 0 {
          assert parts[i] == parts[1..][i - 1];
        }
      }
    }
  }
}
