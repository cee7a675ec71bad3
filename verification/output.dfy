/// The console output splitter of a running process: chunks of child output in,
/// console lines out, with a hard cap on what is buffered.
module Output {
  import opened Prelude
  import opened Text

  const LINE_MAX: nat := 4096
  const TRUNCATED: string := "…[truncated]"

  /** `text.slice(0, LINE_MAX)`, which `emit` applies to every line. */
  function Clip(text: string): (r: string)
    ensures |r| <= LINE_MAX
  {
    if |text| <= LINE_MAX then text else text[..LINE_MAX]
  }

  /** The lines `emit` publishes for complete parts: empty ones are skipped. */
  function Published(parts: seq<string>): (lines: seq<string>)
  {
    if parts == [] then []
    else Published(Init(parts)) + if Last(parts) == [] then [] else [Clip(Last(parts))]
  }

  /** What a buffer holds after a chunk, and what was emitted on the way. */
  datatype Fed = Fed(buffer: string, lines: seq<string>)

  /** Splitting without a cap: the meaning the splitter is meant to have. */
  function Reference(text: string): Fed {
    var parts := SplitLines(text);
    Fed(Last(parts), Published(Init(parts)))
  }

  function FeedChunk(buffer: string, chunk: string): Fed {
    var text := buffer + chunk;
    if |text| > LINE_MAX then
      var rest := Reference(text[|text| - 1..]);
      Fed(rest.buffer, [Clip(text[..LINE_MAX] + TRUNCATED)] + rest.lines)
    else Reference(text)
  }

  /** One stream of one process: the accumulator, and everything passed to `emit` so far. */
  class LineFeeder {
    var buffer: string
    var emitted: seq<string>

    constructor ()
      ensures buffer == "" && emitted == []
    {
      buffer, emitted := "", [];
    }

    method Emit(text: string)
      modifies this`emitted
      ensures emitted == old(emitted) + [Clip(text)]
    {
      emitted := emitted + [if |text| <= LINE_MAX then text else text[..LINE_MAX]];
    }

    method Feed(chunk: string)
      modifies this
      ensures buffer == FeedChunk(old(buffer), chunk).buffer
      ensures emitted == old(emitted) + FeedChunk(old(buffer), chunk).lines
    {
      buffer := buffer + chunk;
      if |buffer| > LINE_MAX {
        Emit(buffer[..LINE_MAX] + TRUNCATED);
        buffer := buffer[|buffer| - 1..];
      }
      var parts := SplitLines(buffer);
      ghost var before, tail := emitted, Last(parts);
      buffer := parts[|parts| - 1];
      parts := parts[..|parts| - 1];
      var i := 0;
      while i < |parts|
        invariant 0 <= i <= |parts|
        invariant buffer == tail && emitted == before + Published(parts[..i])
      {
        assert Init(parts[..i + 1]) == parts[..i];
        if |parts[i]| > 0 {
          Emit(parts[i]);
        }
        i := i + 1;
      }
      assert parts[..i] == parts;
    }

    /** Runs when the process exits. */
    method Flush()
      modifies this
      ensures buffer == ""
      ensures emitted == old(emitted) + if old(buffer) == "" then [] else [Clip(old(buffer))]
    {
      if |buffer| > 0 {
        Emit(buffer);
      }
      buffer := "";
    }
  }

  // ----- bounds -----

  lemma {:induction false} PublishedAppend(a: seq<string>, b: seq<string>)
    ensures Published(a + b) == Published(a) + Published(b)
    decreases |b|
  {
    if b == [] {
      assert a + b == a;
    } else {
      InitOfConcat(a, b);
      PublishedAppend(a, Init(b));
      ConcatAssociates(Published(a), Published(Init(b)), if Last(b) == [] then [] else [Clip(Last(b))]);
    }
  }

  lemma {:induction false} PublishedBounds(parts: seq<string>, k: nat)
    requires k < |Published(parts)|
    ensures 0 < |Published(parts)[k]| <= LINE_MAX
  {
    if k < |Published(Init(parts))| {
      PublishedBounds(Init(parts), k);
    }
  }

  predicate Bounded(lines: seq<string>) {
    forall k | 0 <= k < |lines| :: 0 < |lines[k]| <= LINE_MAX
  }

  lemma ReferenceStaysBounded(text: string)
    ensures |Reference(text).buffer| <= |text| && Bounded(Reference(text).lines)
  {
    var parts := SplitLines(text);
    PartsAreLines(text, |parts| - 1);
    forall k | 0 <= k < |Published(Init(parts))| ensures 0 < |Published(Init(parts))[k]| <= LINE_MAX {
      PublishedBounds(Init(parts), k);
    }
  }

  /** Whatever is fed, neither the accumulator nor any line outgrows the cap. */
  lemma FeedStaysBounded(buffer: string, chunk: string)
    ensures |FeedChunk(buffer, chunk).buffer| <= LINE_MAX && Bounded(FeedChunk(buffer, chunk).lines)
  {
    var text := buffer + chunk;
    ReferenceStaysBounded(if |text| > LINE_MAX then text[|text| - 1..] else text);
  }

  /**
   * The truncation marker is appended before `emit` clips the line again, so it is
   * always cut off: an overlong line is shown without it.
   */
  lemma MarkerIsNeverShown(buffer: string, chunk: string)
    requires |buffer + chunk| > LINE_MAX
    ensures FeedChunk(buffer, chunk).lines[0] == (buffer + chunk)[..LINE_MAX]
  {
    var kept := (buffer + chunk)[..LINE_MAX];
    assert (kept + TRUNCATED)[..LINE_MAX] == kept;
  }

  // ----- independence of chunking -----

  function Concat(chunks: seq<string>): string {
    if chunks == [] then "" else chunks[0] + Concat(chunks[1..])
  }

  function FeedAll(buffer: string, chunks: seq<string>): Fed
    decreases |chunks|
  {
    if chunks == [] then Fed(buffer, [])
    else
      var first := FeedChunk(buffer, chunks[0]);
      var rest := FeedAll(first.buffer, chunks[1..]);
      Fed(rest.buffer, first.lines + rest.lines)
  }

  /** No chunk makes the accumulator exceed the cap. */
  predicate NeverOverflows(buffer: string, chunks: seq<string>)
    decreases |chunks|
  {
    chunks != [] ==>
      && |buffer + chunks[0]| <= LINE_MAX
      && NeverOverflows(FeedChunk(buffer, chunks[0]).buffer, chunks[1..])
  }

  /**
   * Without overflow, feeding chunk by chunk yields exactly the lines of the whole
   * stream, however long the stream is, and leaves its unfinished last line.
   */
  lemma {:induction false} FeedAllIsWholeStream(buffer: string, chunks: seq<string>)
    requires NoNewline(buffer) && NeverOverflows(buffer, chunks)
    ensures FeedAll(buffer, chunks) == Reference(buffer + Concat(chunks))
    decreases |chunks|
  {
    if chunks == [] {
      assert buffer + Concat(chunks) == buffer;
      SplitOneLine(buffer);
    } else {
      var text, rest := buffer + chunks[0], Concat(chunks[1..]);
      var first := FeedChunk(buffer, chunks[0]);
      PartsAreLines(text, |SplitLines(text)| - 1);
      FeedAllIsWholeStream(first.buffer, chunks[1..]);
      SplitAppend(text, rest);
      ConcatAssociates(buffer, chunks[0], rest);
      var tail := SplitLines(first.buffer + rest);
      InitOfConcat(Init(SplitLines(text)), tail);
      PublishedAppend(Init(SplitLines(text)), Init(tail));
    }
  }

  /** Two ways of cutting the same stream cannot be told apart. */
  lemma {:induction false} ChunkingIsInvisible(chunks: seq<string>, others: seq<string>)
    requires Concat(chunks) == Concat(others)
    requires NeverOverflows("", chunks) && NeverOverflows("", others)
    ensures FeedAll("", chunks) == FeedAll("", others)
  {
    FeedAllIsWholeStream("", chunks);
    FeedAllIsWholeStream("", others);
  }

  function NonEmpty(parts: seq<string>): seq<string> {
    if parts == [] then [] else NonEmpty(Init(parts)) + if Last(parts) == [] then [] else [Last(parts)]
  }

  predicate Fit(parts: seq<string>) {
    forall k | 0 <= k < |parts| :: |parts[k]| <= LINE_MAX
  }

  lemma {:induction false} FittingPartsAreUnclipped(parts: seq<string>)
    requires Fit(parts)
    ensures Published(parts) == NonEmpty(parts)
  {
    if parts != [] {
      FittingPartsAreUnclipped(Init(parts));
    }
  }

  /** Without overflow no line of the stream is longer than the cap. */
  lemma {:induction false} LinesFit(buffer: string, chunks: seq<string>)
    requires |buffer| <= LINE_MAX && NoNewline(buffer) && NeverOverflows(buffer, chunks)
    ensures Fit(SplitLines(buffer + Concat(chunks)))
    decreases |chunks|
  {
    if chunks == [] {
      assert buffer + Concat(chunks) == buffer;
      SplitOneLine(buffer);
    } else {
      var text, rest := buffer + chunks[0], Concat(chunks[1..]);
      forall k | 0 <= k < |SplitLines(text)|
        ensures NoNewline(SplitLines(text)[k]) && |SplitLines(text)[k]| <= LINE_MAX
      {
        PartsAreLines(text, k);
      }
      LinesFit(FeedChunk(buffer, chunks[0]).buffer, chunks[1..]);
      SplitAppend(text, rest);
      ConcatAssociates(buffer, chunks[0], rest);
    }
  }

  /** With the flush at exit, what is emitted is exactly the non-empty lines of the whole stream, unclipped. */
  lemma {:induction false} WholeStreamIsEmitted(chunks: seq<string>)
    requires NeverOverflows("", chunks)
    ensures var fed := FeedAll("", chunks);
            fed.lines + (if fed.buffer == "" then [] else [Clip(fed.buffer)]) == NonEmpty(SplitLines(Concat(chunks)))
  {
    var stream := Concat(chunks);
    assert "" + stream == stream;
    FeedAllIsWholeStream("", chunks);
    LinesFit("", chunks);
    FittingPartsAreUnclipped(SplitLines(stream));
  }

  // ----- exactly when one overflowing feed is still faithful -----

  /**
   * The text is one line of at least LINE_MAX characters, then only line breaks,
   * then at most one further character.
   */
  predicate OneLongLine(text: string) {
    var parts := SplitLines(text);
    && |parts| > 1
    && |parts[0]| >= LINE_MAX
    && (forall k | 0 < k < |parts| - 1 :: parts[k] == "")
    && |Last(parts)| <= 1
  }

  /**
   * One feed behaves like uncapped splitting exactly when it does not overflow, or
   * overflows on a single long line with nothing but line breaks behind it. In every
   * other overflow, output is lost or joined across line breaks.
   */
  lemma FeedIsFaithfulIff(buffer: string, chunk: string)
    ensures FeedChunk(buffer, chunk) == Reference(buffer + chunk)
       <==> |buffer + chunk| <= LINE_MAX || OneLongLine(buffer + chunk)
  {
    var text := buffer + chunk;
    if |text| > LINE_MAX {
      var c := Last(text);
      MarkerIsNeverShown(buffer, chunk);
      SingleCharacter(c);
      assert text[|text| - 1..] == [c];
      assert FeedChunk(buffer, chunk) == Fed(if c == '\n' then "" else [c], [text[..LINE_MAX]]);
      LastPart(text);
      if OneLongLine(text) {
        LongLineIsKept(text);
      } else if Published(Init(SplitLines(text))) == [text[..LINE_MAX]] {
        KeptIsALongLine(text);
      }
    }
  }

  lemma SingleCharacter(c: char)
    ensures Reference([c]) == Fed(if c == '\n' then "" else [c], [])
  {
    var blank: seq<string> := [""];
    assert Init([c]) == [] && SplitLines([]) == blank;
    assert Init(blank) == [];
    var parts := SplitLines([c]);
    assert parts == SplitStep(blank, c);
    if c == '\n' {
      assert parts == [] + ["", ""];
      assert Init(parts) == blank;
    } else {
      assert parts == [] + [[] + [c]];
      assert Init(parts) == [];
    }
  }

  lemma {:induction false} LongLineIsKept(text: string)
    requires OneLongLine(text)
    ensures Published(Init(SplitLines(text))) == [Clip(text)]
  {
    var parts := Init(SplitLines(text));
    FirstPart(text);
    assert Clip(parts[0]) == Clip(text);
    assert parts == [parts[0]] + parts[1..];
    BlankPartsAreSkipped(parts[1..]);
    PublishedAppend([parts[0]], parts[1..]);
    assert Init([parts[0]]) == [];
  }

  lemma {:induction false} BlankPartsAreSkipped(parts: seq<string>)
    requires forall k | 0 <= k < |parts| :: parts[k] == ""
    ensures Published(parts) == []
  {
    if parts != [] {
      BlankPartsAreSkipped(Init(parts));
    }
  }

  lemma {:induction false} PartIsPublished(parts: seq<string>, k: nat)
    requires k < |parts| && parts[k] != ""
    ensures Clip(parts[k]) in Published(parts)
  {
    if k < |parts| - 1 {
      PartIsPublished(Init(parts), k);
    }
  }

  lemma {:induction false} TwoPartsTwoLines(parts: seq<string>, j: nat, k: nat)
    requires j < k < |parts| && parts[j] != "" && parts[k] != ""
    ensures |Published(parts)| > 1
  {
    if k < |parts| - 1 {
      TwoPartsTwoLines(Init(parts), j, k);
    } else {
      PartIsPublished(Init(parts), j);
    }
  }

  lemma {:induction false} OtherPartsAreBlank(parts: seq<string>)
    requires |Published(parts)| == 1 && parts != [] && parts[0] != ""
    ensures forall k | 0 < k < |parts| :: parts[k] == ""
  {
    forall k | 0 < k < |parts| ensures parts[k] == "" {
      if parts[k] != "" {
        TwoPartsTwoLines(parts, 0, k);
      }
    }
  }

  lemma {:induction false} LinesOfParts(text: string)
    ensures forall line | line in Published(Init(SplitLines(text))) :: NoNewline(line)
  {
    var parts := Init(SplitLines(text));
    forall k | 0 <= k < |parts| ensures NoNewline(parts[k]) {
      PartsAreLines(text, k);
    }
    PublishedKeepsLines(parts);
  }

  lemma {:induction false} PublishedKeepsLines(parts: seq<string>)
    requires forall k | 0 <= k < |parts| :: NoNewline(parts[k])
    ensures forall line | line in Published(parts) :: NoNewline(line)
  {
    if parts != [] {
      PublishedKeepsLines(Init(parts));
    }
  }

  lemma {:induction false} NoEarlyBreak(text: string)
    requires |text| > 1 && text[0] != '\n' && text[1] != '\n' && |SplitLines(text)| > 1
    ensures SplitLines(text)[0] != ""
  {
    FirstPart(text);
  }

  lemma {:induction false} FirstPartIsKept(text: string)
    requires |text| > LINE_MAX
    requires Published(Init(SplitLines(text))) == [Clip(text)]
    ensures |SplitLines(text)| > 1 && SplitLines(text)[0] != ""
  {
    var parts, kept := Init(SplitLines(text)), Clip(text);
    LinesOfParts(text);
    assert kept in Published(parts) && NoNewline(kept);
    assert parts != [];
    assert kept[0] in kept && kept[1] in kept && text[0] == kept[0] && text[1] == kept[1];
    NoEarlyBreak(text);
  }

  lemma {:induction false} KeptIsALongLine(text: string)
    requires |text| > LINE_MAX
    requires Published(Init(SplitLines(text))) == [Clip(text)]
    ensures |SplitLines(text)| > 1 && |SplitLines(text)[0]| >= LINE_MAX
    ensures forall k | 0 < k < |SplitLines(text)| - 1 :: SplitLines(text)[k] == ""
  {
    var parts := Init(SplitLines(text));
    FirstPartIsKept(text);
    PartIsPublished(parts, 0);
    OtherPartsAreBlank(parts);
  }
}
