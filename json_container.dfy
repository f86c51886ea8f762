/**
 * The document together with its rendered lines and a one-entry render cache
 * (`JsonContainer` in src/json.rs).
 *
 * The pretty-printer itself (serde_json's `PrettyFormatter` with 4-space
 * indentation) is not part of this model: `CreateLines` takes the sequence of
 * byte chunks it writes, and feeds them through a fresh LineWriter followed by
 * the final newline, exactly as the source does.
 */
module Container {
  import opened Wrappers
  import opened Text
  import opened Json
  import opened JsonWriter

  /** Every display line for serializer output `chunks` with `selected` highlighted. */
  function RenderedOutput(chunks: seq<Bytes>, selected: Option<nat>): seq<Line> {
    Rendered(Feed([], chunks + [[Newline]]).0, selected)
  }

  /**
   * When the serializer writes at most one newline per chunk, the display shows
   * every line of its output plus the final newline, in order, and line i is
   * highlighted exactly when it is not the array's closing line and belongs to
   * the selected element (the element counter after it is the selected index).
   */
  lemma RenderedOutputShowsEveryLine(chunks: seq<Bytes>, selected: Option<nat>, i: nat)
    requires forall j :: 0 <= j < |chunks| ==> AtMostOneNewline(chunks[j])
    requires i < |SplitLines(Concat(chunks) + [Newline])|
    ensures |RenderedOutput(chunks, selected)| == |SplitLines(Concat(chunks) + [Newline])|
    ensures var lines := SplitLines(Concat(chunks) + [Newline]);
            && RenderedOutput(chunks, selected)[i].text == lines[i]
            && (RenderedOutput(chunks, selected)[i].highlighted
                <==> lines[i] != ArrayClose && CountOpen(lines[..i + 1]) > 0
                     && selected == Some(CountOpen(lines[..i + 1]) - 1))
  {
    var all := chunks + [[Newline]];
    forall j | 0 <= j < |all|
      ensures AtMostOneNewline(all[j])
    {
      if j == |chunks| {
        assert all[j] == [Newline];
      }
    }
    FeedCutsEveryLine(all);
    ConcatAppend(chunks, [Newline]);
    var lines := SplitLines(Concat(chunks) + [Newline]);
    RenderedAt(lines, selected, i);
    HighlightedIff(lines, selected, i);
  }

  /**
   * The serializer's side of rendering: it hands each chunk of its output to
   * `write_all`, in order. Which chunks it writes is serde_json's business and
   * is the parameter `chunks` here.
   */
  method Serialize(writer: LineWriter, chunks: seq<Bytes>)
    requires writer.Valid() && writer.text == [] && writer.internalBuf == []
    modifies writer
    ensures writer.Valid()
    ensures writer.text == Feed([], chunks).0 && writer.internalBuf == Feed([], chunks).1
  {
    var i := 0;
    while i < |chunks|
      invariant 0 <= i <= |chunks|
      invariant writer.Valid()
      invariant writer.text == Feed([], chunks[..i]).0
      invariant writer.internalBuf == Feed([], chunks[..i]).1
    {
      FeedPrefix(chunks, i);
      writer.WriteAll(chunks[i]);
      i := i + 1;
    }
    assert chunks[..i] == chunks;
  }

  /** Feeding the first i + 1 chunks is feeding the first i, then chunk i. */
  lemma FeedPrefix(chunks: seq<Bytes>, i: nat)
    requires i < |chunks|
    ensures var before := Feed([], chunks[..i]);
            var after := Feed(before.1, [chunks[i]]);
            Feed([], chunks[..i + 1]) == (before.0 + after.0, after.1)
  {
    FeedSnoc([], chunks[..i], chunks[i]);
    assert chunks[..i + 1] == chunks[..i] + [chunks[i]];
  }

  class JsonContainer {
    var inner: Value
    var lines: seq<Line>
    var saveCurrentPos: Option<nat>
    var inputBuffer: string
    var inputCursor: Option<nat>
    var maxCursor: Option<nat>

    constructor (json: Value)
      ensures inner == json && lines == [] && saveCurrentPos == None
      ensures inputBuffer == [] && inputCursor == None && maxCursor == None
    {
      inner := json;
      lines := [];
      saveCurrentPos := None;
      inputBuffer := [];
      inputCursor := None;
      maxCursor := None;
    }

    /** The length of the document when it is an array, and None for any other document. */
    function Len(): (r: Option<nat>)
      reads this
      ensures r.Some? <==> inner.Array?
      ensures r.Some? ==> r.value == |inner.items|
    {
      match inner
      case Array(items) => Some(|items|)
      case _ => None
    }

    function CheckSameCurrentPos(currentPos: Option<nat>): bool
      reads this
    {
      saveCurrentPos == currentPos
    }

    /**
     * Re-renders the document for element `currentPos`, unless that element is
     * given and is the one the cached lines were rendered for. `chunks` is what
     * the pretty-printer writes for `inner`.
     */
    method CreateLines(currentPos: Option<nat>, chunks: seq<Bytes>)
      modifies this`lines, this`saveCurrentPos
      ensures currentPos.Some? && old(saveCurrentPos) == currentPos ==>
                lines == old(lines) && saveCurrentPos == old(saveCurrentPos)
      ensures !(currentPos.Some? && old(saveCurrentPos) == currentPos) ==>
                saveCurrentPos == currentPos && lines == RenderedOutput(chunks, currentPos)
    {
      if currentPos.Some? && CheckSameCurrentPos(currentPos) {
        return;
      }
      saveCurrentPos := currentPos;
      var writer := new LineWriter(currentPos);
      Serialize(writer, chunks);
      ghost var before := Feed([], chunks);
      FeedSnoc([], chunks, [Newline]);
      writer.WriteAll([Newline]);
      lines := writer.inner;
    }
  }
}
