/**
 * The line-splitting, highlighting writer that the pretty-printer writes into
 * (`MyWriter` in src/json.rs).
 *
 * The serializer hands the writer arbitrary chunks of bytes. The writer keeps
 * them in a pending buffer and, on each `write` call, cuts off at most one
 * line: everything up to and including the first newline. Each line it cuts
 * is recorded twice, as text and as a display line whose background is set
 * when the number of lines equal to `"    {\n"` seen so far, counted from 0,
 * equals the selected index. Only a non-empty object element of the top-level
 * array opens with such a line, so the count matches the element index only
 * when every earlier element is a non-empty object.
 *
 * The pure functions below are the specification: WriteStep is one `write`
 * call, Feed a whole sequence of `write_all` calls, Rendered the display lines
 * for a sequence of text lines. The class LineWriter is proved against them.
 */
module JsonWriter {
  import opened Wrappers
  import opened Text

  type Bytes = seq<Byte>

  /** A display line: its text and whether it carries the selection background. */
  datatype Line = Line(text: Bytes, highlighted: bool)

  /** The line that opens an object element of a top-level array, with 4-space indentation. */
  const ElementOpen: Bytes := Ascii("    {\n")

  /** The line that closes a top-level array. */
  const ArrayClose: Bytes := Ascii("]\n")

  /** A complete line: it ends in a newline and holds no earlier one. */
  predicate IsLine(s: Bytes) {
    |s| > 0 && s[|s| - 1] == Newline && Newline !in s[..|s| - 1]
  }

  predicate AllLines(ls: seq<Bytes>) {
    forall i :: 0 <= i < |ls| ==> IsLine(ls[i])
  }

  /** A chunk that holds at most one newline byte. */
  predicate AtMostOneNewline(s: Bytes) {
    forall i, j :: 0 <= i < |s| && 0 <= j < |s| && s[i] == Newline && s[j] == Newline ==> i == j
  }

  function Concat(ls: seq<Bytes>): Bytes {
    if ls == [] then [] else ls[0] + Concat(ls[1..])
  }

  lemma {:induction false} ConcatJoin(ls: seq<Bytes>, ms: seq<Bytes>)
    ensures Concat(ls + ms) == Concat(ls) + Concat(ms)
  {
    if ls != [] {
      assert (ls + ms)[1..] == ls[1..] + ms;
      ConcatJoin(ls[1..], ms);
    } else {
      assert ls + ms == ms;
    }
  }

  lemma ConcatAppend(ls: seq<Bytes>, l: Bytes)
    ensures Concat(ls + [l]) == Concat(ls) + l
  {
    ConcatJoin(ls, [l]);
    assert Concat([l]) == l + Concat([]);
  }

  /** Bookkeeping for one more write: bytes accounted before plus the write's own account. */
  lemma ConcatStep(lines: seq<Bytes>, rest: Bytes, more: seq<Bytes>, rest': Bytes,
                   pending: Bytes, prior: Bytes, last: Bytes)
    requires Concat(lines) + rest == pending + prior
    requires Concat(more) + rest' == rest + last
    ensures Concat(lines + more) + rest' == pending + (prior + last)
  {
    ConcatJoin(lines, more);
    calc {
      Concat(lines + more) + rest';
      (Concat(lines) + Concat(more)) + rest';
      Concat(lines) + (Concat(more) + rest');
      Concat(lines) + (rest + last);
      (Concat(lines) + rest) + last;
      (pending + prior) + last;
      pending + (prior + last);
    }
  }

  /** Cutting the first k + 1 pending bytes off as a line keeps every byte accounted for. */
  lemma CutAccountsForBytes(text: seq<Bytes>, pending: Bytes, k: nat)
    requires k < |pending|
    ensures Concat(text + [pending[..k + 1]]) + pending[k + 1..] == Concat(text) + pending
  {
    ConcatAppend(text, pending[..k + 1]);
    calc {
      Concat(text + [pending[..k + 1]]) + pending[k + 1..];
      (Concat(text) + pending[..k + 1]) + pending[k + 1..];
      Concat(text) + (pending[..k + 1] + pending[k + 1..]);
      { assert pending[..k + 1] + pending[k + 1..] == pending; }
      Concat(text) + pending;
    }
  }

  // ---------------------------------------------------------------------------
  // Finding the first newline (`iter().position(|&r| r == b'\n')`)
  // ---------------------------------------------------------------------------

  /** The position of the first newline in s, if there is one. */
  function FirstNewline(s: Bytes): (r: Option<nat>)
    ensures r.None? <==> Newline !in s
    ensures r.Some? ==> r.value < |s| && s[r.value] == Newline && Newline !in s[..r.value]
  {
    if s == [] then None
    else if s[0] == Newline then Some(0)
    else match FirstNewline(s[1..])
      case None => None
      case Some(k) =>
        assert s[..k + 1] == [s[0]] + s[1..][..k];
        Some(k + 1)
  }

  /** A position that holds a newline with none before it is the first newline. */
  lemma FirstNewlineUnique(s: Bytes, k: nat)
    requires k < |s| && s[k] == Newline && Newline !in s[..k]
    ensures FirstNewline(s) == Some(k)
  {
  }

  /** The search loop of `write`, proved to find the first newline. */
  method FindNewline(s: Bytes) returns (r: Option<nat>)
    ensures r == FirstNewline(s)
  {
    var i := 0;
    while i < |s|
      invariant 0 <= i <= |s|
      invariant Newline !in s[..i]
    {
      if s[i] == Newline {
        FirstNewlineUnique(s, i);
        return Some(i);
      }
      assert s[..i + 1] == s[..i] + [s[i]];
      i := i + 1;
    }
    assert s[..i] == s;
    r := None;
  }

  // ---------------------------------------------------------------------------
  // The splitting specification
  // ---------------------------------------------------------------------------

  /**
   * One `write` call: the chunk is appended to the pending bytes and at most
   * one line, up to the first newline, is cut off; the rest stays pending.
   */
  function WriteStep(pending: Bytes, chunk: Bytes): (r: (seq<Bytes>, Bytes))
    ensures |r.0| <= 1
    ensures |r.0| == 1 <==> Newline in pending + chunk
    ensures AllLines(r.0)
    ensures Concat(r.0) + r.1 == pending + chunk
  {
    var joined := pending + chunk;
    match FirstNewline(joined)
    case None => ([], joined)
    case Some(k) =>
      assert Concat([joined[..k + 1]]) == joined[..k + 1];
      assert joined[..k + 1][..k] == joined[..k];
      ([joined[..k + 1]], joined[k + 1..])
  }

  /**
   * A sequence of `write_all` calls, starting from the pending bytes `pending`:
   * the lines cut off, in order, and what is left pending. An empty chunk makes
   * no `write` call, so it cuts nothing.
   */
  function Feed(pending: Bytes, chunks: seq<Bytes>): (r: (seq<Bytes>, Bytes))
    decreases |chunks|
  {
    if chunks == [] then ([], pending)
    else
      var (lines, rest) := Feed(pending, chunks[..|chunks| - 1]);
      var last := chunks[|chunks| - 1];
      if last == [] then (lines, rest)
      else
        var (more, rest') := WriteStep(rest, last);
        (lines + more, rest')
  }

  /** Feeding one more chunk continues from where the earlier chunks left off. */
  lemma FeedSnoc(pending: Bytes, chunks: seq<Bytes>, chunk: Bytes)
    ensures var before := Feed(pending, chunks);
            var after := Feed(before.1, [chunk]);
            Feed(pending, chunks + [chunk]) == (before.0 + after.0, after.1)
  {
    var before := Feed(pending, chunks);
    assert (chunks + [chunk])[..|chunks|] == chunks;
    assert [chunk][..0] == [];
    assert Feed(before.1, []) == ([], before.1);
    if chunk == [] {
      assert before.0 + [] == before.0;
    } else {
      var step := WriteStep(before.1, chunk);
      assert Feed(before.1, [chunk]) == ([] + step.0, step.1);
      assert [] + step.0 == step.0;
      assert Feed(pending, chunks + [chunk]) == (before.0 + step.0, step.1);
    }
  }

  /** All complete lines of s, in order; a trailing piece without a newline is not a line. */
  function SplitLines(s: Bytes): seq<Bytes>
    decreases |s|
  {
    match FirstNewline(s)
    case None => []
    case Some(k) => [s[..k + 1]] + SplitLines(s[k + 1..])
  }

  /**
   * The writer loses no byte and invents none: the lines it cut off followed by
   * the pending bytes are exactly what was written, each cut is a complete line,
   * and there is at most one line per chunk.
   */
  lemma {:induction false} FeedPreservesBytes(pending: Bytes, chunks: seq<Bytes>)
    ensures AllLines(Feed(pending, chunks).0)
    ensures Concat(Feed(pending, chunks).0) + Feed(pending, chunks).1 == pending + Concat(chunks)
    ensures |Feed(pending, chunks).0| <= |chunks|
    decreases |chunks|
  {
    if chunks != [] {
      var init, last := chunks[..|chunks| - 1], chunks[|chunks| - 1];
      var before := Feed(pending, init);
      FeedPreservesBytes(pending, init);
      assert chunks == init + [last];
      ConcatAppend(init, last);
      if last != [] {
        var step := WriteStep(before.1, last);
        ConcatStep(before.0, before.1, step.0, step.1, pending, Concat(init), last);
      } else {
        assert Concat(init) + last == Concat(init);
      }
    }
  }

  lemma FirstNewlineOfLine(l: Bytes, tail: Bytes)
    requires IsLine(l)
    ensures FirstNewline(l + tail) == Some(|l| - 1)
  {
    assert (l + tail)[..|l| - 1] == l[..|l| - 1];
    FirstNewlineUnique(l + tail, |l| - 1);
  }

  /** A complete line at the front is the first line split off. */
  lemma SplitLinesCons(l: Bytes, rest: Bytes)
    requires IsLine(l)
    ensures SplitLines(l + rest) == [l] + SplitLines(rest)
  {
    FirstNewlineOfLine(l, rest);
    assert (l + rest)[..|l|] == l;
    assert (l + rest)[|l|..] == rest;
  }

  /** Splitting complete lines followed by more bytes gives back those lines first. */
  lemma {:induction false} SplitLinesOfConcat(ls: seq<Bytes>, tail: Bytes)
    requires AllLines(ls)
    ensures SplitLines(Concat(ls) + tail) == ls + SplitLines(tail)
  {
    if ls != [] {
      var l, rest := ls[0], Concat(ls[1..]) + tail;
      calc {
        SplitLines(Concat(ls) + tail);
        { assert Concat(ls) + tail == l + rest; }
        SplitLines(l + rest);
        { SplitLinesCons(l, rest); }
        [l] + SplitLines(rest);
        { SplitLinesOfConcat(ls[1..], tail); }
        [l] + (ls[1..] + SplitLines(tail));
        { assert ls == [l] + ls[1..]; }
        ls + SplitLines(tail);
      }
    } else {
      assert Concat(ls) + tail == tail;
    }
  }

  /**
   * The lines the writer cut off are the leading complete lines of everything
   * written; the ones it has not cut yet are the complete lines still pending.
   */
  lemma FeedIsPrefixOfSplit(pending: Bytes, chunks: seq<Bytes>)
    ensures SplitLines(pending + Concat(chunks))
         == Feed(pending, chunks).0 + SplitLines(Feed(pending, chunks).1)
  {
    FeedPreservesBytes(pending, chunks);
    SplitLinesOfConcat(Feed(pending, chunks).0, Feed(pending, chunks).1);
  }

  lemma AtMostOneNewlineSplit(pending: Bytes, chunk: Bytes)
    requires Newline !in pending && AtMostOneNewline(chunk)
    ensures Newline !in WriteStep(pending, chunk).1
  {
  }

  /**
   * When every chunk holds at most one newline, no complete line is ever left
   * pending: after each `write_all` the pending bytes hold no newline.
   */
  lemma {:induction false} FeedLeavesNoLine(pending: Bytes, chunks: seq<Bytes>)
    requires Newline !in pending
    requires forall i :: 0 <= i < |chunks| ==> AtMostOneNewline(chunks[i])
    ensures Newline !in Feed(pending, chunks).1
    decreases |chunks|
  {
    if chunks != [] {
      FeedLeavesNoLine(pending, chunks[..|chunks| - 1]);
      var last := chunks[|chunks| - 1];
      if last != [] {
        AtMostOneNewlineSplit(Feed(pending, chunks[..|chunks| - 1]).1, last);
      }
    }
  }

  /**
   * Under the same condition, the writer cuts off every complete line of the
   * serializer's output, in order, and no other.
   */
  lemma FeedCutsEveryLine(chunks: seq<Bytes>)
    requires forall i :: 0 <= i < |chunks| ==> AtMostOneNewline(chunks[i])
    ensures Feed([], chunks).0 == SplitLines(Concat(chunks))
  {
    FeedLeavesNoLine([], chunks);
    FeedIsPrefixOfSplit([], chunks);
    assert [] + Concat(chunks) == Concat(chunks);
  }

  // ---------------------------------------------------------------------------
  // The highlighting specification (`should_color`)
  // ---------------------------------------------------------------------------

  /** The element counter after seeing one more line: only an element-opening line moves it. */
  function NextIdx(idx: Option<nat>, line: Bytes): Option<nat> {
    if line == ElementOpen then
      match idx
      case None => Some(0)
      case Some(v) => Some(v + 1)
    else idx
  }

  /** Whether a line is coloured, given the counter after it and the selected element. */
  function Colored(idx: Option<nat>, line: Bytes, selected: Option<nat>): bool {
    if line == ElementOpen then idx == selected
    else if line == ArrayClose then false
    else if idx.None? then false
    else idx == selected
  }

  /** The element counter after a sequence of lines, starting from no element. */
  function IdxAfter(lines: seq<Bytes>): Option<nat> {
    if lines == [] then None
    else NextIdx(IdxAfter(lines[..|lines| - 1]), lines[|lines| - 1])
  }

  /**
   * The display lines for a sequence of text lines and a selected element:
   * each line keeps its text and is coloured by the counter after it.
   */
  function Rendered(lines: seq<Bytes>, selected: Option<nat>): (r: seq<Line>)
    ensures |r| == |lines|
  {
    if lines == [] then []
    else
      var last := lines[|lines| - 1];
      Rendered(lines[..|lines| - 1], selected) + [Line(last, Colored(IdxAfter(lines), last, selected))]
  }

  /** Display line i is line i's text, coloured by the counter after the first i + 1 lines. */
  lemma {:induction false} RenderedAt(lines: seq<Bytes>, selected: Option<nat>, i: nat)
    requires i < |lines|
    ensures Rendered(lines, selected)[i]
         == Line(lines[i], Colored(IdxAfter(lines[..i + 1]), lines[i], selected))
  {
    if i < |lines| - 1 {
      var init := lines[..|lines| - 1];
      RenderedAt(init, selected, i);
      assert init[..i + 1] == lines[..i + 1];
    } else {
      assert lines[..i + 1] == lines;
    }
  }

  /** Number of element-opening lines: the reference for the counter. */
  function CountOpen(lines: seq<Bytes>): nat {
    if lines == [] then 0
    else CountOpen(lines[..|lines| - 1]) + (if lines[|lines| - 1] == ElementOpen then 1 else 0)
  }

  /**
   * The counter is None until the first element-opening line, becomes Some(0)
   * there and goes up by one at each later one.
   */
  lemma {:induction false} IdxAfterCountsElements(lines: seq<Bytes>)
    ensures IdxAfter(lines) == if CountOpen(lines) == 0 then None else Some(CountOpen(lines) - 1)
  {
    if lines != [] {
      IdxAfterCountsElements(lines[..|lines| - 1]);
    }
  }

  /**
   * A line is highlighted exactly when it is not the array's closing line, at
   * least one element has opened by then, and the element open at that line
   * (counting from 0) is the selected one.
   */
  lemma HighlightedIff(lines: seq<Bytes>, selected: Option<nat>, i: nat)
    requires i < |lines|
    ensures Rendered(lines, selected)[i].highlighted
        <==> lines[i] != ArrayClose && CountOpen(lines[..i + 1]) > 0
             && selected == Some(CountOpen(lines[..i + 1]) - 1)
  {
    RenderedAt(lines, selected, i);
    IdxAfterCountsElements(lines[..i + 1]);
    assert lines[..i + 1][i] == lines[i];
    assert ElementOpen != ArrayClose by { assert ElementOpen[0] != ArrayClose[0]; }
  }

  /** With no element selected, no line is highlighted. */
  lemma NoSelectionNoHighlight(lines: seq<Bytes>, i: nat)
    requires i < |lines|
    ensures !Rendered(lines, None)[i].highlighted
  {
  }

  lemma RenderedAppend(lines: seq<Bytes>, l: Bytes, selected: Option<nat>)
    ensures IdxAfter(lines + [l]) == NextIdx(IdxAfter(lines), l)
    ensures Rendered(lines + [l], selected)
         == Rendered(lines, selected) + [Line(l, Colored(NextIdx(IdxAfter(lines), l), l, selected))]
  {
    assert (lines + [l])[..|lines|] == lines;
  }

  // ---------------------------------------------------------------------------
  // The writer object
  // ---------------------------------------------------------------------------

  /**
   * The writer's invariant over its fields: text lines and pending bytes are
   * exactly what was written, every text line is complete, the counter has
   * seen every line, and the display lines are the rendering of the text.
   */
  ghost predicate WriterInvariant(inner: seq<Line>, text: seq<Bytes>, pending: Bytes,
                                  selected: Option<nat>, idx: Option<nat>, written: Bytes)
  {
    && Concat(text) + pending == written
    && AllLines(text)
    && idx == IdxAfter(text)
    && inner == Rendered(text, selected)
  }

  /** Cutting the first line off the pending bytes keeps the writer's invariant. */
  lemma CutKeepsInvariant(inner: seq<Line>, text: seq<Bytes>, pending: Bytes,
                          selected: Option<nat>, idx: Option<nat>, written: Bytes, k: nat)
    requires WriterInvariant(inner, text, pending, selected, idx, written)
    requires FirstNewline(pending) == Some(k)
    ensures var line := pending[..k + 1];
            var idx' := NextIdx(idx, line);
            WriterInvariant(inner + [Line(line, Colored(idx', line, selected))], text + [line],
                            pending[k + 1..], selected, idx', written)
  {
    var line := pending[..k + 1];
    CutAccountsForBytes(text, pending, k);
    RenderedAppend(text, line, selected);
    assert IsLine(line) by { assert line[..k] == pending[..k]; }
    AllLinesAppend(text, line);
  }

  lemma AllLinesAppend(ls: seq<Bytes>, l: Bytes)
    requires AllLines(ls) && IsLine(l)
    ensures AllLines(ls + [l])
  {
    assert forall i :: 0 <= i < |ls| ==> (ls + [l])[i] == ls[i];
  }

  /** Without a newline to cut, appending to the pending bytes keeps the writer's invariant. */
  lemma BufferKeepsInvariant(inner: seq<Line>, text: seq<Bytes>, pending: Bytes, buf: Bytes,
                             selected: Option<nat>, idx: Option<nat>, written: Bytes)
    requires WriterInvariant(inner, text, pending, selected, idx, written)
    ensures WriterInvariant(inner, text, pending + buf, selected, idx, written + buf)
  {
  }

  /** With a first newline at k, a write cuts the bytes up to it and keeps the rest. */
  lemma WriteStepCuts(pending: Bytes, buf: Bytes, k: nat)
    requires FirstNewline(pending + buf) == Some(k)
    ensures WriteStep(pending, buf) == ([(pending + buf)[..k + 1]], (pending + buf)[k + 1..])
  {
  }

  /** Without a newline, a write cuts nothing and keeps every byte. */
  lemma WriteStepKeeps(pending: Bytes, buf: Bytes)
    requires FirstNewline(pending + buf).None?
    ensures WriteStep(pending, buf) == ([], pending + buf)
  {
  }

  /** Feeding one chunk is one write, unless the chunk is empty. */
  lemma FeedOne(pending: Bytes, buf: Bytes)
    ensures Feed(pending, [buf]) == if buf == [] then ([], pending) else WriteStep(pending, buf)
  {
    assert [buf][..0] == [];
    assert Feed(pending, []) == ([], pending);
    var step := WriteStep(pending, buf);
    assert [] + step.0 == step.0;
  }

  class LineWriter {
    /** The display lines, one per text line. */
    var inner: seq<Line>
    /** The text of each line cut off so far. */
    var text: seq<Bytes>
    /** Bytes written but not yet cut into a line. */
    var internalBuf: Bytes
    /** The top-level array element to highlight, if any. */
    const currentSelected: Option<nat>
    /** The index of the element being written, None before the first one. */
    var currentIdx: Option<nat>
    /** Every byte written so far. */
    ghost var written: Bytes

    ghost predicate Valid()
      reads this
    {
      WriterInvariant(inner, text, internalBuf, currentSelected, currentIdx, written)
    }

    constructor (currentSelected: Option<nat>)
      ensures Valid()
      ensures this.currentSelected == currentSelected
      ensures written == [] && text == [] && inner == [] && internalBuf == [] && currentIdx == None
    {
      this.currentSelected := currentSelected;
      inner, text, internalBuf, currentIdx := [], [], [], None;
      written := [];
    }

    /** Advances the element counter over the last text line and says whether to colour it. */
    method ShouldColor() returns (c: bool)
      requires |text| > 0
      modifies this`currentIdx
      ensures currentIdx == NextIdx(old(currentIdx), text[|text| - 1])
      ensures c == Colored(currentIdx, text[|text| - 1], currentSelected)
    {
      var textToAdd := text[|text| - 1];
      if textToAdd == ElementOpen {
        currentIdx := match currentIdx
          case Some(v) => Some(v + 1)
          case None => Some(0);
      } else if textToAdd == ArrayClose {
        return false;
      } else if currentIdx.None? {
        return false;
      }
      c := currentIdx == currentSelected;
    }

    /** `io::Write::write`: buffers the chunk, cuts off at most one line, reports the chunk consumed. */
    method Write(buf: Bytes) returns (n: nat)
      requires Valid()
      modifies this
      ensures Valid()
      ensures n == |buf|
      ensures written == old(written) + buf
      ensures text == old(text) + WriteStep(old(internalBuf), buf).0
      ensures internalBuf == WriteStep(old(internalBuf), buf).1
    {
      ghost var oldBuf := internalBuf;
      BufferKeepsInvariant(inner, text, internalBuf, buf, currentSelected, currentIdx, written);
      internalBuf := internalBuf + buf;
      written := written + buf;
      var newline := FindNewline(internalBuf);
      if newline.Some? {
        CutLine(newline.value);
        WriteStepCuts(oldBuf, buf, newline.value);
      } else {
        WriteStepKeeps(oldBuf, buf);
      }
      n := |buf|;
    }

    /** The branch of `write` that found the first newline at k: pushes the line, colours it, drains it. */
    method CutLine(k: nat)
      requires Valid() && FirstNewline(internalBuf) == Some(k)
      modifies this`text, this`inner, this`internalBuf, this`currentIdx
      ensures Valid()
      ensures text == old(text) + [old(internalBuf)[..k + 1]]
      ensures internalBuf == old(internalBuf)[k + 1..]
    {
      CutKeepsInvariant(inner, text, internalBuf, currentSelected, currentIdx, written, k);
      var line := internalBuf[..k + 1];
      text := text + [line];
      assert text[|text| - 1] == line;
      var shouldColor := ShouldColor();
      inner := inner + [Line(line, shouldColor)];
      internalBuf := internalBuf[k + 1..];
    }

    /** `io::Write::write_all`: calls `write` until the whole slice is consumed. */
    method WriteAll(buf: Bytes)
      requires Valid()
      modifies this
      ensures Valid()
      ensures written == old(written) + buf
      ensures text == old(text) + Feed(old(internalBuf), [buf]).0
      ensures internalBuf == Feed(old(internalBuf), [buf]).1
    {
      FeedOne(internalBuf, buf);
      var rest := buf;
      while |rest| > 0
        invariant Valid()
        invariant rest == buf || rest == []
        invariant rest == buf ==> text == old(text) && internalBuf == old(internalBuf) && written == old(written)
        invariant rest != buf ==> written == old(written) + buf
        invariant rest != buf ==> text == old(text) + WriteStep(old(internalBuf), buf).0
        invariant rest != buf ==> internalBuf == WriteStep(old(internalBuf), buf).1
        decreases |rest|
      {
        var n := Write(rest);
        rest := rest[n..];
      }
    }
  }
}
