/**
 * The text the editor shows for a selected element (`render_json_struct` in
 * src/ui.rs) and the title line (`render_title`).
 *
 * The element view flattens a JSON value into lines: one label line
 * `prefix.(i+1)` per array element and `prefix.key` per object entry whose
 * value is not an array, and one line per scalar. A counter threaded through
 * the walk is bumped at every label, and the scalar emitted while the counter
 * equals the input cursor is highlighted. Colours become a Style.
 */
module Ui {
  import opened Wrappers
  import opened Text
  import opened Json
  import Logic

  datatype Style = Plain | Label | Cursor

  datatype UiLine = UiLine(text: string, style: Style)

  /** How a scalar is shown: strings in double quotes (unescaped), numbers as serde_json prints them. */
  function ScalarText(v: Value): string
    requires v.IsScalar()
  {
    match v
    case Null => "null"
    case Bool(b) => if b then "true" else "false"
    case Number(repr) => repr
    case String(s) => "\"" + s + "\""
  }

  /** A child's prefix: the parent's prefix, a dot, and the child's position or key. */
  function Join(prefix: string, segment: string): string {
    prefix + "." + segment
  }

  // ---------------------------------------------------------------------------
  // The flattening, as functions returning (lines, counter after the walk)
  // ---------------------------------------------------------------------------

  function Render(v: Value, cursor: Option<nat>, prefix: string, idx: nat): (seq<UiLine>, nat)
    decreases v, 1, 0
  {
    match v
    case Array(_) => RenderItems(v, 0, cursor, prefix, idx)
    case Object(_) => RenderEntries(v, 0, cursor, prefix, idx)
    case _ => ([UiLine(ScalarText(v), if cursor == Some(idx) then Cursor else Plain)], idx)
  }

  /** The lines of array elements n.. of `v`, the counter starting at `idx`. */
  function RenderItems(v: Value, n: nat, cursor: Option<nat>, prefix: string, idx: nat): (seq<UiLine>, nat)
    requires v.Array? && n <= |v.items|
    decreases v, 0, |v.items| - n
  {
    if n == |v.items| then ([], idx)
    else
      var tag := Join(prefix, NatToString(n + 1));
      var sub := Render(v.items[n], cursor, tag, idx + 1);
      var rest := RenderItems(v, n + 1, cursor, prefix, sub.1);
      ([UiLine(tag, Label)] + sub.0 + rest.0, rest.1)
  }

  /** The lines of object entries n.. of `v`; an array-valued entry gets no label and no count. */
  function RenderEntries(v: Value, n: nat, cursor: Option<nat>, prefix: string, idx: nat): (seq<UiLine>, nat)
    requires v.Object? && n <= |v.entries|
    decreases v, 0, |v.entries| - n
  {
    if n == |v.entries| then ([], idx)
    else
      var e := v.entries[n];
      var key := Join(prefix, e.key);
      var labels := if e.value.Array? then [] else [UiLine(key, Label)];
      var start := if e.value.Array? then idx else idx + 1;
      var sub := Render(e.value, cursor, key, start);
      var rest := RenderEntries(v, n + 1, cursor, prefix, sub.1);
      (labels + sub.0 + rest.0, rest.1)
  }

  // ---------------------------------------------------------------------------
  // The walk as the source performs it: recursion, loops and a threaded counter
  // ---------------------------------------------------------------------------

  /**
   * `render_json_struct`: the counter is passed in as `idx` and its final value
   * returned as `next`.
   */
  method RenderJsonStruct(v: Value, cursor: Option<nat>, prefix: string, idx: nat) returns (text: seq<UiLine>, next: nat)
    ensures (text, next) == Render(v, cursor, prefix, idx)
    decreases v, 1
  {
    var style := if cursor == Some(idx) then Cursor else Plain;
    match v {
      case Array(_) =>
        text, next := RenderArray(v, cursor, prefix, idx);
      case Object(_) =>
        text, next := RenderObject(v, cursor, prefix, idx);
      case _ =>
        text, next := [UiLine(ScalarText(v), style)], idx;
    }
  }

  /** The array arm: a label per element, counted, then the element's own lines. */
  method RenderArray(v: Value, cursor: Option<nat>, prefix: string, idx: nat) returns (text: seq<UiLine>, next: nat)
    requires v.Array?
    ensures (text, next) == RenderItems(v, 0, cursor, prefix, idx)
    decreases v, 0
  {
    text, next := [], idx;
    var i := 0;
    while i < |v.items|
      invariant 0 <= i <= |v.items|
      invariant text + RenderItems(v, i, cursor, prefix, next).0 == RenderItems(v, 0, cursor, prefix, idx).0
      invariant RenderItems(v, i, cursor, prefix, next).1 == RenderItems(v, 0, cursor, prefix, idx).1
    {
      var tag := Join(prefix, NatToString(i + 1));
      ghost var done := text;
      text := text + [UiLine(tag, Label)];
      next := next + 1;
      var sub, after := RenderJsonStruct(v.items[i], cursor, tag, next);
      ItemsStep(v, i, cursor, prefix, next - 1, done, text, sub, after);
      text := text + sub;
      next := after;
      i := i + 1;
    }
    assert text + [] == text;
  }

  /** The object arm: a label, counted, only before a value that is not an array. */
  method RenderObject(v: Value, cursor: Option<nat>, prefix: string, idx: nat) returns (text: seq<UiLine>, next: nat)
    requires v.Object?
    ensures (text, next) == RenderEntries(v, 0, cursor, prefix, idx)
    decreases v, 0
  {
    text, next := [], idx;
    var i := 0;
    while i < |v.entries|
      invariant 0 <= i <= |v.entries|
      invariant text + RenderEntries(v, i, cursor, prefix, next).0 == RenderEntries(v, 0, cursor, prefix, idx).0
      invariant RenderEntries(v, i, cursor, prefix, next).1 == RenderEntries(v, 0, cursor, prefix, idx).1
    {
      var key := Join(prefix, v.entries[i].key);
      ghost var done, start := text, next;
      if !v.entries[i].value.Array? {
        text := text + [UiLine(key, Label)];
        next := next + 1;
      }
      var sub, after := RenderJsonStruct(v.entries[i].value, cursor, key, next);
      EntriesStep(v, i, cursor, prefix, start, done, text, next, sub, after);
      text := text + sub;
      next := after;
      i := i + 1;
    }
    assert text + [] == text;
  }

  /** One element of the array arm's loop accounts for one step of RenderItems. */
  lemma ItemsStep(v: Value, i: nat, cursor: Option<nat>, prefix: string, start: nat,
                  done: seq<UiLine>, labelled: seq<UiLine>, sub: seq<UiLine>, after: nat)
    requires v.Array? && i < |v.items|
    requires var tag := Join(prefix, NatToString(i + 1));
             && labelled == done + [UiLine(tag, Label)]
             && (sub, after) == Render(v.items[i], cursor, tag, start + 1)
    ensures labelled + sub + RenderItems(v, i + 1, cursor, prefix, after).0 == done + RenderItems(v, i, cursor, prefix, start).0
    ensures RenderItems(v, i + 1, cursor, prefix, after).1 == RenderItems(v, i, cursor, prefix, start).1
  {
  }

  /** One entry of the object arm's loop accounts for one step of RenderEntries. */
  lemma EntriesStep(v: Value, i: nat, cursor: Option<nat>, prefix: string, start: nat,
                    done: seq<UiLine>, labelled: seq<UiLine>, counted: nat, sub: seq<UiLine>, after: nat)
    requires v.Object? && i < |v.entries|
    requires var key := Join(prefix, v.entries[i].key);
             && labelled == done + (if v.entries[i].value.Array? then [] else [UiLine(key, Label)])
             && counted == (if v.entries[i].value.Array? then start else start + 1)
             && (sub, after) == Render(v.entries[i].value, cursor, key, counted)
    ensures labelled + sub + RenderEntries(v, i + 1, cursor, prefix, after).0 == done + RenderEntries(v, i, cursor, prefix, start).0
    ensures RenderEntries(v, i + 1, cursor, prefix, after).1 == RenderEntries(v, i, cursor, prefix, start).1
  {
  }

  // ---------------------------------------------------------------------------
  // How far the counter moves and how many lines come out
  // ---------------------------------------------------------------------------

  /** The number of labels in the tree: every array element, and every object entry whose value is not an array. */
  function Increments(v: Value): nat
    decreases v, 1, 0
  {
    match v
    case Array(_) => ItemsIncrements(v, 0)
    case Object(_) => EntriesIncrements(v, 0)
    case _ => 0
  }

  function ItemsIncrements(v: Value, n: nat): nat
    requires v.Array? && n <= |v.items|
    decreases v, 0, |v.items| - n
  {
    if n == |v.items| then 0 else 1 + Increments(v.items[n]) + ItemsIncrements(v, n + 1)
  }

  function EntriesIncrements(v: Value, n: nat): nat
    requires v.Object? && n <= |v.entries|
    decreases v, 0, |v.entries| - n
  {
    if n == |v.entries| then 0
    else (if v.entries[n].value.Array? then 0 else 1) + Increments(v.entries[n].value) + EntriesIncrements(v, n + 1)
  }

  /** The number of scalars in the tree. */
  function Leaves(v: Value): nat
    decreases v, 1, 0
  {
    match v
    case Array(_) => ItemsLeaves(v, 0)
    case Object(_) => EntriesLeaves(v, 0)
    case _ => 1
  }

  function ItemsLeaves(v: Value, n: nat): nat
    requires v.Array? && n <= |v.items|
    decreases v, 0, |v.items| - n
  {
    if n == |v.items| then 0 else Leaves(v.items[n]) + ItemsLeaves(v, n + 1)
  }

  function EntriesLeaves(v: Value, n: nat): nat
    requires v.Object? && n <= |v.entries|
    decreases v, 0, |v.entries| - n
  {
    if n == |v.entries| then 0 else Leaves(v.entries[n].value) + EntriesLeaves(v, n + 1)
  }

  /** The number of label lines. */
  function LabelCount(lines: seq<UiLine>): (r: nat)
    ensures r <= |lines|
  {
    if lines == [] then 0 else LabelCount(lines[..|lines| - 1]) + (if lines[|lines| - 1].style == Label then 1 else 0)
  }

  lemma {:induction false} LabelCountAppend(a: seq<UiLine>, b: seq<UiLine>)
    ensures LabelCount(a + b) == LabelCount(a) + LabelCount(b)
    decreases |b|
  {
    if b != [] {
      var b' := b[..|b| - 1];
      assert (a + b)[..|a + b| - 1] == a + b';
      LabelCountAppend(a, b');
    } else {
      assert a + b == a;
    }
  }

  /**
   * The counter advances by exactly the number of labels, which are exactly
   * the label lines; every other line is a scalar.
   */
  lemma {:induction false} RenderCounts(v: Value, cursor: Option<nat>, prefix: string, idx: nat)
    ensures var r := Render(v, cursor, prefix, idx);
            && r.1 == idx + Increments(v)
            && LabelCount(r.0) == Increments(v)
            && |r.0| == Increments(v) + Leaves(v)
    decreases v, 1, 0
  {
    match v
    case Array(_) => ItemsCounts(v, 0, cursor, prefix, idx);
    case Object(_) => EntriesCounts(v, 0, cursor, prefix, idx);
    case _ =>
  }

  lemma {:induction false} ItemsCounts(v: Value, n: nat, cursor: Option<nat>, prefix: string, idx: nat)
    requires v.Array? && n <= |v.items|
    ensures var r := RenderItems(v, n, cursor, prefix, idx);
            && r.1 == idx + ItemsIncrements(v, n)
            && LabelCount(r.0) == ItemsIncrements(v, n)
            && |r.0| == ItemsIncrements(v, n) + ItemsLeaves(v, n)
    decreases v, 0, |v.items| - n
  {
    if n < |v.items| {
      var tag := Join(prefix, NatToString(n + 1));
      var sub := Render(v.items[n], cursor, tag, idx + 1);
      var rest := RenderItems(v, n + 1, cursor, prefix, sub.1);
      RenderCounts(v.items[n], cursor, tag, idx + 1);
      ItemsCounts(v, n + 1, cursor, prefix, sub.1);
      LabelCountAppend([UiLine(tag, Label)], sub.0);
      LabelCountAppend([UiLine(tag, Label)] + sub.0, rest.0);
      assert LabelCount([UiLine(tag, Label)]) == 1 by {
        assert [UiLine(tag, Label)][..0] == [];
      }
    }
  }

  lemma {:induction false} EntriesCounts(v: Value, n: nat, cursor: Option<nat>, prefix: string, idx: nat)
    requires v.Object? && n <= |v.entries|
    ensures var r := RenderEntries(v, n, cursor, prefix, idx);
            && r.1 == idx + EntriesIncrements(v, n)
            && LabelCount(r.0) == EntriesIncrements(v, n)
            && |r.0| == EntriesIncrements(v, n) + EntriesLeaves(v, n)
    decreases v, 0, |v.entries| - n
  {
    if n < |v.entries| {
      var e := v.entries[n];
      var key := Join(prefix, e.key);
      var labels := if e.value.Array? then [] else [UiLine(key, Label)];
      var start := if e.value.Array? then idx else idx + 1;
      var sub := Render(e.value, cursor, key, start);
      var rest := RenderEntries(v, n + 1, cursor, prefix, sub.1);
      RenderCounts(e.value, cursor, key, start);
      EntriesCounts(v, n + 1, cursor, prefix, sub.1);
      LabelCountAppend(labels, sub.0);
      LabelCountAppend(labels + sub.0, rest.0);
      assert LabelCount([UiLine(key, Label)]) == 1 by {
        assert [UiLine(key, Label)][..0] == [];
      }
    }
  }

  // ---------------------------------------------------------------------------
  // At most one highlighted line
  // ---------------------------------------------------------------------------

  /** The number of lines shown with the cursor highlight. */
  function HighlightCount(lines: seq<UiLine>): (r: nat)
    ensures r <= |lines|
  {
    if lines == [] then 0 else HighlightCount(lines[..|lines| - 1]) + (if lines[|lines| - 1].style == Cursor then 1 else 0)
  }

  lemma {:induction false} HighlightCountAppend(a: seq<UiLine>, b: seq<UiLine>)
    ensures HighlightCount(a + b) == HighlightCount(a) + HighlightCount(b)
    decreases |b|
  {
    if b != [] {
      var b' := b[..|b| - 1];
      assert (a + b)[..|a + b| - 1] == a + b';
      HighlightCountAppend(a, b');
    } else {
      assert a + b == a;
    }
  }

  /** A label line never carries the cursor highlight. */
  lemma LabelNotHighlighted(tag: string)
    ensures HighlightCount([UiLine(tag, Label)]) == 0
  {
  }

  /**
   * Labels, then a part highlighted only for a cursor in (lo, mid], then a part
   * highlighted only for a cursor in (mid, hi]: at most one highlight, in (lo, hi].
   */
  lemma HighlightCombine(labels: seq<UiLine>, sub: seq<UiLine>, rest: seq<UiLine>,
                         cursor: Option<nat>, lo: nat, mid: nat, hi: nat)
    requires HighlightCount(labels) == 0 && lo <= mid <= hi
    requires HighlightCount(sub) <= 1 && (HighlightCount(sub) == 1 ==> cursor.Some? && lo < cursor.value <= mid)
    requires HighlightCount(rest) <= 1 && (HighlightCount(rest) == 1 ==> cursor.Some? && mid < cursor.value <= hi)
    ensures HighlightCount(labels + sub + rest) <= 1
    ensures HighlightCount(labels + sub + rest) == 1 ==> cursor.Some? && lo < cursor.value <= hi
  {
    HighlightCountAppend(labels, sub);
    HighlightCountAppend(labels + sub, rest);
  }

  /**
   * Whatever the cursor, at most one line is highlighted, and only when the
   * cursor lies within the counter's range over the walk. A scalar is
   * highlighted exactly when the cursor equals the counter on entry; inside an
   * array or object the highlighted line always comes after a label, so the
   * cursor is then past the entry value.
   */
  lemma {:induction false} AtMostOneHighlight(v: Value, cursor: Option<nat>, prefix: string, idx: nat)
    ensures var r := Render(v, cursor, prefix, idx);
            && idx <= r.1
            && HighlightCount(r.0) <= 1
            && (HighlightCount(r.0) == 1 ==> cursor.Some? && idx <= cursor.value <= r.1)
            && (v.IsScalar() ==> (HighlightCount(r.0) == 1 <==> cursor == Some(idx)))
            && (!v.IsScalar() && HighlightCount(r.0) == 1 ==> idx < cursor.value)
    decreases v, 1, 0
  {
    match v
    case Array(_) => ItemsHighlight(v, 0, cursor, prefix, idx);
    case Object(_) => EntriesHighlight(v, 0, cursor, prefix, idx);
    case _ =>
      var r := Render(v, cursor, prefix, idx);
      assert r.0[..0] == [];
  }

  lemma {:induction false} ItemsHighlight(v: Value, n: nat, cursor: Option<nat>, prefix: string, idx: nat)
    requires v.Array? && n <= |v.items|
    ensures var r := RenderItems(v, n, cursor, prefix, idx);
            && idx <= r.1
            && HighlightCount(r.0) <= 1
            && (HighlightCount(r.0) == 1 ==> cursor.Some? && idx < cursor.value <= r.1)
    decreases v, 0, |v.items| - n
  {
    if n < |v.items| {
      var tag := Join(prefix, NatToString(n + 1));
      var sub := Render(v.items[n], cursor, tag, idx + 1);
      var rest := RenderItems(v, n + 1, cursor, prefix, sub.1);
      AtMostOneHighlight(v.items[n], cursor, tag, idx + 1);
      ItemsHighlight(v, n + 1, cursor, prefix, sub.1);
      LabelNotHighlighted(tag);
      HighlightCombine([UiLine(tag, Label)], sub.0, rest.0, cursor, idx, sub.1, rest.1);
    }
  }

  lemma {:induction false} EntriesHighlight(v: Value, n: nat, cursor: Option<nat>, prefix: string, idx: nat)
    requires v.Object? && n <= |v.entries|
    ensures var r := RenderEntries(v, n, cursor, prefix, idx);
            && idx <= r.1
            && HighlightCount(r.0) <= 1
            && (HighlightCount(r.0) == 1 ==> cursor.Some? && idx < cursor.value <= r.1)
    decreases v, 0, |v.entries| - n
  {
    if n < |v.entries| {
      var e := v.entries[n];
      var key := Join(prefix, e.key);
      var labels := if e.value.Array? then [] else [UiLine(key, Label)];
      var start := if e.value.Array? then idx else idx + 1;
      var sub := Render(e.value, cursor, key, start);
      var rest := RenderEntries(v, n + 1, cursor, prefix, sub.1);
      AtMostOneHighlight(e.value, cursor, key, start);
      EntriesHighlight(v, n + 1, cursor, prefix, sub.1);
      LabelNotHighlighted(key);
      assert HighlightCount([]) == 0;
      HighlightCombine(labels, sub.0, rest.0, cursor, idx, sub.1, rest.1);
    }
  }

  // ---------------------------------------------------------------------------
  // The title line
  // ---------------------------------------------------------------------------

  function BaseTitle(file: Logic.InputFile): string {
    match file
    case Creation(f) => "Creating " + f
    case Edition(f) => "Editing " + f
    case NoFile => "Creating json"
  }

  /** `render_title`'s text: the base title, followed by the selected index when there is one. */
  function TitleText(file: Logic.InputFile, index: Option<nat>): (r: string)
    ensures |r| >= |BaseTitle(file)| && r[..|BaseTitle(file)|] == BaseTitle(file)
    ensures index.None? <==> |r| == |BaseTitle(file)|
  {
    match index
    case Some(n) => BaseTitle(file) + " (index " + NatToString(n) + ")"
    case None => BaseTitle(file)
  }

  /**
   * The index is recoverable from the title: the digits between " (index "
   * and the closing parenthesis read back as the selected index.
   */
  lemma TitleShowsIndex(file: Logic.InputFile, n: nat)
    ensures var r := TitleText(file, Some(n));
            var start := |BaseTitle(file)| + |" (index "|;
            && start < |r|
            && r[|BaseTitle(file)|..start] == " (index "
            && r[|r| - 1] == ')'
            && ParseDigits(r[start..|r| - 1]) == n
  {
    var r := TitleText(file, Some(n));
    var start := |BaseTitle(file)| + |" (index "|;
    assert r[start..|r| - 1] == NatToString(n);
    ParseNatToString(n);
  }

  /** Different selected indices give different titles. */
  lemma TitleIndexInjective(file: Logic.InputFile, m: nat, n: nat)
    requires TitleText(file, Some(m)) == TitleText(file, Some(n))
    ensures m == n
  {
    TitleShowsIndex(file, m);
    TitleShowsIndex(file, n);
  }
}
