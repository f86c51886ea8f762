/**
 * The key-event state machine of the editor (`handle_event` in src/logic.rs),
 * as a pure transition on the part of the application state it touches.
 *
 * Reading the event from the terminal is not part of this model: the event is
 * the input of the transition. The class App (app.dfy) performs the same
 * transition in place on its fields and is proved against Step.
 */
module Logic {
  import opened Wrappers

  /** The screen the user is looking at. */
  datatype Screen = Main | Editing | Exiting

  /** Which half of a key/value pair is being edited. */
  datatype CurrentlyEditing = Key | Value

  /** Where the document comes from: an existing file, a file to create, or neither (`InputFile::None`). */
  datatype InputFile = Edition(path: string) | Creation(path: string) | NoFile

  datatype KeyCode = Left | Right | Up | Down | Tab | Enter | Backspace | Esc | Char(c: char) | OtherKey

  datatype KeyEventKind = Press | Repeat | Release

  /** A terminal event: a key event, or anything else (mouse, resize, focus, paste). */
  datatype Event = KeyEvent(code: KeyCode, kind: KeyEventKind) | OtherEvent

  /** The fields of the application and of its document container that key handling reads or writes. */
  datatype AppState = AppState(
    screen: Screen,
    editing: Option<CurrentlyEditing>,
    indexEdition: Option<nat>,
    inputCursor: Option<nat>,
    maxCursor: Option<nat>,
    inputBuffer: string)

  /** `reset_cursor`: both cursor fields cleared. */
  function ResetCursor(s: AppState): (r: AppState)
    ensures r.inputCursor == None && r.maxCursor == None
    ensures r.(inputCursor := s.inputCursor, maxCursor := s.maxCursor) == s
  {
    s.(inputCursor := None, maxCursor := None)
  }

  // ---------------------------------------------------------------------------
  // Main screen: selecting an element of the top-level array
  // ---------------------------------------------------------------------------

  /** Up on the main screen: nothing selected selects element 0; otherwise one up, stopping at 0. */
  function IndexUp(index: Option<nat>): (r: Option<nat>)
    ensures r.Some?
    ensures index.None? ==> r == Some(0)
    ensures index.Some? ==> r.value == if index.value == 0 then 0 else index.value - 1
  {
    match index
    case None => Some(0)
    case Some(v) => if v == 0 then index else Some(v - 1)
  }

  /** What `Down` on the main screen does as written: it can underflow computing `len - 1`. */
  datatype DownOutcome = Moved(index: Option<nat>) | Underflow

  /**
   * Down on the main screen, as the source has it: with a selected index and
   * an array document it compares against `len - 1`, which underflows on an
   * empty array.
   */
  function IndexDownAsWritten(index: Option<nat>, len: Option<nat>): (r: DownOutcome)
    ensures r.Underflow? <==> index.Some? && len == Some(0)
    ensures len.None? ==> r == Moved(index)
    ensures index.None? && len.Some? ==> r == Moved(Some(0))
    ensures index.Some? && len.Some? && len.value > 0 ==>
              r == Moved(if index.value == len.value - 1 then index else Some(index.value + 1))
  {
    match index
    case Some(v) =>
      (match len
       case Some(n) => if n == 0 then Underflow else if v == n - 1 then Moved(index) else Moved(Some(v + 1))
       case None => Moved(index))
    case None =>
      (match len
       case Some(_) => Moved(Some(0))
       case None => Moved(index))
  }

  /**
   * Down on the main screen, corrected: the same moves, and an empty array
   * leaves the selection where it is.
   */
  function IndexDown(index: Option<nat>, len: Option<nat>): (r: Option<nat>)
    ensures len.None? ==> r == index
    ensures index.None? && len.Some? ==> r == Some(0)
    ensures index.Some? && len.Some? && len.value > 0 && index.value < len.value ==>
              r.Some? && r.value < len.value && r.value == if index.value == len.value - 1 then index.value else index.value + 1
    ensures index.Some? && len == Some(0) ==> r == index
    ensures index.Some? && len.Some? && len.value > 0 && index.value >= len.value ==> r == Some(index.value + 1)
  {
    match index
    case Some(v) =>
      (match len
       case Some(n) => if n == 0 || v == n - 1 then index else Some(v + 1)
       case None => index)
    case None =>
      (match len
       case Some(_) => Some(0)
       case None => index)
  }

  /** The corrected Down agrees with the source everywhere the source does not underflow. */
  lemma IndexDownMatchesSource(index: Option<nat>, len: Option<nat>)
    ensures IndexDownAsWritten(index, len).Underflow? <==> index.Some? && len == Some(0)
    ensures IndexDownAsWritten(index, len).Moved? ==> IndexDownAsWritten(index, len).index == IndexDown(index, len)
  {
  }

  /**
   * The underflow is reachable from the initial state: on an empty array
   * document, Up selects element 0, and Down then computes `0 - 1`.
   */
  lemma DownUnderflowsOnEmptyArray(s: AppState)
    requires s.screen == Main && s.indexEdition == None
    ensures var s' := Step(s, Some(0), KeyEvent(Up, Press)).0;
            s'.indexEdition == Some(0) && IndexDownAsWritten(s'.indexEdition, Some(0)) == Underflow
  {
  }

  function MainKey(s: AppState, len: Option<nat>, code: KeyCode): (r: AppState)
    ensures r.inputCursor == s.inputCursor && r.maxCursor == s.maxCursor && r.inputBuffer == s.inputBuffer
    ensures code == Right || code == Tab ==> r.screen == Editing && r.editing == Some(Key) && r.indexEdition == s.indexEdition
    ensures code == Char('q') ==> r == s.(screen := Exiting)
    ensures code == Up ==> r == s.(indexEdition := IndexUp(s.indexEdition))
    ensures code == Down ==> r == s.(indexEdition := IndexDown(s.indexEdition, len))
    ensures code !in {Right, Tab, Up, Down, Char('q')} ==> r == s
  {
    match code
    case Right => s.(screen := Editing, editing := Some(Key))
    case Tab => s.(screen := Editing, editing := Some(Key))
    case Up => s.(indexEdition := IndexUp(s.indexEdition))
    case Down => s.(indexEdition := IndexDown(s.indexEdition, len))
    case Char(c) => if c == 'q' then s.(screen := Exiting) else s
    case _ => s
  }

  // ---------------------------------------------------------------------------
  // Exit confirmation
  // ---------------------------------------------------------------------------

  /** On the exit prompt: 'y' quits saving, 'n' or 'q' quits without saving, anything else stays. */
  function ExitingKey(code: KeyCode): (r: Option<bool>)
    ensures r == Some(true) <==> code == Char('y')
    ensures r == Some(false) <==> code == Char('n') || code == Char('q')
  {
    match code
    case Char(c) => if c == 'y' then Some(true) else if c == 'n' || c == 'q' then Some(false) else None
    case _ => None
  }

  // ---------------------------------------------------------------------------
  // Editing screen: moving the input cursor and editing the input buffer
  // ---------------------------------------------------------------------------

  /** Up in the editor: no cursor goes to 1; otherwise one up, stopping at 1 (and at 0 by saturation). */
  function CursorUp(cursor: Option<nat>): (r: Option<nat>)
    ensures r.Some?
    ensures cursor.None? ==> r == Some(1)
    ensures cursor.Some? && cursor.value >= 1 ==> r.value == if cursor.value == 1 then 1 else cursor.value - 1
    ensures cursor == Some(0) ==> r == Some(0)
  {
    match cursor
    case None => Some(1)
    case Some(v) => if v == 1 then cursor else Some(if v == 0 then 0 else v - 1)
  }

  /** Down in the editor: no cursor goes to 1 once a maximum is known; otherwise one down, stopping at the maximum. */
  function CursorDown(cursor: Option<nat>, max: Option<nat>): (r: Option<nat>)
    ensures max.None? ==> r == cursor
    ensures cursor.None? && max.Some? ==> r == Some(1)
    ensures cursor.Some? && max.Some? ==>
              r.Some? && r.value == if cursor.value == max.value then cursor.value else cursor.value + 1
  {
    match cursor
    case Some(v) =>
      (match max
       case Some(m) => if v == m then cursor else Some(v + 1)
       case None => cursor)
    case None =>
      (match max
       case Some(_) => Some(1)
       case None => cursor)
  }

  /** `String::pop`: drops the last character, if there is one. */
  function Pop(s: string): (r: string)
    ensures s == [] ==> r == []
    ensures s != [] ==> r + [s[|s| - 1]] == s
  {
    if s == [] then s else s[..|s| - 1]
  }

  function EditingKey(s: AppState, code: KeyCode): (r: AppState)
    ensures r.indexEdition == s.indexEdition
    ensures code == Left ==> r == ResetCursor(s.(screen := Main, editing := None))
    ensures code == Tab || code == Esc ==> r == s.(screen := Main, editing := None)
    ensures code == Up ==> r == s.(inputCursor := CursorUp(s.inputCursor))
    ensures code == Down ==> r == s.(inputCursor := CursorDown(s.inputCursor, s.maxCursor))
    ensures code == Enter && s.editing == Some(Key) ==> r == s.(editing := Some(Value))
    ensures code == Enter && s.editing == Some(Value) ==> r == s.(screen := Main)
    ensures code.Char? && s.editing.Some? ==> r == s.(inputBuffer := s.inputBuffer + [code.c])
    ensures code == Backspace && s.editing.Some? ==> r == s.(inputBuffer := Pop(s.inputBuffer))
    ensures s.editing.None? && (code.Char? || code == Backspace || code == Enter) ==> r == s
    ensures code == Right || code == OtherKey ==> r == s
  {
    match code
    case Up => s.(inputCursor := CursorUp(s.inputCursor))
    case Down => s.(inputCursor := CursorDown(s.inputCursor, s.maxCursor))
    case Left => ResetCursor(s.(screen := Main, editing := None))
    case Tab => s.(screen := Main, editing := None)
    case Enter =>
      (match s.editing
       case Some(Key) => s.(editing := Some(Value))
       case Some(Value) => s.(screen := Main)
       case None => s)
    case Backspace => if s.editing.Some? then s.(inputBuffer := Pop(s.inputBuffer)) else s
    case Esc => s.(screen := Main, editing := None)
    case Char(c) => if s.editing.Some? then s.(inputBuffer := s.inputBuffer + [c]) else s
    case _ => s
  }

  // ---------------------------------------------------------------------------
  // The whole transition
  // ---------------------------------------------------------------------------

  /**
   * One event: the new state and the result of `handle_event` (`Some(save)`
   * to quit, `None` to keep running). `len` is the length of the document when
   * it is an array. The editing screen reacts to presses only; the other
   * screens also to repeats.
   */
  function Step(s: AppState, len: Option<nat>, ev: Event): (r: (AppState, Option<bool>))
    ensures ev.OtherEvent? || ev.kind == Release ==> r == (s, None)
    ensures r.1.Some? ==> s.screen == Exiting && r.0 == s
    ensures s.screen == Exiting ==> r.0 == s
    ensures s.screen == Editing ==> r.0.indexEdition == s.indexEdition
    ensures s.screen == Editing && ev.KeyEvent? && ev.kind == Repeat ==> r.0 == s
  {
    match ev
    case OtherEvent => (s, None)
    case KeyEvent(code, kind) =>
      if kind == Release then (s, None)
      else
        match s.screen
        case Main => (MainKey(s, len, code), None)
        case Exiting => (s, ExitingKey(code))
        case Editing => if kind == Press then (EditingKey(s, code), None) else (s, None)
  }

  /**
   * What every reachable state satisfies: the editing screen always has a
   * field being edited, the input cursor is never 0, and on a non-empty array
   * document the selected index is inside the array.
   */
  ghost predicate Reachable(s: AppState, len: Option<nat>) {
    && (s.screen == Editing ==> s.editing.Some?)
    && (s.inputCursor.Some? ==> s.inputCursor.value >= 1)
    && (len.Some? && len.value > 0 && s.indexEdition.Some? ==> s.indexEdition.value < len.value)
  }

  lemma InitialReachable(len: Option<nat>)
    ensures Reachable(AppState(Main, None, None, None, None, []), len)
  {
  }

  /** Every transition keeps the reachable-state invariant. */
  lemma StepKeepsReachable(s: AppState, len: Option<nat>, ev: Event)
    requires Reachable(s, len)
    ensures Reachable(Step(s, len, ev).0, len)
  {
  }

  /** The editor's Up and Down keep the input cursor between 1 and the maximum once it is there. */
  lemma CursorStaysInRange(s: AppState, len: Option<nat>, ev: Event)
    requires s.screen == Editing && s.maxCursor.Some? && s.maxCursor.value >= 1
    requires s.inputCursor.Some? ==> 1 <= s.inputCursor.value <= s.maxCursor.value
    requires ev == KeyEvent(Up, Press) || ev == KeyEvent(Down, Press)
    ensures var c := Step(s, len, ev).0.inputCursor;
            c.Some? && 1 <= c.value <= s.maxCursor.value
  {
  }

  /**
   * Outside that range nothing brings the cursor back: with a maximum of 0
   * (a selected scalar) Down still moves the cursor to 1, and a cursor above
   * the maximum moves further up with every Down.
   */
  lemma CursorEscapesMaximum(s: AppState, len: Option<nat>)
    requires s.screen == Editing && s.maxCursor.Some?
    requires (s.inputCursor.None? && s.maxCursor.value == 0)
             || (s.inputCursor.Some? && s.inputCursor.value > s.maxCursor.value)
    ensures var c := Step(s, len, KeyEvent(Down, Press)).0.inputCursor;
            && c.Some? && c.value > s.maxCursor.value
            && (s.inputCursor.Some? ==> c.value == s.inputCursor.value + 1)
  {
  }
}
