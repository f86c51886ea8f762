/**
 * The application object (`App` in src/app.rs) and the methods of it that
 * change its state: key handling (`handle_event` and `reset_cursor` in
 * src/logic.rs), the element view (`render_edition` in src/ui.rs, which
 * records the largest cursor position) and the document view (`render_json`).
 *
 * Each method is proved against the pure definitions of Logic, Ui and
 * Container.
 */
module Editor {
  import opened Wrappers
  import opened Text
  import Json
  import opened JsonWriter
  import opened Container
  import opened Logic
  import opened Ui

  class App {
    var inputFile: InputFile
    const jsonContainer: JsonContainer
    var indexEdition: Option<nat>
    var currentScreen: Screen
    var currentlyEditing: Option<CurrentlyEditing>

    /** The part of the application state that key handling reads and writes. */
    function State(): AppState
      reads this, jsonContainer
    {
      AppState(currentScreen, currentlyEditing, indexEdition,
               jsonContainer.inputCursor, jsonContainer.maxCursor, jsonContainer.inputBuffer)
    }

    /** `App::new` once the file has been read: the main screen, nothing selected, nothing being edited. */
    constructor (file: InputFile, json: Json.Value)
      ensures inputFile == file && fresh(jsonContainer) && jsonContainer.inner == json
      ensures jsonContainer.lines == [] && jsonContainer.saveCurrentPos == None
      ensures State() == AppState(Main, None, None, None, None, [])
    {
      inputFile := file;
      jsonContainer := new JsonContainer(json);
      indexEdition := None;
      currentScreen := Main;
      currentlyEditing := None;
    }

    /** `reset_cursor`: forgets the input cursor and its maximum. */
    method ResetCursor()
      modifies jsonContainer`inputCursor, jsonContainer`maxCursor
      ensures State() == Logic.ResetCursor(old(State()))
    {
      jsonContainer.inputCursor := None;
      jsonContainer.maxCursor := None;
    }

    /**
     * `handle_event` for an event already read from the terminal: updates the
     * state in place and returns `Some(save)` when the editor should quit.
     * Down on the main screen leaves an empty array's selection alone, where
     * the source underflows.
     */
    method HandleEvent(ev: Event) returns (r: Option<bool>)
      modifies this`currentScreen, this`currentlyEditing, this`indexEdition
      modifies jsonContainer`inputCursor, jsonContainer`maxCursor, jsonContainer`inputBuffer
      ensures (State(), r) == Step(old(State()), jsonContainer.Len(), ev)
    {
      r := None;
      match ev {
        case OtherEvent =>
        case KeyEvent(code, kind) =>
          if kind == Release {
            return;
          }
          match currentScreen {
            case Main =>
              match code {
                case Right =>
                  currentScreen := Editing;
                  currentlyEditing := Some(Key);
                case Tab =>
                  currentScreen := Editing;
                  currentlyEditing := Some(Key);
                case Up =>
                  match indexEdition {
                    case Some(v) =>
                      if v == 0 {
                        return;
                      }
                      indexEdition := Some(v - 1);
                    case None =>
                      indexEdition := Some(0);
                  }
                case Down =>
                  var len := jsonContainer.Len();
                  match indexEdition {
                    case Some(v) =>
                      match len {
                        case Some(n) =>
                          if n == 0 || v == n - 1 {
                            return;
                          }
                          indexEdition := Some(v + 1);
                        case None =>
                          return;
                      }
                    case None =>
                      match len {
                        case Some(_) =>
                          indexEdition := Some(0);
                        case None =>
                          return;
                      }
                  }
                case Char(c) =>
                  if c == 'q' {
                    currentScreen := Exiting;
                  }
                case _ =>
              }
            case Exiting =>
              match code {
                case Char(c) =>
                  if c == 'y' {
                    return Some(true);
                  } else if c == 'n' || c == 'q' {
                    return Some(false);
                  }
                case _ =>
              }
            case Editing =>
              if kind == Press {
                HandleEditingKey(code);
              }
          }
      }
    }

    /** The editing screen's reaction to a key press. */
    method HandleEditingKey(code: KeyCode)
      modifies this`currentScreen, this`currentlyEditing
      modifies jsonContainer`inputCursor, jsonContainer`maxCursor, jsonContainer`inputBuffer
      ensures State() == EditingKey(old(State()), code)
    {
      match code {
        case Up =>
          CursorUpKey();
        case Down =>
          CursorDownKey();
        case Left =>
          currentScreen := Main;
          currentlyEditing := None;
          ResetCursor();
        case Tab =>
          currentScreen := Main;
          currentlyEditing := None;
        case Enter =>
          match currentlyEditing {
            case Some(Key) =>
              currentlyEditing := Some(Value);
            case Some(Value) =>
              currentScreen := Main;
            case None =>
          }
        case Backspace =>
          if currentlyEditing.Some? {
            jsonContainer.inputBuffer := Pop(jsonContainer.inputBuffer);
          }
        case Esc =>
          currentScreen := Main;
          currentlyEditing := None;
        case Char(c) =>
          if currentlyEditing.Some? {
            jsonContainer.inputBuffer := jsonContainer.inputBuffer + [c];
          }
        case _ =>
      }
    }

    /** Up on the editing screen: moves the input cursor up, stopping at 1. */
    method CursorUpKey()
      modifies jsonContainer`inputCursor
      ensures jsonContainer.inputCursor == CursorUp(old(jsonContainer.inputCursor))
    {
      match jsonContainer.inputCursor {
        case Some(cur) =>
          if cur == 1 {
            return;
          }
          jsonContainer.inputCursor := Some(if cur == 0 then 0 else cur - 1);
        case None =>
          jsonContainer.inputCursor := Some(1);
      }
    }

    /** Down on the editing screen: moves the input cursor down, stopping at the maximum. */
    method CursorDownKey()
      modifies jsonContainer`inputCursor
      ensures jsonContainer.inputCursor == CursorDown(old(jsonContainer.inputCursor), jsonContainer.maxCursor)
    {
      match jsonContainer.inputCursor {
        case Some(cur) =>
          match jsonContainer.maxCursor {
            case Some(max) =>
              if cur == max {
                return;
              }
              jsonContainer.inputCursor := Some(cur + 1);
            case None =>
              return;
          }
        case None =>
          match jsonContainer.maxCursor {
            case Some(_) =>
              jsonContainer.inputCursor := Some(1);
            case None =>
              return;
          }
      }
    }

    /** The element of the top-level array that `indexEdition` selects, if there is one. */
    function Selected(): (r: Option<Json.Value>)
      reads this, jsonContainer
      ensures r.Some? <==> indexEdition.Some? && jsonContainer.Len().Some? && indexEdition.value < jsonContainer.Len().value
      ensures r.Some? ==> r.value == jsonContainer.inner.items[indexEdition.value]
    {
      match indexEdition
      case Some(i) =>
        (match jsonContainer.inner
         case Array(items) => if i < |items| then Some(items[i]) else None
         case _ => None)
      case None => None
    }

    /**
     * The element view of `render_edition`: the selected element flattened
     * under its index, with the largest cursor position recorded as the number
     * of label lines shown; "No value selected" when nothing is selected.
     */
    method RenderEdition() returns (lines: seq<UiLine>)
      modifies jsonContainer`maxCursor
      ensures Selected().None? ==>
                lines == [UiLine("No value selected", Plain)] && jsonContainer.maxCursor == old(jsonContainer.maxCursor)
      ensures Selected().Some? ==>
                && lines == Render(Selected().value, jsonContainer.inputCursor, NatToString(indexEdition.value), 0).0
                && jsonContainer.maxCursor == Some(Increments(Selected().value))
                && jsonContainer.maxCursor == Some(LabelCount(lines))
                && HighlightCount(lines) <= 1
    {
      var selected := Selected();
      match selected {
        case Some(value) =>
          var cursor := jsonContainer.inputCursor;
          var prefix := NatToString(indexEdition.value);
          var idx;
          lines, idx := RenderJsonStruct(value, cursor, prefix, 0);
          RenderCounts(value, cursor, prefix, 0);
          AtMostOneHighlight(value, cursor, prefix, 0);
          jsonContainer.maxCursor := Some(idx);
        case None =>
          lines := [UiLine("No value selected", Plain)];
      }
    }

    /** `render_json`: renders the document view for the selected index. */
    method RenderJson(chunks: seq<Bytes>)
      modifies jsonContainer`lines, jsonContainer`saveCurrentPos
      ensures indexEdition.Some? && old(jsonContainer.saveCurrentPos) == indexEdition ==>
                jsonContainer.lines == old(jsonContainer.lines) && jsonContainer.saveCurrentPos == indexEdition
      ensures !(indexEdition.Some? && old(jsonContainer.saveCurrentPos) == indexEdition) ==>
                jsonContainer.saveCurrentPos == indexEdition && jsonContainer.lines == RenderedOutput(chunks, indexEdition)
    {
      jsonContainer.CreateLines(indexEdition, chunks);
    }
  }
}
