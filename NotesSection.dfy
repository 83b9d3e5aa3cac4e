/**
 * The to-do list widget (src/components/orga-note/NotesSection.tsx): the input field's state,
 * the add guard, and the ids the per-row controls hand to `onToggleTask` / `onDeleteTask`.
 * Each callback call is returned as a value; the list mutations behind them are not modelled.
 */
module NotesSection {
  import opened Wrappers
  import opened JsString
  import opened NoteTypes

  /** The new-task input. */
  class TaskInput {
    var newTaskText: string

    constructor ()
      ensures newTaskText == ""
    {
      newTaskText := "";
    }

    /** The input's `onChange`. */
    method SetText(text: string)
      modifies this
      ensures newTaskText == text
    {
      newTaskText := text;
    }

    /**
     * `handleInternalAddTask`: blank input is ignored and left as it is; otherwise
     * `onAddTask` is called once with the trimmed text, which is never empty and has no
     * whitespace at either end, and the input is cleared.
     */
    method AddTask() returns (added: Option<string>)
      modifies this
      ensures AllWhitespace(old(newTaskText)) ==> added == None && newTaskText == old(newTaskText)
      ensures !AllWhitespace(old(newTaskText)) ==> added == Some(Trim(old(newTaskText))) && newTaskText == ""
      ensures added.Some? ==> added.value != "" && Trimmed(added.value)
    {
      if Trim(newTaskText) == "" {
        return None;
      }
      added := Some(Trim(newTaskText));
      newTaskText := "";
    }
  }

  /**
   * The rows rendered for `tasks`: row `i`'s checkbox passes its id to `onToggleTask` and its
   * delete button passes the same id to `onDeleteTask`.
   */
  function TaskRowIds(tasks: seq<Task>): (ids: seq<string>)
    ensures |ids| == |tasks|
    ensures forall i :: 0 <= i < |tasks| ==> ids[i] == tasks[i].id
  {
    seq(|tasks|, i requires 0 <= i < |tasks| => tasks[i].id)
  }
}
