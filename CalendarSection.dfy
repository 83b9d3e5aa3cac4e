/**
 * The day-note panel of the calendar (src/components/orga-note/CalendarSection.tsx): the
 * selected day, the text of its note, the save and delete guards, and the day markers.
 * The notes arrive as the `dailyNotes` prop, a map from ISO date key to text. Turning a day
 * into its key (`formatISO(day, { representation: 'date' })`) and `isToday` are parameters.
 * Each callback call is returned as a value; what the parent does with it is not modelled.
 */
module CalendarSection {
  import opened Wrappers

  /** A JavaScript `Date`: milliseconds since the epoch. */
  datatype Date = Date(time: int)

  /** How a save or delete click ends. */
  datatype DayNoteOutcome =
    | NoDateSelected                          // "No Date Selected" toast, no call
    | NoNoteToDelete                          // "No Note" toast, no call
    | SaveCalled(date: Date, noteText: string) // `onSaveDailyNote(date, noteText)`
    | DeleteCalled(date: Date)                 // `onDeleteDailyNote(date)`

  /** `!!dailyNotes[key]`: a note is stored under `key` and it is not the empty string. */
  predicate HasNote(dailyNotes: map<string, string>, key: string) {
    key in dailyNotes && dailyNotes[key] != ""
  }

  /**
   * `dailyNotes[key] || ''`: the stored text, or "" when there is none. A day has a note
   * exactly when this text is non-empty, so a stored "" counts as no note.
   */
  function NoteText(dailyNotes: map<string, string>, key: string): (text: string)
    ensures key in dailyNotes ==> text == dailyNotes[key]
    ensures key !in dailyNotes ==> text == ""
    ensures text != "" <==> HasNote(dailyNotes, key)
  {
    if key in dailyNotes && dailyNotes[key] != "" then dailyNotes[key] else ""
  }

  /** The `hasNote` day modifier (and the dot drawn by `DayContentWithNotes`). */
  function HasNoteMarker(dailyNotes: map<string, string>, isoKey: Date -> string, day: Date): (marked: bool)
    ensures marked <==> NoteText(dailyNotes, isoKey(day)) != ""
  {
    isoKey(day) in dailyNotes && dailyNotes[isoKey(day)] != ""
  }

  /** The `todayWithNote` day modifier: only today's day, and only when it has a note. */
  function TodayWithNoteMarker(dailyNotes: map<string, string>, isoKey: Date -> string,
                               isToday: Date -> bool, day: Date): (marked: bool)
    ensures marked ==> HasNoteMarker(dailyNotes, isoKey, day) && isToday(day)
    ensures !isToday(day) ==> !marked
    ensures isToday(day) ==> (marked <==> HasNote(dailyNotes, isoKey(day)))
  {
    isToday(day) && isoKey(day) in dailyNotes && dailyNotes[isoKey(day)] != ""
  }

  /** The component's own state: the selected day and the text in the note's text area. */
  class DayNoteEditor {
    var selectedDate: Option<Date>
    var selectedDayNoteText: string

    /**
     * The text area exists only while a day is selected, and deselecting clears the text,
     * so with no day selected the text is empty.
     */
    ghost predicate Valid()
      reads this
    {
      selectedDate.None? ==> selectedDayNoteText == ""
    }

    /** The initial state: today is selected, the text is empty until the effect runs. */
    constructor (today: Date)
      ensures Valid() && selectedDate == Some(today) && selectedDayNoteText == ""
    {
      selectedDate := Some(today);
      selectedDayNoteText := "";
    }

    /**
     * The effect that runs whenever the selection or the notes change: with a day selected,
     * the text becomes that day's note (or ""); with none, nothing changes.
     */
    method SyncText(dailyNotes: map<string, string>, isoKey: Date -> string)
      requires Valid()
      modifies this
      ensures Valid() && selectedDate == old(selectedDate)
      ensures old(selectedDate).Some? ==> selectedDayNoteText == NoteText(dailyNotes, isoKey(old(selectedDate).value))
      ensures old(selectedDate).None? ==> selectedDayNoteText == old(selectedDayNoteText)
    {
      if selectedDate.Some? {
        selectedDayNoteText := NoteText(dailyNotes, isoKey(selectedDate.value));
      }
    }

    /**
     * `handleDateSelect`: the day becomes the selection and the text that day's note, or "";
     * deselecting (an undefined day) clears the text.
     */
    method SelectDate(date: Option<Date>, dailyNotes: map<string, string>, isoKey: Date -> string)
      modifies this
      ensures Valid() && selectedDate == date
      ensures date.Some? ==> selectedDayNoteText == NoteText(dailyNotes, isoKey(date.value))
      ensures date.None? ==> selectedDayNoteText == ""
    {
      selectedDate := date;
      if date.Some? {
        selectedDayNoteText := NoteText(dailyNotes, isoKey(date.value));
      } else {
        selectedDayNoteText := "";
      }
    }

    /** The text area's `onChange`; the text area is shown only while a day is selected. */
    method SetText(text: string)
      requires Valid() && selectedDate.Some?
      modifies this
      ensures Valid() && selectedDayNoteText == text && selectedDate == old(selectedDate)
    {
      selectedDayNoteText := text;
    }

    /**
     * `handleInternalSaveDailyNote`: with no day selected there is no call; otherwise
     * `onSaveDailyNote` gets the day and the text exactly as it stands, "" included.
     */
    method SaveDailyNote() returns (outcome: DayNoteOutcome)
      ensures outcome == NoDateSelected <==> selectedDate.None?
      ensures outcome != NoDateSelected ==> outcome == SaveCalled(selectedDate.value, selectedDayNoteText)
    {
      if selectedDate.None? {
        return NoDateSelected;
      }
      outcome := SaveCalled(selectedDate.value, selectedDayNoteText);
    }

    /**
     * `handleInternalDeleteDailyNote`: no call without a selected day, nor when that day has
     * no note (absent or ""); otherwise `onDeleteDailyNote` gets the day and the text is
     * cleared. The selection never changes.
     */
    method DeleteDailyNote(dailyNotes: map<string, string>, isoKey: Date -> string)
      returns (outcome: DayNoteOutcome)
      requires Valid()
      modifies this
      ensures Valid() && selectedDate == old(selectedDate)
      ensures outcome == NoDateSelected <==> old(selectedDate).None?
      ensures outcome == NoNoteToDelete <==>
                old(selectedDate).Some? && !HasNote(dailyNotes, isoKey(old(selectedDate).value))
      ensures outcome.DeleteCalled? <==>
                old(selectedDate).Some? && HasNote(dailyNotes, isoKey(old(selectedDate).value))
      ensures outcome.DeleteCalled? ==> outcome.date == old(selectedDate).value && selectedDayNoteText == ""
      ensures !outcome.DeleteCalled? ==> selectedDayNoteText == old(selectedDayNoteText)
    {
      if selectedDate.None? {
        return NoDateSelected;
      }
      var key := isoKey(selectedDate.value);
      if NoteText(dailyNotes, key) == "" {
        return NoNoteToDelete;
      }
      outcome := DeleteCalled(selectedDate.value);
      selectedDayNoteText := "";
    }
  }

  /**
   * The "Delete Note" button is rendered exactly when the delete handler would call
   * `onDeleteDailyNote`: a day is selected and it has a note.
   */
  function DeleteButtonShown(dailyNotes: map<string, string>, isoKey: Date -> string,
                             selectedDate: Option<Date>): (shown: bool)
    ensures shown <==> selectedDate.Some? && HasNote(dailyNotes, isoKey(selectedDate.value))
  {
    selectedDate.Some? && NoteText(dailyNotes, isoKey(selectedDate.value)) != ""
  }

  /**
   * Once the day's text is stored under its key, the effect's re-read gives that text back,
   * and the day has a note exactly when the text is non-empty.
   */
  lemma SavedTextReadsBack(dailyNotes: map<string, string>, key: string, text: string)
    ensures NoteText(dailyNotes[key := text], key) == text
    ensures HasNote(dailyNotes[key := text], key) <==> text != ""
  {
  }
}
