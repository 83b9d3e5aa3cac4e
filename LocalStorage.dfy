/**
 * The local persistence layer (src/lib/localStorage.ts): four collections, each kept as one
 * serialised string under its own key of the browser's origin-scoped string store.
 *
 * The store is a `map<string, string>`; whether a browser window exists is the constant
 * `inBrowser`. JSON serialisation is not re-implemented: each getter and saver receives a
 * `Codec` (the serialiser and the parser), and the round-trip property is a precondition
 * of the lemmas that need it.
 */
module LocalStorage {
  import opened Wrappers
  import opened NoteTypes

  const NotesKey := "orgaNotes"
  const DailyCalendarNotesKey := "oreganoteDailyCalendarNotes"
  const TasksKey := "oreganoteTasks"
  const LinksKey := "oreganoteLinks"

  /** The four keys the application owns: pairwise distinct, so no two collections share a slot. */
  function StorageKeys(): (keys: set<string>)
    ensures |keys| == 4
    ensures NotesKey in keys && DailyCalendarNotesKey in keys && TasksKey in keys && LinksKey in keys
  {
    {NotesKey, DailyCalendarNotesKey, TasksKey, LinksKey}
  }

  /**
   * `JSON.stringify` and `JSON.parse` for one collection type: `parse` yields `None` where
   * `JSON.parse` throws.
   */
  datatype Codec<!T> = Codec(stringify: T -> string, parse: string -> Option<T>)

  /**
   * What the getters rely on for a round trip: parsing a serialised value gives it back,
   * and serialising never yields "" (JSON text never is empty; an empty stored string
   * reads as "nothing stored").
   */
  ghost predicate RoundTrips<T(!new)>(codec: Codec<T>) {
    forall x: T :: codec.stringify(x) != "" && codec.parse(codec.stringify(x)) == Some(x)
  }

  /**
   * The body shared by the four getters: outside a browser, for a missing key, for a stored
   * empty string (the truthiness test) and for text that does not parse, the default;
   * otherwise the parsed value.
   */
  function Load<T>(items: map<string, string>, inBrowser: bool, key: string,
                   codec: Codec<T>, default: T): (r: T)
    ensures !inBrowser ==> r == default
    ensures key !in items || items[key] == "" ==> r == default
    ensures key in items && codec.parse(items[key]).None? ==> r == default
    ensures inBrowser && key in items && items[key] != "" && codec.parse(items[key]).Some?
            ==> r == codec.parse(items[key]).value
  {
    if !inBrowser then default
    else if key in items && items[key] != "" then
      match codec.parse(items[key])
      case Some(v) => v
      case None => default
    else default
  }

  /** Writing a collection under `key` and reading it back gives the collection. */
  lemma SaveThenLoad<T(!new)>(items: map<string, string>, key: string, codec: Codec<T>, x: T, default: T)
    requires RoundTrips(codec)
    ensures Load(items[key := codec.stringify(x)], true, key, codec, default) == x
  {
    assert codec.stringify(x) != "" && codec.parse(codec.stringify(x)) == Some(x);
  }

  /** Writing under one key leaves what every other key reads unchanged. */
  lemma WriteIsolated<T>(items: map<string, string>, key: string, text: string, other: string,
                         inBrowser: bool, codec: Codec<T>, default: T)
    requires other != key
    ensures Load(items[key := text], inBrowser, other, codec, default)
         == Load(items, inBrowser, other, codec, default)
  {
    assert other in items[key := text] <==> other in items;
  }

  /** After the four keys are removed, each of them reads as its default. */
  lemma ClearedReadsDefault<T>(items: map<string, string>, inBrowser: bool, key: string,
                               codec: Codec<T>, default: T)
    requires key in StorageKeys()
    ensures Load(items - StorageKeys(), inBrowser, key, codec, default) == default
  {
  }

  /** The browser's string store, as far as this application touches it. */
  class Storage {
    var items: map<string, string>
    const inBrowser: bool

    constructor (items: map<string, string>, inBrowser: bool)
      ensures this.items == items && this.inBrowser == inBrowser
    {
      this.items := items;
      this.inBrowser := inBrowser;
    }

    /** `getSavedNotes`. */
    function GetSavedNotes(codec: Codec<seq<SavedNote>>): (notes: seq<SavedNote>)
      reads this
      ensures !inBrowser ==> notes == []
      ensures NotesKey !in items || items[NotesKey] == "" ==> notes == []
      ensures NotesKey in items && codec.parse(items[NotesKey]).None? ==> notes == []
      ensures inBrowser && NotesKey in items && items[NotesKey] != "" && codec.parse(items[NotesKey]).Some?
              ==> notes == codec.parse(items[NotesKey]).value
    {
      Load(items, inBrowser, NotesKey, codec, [])
    }

    /** `getDailyCalendarNotes`: ISO date to note text. */
    function GetDailyCalendarNotes(codec: Codec<map<string, string>>): (notes: map<string, string>)
      reads this
      ensures !inBrowser ==> notes == map[]
      ensures DailyCalendarNotesKey !in items || items[DailyCalendarNotesKey] == "" ==> notes == map[]
      ensures DailyCalendarNotesKey in items && codec.parse(items[DailyCalendarNotesKey]).None?
              ==> notes == map[]
      ensures inBrowser && DailyCalendarNotesKey in items && items[DailyCalendarNotesKey] != ""
              && codec.parse(items[DailyCalendarNotesKey]).Some?
              ==> notes == codec.parse(items[DailyCalendarNotesKey]).value
    {
      Load(items, inBrowser, DailyCalendarNotesKey, codec, map[])
    }

    /** `getTasks`. */
    function GetTasks(codec: Codec<seq<Task>>): (tasks: seq<Task>)
      reads this
      ensures !inBrowser ==> tasks == []
      ensures TasksKey !in items || items[TasksKey] == "" ==> tasks == []
      ensures TasksKey in items && codec.parse(items[TasksKey]).None? ==> tasks == []
      ensures inBrowser && TasksKey in items && items[TasksKey] != "" && codec.parse(items[TasksKey]).Some?
              ==> tasks == codec.parse(items[TasksKey]).value
    {
      Load(items, inBrowser, TasksKey, codec, [])
    }

    /** `getLinks`. */
    function GetLinks(codec: Codec<seq<LinkItem>>): (links: seq<LinkItem>)
      reads this
      ensures !inBrowser ==> links == []
      ensures LinksKey !in items || items[LinksKey] == "" ==> links == []
      ensures LinksKey in items && codec.parse(items[LinksKey]).None? ==> links == []
      ensures inBrowser && LinksKey in items && items[LinksKey] != "" && codec.parse(items[LinksKey]).Some?
              ==> links == codec.parse(items[LinksKey]).value
    {
      Load(items, inBrowser, LinksKey, codec, [])
    }

    /**
     * `setItem` of one key, inside the savers' try block: `fails` says whether the store
     * throws (quota exceeded, storage disabled); the exception is swallowed.
     */
    method Write(key: string, text: string, fails: bool)
      modifies this
      ensures items == if inBrowser && !fails then old(items)[key := text] else old(items)
      ensures forall k :: k != key ==> (k in items <==> k in old(items))
      ensures forall k :: k != key && k in items ==> items[k] == old(items)[k]
    {
      if !inBrowser {
        return;
      }
      if !fails {
        items := items[key := text];
      }
    }

    /** `saveNotes`; once written, `getSavedNotes` returns exactly `notes`. */
    method SaveNotes(notes: seq<SavedNote>, codec: Codec<seq<SavedNote>>, fails: bool)
      modifies this
      ensures items == if inBrowser && !fails then old(items)[NotesKey := codec.stringify(notes)]
                       else old(items)
      ensures inBrowser && !fails && RoundTrips(codec) ==> GetSavedNotes(codec) == notes
    {
      Write(NotesKey, codec.stringify(notes), fails);
      if inBrowser && !fails && RoundTrips(codec) {
        SaveThenLoad(old(items), NotesKey, codec, notes, []);
      }
    }

    /** `saveDailyCalendarNotes`; once written, `getDailyCalendarNotes` returns exactly `notes`. */
    method SaveDailyCalendarNotes(notes: map<string, string>, codec: Codec<map<string, string>>,
                                  fails: bool)
      modifies this
      ensures items == if inBrowser && !fails
                       then old(items)[DailyCalendarNotesKey := codec.stringify(notes)]
                       else old(items)
      ensures inBrowser && !fails && RoundTrips(codec) ==> GetDailyCalendarNotes(codec) == notes
    {
      Write(DailyCalendarNotesKey, codec.stringify(notes), fails);
      if inBrowser && !fails && RoundTrips(codec) {
        SaveThenLoad(old(items), DailyCalendarNotesKey, codec, notes, map[]);
      }
    }

    /** `saveTasks`; once written, `getTasks` returns exactly `tasks`. */
    method SaveTasks(tasks: seq<Task>, codec: Codec<seq<Task>>, fails: bool)
      modifies this
      ensures items == if inBrowser && !fails then old(items)[TasksKey := codec.stringify(tasks)]
                       else old(items)
      ensures inBrowser && !fails && RoundTrips(codec) ==> GetTasks(codec) == tasks
    {
      Write(TasksKey, codec.stringify(tasks), fails);
      if inBrowser && !fails && RoundTrips(codec) {
        SaveThenLoad(old(items), TasksKey, codec, tasks, []);
      }
    }

    /** `saveLinks`; once written, `getLinks` returns exactly `links`. */
    method SaveLinks(links: seq<LinkItem>, codec: Codec<seq<LinkItem>>, fails: bool)
      modifies this
      ensures items == if inBrowser && !fails then old(items)[LinksKey := codec.stringify(links)]
                       else old(items)
      ensures inBrowser && !fails && RoundTrips(codec) ==> GetLinks(codec) == links
    {
      Write(LinksKey, codec.stringify(links), fails);
      if inBrowser && !fails && RoundTrips(codec) {
        SaveThenLoad(old(items), LinksKey, codec, links, []);
      }
    }

    /**
     * `clearAllOreganoteData`: removes the four keys one after another (a no-op outside a
     * browser); every other key keeps its value.
     */
    method ClearAllOreganoteData()
      modifies this
      ensures items == if inBrowser then old(items) - StorageKeys() else old(items)
      ensures forall k :: k !in StorageKeys() ==> (k in items <==> k in old(items))
      ensures forall k :: k !in StorageKeys() && k in items ==> items[k] == old(items)[k]
      ensures inBrowser ==> forall k :: k in StorageKeys() ==> k !in items
    {
      if !inBrowser {
        return;
      }
      items := items - {NotesKey};
      items := items - {DailyCalendarNotesKey};
      items := items - {TasksKey};
      items := items - {LinksKey};
    }
  }
}
