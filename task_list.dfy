/**
 * The task list as the page keeps it under the `tasks` storage key, and the
 * list transformations its event handlers apply to it. Each transformation is
 * the callback the handler hands to `filter`, `map` or `some`, applied to the
 * array `JSON.parse` produced, so the raw entries a tampered or outdated
 * store can hold (null, objects without a numeric id) are modelled too.
 */
module TaskList {
  import opened Wrappers
  import opened JsArray

  /** A stored task: `{id, userText, completed}`; `id` is the creation time in milliseconds. */
  datatype Task = Task(id: int, userText: string, completed: bool)

  /**
   * One element of the parsed `tasks` array: `null`, a value without a numeric
   * `id` (described by its own truthiness and that of its `completed`
   * property), or a task.
   */
  datatype Entry =
    | Null
    | Malformed(truthy: bool, completedFlag: bool)
    | Item(task: Task)
  {
    /** JavaScript truthiness of the entry itself; objects are always truthy. */
    predicate Truthy() {
      match this
      case Null => false
      case Malformed(t, _) => t
      case Item(_) => true
    }

    /** Truthiness of `entry.completed`. Reading it from `null` throws; every list operation that does so excludes `Null`. */
    predicate CompletedTruthy() {
      match this
      case Null => false
      case Malformed(_, c) => c
      case Item(t) => t.completed
    }

    /** `entry.id === id` for a numeric `id`: only a task has a numeric id. */
    predicate HasId(id: int) {
      Item? && task.id == id
    }
  }

  /** Every entry is a task: what loading leaves in storage and every handler keeps. */
  predicate WellFormed(es: seq<Entry>) {
    forall e :: e in es ==> e.Item?
  }

  /** No two tasks share an id. */
  ghost predicate UniqueIds(es: seq<Entry>) {
    forall i, j :: 0 <= i < j < |es| && es[i].Item? && es[j].Item? ==> es[i].task.id != es[j].task.id
  }

  // ---------------------------------------------------------------------------
  // Loading

  /** The load filter: `task && typeof task.id === 'number'`. */
  predicate Loadable(e: Entry) {
    e.Truthy() && e.Item?
  }

  /** The list the page writes back on load: the loadable entries in their original order. */
  function Sanitise(es: seq<Entry>): (r: seq<Entry>)
    ensures WellFormed(r)
    ensures forall e :: e in r <==> e in es && e.Item?
  {
    Filter(es, Loadable)
  }

  lemma SanitiseKeepsOrder(es: seq<Entry>)
    ensures IsSubsequence(Sanitise(es), es)
    ensures forall e :: multiset(Sanitise(es))[e] == if e.Item? then multiset(es)[e] else 0
  {
    FilterIsSubsequence(es, Loadable);
    forall e ensures multiset(Sanitise(es))[e] == if e.Item? then multiset(es)[e] else 0 {
      FilterCount(es, Loadable, e);
    }
  }

  /** Loading is self-healing only once: a sanitised list is left as it is. */
  lemma SanitiseIdempotent(es: seq<Entry>)
    ensures Sanitise(Sanitise(es)) == Sanitise(es)
  {
    FilterIdempotent(es, Loadable);
  }

  /** Saving and loading round-trips exactly the well-formed lists. */
  lemma SanitiseUnchangedIff(es: seq<Entry>)
    ensures Sanitise(es) == es <==> WellFormed(es)
  {
    FilterUnchangedIff(es, Loadable);
  }

  // ---------------------------------------------------------------------------
  // Adding

  /** `tasks.push(task)`. */
  function Append(es: seq<Entry>, t: Task): (r: seq<Entry>)
    ensures |r| == |es| + 1 && r[..|es|] == es && r[|es|] == Item(t)
  {
    es + [Item(t)]
  }

  /**
   * Appending the task `addTask` builds keeps the list well formed whatever
   * the clock reads, and keeps ids unique when the clock has moved past every
   * stored id (`Date.now()` can also go backwards).
   */
  lemma AppendKeepsInvariants(es: seq<Entry>, now: int, input: string)
    ensures WellFormed(es) ==> WellFormed(Append(es, Task(now, input, false)))
    ensures UniqueIds(es) && (forall e :: e in es && e.Item? ==> e.task.id < now) ==>
      UniqueIds(Append(es, Task(now, input, false)))
  {
    var r := Append(es, Task(now, input, false));
    if UniqueIds(es) && forall e :: e in es && e.Item? ==> e.task.id < now {
      forall i, j | 0 <= i < j < |r| && r[i].Item? && r[j].Item?
        ensures r[i].task.id != r[j].task.id
      {
        if j == |es| {
          assert r[i] == es[i] && es[i] in es;
        } else {
          assert r[i] == es[i] && r[j] == es[j];
        }
      }
    }
  }

  // ---------------------------------------------------------------------------
  // Toggling

  /** The toggle callback: flip `completed` on the entry whose id matches. */
  function Flip(id: int): Entry -> Entry {
    (e: Entry) => if e.HasId(id) then Item(e.task.(completed := !e.task.completed)) else e
  }

  /**
   * The row-click toggle's `map` (`t.id` of a `null` entry would throw). It
   * keeps the length, adds no `null` and keeps every task at its position
   * with its id; ToggleFrame says what happens to each entry.
   */
  function Toggle(es: seq<Entry>, id: int): (r: seq<Entry>)
    requires Null !in es
    ensures |r| == |es| && Null !in r
    ensures forall i :: 0 <= i < |es| ==> (r[i].HasId(id) <==> es[i].HasId(id))
  {
    var r := Map(es, Flip(id));
    assert Null !in r by {
      forall i | 0 <= i < |r| ensures r[i] != Null { assert es[i] in es; }
    }
    r
  }

  /**
   * Toggle flips `completed` on exactly the tasks with that id and leaves
   * their id and text, every other entry, the length and the order alone.
   */
  lemma ToggleFrame(es: seq<Entry>, id: int, i: int)
    requires Null !in es
    requires 0 <= i < |es|
    ensures |Toggle(es, id)| == |es|
    ensures es[i].HasId(id) ==>
      Toggle(es, id)[i].Item? &&
      Toggle(es, id)[i].task == es[i].task.(completed := !es[i].task.completed)
    ensures !es[i].HasId(id) ==> Toggle(es, id)[i] == es[i]
  {
  }

  /** Toggling the same task twice restores the list. */
  lemma ToggleTwice(es: seq<Entry>, id: int)
    requires Null !in es
    ensures Toggle(Toggle(es, id), id) == es
  {
    MapInvolution(es, Flip(id));
  }

  /** Toggles of two tasks do not interfere. */
  lemma ToggleCommutes(es: seq<Entry>, a: int, b: int)
    requires Null !in es
    ensures Toggle(Toggle(es, a), b) == Toggle(Toggle(es, b), a)
  {
    ToggleTwice(es, a);
    ToggleTwice(es, b);
  }

  /** Toggling keeps the list well formed and every id where it was. */
  lemma ToggleKeepsIds(es: seq<Entry>, id: int)
    requires Null !in es
    ensures WellFormed(es) ==> WellFormed(Toggle(es, id))
    ensures forall i :: 0 <= i < |es| ==> Toggle(es, id)[i].Item? == es[i].Item?
    ensures forall i :: 0 <= i < |es| && es[i].Item? ==> Toggle(es, id)[i].task.id == es[i].task.id
  {
    var r := Toggle(es, id);
    if WellFormed(es) {
      forall e | e in r ensures e.Item? {
        var i :| 0 <= i < |r| && r[i] == e;
        assert es[i] in es;
      }
    }
  }

  // ---------------------------------------------------------------------------
  // Editing

  /** The save-edit callback: `task && task.id === taskBeingEdited` gets the new text. */
  function Retext(editing: Option<int>, text: string): Entry -> Entry {
    (e: Entry) => if e.Truthy() && editing.Some? && e.HasId(editing.value) then Item(e.task.(userText := text)) else e
  }

  /**
   * The save-edit handler's `map`. It keeps the length and every entry's
   * `completed` flag; RenameFrame says what happens to each entry.
   */
  function Rename(es: seq<Entry>, editing: Option<int>, text: string): (r: seq<Entry>)
    ensures |r| == |es|
    ensures forall i :: 0 <= i < |es| ==> r[i].CompletedTruthy() == es[i].CompletedTruthy()
  {
    Map(es, Retext(editing, text))
  }

  /**
   * Saving an edit gives the new text to exactly the tasks with the edited id
   * and changes nothing else: ids and `completed` flags stay, other entries
   * stay, and with no edit open nothing changes.
   */
  lemma RenameFrame(es: seq<Entry>, editing: Option<int>, text: string, i: int)
    requires 0 <= i < |es|
    ensures |Rename(es, editing, text)| == |es|
    ensures editing.Some? && es[i].HasId(editing.value) ==>
      Rename(es, editing, text)[i] == Item(Task(es[i].task.id, text, es[i].task.completed))
    ensures !(editing.Some? && es[i].HasId(editing.value)) ==> Rename(es, editing, text)[i] == es[i]
  {
  }

  /** Saving the same text twice is saving it once. */
  lemma RenameIdempotent(es: seq<Entry>, editing: Option<int>, text: string)
    ensures Rename(Rename(es, editing, text), editing, text) == Rename(es, editing, text)
  {
    var r := Rename(es, editing, text);
    forall i | 0 <= i < |es| ensures Rename(r, editing, text)[i] == r[i] {
      RenameFrame(es, editing, text, i);
      RenameFrame(r, editing, text, i);
    }
  }

  /** Renaming keeps the list well formed and changes no `completed` flag, so no view membership either. */
  lemma RenameKeepsFlags(es: seq<Entry>, editing: Option<int>, text: string)
    ensures WellFormed(es) ==> WellFormed(Rename(es, editing, text))
    ensures Null !in es ==> Null !in Rename(es, editing, text)
    ensures forall i :: 0 <= i < |es| ==> Rename(es, editing, text)[i].CompletedTruthy() == es[i].CompletedTruthy()
  {
    var r := Rename(es, editing, text);
    forall e | e in r ensures (e.Item? <== (WellFormed(es))) && (e != Null <== Null !in es) {
      var i :| 0 <= i < |r| && r[i] == e;
      assert es[i] in es;
    }
  }

  // ---------------------------------------------------------------------------
  // Deleting

  /** The delete callback: `task !== null && task.id !== id`. */
  function Survives(id: int): Entry -> bool {
    (e: Entry) => e != Null && !e.HasId(id)
  }

  /** `deleteTask`'s `filter`. */
  function Delete(es: seq<Entry>, id: int): (r: seq<Entry>)
    ensures Null !in r
    ensures forall e :: e in r ==> !e.HasId(id)
    ensures forall e :: e in es && e != Null && !e.HasId(id) ==> e in r
  {
    Filter(es, Survives(id))
  }

  /** The survivors of a delete keep their relative order and their multiplicity. */
  lemma DeleteKeepsOrder(es: seq<Entry>, id: int)
    ensures IsSubsequence(Delete(es, id), es)
    ensures forall e :: e != Null && !e.HasId(id) ==> multiset(Delete(es, id))[e] == multiset(es)[e]
  {
    FilterIsSubsequence(es, Survives(id));
    forall e | e != Null && !e.HasId(id) ensures multiset(Delete(es, id))[e] == multiset(es)[e] {
      FilterCount(es, Survives(id), e);
    }
  }

  /** Deleting twice is deleting once. */
  lemma DeleteIdempotent(es: seq<Entry>, id: int)
    ensures Delete(Delete(es, id), id) == Delete(es, id)
  {
    FilterIdempotent(es, Survives(id));
  }

  /** Deleting keeps the list well formed. */
  lemma DeleteKeepsWellFormed(es: seq<Entry>, id: int)
    requires WellFormed(es)
    ensures WellFormed(Delete(es, id))
  {
  }

  // ---------------------------------------------------------------------------
  // Viewing

  /** The value of `currentFilter`: one of the three filter buttons, or any other string. */
  datatype ViewFilter = All | Completed | Pending | Unknown(name: string)

  /** The three names the view recognises. */
  predicate IsKnownName(name: string) {
    name == "all" || name == "completed" || name == "pending"
  }

  /** Reads a filter name as `filterTasks` compares it. */
  function ParseFilter(name: string): (f: ViewFilter)
    ensures f.Unknown? <==> !IsKnownName(name)
    ensures f.Unknown? ==> f.name == name
  {
    if name == "all" then All
    else if name == "completed" then Completed
    else if name == "pending" then Pending
    else Unknown(name)
  }

  /** The string a filter is stored as. */
  function FilterName(f: ViewFilter): string {
    match f
    case All => "all"
    case Completed => "completed"
    case Pending => "pending"
    case Unknown(name) => name
  }

  /** A filter value `ParseFilter` can produce. */
  predicate Canonical(f: ViewFilter) {
    f.Unknown? ==> !IsKnownName(f.name)
  }

  /** Names and canonical filters correspond one to one. */
  lemma FilterNameRoundTrip(name: string, f: ViewFilter)
    ensures FilterName(ParseFilter(name)) == name
    ensures Canonical(f) ==> ParseFilter(FilterName(f)) == f
  {
  }

  /** `localStorage.getItem('filter') || 'all'`: the filter the page starts with. */
  function InitialFilter(saved: Option<string>): (f: ViewFilter)
    ensures saved.None? || saved == Some("") ==> f == All
    ensures saved.Some? && saved.value != "" ==> f == ParseFilter(saved.value)
    ensures Canonical(f)
  {
    if saved.None? || saved.value == "" then All else ParseFilter(saved.value)
  }

  /** A chosen filter survives a reload unless its name is empty, which `|| 'all'` replaces. */
  lemma InitialFilterRestores(name: string)
    ensures InitialFilter(Some(name)) == ParseFilter(name) <==> name != ""
  {
    if name == "" {
      assert ParseFilter(name) == Unknown("");
    }
  }

  /** The `filterTasks` callback; an unrecognised filter returns `undefined`, which drops the entry. */
  function Shows(f: ViewFilter): Entry -> bool {
    (e: Entry) => match f
               case All => true
               case Completed => e.CompletedTruthy()
               case Pending => !e.CompletedTruthy()
               case Unknown(_) => false
  }

  /**
   * `filterTasks`'s projection; the `completed` and `pending` callbacks read
   * `task.completed`, which throws on `null`. What it shows is a sublist of
   * the stored list in storage order; VisibleAllAndUnknown and
   * VisiblePartition say which sublist.
   */
  function Visible(es: seq<Entry>, f: ViewFilter): (r: seq<Entry>)
    requires f.All? || f.Unknown? || Null !in es
    ensures IsSubsequence(r, es)
  {
    FilterIsSubsequence(es, Shows(f));
    Filter(es, Shows(f))
  }

  /** `all` shows the whole list and an unknown filter shows nothing. */
  lemma VisibleAllAndUnknown(es: seq<Entry>, name: string)
    ensures Visible(es, All) == es
    ensures Visible(es, Unknown(name)) == []
  {
    FilterUnchangedIff(es, Shows(All));
    FilterEmptyIff(es, Shows(Unknown(name)));
  }

  /**
   * `completed` and `pending` show the order-preserving sublists of completed
   * and of pending entries, and between them every entry exactly once.
   */
  lemma VisiblePartition(es: seq<Entry>)
    requires Null !in es
    ensures IsSubsequence(Visible(es, Completed), es) && IsSubsequence(Visible(es, Pending), es)
    ensures forall e :: e in Visible(es, Completed) <==> e in es && e.CompletedTruthy()
    ensures forall e :: e in Visible(es, Pending) <==> e in es && !e.CompletedTruthy()
    ensures multiset(Visible(es, Completed)) + multiset(Visible(es, Pending)) == multiset(es)
  {
    FilterIsSubsequence(es, Shows(Completed));
    FilterIsSubsequence(es, Shows(Pending));
    FilterPartition(es, Shows(Completed), Shows(Pending));
  }

  // ---------------------------------------------------------------------------
  // Clearing and the has-completed query

  /** The clear-completed callback: `task && !task.completed`. */
  predicate Uncompleted(e: Entry) {
    e.Truthy() && !e.CompletedTruthy()
  }

  /** The clear-completed handler's `filter`. */
  function ClearCompleted(es: seq<Entry>): (r: seq<Entry>)
    ensures Null !in r
    ensures forall e :: e in r <==> e in es && e.Truthy() && !e.CompletedTruthy()
  {
    Filter(es, Uncompleted)
  }

  /** `checkCompletedStatus`'s `some` (`task.completed` throws on `null`). */
  function HasCompleted(es: seq<Entry>): (b: bool)
    requires Null !in es
    ensures b <==> exists e :: e in es && e.CompletedTruthy()
  {
    Any(es, (e: Entry) => e.CompletedTruthy())
  }

  /** After clearing the completed tasks none is left, so the control is disabled; clearing again changes nothing. */
  lemma ClearCompletedClears(es: seq<Entry>)
    ensures !HasCompleted(ClearCompleted(es))
    ensures ClearCompleted(ClearCompleted(es)) == ClearCompleted(es)
  {
    FilterIdempotent(es, Uncompleted);
  }

  /** On a well-formed list, clear-completed keeps exactly what the `pending` view shows. */
  lemma ClearCompletedIsPendingView(es: seq<Entry>)
    requires WellFormed(es)
    ensures ClearCompleted(es) == Visible(es, Pending)
  {
    FilterCongruent(es, Uncompleted, Shows(Pending));
  }

  /** The has-completed query is true exactly when the `completed` view is non-empty. */
  lemma HasCompletedIffVisible(es: seq<Entry>)
    requires Null !in es
    ensures HasCompleted(es) <==> Visible(es, Completed) != []
  {
    FilterEmptyIff(es, Shows(Completed));
  }
}
