/**
 * The page's controller: the two storage keys, the module-level
 * `currentFilter` and `taskBeingEdited`, the edit overlay and the
 * clear-completed button, with one method per event handler. Every handler
 * reads the whole list, transforms it with a function of TaskList and
 * writes it back, so each method's contract ties the new `stored` to that
 * function of the old one.
 */
module TaskApp {
  import opened Wrappers
  import opened JsString
  import opened TaskList
  import JsArray

  /** The text both validation guards show. */
  const InvalidTaskMessage := "Please enter a valid task"

  /** Where a click on a task row lands. */
  datatype RowTarget = Body | EditIcon | DeleteIcon

  class TaskStore {
    /** The parsed `tasks` key. Every read defaults a missing key to `[]`, so removing the key is storing `[]`. */
    var stored: seq<Entry>
    /** The `filter` key. */
    var savedFilter: Option<string>
    /** `currentFilter`. */
    var filter: ViewFilter
    /** `taskBeingEdited`. */
    var editing: Option<int>
    /** Whether the edit overlay carries the `show` class. */
    var overlayOpen: bool
    /** The clear-completed button's `disabled` property. */
    var clearCompletedDisabled: bool

    /** After loading, storage holds tasks only. */
    predicate Valid()
      reads this
    {
      WellFormed(stored)
    }

    /** The script's top level: the state before the page has loaded, read from storage and the markup. */
    constructor (persisted: seq<Entry>, persistedFilter: Option<string>, markupDisabled: bool)
      ensures stored == persisted && savedFilter == persistedFilter
      ensures filter == InitialFilter(persistedFilter)
      ensures editing == None && !overlayOpen
      ensures clearCompletedDisabled == markupDisabled
    {
      stored := persisted;
      savedFilter := persistedFilter;
      filter := InitialFilter(persistedFilter);
      editing := None;
      overlayOpen := false;
      clearCompletedDisabled := markupDisabled;
    }

    /** `checkCompletedStatus`: the button is disabled exactly when no task is completed. */
    method CheckCompletedStatus()
      requires Valid()
      modifies this`clearCompletedDisabled
      ensures clearCompletedDisabled <==> forall e :: e in stored ==> !e.CompletedTruthy()
    {
      clearCompletedDisabled := !HasCompleted(stored);
    }

    /** The load handler: sanitise storage, write it back and render with the current filter. */
    method Load()
      modifies this`stored, this`clearCompletedDisabled
      ensures Valid()
      ensures stored == Sanitise(old(stored))
      ensures clearCompletedDisabled == !HasCompleted(stored)
    {
      stored := Sanitise(stored);
      CheckCompletedStatus();
    }

    /** What `filterTasks` renders: the stored entries the current filter shows, in storage order. */
    function VisibleTasks(): (r: seq<Entry>)
      reads this
      requires Valid()
      ensures filter.All? ==> r == stored
      ensures filter.Unknown? ==> r == []
      ensures filter.Completed? ==> forall e :: e in r <==> e in stored && e.CompletedTruthy()
      ensures filter.Pending? ==> forall e :: e in r <==> e in stored && !e.CompletedTruthy()
      ensures JsArray.IsSubsequence(r, stored)
    {
      VisibleAllAndUnknown(stored, if filter.Unknown? then filter.name else "");
      Visible(stored, filter)
    }

    /** A filter button click: remember the choice, persist it and render. */
    method SelectFilter(name: string)
      requires Valid()
      modifies this`filter, this`savedFilter, this`clearCompletedDisabled
      ensures filter == ParseFilter(name) && savedFilter == Some(name)
      ensures clearCompletedDisabled == !HasCompleted(stored)
    {
      filter := ParseFilter(name);
      savedFilter := Some(name);
      CheckCompletedStatus();
    }

    /**
     * The add button and the Enter key: blank input only shows the message;
     * otherwise a pending task with the clock reading `now` as id and the
     * input as typed (not trimmed) is appended.
     * Returns the text of the message paragraph.
     */
    method SubmitTask(input: string, now: int) returns (message: string)
      requires Valid()
      modifies this`stored, this`clearCompletedDisabled
      ensures Valid()
      ensures Trim(input) == "" ==>
        message == InvalidTaskMessage && stored == old(stored) &&
        clearCompletedDisabled == old(clearCompletedDisabled)
      ensures Trim(input) != "" ==>
        message == "" && stored == Append(old(stored), Task(now, input, false)) &&
        clearCompletedDisabled == !HasCompleted(stored)
    {
      if Trim(input) == "" {
        message := InvalidTaskMessage;
      } else {
        message := "";
        stored := Append(stored, Task(now, input, false));
        CheckCompletedStatus();
      }
    }

    /** A click on a task row body: flip that task in storage. */
    method ToggleTask(id: int)
      requires Valid()
      modifies this`stored, this`clearCompletedDisabled
      ensures Valid()
      ensures stored == Toggle(old(stored), id)
      ensures clearCompletedDisabled == !HasCompleted(stored)
    {
      ToggleKeepsIds(stored, id);
      stored := Toggle(stored, id);
      CheckCompletedStatus();
    }

    /** The edit icon: open the overlay on that task (retargeting an edit already open). */
    method OpenEdit(id: int)
      modifies this`editing, this`overlayOpen
      ensures editing == Some(id) && overlayOpen
    {
      overlayOpen := true;
      editing := Some(id);
    }

    /** The close icon: hide the overlay; the edited id is kept. */
    method CloseEdit()
      modifies this`overlayOpen
      ensures !overlayOpen
    {
      overlayOpen := false;
    }

    /** A click on the overlay: only a click on the backdrop itself hides it. */
    method ClickOverlay(onBackdrop: bool)
      modifies this`overlayOpen
      ensures overlayOpen == (old(overlayOpen) && !onBackdrop)
    {
      if onBackdrop {
        overlayOpen := false;
      }
    }

    /**
     * The save button and Enter in the edit field: a blank draft only shows
     * the message; otherwise the edited task gets the trimmed draft and the
     * edit session ends. Returns the text of the edit error message.
     */
    method SaveEdit(draft: string) returns (message: string)
      requires Valid()
      modifies this`stored, this`editing, this`overlayOpen, this`clearCompletedDisabled
      ensures Valid()
      ensures Trim(draft) == "" ==>
        message == InvalidTaskMessage && stored == old(stored) && editing == old(editing) &&
        overlayOpen == old(overlayOpen) && clearCompletedDisabled == old(clearCompletedDisabled)
      ensures Trim(draft) != "" ==>
        message == "" && stored == Rename(old(stored), old(editing), Trim(draft)) &&
        editing == None && !overlayOpen && clearCompletedDisabled == !HasCompleted(stored)
    {
      var text := Trim(draft);
      if text == "" {
        message := InvalidTaskMessage;
        return;
      }
      message := "";
      RenameKeepsFlags(stored, editing, text);
      stored := Rename(stored, editing, text);
      overlayOpen := false;
      editing := None;
      CheckCompletedStatus();
    }

    /** `deleteTask`: the button state is not refreshed here. */
    method DeleteTask(id: int)
      requires Valid()
      modifies this`stored
      ensures Valid()
      ensures stored == Delete(old(stored), id)
    {
      stored := Delete(stored, id);
    }

    /** A row click, dispatched as the row and its icons handle it: the icons stop the row's own toggle. */
    method ClickRow(id: int, target: RowTarget)
      requires Valid()
      modifies this`stored, this`clearCompletedDisabled, this`editing, this`overlayOpen
      ensures Valid()
      ensures target == Body ==>
        stored == Toggle(old(stored), id) && clearCompletedDisabled == !HasCompleted(stored) &&
        editing == old(editing) && overlayOpen == old(overlayOpen)
      ensures target == EditIcon ==>
        stored == old(stored) && clearCompletedDisabled == old(clearCompletedDisabled) &&
        editing == Some(id) && overlayOpen
      ensures target == DeleteIcon ==>
        stored == Delete(old(stored), id) && clearCompletedDisabled == old(clearCompletedDisabled) &&
        editing == old(editing) && overlayOpen == old(overlayOpen)
    {
      match target
      case Body => ToggleTask(id);
      case EditIcon => OpenEdit(id);
      case DeleteIcon => DeleteTask(id);
    }

    /** The clear-all button: with the user's confirmation the key is removed; the button state is not refreshed. */
    method ClearAll(confirmed: bool)
      requires Valid()
      modifies this`stored
      ensures Valid()
      ensures stored == if confirmed then [] else old(stored)
    {
      if confirmed {
        stored := [];
      }
    }

    /** The clear-completed button: keep the pending tasks; afterwards the button is disabled. */
    method ClearCompletedTasks()
      requires Valid()
      modifies this`stored, this`clearCompletedDisabled
      ensures Valid()
      ensures stored == ClearCompleted(old(stored))
      ensures clearCompletedDisabled
    {
      ClearCompletedClears(stored);
      stored := ClearCompleted(stored);
      CheckCompletedStatus();
    }
  }
}
