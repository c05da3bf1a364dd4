/** Sessions with the page, replayed against the TaskApp contracts and the TaskList lemmas. */
module Scenarios {
  import opened Wrappers
  import opened JsString
  import opened TaskList
  import opened TaskApp
  import JsArray

  /** Storage seeded with one task and one object without an id: loading keeps the task only. */
  method LoadDropsBadEntry() {
    var good := Item(Task(1, "x", false));
    var bad := Malformed(true, false);
    var store := new TaskStore([good, bad], None, false);
    store.Load();
    assert [good, bad][1..] == [bad] && [bad][1..] == [];
    assert JsArray.Filter([bad], Loadable) == JsArray.Filter([], Loadable) == [];
    assert Sanitise([good, bad]) == [good] + JsArray.Filter([bad], Loadable);
    assert store.stored == [good];
    assert store.filter == All && store.VisibleTasks() == [good];
  }

  /** Toggling the only task completes it. */
  lemma ToggleOne(t: Task)
    ensures Toggle([Item(t)], t.id) == [Item(t.(completed := !t.completed))]
  {
    ToggleFrame([Item(t)], t.id, 0);
  }

  /** A single completed task: the `pending` view is empty, the `completed` view shows it, clearing removes it. */
  lemma OneCompleted(t: Task)
    requires t.completed
    ensures Visible([Item(t)], Pending) == []
    ensures Visible([Item(t)], Completed) == [Item(t)]
    ensures ClearCompleted([Item(t)]) == []
  {
    var es := [Item(t)];
    assert es[1..] == [];
    assert JsArray.Filter(es, Shows(Pending)) == JsArray.Filter([], Shows(Pending));
    assert JsArray.Filter(es, Shows(Completed)) == [Item(t)] + JsArray.Filter([], Shows(Completed));
    assert JsArray.Filter(es, Uncompleted) == JsArray.Filter([], Uncompleted);
  }

  /** "buy milk" has no white space at either end, so it is not blank. */
  lemma BuyMilkNotBlank()
    ensures Trim("buy milk") == "buy milk" != ""
  {
    assert "buy milk"[0] == 'b' && "buy milk"[|"buy milk"| - 1] == 'k';
    TrimUnchanged("buy milk");
  }

  /** Add a non-blank task (such as "buy milk", see BuyMilkNotBlank) to empty storage, then complete it, look at both views and clear it. */
  method BuyMilk(text: string, t1: int)
    requires Trim(text) != ""
  {
    var store := new TaskStore([], None, true);
    store.Load();
    assert store.stored == [];
    var message := store.SubmitTask(text, t1);
    assert message == "" && store.stored == [Item(Task(t1, text, false))];
    CompleteViewClear(store, Task(t1, text, false));
  }

  /** The second half of BuyMilk, on a store holding one pending task. */
  method CompleteViewClear(store: TaskStore, t: Task)
    requires store.stored == [Item(t)] && !t.completed
    modifies store
  {
    var done := t.(completed := true);
    ToggleOne(t);
    OneCompleted(done);
    store.ToggleTask(t.id);
    assert store.stored == [Item(done)];
    assert !store.clearCompletedDisabled by {
      assert Item(done) in store.stored;
    }
    store.SelectFilter("pending");
    assert store.VisibleTasks() == [];
    store.SelectFilter("completed");
    assert store.VisibleTasks() == [Item(done)];
    store.ClearCompletedTasks();
    assert store.stored == [] && store.clearCompletedDisabled;
  }

  /** The empty string and three spaces are blank. */
  lemma BlankStrings()
    ensures Trim("") == "" && Trim("   ") == ""
  {
    assert IsWhiteSpace("   "[0]) && IsWhiteSpace("   "[1]) && IsWhiteSpace("   "[2]);
    TrimEmptyIff("   ");
    TrimEmptyIff("");
  }

  /** Blank input (such as those of BlankStrings) on either guard changes nothing and shows the message; closing the overlay keeps the edited id. */
  method BlankInputRejected(blank: string, now: int)
    requires Trim(blank) == ""
  {
    var store := new TaskStore([], Some("pending"), false);
    store.Load();
    assert store.filter == Pending;
    var m1 := store.SubmitTask(blank, now);
    store.OpenEdit(now);
    var m2 := store.SaveEdit(blank);
    assert m1 == m2 == InvalidTaskMessage;
    assert store.stored == [] && store.editing == Some(now) && store.overlayOpen;
    store.CloseEdit();
    assert store.editing == Some(now) && !store.overlayOpen;
  }
}
