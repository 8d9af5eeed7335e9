/** The quick-add section (src/components/organisms/QuickAddTaskSection.jsx):
    a collapsible one-line input that sends a new task, due now and filed
    under the page's default category, to the page's add handler. */
module QuickAddView {
  import opened Records
  import opened Text
  import opened Dates
  import opened TaskFilters
  import opened TaskMutations
  import opened TaskServices
  import TodayView
  import UpcomingView

  /** A quick-added task, once stored, is on the today page, and on the
      upcoming page unless it was added at local midnight exactly. */
  lemma QuickAddedTaskIsDueToday(title: string, categoryId: Value, freshId: string, now: int, utcOffset: int)
    ensures var t := NewTaskRecord(QuickAddPayload(title, categoryId, now), freshId, now);
            var clock := Clock(now, utcOffset);
            TodayView.OnToday(t, clock)
            && (UpcomingView.OnUpcoming(t, clock) <==> now != StartOfDay(now, utcOffset))
  {
    var t := NewTaskRecord(QuickAddPayload(title, categoryId, now), freshId, now);
    var clock := Clock(now, utcOffset);
    NewTaskIsActive(QuickAddPayload(title, categoryId, now), freshId, now);
    assert Get(t, "dueDate") == Instant(now);
    assert DueToday(t, clock);
    TodayVersusUpcoming(t, clock);
  }

  class QuickAddSection {
    var showQuickAdd: bool
    var quickTaskTitle: string

    constructor ()
      ensures !showQuickAdd && quickTaskTitle == ""
    {
      showQuickAdd := false;
      quickTaskTitle := "";
    }

    /** `handleAdd`: a blank title sends nothing; otherwise the quick-add
        payload goes to the page's handler and, when that succeeds, the input
        is cleared and hidden. `addError` is the handler's failure, if any;
        on failure the typed title stays. */
    method HandleAdd(defaultCategoryId: Value, now: int, addError: Option<string>) returns (sent: Option<Obj>)
      modifies this`showQuickAdd, this`quickTaskTitle
      ensures sent.None? <==> Trim(old(quickTaskTitle)) == ""
      ensures sent.Some? ==> sent.value == QuickAddPayload(old(quickTaskTitle), defaultCategoryId, now)
      ensures sent.Some? && addError.None? ==> quickTaskTitle == "" && !showQuickAdd
      ensures sent.None? || addError.Some? ==>
                quickTaskTitle == old(quickTaskTitle) && showQuickAdd == old(showQuickAdd)
    {
      if Trim(quickTaskTitle) == "" {
        return None;
      }
      sent := Some(QuickAddPayload(quickTaskTitle, defaultCategoryId, now));
      if addError.None? {
        quickTaskTitle := "";
        showQuickAdd := false;
      }
    }

    /** The "Add new task" button shows the input. */
    method Open()
      modifies this`showQuickAdd
      ensures showQuickAdd
    {
      showQuickAdd := true;
    }

    /** The cancel button hides the input and keeps the typed title. */
    method Cancel()
      modifies this`showQuickAdd
      ensures !showQuickAdd
    {
      showQuickAdd := false;
    }

    /** Typing into the input. */
    method SetTitle(value: string)
      modifies this`quickTaskTitle
      ensures quickTaskTitle == value
    {
      quickTaskTitle := value;
    }
  }
}
