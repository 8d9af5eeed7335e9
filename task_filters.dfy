/** The per-task tests that the views, the archive pages and the task service
    combine into their selections. */
module TaskFilters {
  import opened Records
  import opened Dates
  import opened Text
  import opened Seqs

  /** The task's `archived` field is truthy. */
  predicate IsArchived(t: Obj)
  {
    Truthy(Get(t, "archived"))
  }

  /** The task is not archived. */
  predicate IsActive(t: Obj)
  {
    !IsArchived(t)
  }

  /** The task's `completed` field is truthy. */
  predicate IsCompleted(t: Obj)
  {
    Truthy(Get(t, "completed"))
  }

  /** Completed and not archived: what the task service's completed query returns. */
  predicate IsCompletedActive(t: Obj)
  {
    IsCompleted(t) && !IsArchived(t)
  }

  /** Archived or completed: what the archive pages load. */
  predicate InArchiveSelection(t: Obj)
  {
    IsArchived(t) || IsCompleted(t)
  }

  /** `completedAt` holds a timestamp. */
  predicate HasCompletionTime(t: Obj)
  {
    Get(t, "completedAt").Instant?
  }

  /** The soft invariant the toggle handlers maintain: a completion time is
      recorded exactly when the task is completed. */
  predicate CompletionConsistent(t: Obj)
  {
    HasCompletionTime(t) <==> IsCompleted(t)
  }

  /** The today test: the due date is set, parses, and falls in the 24-hour
      window that starts at today's local midnight. */
  function DueToday(t: Obj, clock: Clock): (b: bool)
    ensures var due := Get(t, "dueDate");
            var m := StartOfDay(clock.now, clock.utcOffset);
            b <==> Truthy(due) && DateOf(due).Some? && m <= DateOf(due).value < m + DayMs
  {
    var due := Get(t, "dueDate");
    Truthy(due) && DateOf(due).Some? && IsToday(DateOf(due).value, clock)
  }

  /** The upcoming test: the due date is set, parses, and lies strictly after
      today's local midnight. That is every task due today except one due at
      midnight itself, together with every task due on a later day. */
  function DueAfterStartOfToday(t: Obj, clock: Clock): (b: bool)
    ensures var due := Get(t, "dueDate");
            var m := StartOfDay(clock.now, clock.utcOffset);
            b <==> (DueToday(t, clock) && DateOf(due).value != m)
                   || (Truthy(due) && DateOf(due).Some? && DateOf(due).value >= m + DayMs)
  {
    var due := Get(t, "dueDate");
    Truthy(due) && DateOf(due).Some? && DateOf(due).value > StartOfDay(clock.now, clock.utcOffset)
  }

  /** A string field contains the query, both lower-cased; a missing or
      non-string field matches nothing. */
  predicate TextIncludes(v: Value, query: string)
  {
    v.Str? && Includes(ToLower(v.s), ToLower(query))
  }

  /** The search test: the title is a string, and the lower-cased title or
      description contains the lower-cased query. Every task with a string
      title matches the empty query. */
  function MatchesQuery(t: Obj, query: string): (b: bool)
    ensures b ==> Get(t, "title").Str?
    ensures Get(t, "title").Str? && query == "" ==> b
  {
    var title := Get(t, "title");
    if !title.Str? then false
    else
      assert query == "" ==> OccursAt(ToLower(title.s), ToLower(query), 0);
      TextIncludes(title, query) || TextIncludes(Get(t, "description"), query)
  }

  /** The search ignores the case of the query. */
  lemma SearchIgnoresQueryCase(t: Obj, query: string)
    ensures MatchesQuery(t, query) <==> MatchesQuery(t, ToLower(query))
  {
    ToLowerIdempotent(query);
  }

  /** Today and upcoming overlap: among tasks due today, the upcoming test
      drops exactly the one due at local midnight itself. */
  lemma TodayVersusUpcoming(t: Obj, clock: Clock)
    requires DueToday(t, clock)
    ensures DueAfterStartOfToday(t, clock)
            <==> DateOf(Get(t, "dueDate")).value != StartOfDay(clock.now, clock.utcOffset)
  {
  }

  /** A task due on a later day is upcoming and not due today. */
  lemma LaterDayIsUpcomingOnly(t: Obj, clock: Clock)
    requires Truthy(Get(t, "dueDate")) && DateOf(Get(t, "dueDate")).Some?
    requires DateOf(Get(t, "dueDate")).value >= StartOfDay(clock.now, clock.utcOffset) + DayMs
    ensures DueAfterStartOfToday(t, clock) && !DueToday(t, clock)
  {
  }

  /** The non-archived tasks: the all-tasks page's load filter. */
  function ActiveTasks(tasks: seq<Obj>): (r: seq<Obj>)
    ensures Selects(r, tasks, IsActive)
  {
    FilterSelects(tasks, IsActive);
    Filter(tasks, IsActive)
  }

  /** The tasks that are archived or completed: the archive pages' load filter. */
  function ArchiveSelection(tasks: seq<Obj>): (r: seq<Obj>)
    ensures Selects(r, tasks, InArchiveSelection)
  {
    FilterSelects(tasks, InArchiveSelection);
    Filter(tasks, InArchiveSelection)
  }
}
