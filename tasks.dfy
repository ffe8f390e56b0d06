/**
 * The heavy-cleaning task store: the task records, the form-submit,
 * clean-toggle and remove handlers as operations on the task list, the
 * filtered and date-sorted list that the task table shows, the class given
 * to each table row, and the distinct values offered by the filter drop-down.
 */
module Tasks {
  import opened Wrappers
  import opened Strings
  import opened Seqs

  /** The seven cleaning types the form and the type filter offer. */
  const CleaningTypes: seq<string> := [
    "Compartment General Cleaning (3 days)",
    "EMU Cab Wax Polishing (120 days)",
    "Compartment Heavy Floor Cleaning (45 days)",
    "Compartment Heavy Cleaning (90 days)",
    "Cab Front Cleaning (45 days)",
    "Exterior Car-body Cleaning (90 days)",
    "Compartment Pest Control (Monthly)"
  ]

  const Cleaned: string := "Cleaned"
  const Uncleaned: string := "Uncleaned"

  /**
   * A task record. `scheduledTime` is an ISO `YYYY-MM-DD` date; `cleanedDate`
   * is `None` while the property has never been set.
   */
  datatype Task = Task(
    trainModel: string,
    scheduledTime: string,
    cleaningType: string,
    cleanStatus: string,
    cleanedDate: Option<string>)

  function ScheduledTime(t: Task): string
  {
    t.scheduledTime
  }

  /** The cleaned date as the table shows it; an absent date shows as empty. */
  function CleanedDateText(t: Task): string
  {
    match t.cleanedDate
    case None => ""
    case Some(d) => d
  }

  /** The status is one of the two the handlers write, and a date is shown exactly when cleaned. */
  predicate WellFormed(t: Task)
  {
    && (t.cleanStatus == Cleaned || t.cleanStatus == Uncleaned)
    && (CleanedDateText(t) != "" <==> t.cleanStatus == Cleaned)
  }

  // ---------------------------------------------------------------- add

  /** The submit handler: append the form's task, then sort the list by date. */
  function AddTask(tasks: seq<Task>, trainModel: string, scheduledTime: string, cleaningType: string): (r: seq<Task>)
    ensures |r| == |tasks| + 1
    ensures multiset(r) == multiset(tasks) + multiset{Task(trainModel, scheduledTime, cleaningType, Uncleaned, None)}
    ensures SortedBy(r, ScheduledTime)
  {
    SortBy(tasks + [Task(trainModel, scheduledTime, cleaningType, Uncleaned, None)], ScheduledTime)
  }

  /**
   * Into a date-sorted list, the new task goes after every task scheduled on or
   * before its date and before every task scheduled later; the old tasks keep
   * their order.
   */
  lemma AddTaskPlacement(tasks: seq<Task>, trainModel: string, scheduledTime: string, cleaningType: string)
    requires SortedBy(tasks, ScheduledTime)
    ensures var t := Task(trainModel, scheduledTime, cleaningType, Uncleaned, None);
      var p := InsertionPoint(tasks, t, ScheduledTime);
      && AddTask(tasks, trainModel, scheduledTime, cleaningType) == tasks[..p] + [t] + tasks[p..]
      && (forall i :: 0 <= i < p ==> !Less(scheduledTime, tasks[i].scheduledTime))
      && (forall i :: p <= i < |tasks| ==> Less(scheduledTime, tasks[i].scheduledTime))
  {
    var t := Task(trainModel, scheduledTime, cleaningType, Uncleaned, None);
    SortByAppend(tasks, t, ScheduledTime);
    InsertAt(tasks, t, ScheduledTime);
  }

  /** Adding keeps every task well formed. */
  lemma AddTaskWellFormed(tasks: seq<Task>, trainModel: string, scheduledTime: string, cleaningType: string)
    requires forall t :: t in tasks ==> WellFormed(t)
    ensures forall t :: t in AddTask(tasks, trainModel, scheduledTime, cleaningType) ==> WellFormed(t)
  {
    var n := Task(trainModel, scheduledTime, cleaningType, Uncleaned, None);
    var r := AddTask(tasks, trainModel, scheduledTime, cleaningType);
    forall t | t in r ensures WellFormed(t) {
      assert t in multiset(r);
      assert t in multiset(tasks) || t == n;
    }
  }

  // ------------------------------------------------------------- toggle

  /** The clean-check handler's update of one task; `now` is the current ISO date. */
  function Toggled(t: Task, now: string): (r: Task)
    ensures r.trainModel == t.trainModel && r.scheduledTime == t.scheduledTime && r.cleaningType == t.cleaningType
    ensures r.cleanStatus == Cleaned <==> t.cleanStatus == Uncleaned
    ensures r.cleanStatus == Cleaned || r.cleanStatus == Uncleaned
    ensures r.cleanStatus == Cleaned ==> r.cleanedDate == Some(now)
    ensures r.cleanStatus == Uncleaned ==> r.cleanedDate == Some("")
  {
    if t.cleanStatus == Uncleaned then t.(cleanStatus := Cleaned, cleanedDate := Some(now))
    else t.(cleanStatus := Uncleaned, cleanedDate := Some(""))
  }

  /** Toggling twice gives back the status; a task that started uncleaned ends with an empty date. */
  lemma ToggleTwice(t: Task, now: string, later: string)
    requires t.cleanStatus == Cleaned || t.cleanStatus == Uncleaned
    ensures Toggled(Toggled(t, now), later).cleanStatus == t.cleanStatus
    ensures t.cleanStatus == Uncleaned ==> Toggled(Toggled(t, now), later).cleanedDate == Some("")
    ensures t.cleanStatus == Cleaned ==> Toggled(Toggled(t, now), later).cleanedDate == Some(later)
  {
  }

  /** With a non-empty current date a toggled task is well formed. */
  lemma ToggledWellFormed(t: Task, now: string)
    requires now != ""
    ensures WellFormed(Toggled(t, now))
  {
  }

  /** Toggling one task keeps the date order, since no date changes. */
  lemma ToggleKeepsOrder(tasks: seq<Task>, i: nat, now: string)
    requires i < |tasks| && SortedBy(tasks, ScheduledTime)
    ensures SortedBy(tasks[i := Toggled(tasks[i], now)], ScheduledTime)
  {
    var r := tasks[i := Toggled(tasks[i], now)];
    assert forall j :: 0 <= j < |r| ==> r[j].scheduledTime == tasks[j].scheduledTime;
  }

  // ------------------------------------------------------------- remove

  /** Removing a task keeps the others in date order. */
  lemma RemoveKeepsOrder(tasks: seq<Task>, i: int)
    requires SortedBy(tasks, ScheduledTime)
    ensures SortedBy(RemoveAt(tasks, i), ScheduledTime)
  {
    var r := RemoveAt(tasks, i);
    if 0 <= i < |tasks| {
      forall a, b | 0 <= a < b < |r| ensures !Less(r[b].scheduledTime, r[a].scheduledTime) {
        RemoveAtIndex(tasks, i, a);
        RemoveAtIndex(tasks, i, b);
      }
    }
  }

  /** Removing keeps every remaining task well formed. */
  lemma RemoveWellFormed(tasks: seq<Task>, i: int)
    requires forall t :: t in tasks ==> WellFormed(t)
    ensures forall t :: t in RemoveAt(tasks, i) ==> WellFormed(t)
  {
    var r := RemoveAt(tasks, i);
    if 0 <= i < |tasks| {
      forall t | t in r ensures t in tasks {
        var k :| 0 <= k < |r| && r[k] == t;
        assert t == tasks[if k < i then k else k + 1];
      }
    }
  }

  // ------------------------------------------------------ table display

  /** The four filter fields; an empty one does not filter. */
  datatype Filters = Filters(trainNumber: string, date: string, cleaningType: string, cleanStatus: string)

  const NoFilters: Filters := Filters("", "", "", "")

  /** A task survives when every non-empty filter field equals its field exactly. */
  predicate Matches(t: Task, f: Filters)
  {
    && (f.trainNumber == "" || t.trainModel == f.trainNumber)
    && (f.date == "" || t.scheduledTime == f.date)
    && (f.cleaningType == "" || t.cleaningType == f.cleaningType)
    && (f.cleanStatus == "" || t.cleanStatus == f.cleanStatus)
  }

  function Criteria(f: Filters): Task -> bool
  {
    t => Matches(t, f)
  }

  /** The app hands the table only tasks of one of the seven cleaning types. */
  predicate IsHeavyCleaning(t: Task)
  {
    t.cleaningType in CleaningTypes
  }

  /** The rows of the task table, top to bottom. */
  function Displayed(tasks: seq<Task>, f: Filters): (r: seq<Task>)
    ensures SortedBy(r, ScheduledTime)
    ensures multiset(r) == multiset(Filter(Filter(tasks, IsHeavyCleaning), Criteria(f)))
  {
    SortBy(Filter(Filter(tasks, IsHeavyCleaning), Criteria(f)), ScheduledTime)
  }

  /** Every row of the table is a stored task of a heavy type that matches the filters. */
  lemma DisplayedSound(tasks: seq<Task>, f: Filters)
    ensures forall i :: 0 <= i < |Displayed(tasks, f)| ==>
      var t := Displayed(tasks, f)[i]; t in tasks && IsHeavyCleaning(t) && Matches(t, f)
  {
    var heavy := Filter(tasks, IsHeavyCleaning);
    var kept := Filter(heavy, Criteria(f));
    var r := Displayed(tasks, f);
    forall i | 0 <= i < |r| ensures r[i] in tasks && IsHeavyCleaning(r[i]) && Matches(r[i], f) {
      assert r[i] in multiset(kept) by { assert r[i] in multiset(r); }
      var j :| 0 <= j < |kept| && kept[j] == r[i];
      assert Criteria(f)(kept[j]);
      assert kept[j] in multiset(heavy) by { assert kept[j] in multiset(kept); }
      var k :| 0 <= k < |heavy| && heavy[k] == kept[j];
      assert IsHeavyCleaning(heavy[k]);
      assert heavy[k] in multiset(tasks) by { assert heavy[k] in multiset(heavy); }
    }
  }

  /** Every stored task of a heavy type that matches the filters is a row of the table. */
  lemma DisplayedComplete(tasks: seq<Task>, f: Filters)
    ensures forall i :: 0 <= i < |tasks| && IsHeavyCleaning(tasks[i]) && Matches(tasks[i], f) ==>
      tasks[i] in Displayed(tasks, f)
  {
    var heavy := Filter(tasks, IsHeavyCleaning);
    var kept := Filter(heavy, Criteria(f));
    var r := Displayed(tasks, f);
    FilterComplete(tasks, IsHeavyCleaning);
    FilterComplete(heavy, Criteria(f));
    forall i | 0 <= i < |tasks| && IsHeavyCleaning(tasks[i]) && Matches(tasks[i], f) ensures tasks[i] in r {
      var k :| 0 <= k < |heavy| && heavy[k] == tasks[i];
      assert Criteria(f)(heavy[k]);
      assert heavy[k] in multiset(r) by { assert heavy[k] in multiset(kept); }
    }
  }

  /** With every filter field empty, no task is filtered out. */
  lemma NoFiltersMatchAll(t: Task)
    ensures Matches(t, NoFilters)
  {
  }

  /**
   * The table passes its row position to the toggle and remove handlers, which
   * apply it to the store. The two agree when no filter is set, every task is
   * of a listed cleaning type and the store is in date order.
   */
  lemma DisplayedUnfiltered(tasks: seq<Task>)
    requires forall i :: 0 <= i < |tasks| ==> IsHeavyCleaning(tasks[i])
    requires SortedBy(tasks, ScheduledTime)
    ensures Displayed(tasks, NoFilters) == tasks
  {
    FilterAll(tasks, IsHeavyCleaning);
    FilterAll(tasks, Criteria(NoFilters));
    SortBySorted(tasks, ScheduledTime);
  }

  /** Two tasks of one cleaning type on different dates, and a filter that shows only the later one. */
  const EarlyTask: Task := Task("T01", "2024-05-01", CleaningTypes[0], Uncleaned, None)
  const LateTask: Task := Task("T02", "2025-05-01", CleaningTypes[0], Uncleaned, None)
  const LateFilter: Filters := NoFilters.(trainNumber := "T02")

  /**
   * With a filter set they need not agree: here the first row shown is not the
   * store's first task, so checking it toggles a different task.
   */
  lemma DisplayedFilteredMismatch()
    ensures SortedBy([EarlyTask, LateTask], ScheduledTime)
    ensures Displayed([EarlyTask, LateTask], LateFilter) == [LateTask]
    ensures [EarlyTask, LateTask][0] != Displayed([EarlyTask, LateTask], LateFilter)[0]
  {
    ExampleTasksSorted();
    DisplayedLate();
    assert EarlyTask.trainModel[2] != LateTask.trainModel[2];
  }

  /** The table for the two example tasks under the late filter shows the late task alone. */
  lemma DisplayedLate()
    ensures Displayed([EarlyTask, LateTask], LateFilter) == [LateTask]
  {
    LateFilterKeepsLate();
    SortBySorted([LateTask], ScheduledTime);
  }

  /** The two example tasks are stored in date order. */
  lemma ExampleTasksSorted()
    ensures SortedBy([EarlyTask, LateTask], ScheduledTime)
  {
    EarlyBeforeLate();
    LessAsymmetric(EarlyTask.scheduledTime, LateTask.scheduledTime);
  }

  /** The early task's date comes first in string order. */
  lemma EarlyBeforeLate()
    ensures Less(EarlyTask.scheduledTime, LateTask.scheduledTime)
  {
    var a, b := EarlyTask.scheduledTime, LateTask.scheduledTime;
    assert a[0] == b[0] && a[1] == b[1] && a[2] == b[2] && a[3] < b[3];
    assert Less(a[3..], b[3..]);
    assert Less(a[2..], b[2..]) by { assert a[2..][1..] == a[3..] && b[2..][1..] == b[3..]; }
    assert Less(a[1..], b[1..]) by { assert a[1..][1..] == a[2..] && b[1..][1..] == b[2..]; }
  }

  /** The two filter stages keep only the late task. */
  lemma LateFilterKeepsLate()
    ensures Filter(Filter([EarlyTask, LateTask], IsHeavyCleaning), Criteria(LateFilter)) == [LateTask]
  {
    ExampleTasksHeavy();
    assert !Matches(EarlyTask, LateFilter) by {
      assert EarlyTask.trainModel[2] != LateFilter.trainNumber[2];
    }
    assert [EarlyTask, LateTask][1..] == [LateTask];
  }

  /** Both example tasks have a heavy cleaning type. */
  lemma ExampleTasksHeavy()
    ensures Filter([EarlyTask, LateTask], IsHeavyCleaning) == [EarlyTask, LateTask]
  {
    assert IsHeavyCleaning(EarlyTask) && IsHeavyCleaning(LateTask) by {
      assert CleaningTypes[0] in CleaningTypes;
    }
    FilterAll([EarlyTask, LateTask], IsHeavyCleaning);
  }

  // ---------------------------------------------------------- row class

  datatype RowClass = TaskCleaned | TaskToday | TaskOverdue | TaskComing

  /** The class of a table row, by the priority cleaned, today, overdue, coming. */
  function ClassOf(t: Task, today: string): (c: RowClass)
    ensures c == TaskCleaned <==> t.cleanStatus == Cleaned
    ensures c == TaskToday ==> t.scheduledTime == today
    ensures c == TaskOverdue ==> t.cleanStatus == Uncleaned && Less(t.scheduledTime, today)
  {
    if t.cleanStatus == Cleaned then TaskCleaned
    else if t.scheduledTime == today then TaskToday
    else if Less(t.scheduledTime, today) && t.cleanStatus == Uncleaned then TaskOverdue
    else TaskComing
  }

  /**
   * For a task with one of the two statuses, each class means one situation:
   * uncleaned and due today, uncleaned and past its date, uncleaned and due later.
   */
  lemma ClassOfMeaning(t: Task, today: string)
    requires t.cleanStatus == Cleaned || t.cleanStatus == Uncleaned
    ensures ClassOf(t, today) == TaskToday <==> t.cleanStatus == Uncleaned && t.scheduledTime == today
    ensures ClassOf(t, today) == TaskOverdue <==> t.cleanStatus == Uncleaned && Less(t.scheduledTime, today)
    ensures ClassOf(t, today) == TaskComing <==> t.cleanStatus == Uncleaned && Less(today, t.scheduledTime)
  {
    LessTotal(t.scheduledTime, today);
    if Less(t.scheduledTime, today) {
      LessAsymmetric(t.scheduledTime, today);
    }
    if t.scheduledTime == today {
      LessIrreflexive(today);
    }
  }

  // ------------------------------------------------------ unique values

  datatype Field = TrainModel | ScheduledDate | CleaningType | CleanStatus

  function FieldOf(t: Task, key: Field): string
  {
    match key
    case TrainModel => t.trainModel
    case ScheduledDate => t.scheduledTime
    case CleaningType => t.cleaningType
    case CleanStatus => t.cleanStatus
  }

  function FieldValues(tasks: seq<Task>, key: Field): (r: seq<string>)
    ensures |r| == |tasks|
    ensures forall i :: 0 <= i < |tasks| ==> r[i] == FieldOf(tasks[i], key)
  {
    if tasks == [] then [] else [FieldOf(tasks[0], key)] + FieldValues(tasks[1..], key)
  }

  /** The drop-down's options: each value of the field once, and no other value. */
  function UniqueValues(tasks: seq<Task>, key: Field): (r: seq<string>)
    ensures NoDuplicates(r)
    ensures forall i :: 0 <= i < |tasks| ==> FieldOf(tasks[i], key) in r
    ensures forall v :: v in r ==> exists i :: 0 <= i < |tasks| && FieldOf(tasks[i], key) == v
  {
    var vs := FieldValues(tasks, key);
    var r := Distinct(vs);
    DistinctSubset(vs);
    DistinctComplete(vs);
    assert forall v :: v in r ==> v in vs;
    r
  }
}
