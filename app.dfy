/**
 * The application's state and its event handlers. Each handler runs to
 * completion and replaces the state fields it sets; the form fields, the
 * section and visibility flags and the clock are outside this model, and the
 * current date, the uploaded worksheet and its rows arrive as parameters.
 */
module App {
  import opened Wrappers
  import opened Seqs
  import opened Tasks
  import opened Sheet

  class AppState {
    var tasks: seq<Task>
    var excelData: seq<ExcelRow>
    var trainNumbers: seq<string>
    var workbook: Option<Worksheet>
    var allTrainData: map<string, map<string, bool>>

    /** The task list stays in date order and every task is well formed. */
    ghost predicate Valid()
      reads this
    {
      SortedBy(tasks, ScheduledTime) && forall t :: t in tasks ==> WellFormed(t)
    }

    constructor ()
      ensures Valid()
      ensures tasks == [] && excelData == [] && trainNumbers == []
      ensures workbook == None && allTrainData == map[]
    {
      tasks := [];
      excelData := [];
      trainNumbers := [];
      workbook := None;
      allTrainData := map[];
    }

    /** The form's submit handler. */
    method HandleSubmit(trainModel: string, scheduledTime: string, cleaningType: string)
      requires Valid()
      modifies this`tasks
      ensures Valid()
      ensures tasks == AddTask(old(tasks), trainModel, scheduledTime, cleaningType)
    {
      AddTaskWellFormed(tasks, trainModel, scheduledTime, cleaningType);
      tasks := AddTask(tasks, trainModel, scheduledTime, cleaningType);
    }

    /**
     * The checkbox handler: toggles the task at `index` of the store, where
     * `now` is the current date. An index outside the list makes the handler
     * throw before it sets the state, so nothing changes.
     */
    method HandleCleanCheck(index: int, now: string)
      requires Valid()
      modifies this`tasks
      ensures SortedBy(tasks, ScheduledTime)
      ensures now != "" ==> Valid()
      ensures 0 <= index < |old(tasks)| ==> tasks == old(tasks)[index := Toggled(old(tasks)[index], now)]
      ensures !(0 <= index < |old(tasks)|) ==> tasks == old(tasks)
    {
      if 0 <= index < |tasks| {
        ToggleKeepsOrder(tasks, index, now);
        var updated := tasks;
        var t := updated[index];
        if t.cleanStatus == Uncleaned {
          t := t.(cleanStatus := Cleaned, cleanedDate := Some(now));
        } else {
          t := t.(cleanStatus := Uncleaned, cleanedDate := Some(""));
        }
        updated := updated[index := t];
        if now != "" {
          ToggledWellFormed(tasks[index], now);
          assert forall j :: 0 <= j < |updated| && j != index ==> updated[j] == tasks[j];
        }
        tasks := updated;
      }
    }

    /** The bin icon's handler: drops the task at `index` of the store. */
    method HandleRemoveTask(index: int)
      requires Valid()
      modifies this`tasks
      ensures Valid()
      ensures tasks == RemoveAt(old(tasks), index)
    {
      RemoveKeepsOrder(tasks, index);
      RemoveWellFormed(tasks, index);
      tasks := RemoveAt(tasks, index);
    }

    /**
     * The upload completion: keeps the worksheet, runs Pass A over its rows
     * `data`, lists the distinct train numbers and maps each to `{today: true}`.
     */
    method HandleFileUpload(ws: Worksheet, data: seq<seq<string>>, today: string)
      modifies this`workbook, this`excelData, this`trainNumbers, this`allTrainData
      ensures workbook == Some(ws)
      ensures excelData == ExtractRows(data)
      ensures trainNumbers == Distinct(TrainNumbers(excelData))
      ensures allTrainData == Seeding(trainNumbers, today)
    {
      LoadRows(ws, data);
      SeedTrains(today);
    }

    /** The first half of the upload: the worksheet and Pass A's records. */
    method LoadRows(ws: Worksheet, data: seq<seq<string>>)
      modifies this`workbook, this`excelData
      ensures workbook == Some(ws)
      ensures excelData == ExtractRows(data)
    {
      workbook := Some(ws);
      excelData := ExtractRows(data);
    }

    /** The second half of the upload: the train numbers and the seeded table, from the records. */
    method SeedTrains(today: string)
      modifies this`trainNumbers, this`allTrainData
      ensures trainNumbers == Distinct(TrainNumbers(excelData))
      ensures allTrainData == Seeding(trainNumbers, today)
    {
      var rows := excelData;
      trainNumbers := Distinct(TrainNumbers(rows));
      var seeded := SeedTrainData(rows, today);
      SeededTrains(rows, today);
      allTrainData := seeded;
    }

    /** The "show details" handler: Pass B when a workbook is loaded, otherwise nothing. */
    method HandleShowAllTrainDetails()
      modifies this`allTrainData
      ensures workbook.None? ==> allTrainData == old(allTrainData)
      ensures workbook.Some? ==> allTrainData == TrainDetails(workbook.value)
    {
      if workbook.Some? {
        var ws := workbook.value;
        var dates := CollectDates(ws);
        dates := SortBy(dates, DateOf);
        var allData := BuildTrainTable(ws, dates);
        allTrainData := allData;
      }
    }
  }
}
