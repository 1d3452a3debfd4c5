/** The `TaskPlanner` component's state: eight state cells and the handlers that
    overwrite them, each handler one atomic transition. */
module Planner {
  import opened Vocabulary
  import opened Lists
  import opened Calendar
  import opened Assignments

  /** A consistent form: the week is a Monday and `dates` are its dates, a day
      is only picked inside a week, and the form holds labels of the fixed
      vocabulary, zones without repetition. */
  predicate FormValid(week: Option<int>, day: string, task: string, team: string,
                      spaces: seq<string>, dates: map<string, int>)
  {
    (week.None? ==> dates == map[] && day == "")
    && (week.Some? ==> IsMonday(week.value) && dates == WeekDates(week.value))
    && (day == "" || day in WorkDays)
    && (task == "" || task in TaskTypes)
    && (team == "" || team in Teams)
    && NoDup(spaces)
    && (forall z :: z in spaces ==> z in Spaces)
  }

  class TaskPlanner {
    var selectedWeek: Option<int>       // '' until a date is picked
    var selectedDay: string             // '' or a weekday label
    var selectedTask: string            // '' or a task type
    var selectedTeam: string            // '' or a team
    var selectedSpaces: seq<string>
    var assignments: seq<Assignment>
    var weekDates: map<string, int>
    var editingId: Option<int>          // null when creating

    /** What the handlers keep true: the form is consistent (`FormValid`),
        every stored record is well formed, and an edit target is always the
        (positive, hence truthy) id of a listed record. */
    ghost predicate Valid()
      reads this
    {
      FormValid(selectedWeek, selectedDay, selectedTask, selectedTeam, selectedSpaces, weekDates)
      && (forall a :: a in assignments ==> WellFormed(a))
      && (editingId.Some? ==> editingId.value > 0 && HasId(assignments, editingId.value))
    }

    /** The guard of `handleAssignment`; the submit button is disabled exactly
        when it does not hold. */
    predicate CanSubmit(): (ok: bool)
      reads this
      ensures !ok <==> (selectedWeek.None? || selectedDay == "" || selectedTask == ""
                        || selectedTeam == "" || |selectedSpaces| == 0)
    {
      selectedWeek.Some? && selectedDay != "" && selectedTask != "" && selectedTeam != ""
      && |selectedSpaces| > 0
    }

    /** Everything `resetForm` clears is empty. */
    predicate FormCleared()
      reads this
    {
      selectedTask == "" && selectedTeam == "" && selectedSpaces == [] && selectedDay == ""
      && editingId.None?
    }

    /** The record the form describes, under the given id; its date is looked up
        in `weekDates`. */
    function Draft(id: int): (a: Assignment)
      reads this
      requires Valid() && CanSubmit() && id > 0
      ensures WellFormed(a) && a.id == id
      ensures a.week == selectedWeek.value && a.day == selectedDay && a.task == selectedTask
      ensures a.team == selectedTeam && a.spaces == selectedSpaces
    {
      var k := DayOffset(selectedDay);
      assert weekDates[WorkDays[k]] == selectedWeek.value + k;
      Assignment(id, selectedWeek.value, selectedDay, weekDates[selectedDay],
                 selectedTask, selectedTeam, selectedSpaces)
    }

    /** The initial `useState` values. */
    constructor ()
      ensures Valid() && FormCleared()
      ensures selectedWeek.None? && weekDates == map[] && assignments == []
    {
      selectedWeek := None;
      selectedDay := "";
      selectedTask := "";
      selectedTeam := "";
      selectedSpaces := [];
      assignments := [];
      weekDates := map[];
      editingId := None;
    }

    /** `handleWeekChange`: an empty or unreadable date makes `toISOString`
        throw before any state is set; a date selects the Monday of its week,
        recomputes `weekDates` and clears the day. */
    method WeekChange(date: Option<int>)
      requires Valid()
      modifies this
      ensures Valid()
      ensures date.None? ==> unchanged(this)
      ensures date.Some? ==> selectedWeek == Some(WeekStart(date.value))
      ensures date.Some? ==> weekDates == WeekDates(WeekStart(date.value)) && selectedDay == ""
      ensures date.Some? ==> selectedTask == old(selectedTask) && selectedTeam == old(selectedTeam)
      ensures date.Some? ==> selectedSpaces == old(selectedSpaces) && editingId == old(editingId)
      ensures assignments == old(assignments)
    {
      if date.None? {
        return;
      }
      var dayOfWeek := DayOfWeek(date.value);
      var diff := if dayOfWeek == 0 then -6 else 1 - dayOfWeek;
      var monday := date.value + diff;
      assert monday == WeekStart(date.value);
      var dates := GetWeekDates(monday);
      selectedWeek := Some(monday);
      weekDates := dates;
      selectedDay := "";
    }

    /** Clicking a weekday tile (shown only once a week is selected). */
    method SelectDay(day: string)
      requires Valid() && selectedWeek.Some? && day in WorkDays
      modifies this`selectedDay
      ensures Valid() && selectedDay == day
    {
      selectedDay := day;
    }

    /** Choosing an entry, or the empty entry, of the task select. */
    method SelectTask(task: string)
      requires Valid() && (task == "" || task in TaskTypes)
      modifies this`selectedTask
      ensures Valid() && selectedTask == task
    {
      selectedTask := task;
    }

    /** Choosing an entry, or the empty entry, of the team select. */
    method SelectTeam(team: string)
      requires Valid() && (team == "" || team in Teams)
      modifies this`selectedTeam
      ensures Valid() && selectedTeam == team
    {
      selectedTeam := team;
    }

    /** `handleSpaceToggle`: the zone list goes through `Toggle`, so it stays
        free of duplicates. */
    method SpaceToggle(space: string)
      requires Valid() && space in Spaces
      modifies this`selectedSpaces
      ensures Valid()
      ensures selectedSpaces == Toggle(old(selectedSpaces), space)
      ensures space in selectedSpaces <==> space !in old(selectedSpaces)
    {
      ToggleNoDup(selectedSpaces, space);
      selectedSpaces := Toggle(selectedSpaces, space);
    }

    /** `handleEdit`: the form is filled from a listed record and that record
        becomes the edit target; the filled form can be submitted as it is and
        describes the record itself. */
    method BeginEdit(a: Assignment)
      requires Valid() && a in assignments
      modifies this
      ensures Valid()
      ensures editingId == Some(a.id) && selectedWeek == Some(a.week) && selectedDay == a.day
      ensures selectedTask == a.task && selectedTeam == a.team && selectedSpaces == a.spaces
      ensures weekDates == WeekDates(a.week) && assignments == old(assignments)
      ensures CanSubmit() && Draft(a.id) == a
    {
      var dates := GetWeekDates(a.week);
      assert FormValid(Some(a.week), a.day, a.task, a.team, a.spaces, dates)
        && a.day != "" && a.task != "" && a.team != "" && dates[a.day] == a.date by {
        assert WellFormed(a);
        LabelsNonEmpty();
        var k := DayOffset(a.day);
        assert dates[WorkDays[k]] == a.week + k;
      }
      assert HasId(assignments, a.id) by {
        var k :| 0 <= k < |assignments| && assignments[k] == a;
      }
      editingId := Some(a.id);
      selectedWeek := Some(a.week);
      selectedDay := a.day;
      selectedTask := a.task;
      selectedTeam := a.team;
      selectedSpaces := a.spaces;
      weekDates := dates;
    }

    /** `resetForm`: clears task, team, zones, day and edit target; keeps the
        week, its dates and the list. */
    method ResetForm()
      requires Valid()
      modifies this
      ensures Valid() && FormCleared()
      ensures selectedWeek == old(selectedWeek) && weekDates == old(weekDates)
      ensures assignments == old(assignments)
    {
      selectedTask := "";
      selectedTeam := "";
      selectedSpaces := [];
      selectedDay := "";
      editingId := None;
    }

    /** `handleAssignment`. An incomplete form makes it a no-op. Otherwise, with
        an edit target, every record of that id takes the form's fields and
        keeps its id; without one, the form's record is appended under the id
        `now` (the clock reading `Date.now()`, always positive). Then the form
        is reset. */
    method Submit(now: int)
      requires Valid() && now > 0
      modifies this
      ensures Valid()
      ensures !old(CanSubmit()) ==> unchanged(this)
      ensures old(CanSubmit()) && old(editingId).Some? ==>
        assignments == UpdateById(old(assignments), old(editingId).value, old(Draft(editingId.value)))
      ensures old(CanSubmit()) && old(editingId).None? ==>
        assignments == old(assignments) + [old(Draft(now))]
      ensures old(CanSubmit()) ==>
        FormCleared() && selectedWeek == old(selectedWeek) && weekDates == old(weekDates)
      ensures old(UniqueIds(assignments)) && (old(editingId).Some? || now !in old(Ids(assignments))) ==>
        UniqueIds(assignments)
    {
      if CanSubmit() {
        if editingId.Some? {
          var edit := Draft(editingId.value);
          UpdateKeepsIds(assignments, editingId.value, edit);
          assignments := UpdateById(assignments, editingId.value, edit);
        } else {
          var created := Draft(now);
          if UniqueIds(assignments) && now !in Ids(assignments) {
            AppendKeepsUnique(assignments, created);
          }
          assignments := assignments + [created];
        }
        ResetForm();
      }
    }

    /** `handleDelete`: every record of the id is removed, the others keep their
        order; the form is reset only when the deleted id is the edit target. */
    method Delete(id: int)
      requires Valid()
      modifies this
      ensures Valid()
      ensures assignments == RemoveId(old(assignments), id)
      ensures old(editingId) == Some(id) ==>
        FormCleared() && selectedWeek == old(selectedWeek) && weekDates == old(weekDates)
      ensures old(editingId) != Some(id) ==>
        selectedWeek == old(selectedWeek) && selectedDay == old(selectedDay)
        && selectedTask == old(selectedTask) && selectedTeam == old(selectedTeam)
        && selectedSpaces == old(selectedSpaces) && weekDates == old(weekDates)
        && editingId == old(editingId)
      ensures old(UniqueIds(assignments)) ==> UniqueIds(assignments)
    {
      if UniqueIds(assignments) {
        RemoveKeepsUnique(assignments, id);
      }
      if editingId == Some(id) {
        ResetForm();
      } else if editingId.Some? {
        var target :| target in assignments && target.id == editingId.value;
        assert target in RemoveId(assignments, id);
      }
      assignments := RemoveId(assignments, id);
    }
  }
}
