/** Sequences of handler calls: one planner walked through 10-14 June 2024
    (pick a Thursday, create on Monday, edit the team); re-submitting an
    untouched edit; an incomplete form refused on any planner with a week;
    and a team on two records of one day counted once. */
module Scenarios {
  import opened Vocabulary
  import opened Calendar
  import opened Assignments
  import opened Views
  import opened Planner

  /** Clicking a listed record and submitting without touching the form leaves
      the list as it was (ids being unique) and resets the form. */
  method EditRoundTrip(p: TaskPlanner, a: Assignment, now: int)
    requires p.Valid() && a in p.assignments && UniqueIds(p.assignments) && now > 0
    modifies p
    ensures p.Valid() && p.FormCleared()
    ensures p.assignments == old(p.assignments)
  {
    p.BeginEdit(a);
    p.Submit(now);
    UpdateWithSelf(old(p.assignments), a);
  }

  /** Picking Thursday 2024-06-13 (day 19887) selects Monday 2024-06-10 (day
      19884); Thursday and Friday get their dates. */
  method PickThursday() returns (p: TaskPlanner)
    ensures fresh(p) && p.Valid() && p.FormCleared() && p.assignments == []
    ensures p.selectedWeek == Some(19884)
    ensures p.weekDates["Jeudi"] == 19887 && p.weekDates["Vendredi"] == 19888
  {
    p := new TaskPlanner();
    p.WeekChange(Some(19887));
    assert DayOfWeek(19887) == 4;
    WeekStartUnique(19887, 19884);
    assert WorkDays[3] == "Jeudi" && WorkDays[4] == "Vendredi";
  }

  /** A complete form on Monday creates one record dated that Monday and
      resets the form, keeping the week. */
  method CreateOnMonday() returns (p: TaskPlanner)
    ensures fresh(p) && p.Valid() && p.FormCleared() && p.selectedWeek == Some(19884)
    ensures |p.assignments| == 1 && p.assignments[0].id == 1 && p.assignments[0].team == "Équipe 1"
    ensures p.assignments[0].date == 19884 && p.assignments[0].day == "Lundi"
  {
    p := PickThursday();
    FillMonday(p);
    assert WorkDays[0] == "Lundi";
    assert p.weekDates["Lundi"] == 19884;
    p.Submit(1);
  }

  method FillMonday(p: TaskPlanner)
    requires p.Valid() && p.selectedWeek == Some(19884) && p.selectedSpaces == [] && p.editingId.None?
    modifies p
    ensures p.Valid() && p.CanSubmit() && p.editingId.None? && p.assignments == old(p.assignments)
    ensures p.selectedWeek == Some(19884) && p.selectedDay == "Lundi" && p.selectedTeam == "Équipe 1"
  {
    LabelsNonEmpty();
    p.SelectDay("Lundi");
    p.SelectTask("Traitement type 1");
    p.SelectTeam("Équipe 1");
    PickTwoZones(p);
  }

  method PickTwoZones(p: TaskPlanner)
    requires p.Valid() && p.selectedSpaces == []
    modifies p`selectedSpaces
    ensures p.Valid() && p.selectedSpaces == ["Zone A", "Zone B"]
  {
    p.SpaceToggle("Zone A");
    assert p.selectedSpaces == ["Zone A"];
    p.SpaceToggle("Zone B");
  }

  /** Editing that record's team keeps one record, with the same id. */
  method EditTeam() returns (p: TaskPlanner)
    ensures p.Valid() && p.FormCleared()
    ensures |p.assignments| == 1 && p.assignments[0].id == 1 && p.assignments[0].team == "Équipe 2"
  {
    p := CreateOnMonday();
    p.BeginEdit(p.assignments[0]);
    p.SelectTeam("Équipe 2");
    p.Submit(2);
  }

  /** Without a zone the submission is refused and nothing changes. */
  method SubmitWithoutZone(p: TaskPlanner)
    requires p.Valid() && p.selectedWeek.Some? && p.selectedSpaces == []
    modifies p
    ensures p.Valid() && !p.CanSubmit()
    ensures p.assignments == old(p.assignments) && p.editingId == old(p.editingId)
    ensures p.selectedWeek == old(p.selectedWeek) && p.selectedSpaces == []
    ensures p.selectedDay == "Lundi" && p.selectedTask == "Traitement type 2" && p.selectedTeam == "Équipe 3"
  {
    p.SelectDay("Lundi");
    p.SelectTask("Traitement type 2");
    p.SelectTeam("Équipe 3");
    p.Submit(3);
  }

  /** Two records of one team on the same Monday with different tasks count once. */
  method SameTeamTwice(a: Assignment, b: Assignment) returns (counts: map<string, int>)
    requires a.week == b.week == 19884 && a.day == b.day == "Lundi"
    requires a.team == b.team == "Équipe 3" && a.task != b.task
    ensures AssignedTeams([a, b], Some(19884), "Lundi") == {"Équipe 3"}
    ensures counts == TeamsPerDay([a, b], Some(19884)) && counts["Lundi"] == 1
  {
    AppendTeams([], a, 19884, "Lundi");
    AppendTeams([a], b, 19884, "Lundi");
    assert [a] + [b] == [a, b] && [] + [a] == [a];
    counts := CountTeamsPerDay([a, b], Some(19884));
  }
}
