/** The two memoised views of the planner: the teams already placed on the
    selected day, and the number of distinct teams on each working day of the
    selected week. */
module Views {
  import opened Vocabulary
  import opened Lists
  import opened Assignments

  /** The records of one week and day, in list order (the memos' `filter`). */
  function Matching(s: seq<Assignment>, week: int, day: string): (r: seq<Assignment>)
    ensures forall a :: a in r <==> a in s && a.week == week && a.day == day
    ensures |r| <= |s|
  {
    if s == [] then []
    else
      assert s == [s[0]] + s[1..];
      var rest := Matching(s[1..], week, day);
      if s[0].week == week && s[0].day == day then [s[0]] + rest else rest
  }

  /** The distinct teams of some records (`.map(a => a.team)` into a `Set`). */
  function TeamsOf(s: seq<Assignment>): (teams: set<string>)
    ensures forall t :: t in teams <==> exists a :: a in s && a.team == t
    ensures s == [] ==> teams == {}
  {
    set a | a in s :: a.team
  }

  /** `assignedTeams`: nothing until both a week and a day are selected, then
      the teams having at least one record on that week and day. */
  function AssignedTeams(s: seq<Assignment>, week: Option<int>, day: string): (teams: set<string>)
    ensures week.None? || day == "" ==> teams == {}
    ensures week.Some? && day != "" ==>
      forall t :: t in teams <==> exists a :: a in s && a.week == week.value && a.day == day && a.team == t
  {
    if week.None? || day == "" then {} else TeamsOf(Matching(s, week.value, day))
  }

  /** `teamsPerDay`: nothing until a week is selected, then each of the five
      weekday labels mapped to its number of distinct teams. */
  function TeamsPerDay(s: seq<Assignment>, week: Option<int>): (counts: map<string, int>)
    ensures week.None? ==> counts == map[]
    ensures week.Some? ==> forall day :: day in counts <==> day in WorkDays
    ensures week.Some? ==> forall day :: day in counts ==> counts[day] == |AssignedTeams(s, week, day)|
  {
    if week.None? then map[] else map day | day in WorkDays :: |AssignedTeams(s, week, day)|
  }

  /** `teamsPerDay`: the `forEach` over the weekday labels filling `counts`. */
  method CountTeamsPerDay(s: seq<Assignment>, week: Option<int>) returns (counts: map<string, int>)
    ensures counts == TeamsPerDay(s, week)
  {
    if week.None? {
      return map[];
    }
    counts := map[];
    var index := 0;
    while index < |WorkDays|
      invariant 0 <= index <= |WorkDays|
      invariant forall day :: day in counts <==> day in WorkDays[..index]
      invariant forall day :: day in counts ==> counts[day] == |AssignedTeams(s, week, day)|
    {
      var day := WorkDays[index];
      var teamsForDay := TeamsOf(Matching(s, week.value, day));
      counts := counts[day := |teamsForDay|];
      assert WorkDays[..index + 1] == WorkDays[..index] + [day];
      index := index + 1;
    }
    assert WorkDays[..index] == WorkDays;
  }

  /** There are never more distinct teams than records. */
  lemma {:induction false} TeamsOfCard(s: seq<Assignment>)
    ensures |TeamsOf(s)| <= |s|
  {
    if s != [] {
      TeamsOfCard(s[1..]);
      assert s == [s[0]] + s[1..];
      assert TeamsOf(s) == TeamsOf(s[1..]) + {s[0].team};
    }
  }

  /** Every count of `teamsPerDay` is at most the number of records on that day
      and, when every record names one of the fourteen teams, at most 14. */
  lemma TeamCountBounds(s: seq<Assignment>, week: int, day: string)
    requires day in WorkDays
    ensures TeamsPerDay(s, Some(week))[day] <= |Matching(s, week, day)|
    ensures (forall a :: a in s ==> a.team in Teams) ==> TeamsPerDay(s, Some(week))[day] <= |Teams|
  {
    var m := Matching(s, week, day);
    TeamsOfCard(m);
    if forall a :: a in s ==> a.team in Teams {
      SubsetOfSeqCard(TeamsOf(m), Teams);
    }
  }

  /** The count shown for the selected day is the size of `assignedTeams`. */
  lemma SelectedDayCount(s: seq<Assignment>, week: int, day: string)
    requires day in WorkDays
    ensures day in TeamsPerDay(s, Some(week))
    ensures TeamsPerDay(s, Some(week))[day] == |AssignedTeams(s, Some(week), day)|
  {
  }

  /** Appending a record adds its team to the day it is on and to no other day. */
  lemma AppendTeams(s: seq<Assignment>, b: Assignment, week: int, day: string)
    requires day != ""
    ensures AssignedTeams(s + [b], Some(week), day)
         == AssignedTeams(s, Some(week), day) + (if b.week == week && b.day == day then {b.team} else {})
  {
    assert forall a :: a in s + [b] <==> a in s || a == b;
  }

  /** Counting is by distinct team: a second record for a team already on that
      day leaves every count unchanged, a record for a new team adds exactly one. */
  lemma AppendTeamCount(s: seq<Assignment>, b: Assignment, day: string)
    requires day in WorkDays
    ensures b.day == day && b.team in AssignedTeams(s, Some(b.week), day) ==>
      TeamsPerDay(s + [b], Some(b.week))[day] == TeamsPerDay(s, Some(b.week))[day]
    ensures b.day == day && b.team !in AssignedTeams(s, Some(b.week), day) ==>
      TeamsPerDay(s + [b], Some(b.week))[day] == TeamsPerDay(s, Some(b.week))[day] + 1
    ensures b.day != day ==>
      TeamsPerDay(s + [b], Some(b.week))[day] == TeamsPerDay(s, Some(b.week))[day]
  {
    var before := AssignedTeams(s, Some(b.week), day);
    var after := AssignedTeams(s + [b], Some(b.week), day);
    AppendTeams(s, b, b.week, day);
    assert TeamsPerDay(s, Some(b.week))[day] == |before|;
    assert TeamsPerDay(s + [b], Some(b.week))[day] == |after|;
    if b.day == day && b.team in before {
      assert after == before;
    } else if b.day == day {
      assert after == before + {b.team};
    } else {
      assert after == before;
    }
  }
}
