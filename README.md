# TaskPlanner weekly assignment form — Dafny model

This project models the state logic of the `TaskPlanner` React component. The
component is a weekly planning form. A user picks a week and then one of its five working days
(`Lundi` .. `Vendredi`), a task type, one of fourteen teams and a set of zones.
The user can then add the assignment to an in-memory list, edit a listed assignment or delete it.

The model has three parts:

- **Week/day resolver** (`calendar.dfy`, module `Calendar`). A civil date is an
  integer day number, with day 0 = 1970-01-01, a Thursday. `DayOfWeek` follows
  `getDay` (Sunday = 0). `WeekStart` snaps a date to the Monday of its week.
  `WeekDates` and the loop `GetWeekDates` give the date of each weekday label.
  `WeekDisplay` gives the start and end dates shown for a week. Month and year
  boundaries are ordinary arithmetic on day numbers.
- **Assignment store** (`planner.dfy`, class `Planner.TaskPlanner`). It has the
  component's eight state cells as fields. Each handler is a method, and each
  method keeps the invariant `Valid()`:
  - `WeekChange`, `SelectDay`, `SelectTask`, `SelectTeam`, `SpaceToggle`,
    `BeginEdit`, `ResetForm`, `Submit` and `Delete`.
  - The new list values these handlers build are pure functions in
    `assignments.dfy`: `UpdateById` for the edit `map` and `RemoveId` for the
    delete `filter`.
  - The zone toggle is `Lists.Toggle` in `lists.dfy`.
- **Derived views** (`views.dfy`): `AssignedTeams` (`assignedTeams`) and
  `TeamsPerDay` (`teamsPerDay`). `CountTeamsPerDay` is the `forEach` loop that
  fills the counts.

`vocabulary.dfy` holds the fixed label lists. `scenarios.dfy` walks one
planner through 10–14 June 2024: pick a Thursday, create on Monday, edit the
team. It also shows that an incomplete form is refused on any planner with a
week, that a team on two records of one day counts once, and that
re-submitting an untouched edit leaves the list unchanged.

Behaviour of the code worth noting:

- After a successful submit, the week and `weekDates` are kept. Only task,
  team, zones, day and the edit target are cleared (`resetForm`).
- `handleEdit` passes the record's zone array itself, not a copy. Arrays are
  never mutated in place, so with values this makes no difference.
- An edit target is always the id of a listed record. `handleEdit` runs only
  on a rendered record, and `handleDelete` resets the form when it removes the
  edit target. `Valid()` includes this, so every handler is proved to keep it.
- Ids come from the clock (`Date.now()`), and the code does not check that
  they are unique. `Submit` takes the clock reading `now` as a parameter.
  Uniqueness is proved only conditionally: it is kept when `now` is not already
  an id.

## Model

| member | source | states |
|---|---|---|
| `Vocabulary.DayOffset` | src/TaskPlanner.jsx:41-47 | a weekday label's offset from Monday is its position in `WORK_DAYS` |
| `Vocabulary.DayOffsetOfIndex` | src/TaskPlanner.jsx:53-56 | the i-th weekday label is i days after Monday (the labels are distinct) |
| `Calendar.DayOfWeek` | src/TaskPlanner.jsx:110 | day of week lies in 0..6, Sunday = 0 |
| `Calendar.MondayOffset` | src/TaskPlanner.jsx:111 | the shift is -6 on a Sunday and `1 - dayOfWeek` otherwise, so it lies in -6..0 |
| `Calendar.WeekStart` | src/TaskPlanner.jsx:107-115 | the selected week is a Monday, never after the picked date and at most 6 days before it |
| `Calendar.OneMondayPerWeek` | src/TaskPlanner.jsx:111-113 | two Mondays less than 7 days apart are the same day |
| `Calendar.WeekStartUnique` | src/TaskPlanner.jsx:107-115 | the snapped Monday is the only Monday in the 7 days ending at the date |
| `Calendar.WeekStartOfWeekDay` | src/TaskPlanner.jsx:107-115 | every day of a Monday's week snaps to that Monday; snapping twice is snapping once |
| `Calendar.WeekDates` | src/TaskPlanner.jsx:49-60 | keys are exactly the five labels; the i-th label maps to start + i |
| `Calendar.GetWeekDates` | src/TaskPlanner.jsx:49-60 | the `forEach` loop builds exactly `WeekDates(start)` |
| `Calendar.WeekDisplay` | src/TaskPlanner.jsx:62-68 | nothing without a week; otherwise start is the week and end is start + 4 |
| `Calendar.WeekDisplayIsMondayToFriday` | src/TaskPlanner.jsx:62-68 | the displayed span starts at the `Lundi` date and ends at the `Vendredi` date, a Friday |
| `Lists.Without` | src/TaskPlanner.jsx:124 | exactly the other values remain, and the result is no longer than the input |
| `Lists.WithoutAbsent` | src/TaskPlanner.jsx:124 | removing an absent zone changes nothing |
| `Lists.WithoutConcat` | src/TaskPlanner.jsx:124 | removal distributes over concatenation, so the order of the rest is kept |
| `Lists.WithoutNoDup` | src/TaskPlanner.jsx:124 | removal keeps a list duplicate-free |
| `Lists.AppendNoDup` | src/TaskPlanner.jsx:126 | appending an absent zone keeps a list duplicate-free |
| `Lists.Toggle` | src/TaskPlanner.jsx:121-129 | the zone is present afterwards iff it was absent before; every other zone's presence is unchanged |
| `Lists.ToggleNoDup` | src/TaskPlanner.jsx:121-129 | toggling never introduces a duplicate |
| `Lists.ToggleTwice` | src/TaskPlanner.jsx:121-129 | toggling twice restores an absent zone's list exactly and moves a present zone to the end; the result is duplicate-free with the same zones |
| `Assignments.UpdateById` | src/TaskPlanner.jsx:153-165 | same length and the same id at each position; records of other ids are identical; each record of the target id becomes the form's record under its own id |
| `Assignments.UpdateKeepsIds` | src/TaskPlanner.jsx:153-165 | an edit keeps the set of ids and keeps ids unique |
| `Assignments.UpdateWithSelf` | src/TaskPlanner.jsx:131-139 | re-submitting a listed record's own fields under its id returns the same list when ids are unique |
| `Assignments.RemoveId` | src/TaskPlanner.jsx:187 | exactly the records with another id remain, and the list does not grow |
| `Assignments.RemoveAbsent` | src/TaskPlanner.jsx:187 | deleting an id that is not listed leaves the list unchanged |
| `Assignments.RemoveIdempotent` | src/TaskPlanner.jsx:187 | deleting twice equals deleting once |
| `Assignments.RemoveConcat` | src/TaskPlanner.jsx:187 | deletion distributes over concatenation, so survivors keep their relative order |
| `Assignments.RemoveKeepsUnique` | src/TaskPlanner.jsx:187 | deletion keeps ids unique |
| `Assignments.AppendKeepsUnique` | src/TaskPlanner.jsx:168-179 | appending a record with a fresh id keeps ids unique and adds exactly that id |
| `Views.Matching` | src/TaskPlanner.jsx:87 | exactly the records of the given week and day, no more of them than in the list |
| `Views.TeamsOf` | src/TaskPlanner.jsx:85-89 | a team is in the set exactly when some record names it; no records give no teams |
| `Views.AssignedTeams` | src/TaskPlanner.jsx:82-90 | empty when week or day is unset; otherwise a team is in it iff some record on that week and day has it |
| `Views.TeamsPerDay` | src/TaskPlanner.jsx:92-105 | empty when no week is set; otherwise keys are exactly the five labels, each mapped to the number of distinct teams that day |
| `Views.CountTeamsPerDay` | src/TaskPlanner.jsx:95-104 | the `forEach` loop builds exactly `TeamsPerDay` |
| `Views.TeamsOfCard` | src/TaskPlanner.jsx:97-102 | there are never more distinct teams than records |
| `Views.TeamCountBounds` | src/TaskPlanner.jsx:92-105 | each day's count is at most its number of records, and at most 14 when every record names a listed team |
| `Views.SelectedDayCount` | src/TaskPlanner.jsx:82-105 | the count of the selected day equals the size of `assignedTeams` |
| `Views.AppendTeams` | src/TaskPlanner.jsx:85-89 | appending a record adds its team to its own day's set and leaves other days' sets unchanged |
| `Views.AppendTeamCount` | src/TaskPlanner.jsx:96-103 | a second record of a team already on that day leaves the count unchanged; a new team adds exactly one |
| `Planner.TaskPlanner.CanSubmit` | src/TaskPlanner.jsx:150 | the guard fails exactly when the button's `disabled` condition (line 328) holds: no week, day, task or team, or no zone |
| `Planner.TaskPlanner.Draft` | src/TaskPlanner.jsx:168-179 | the record the form describes is well formed: positive id, Monday week, a weekday label, date = week + the day's offset, non-empty duplicate-free zones |
| `Planner.TaskPlanner.constructor` | src/TaskPlanner.jsx:71-78 | initially nothing is selected, the list is empty and `weekDates` is empty |
| `Planner.TaskPlanner.WeekChange` | src/TaskPlanner.jsx:107-119 | the week becomes the Monday of the date, `weekDates` its dates, and the day is cleared; nothing else changes; an unreadable date changes nothing |
| `Planner.TaskPlanner.SelectDay` | src/TaskPlanner.jsx:247 | a day tile sets the day alone |
| `Planner.TaskPlanner.SelectTeam` | src/TaskPlanner.jsx:270 | the team select sets the team alone |
| `Planner.TaskPlanner.SelectTask` | src/TaskPlanner.jsx:292 | the task select sets the task alone |
| `Planner.TaskPlanner.SpaceToggle` | src/TaskPlanner.jsx:121-129 | the zone list becomes `Toggle` of the old one, and the zones stay duplicate-free |
| `Planner.TaskPlanner.BeginEdit` | src/TaskPlanner.jsx:131-139 | the form holds the record's fields and its id as edit target, `weekDates` are its week's dates, and the form is submittable and describes that very record |
| `Planner.TaskPlanner.ResetForm` | src/TaskPlanner.jsx:141-147 | task, team, zones, day and edit target are cleared; week, `weekDates` and list are kept |
| `Planner.TaskPlanner.Submit` | src/TaskPlanner.jsx:149-183 | an incomplete form (the button's `disabled` condition, line 328) changes nothing; in edit mode the list is `UpdateById`; otherwise one record is appended with id `now` (a positive clock reading) and `date = weekDates[day]`; then the form is cleared while week and `weekDates` are kept; unique ids stay unique when `now` is fresh |
| `Planner.TaskPlanner.Delete` | src/TaskPlanner.jsx:185-191 | the list becomes `RemoveId`; the form is reset iff the id is the edit target, otherwise the form is untouched, so the edit target stays a listed id; unique ids stay unique |
| `Scenarios.EditRoundTrip` | src/TaskPlanner.jsx:131-165 | when ids are unique, `handleEdit` of a listed record, then submit, leaves the list equal to before and the form cleared |
| `Scenarios.PickThursday` | src/TaskPlanner.jsx:107-119 | picking 2024-06-13 selects Monday 2024-06-10; `Jeudi` is 2024-06-13 and `Vendredi` is 2024-06-14 |
| `Scenarios.CreateOnMonday` | src/TaskPlanner.jsx:166-181 | a complete Monday form creates one record dated 2024-06-10 and resets the form |
| `Scenarios.EditTeam` | src/TaskPlanner.jsx:151-165 | editing that record's team keeps a single record with the same id and the new team |
| `Scenarios.SubmitWithoutZone` | src/TaskPlanner.jsx:149-150 | with day, task and team chosen but no zone, submitting is refused: the list, the edit target and the form stay as they were |
| `Scenarios.SameTeamTwice` | src/TaskPlanner.jsx:82-105 | two records of `Équipe 3` on Monday 2024-06-10 with different tasks give the team set {`Équipe 3`} and a Monday count of 1 |

## Left out

- Rendering: all JSX, MUI components, styling, icons and chip labels (src/TaskPlanner.jsx:193-397). src/App.jsx only sets a theme and mounts the component, so it is not modelled.
- Time zones of JS `Date`. `new Date('YYYY-MM-DD')` is read as UTC, while `getDay`, `setDate` and `toISOString` mix local time and UTC. The model works on civil day numbers. Week strings compare equal exactly when their day numbers do. West of UTC the source snaps the day before the picked date and then adds a day (src/TaskPlanner.jsx:108-115). A Tuesday–Sunday pick gives the Tuesday after the right Monday: `2024-06-13` is local 12 June, `getDay` gives 3, `diff` is -2, and `setDate(10)` then `toISOString` gives `2024-06-11`. A Monday pick gives the Tuesday of the previous week: `2024-06-10` is local Sunday 9 June, `diff` is -6, and the result is `2024-06-04`, so `getWeekDates` labels 06-04 .. 06-08. `WeekStart`'s promise of the Monday of the picked date's week therefore holds only in UTC and zones east of it.
- WeekDisplay: gives the start and end day numbers, not the `toLocaleDateString` text. That text depends on the locale.
- `Date.now()` is the `now` parameter of `Submit`. Nothing guarantees that it is fresh.
- `event.stopPropagation()`, React's batching of state updates and `useMemo` caching. Each handler is one atomic transition. The memos are the pure functions `AssignedTeams` and `TeamsPerDay` of the list and the selection.
- The state cells hold `Option` values. `None` stands for the empty string `selectedWeek` and for `editingId` being `null`. JS tests `if (editingId)` by truthiness, so an id of 0 would read as "no edit target". `Date.now()` is positive, so `Submit` requires `now > 0`, `WellFormed` requires a positive id and `Valid()` a positive edit target: a `Some` edit target is always truthy, and id 0 never arises.
- An empty or invalid date input makes `toISOString` throw before any state is set. `WeekChange(None)` models this as no change.
- BeginEdit: requires the record to be in the list. The source only calls `handleEdit` on a rendered record.
- SelectDay: requires a week to be selected and a weekday label. Day tiles exist only then, one per label. SelectTask and SelectTeam accept the empty entry or a listed label, which is what the selects offer.
