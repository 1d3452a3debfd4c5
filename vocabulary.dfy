/** The fixed label sets of the planner (TASK_TYPES, TEAMS, SPACES, WORK_DAYS)
    and the optional values the component keeps in its state cells. */
module Vocabulary {

  /** An empty string, an empty date input or a `null` in the component's state. */
  datatype Option<T> = None | Some(value: T)

  const TaskTypes: seq<string> := [
    "Traitement type 1",
    "Traitement type 2",
    "Traitement type 3",
    "Traitement type 4",
    "Traitement type 5"
  ]

  /** `Équipe 1` .. `Équipe 14`, built in the source by `Array.from` over 14 indices. */
  const Teams: seq<string> := [
    "Équipe 1", "Équipe 2", "Équipe 3", "Équipe 4", "Équipe 5", "Équipe 6", "Équipe 7",
    "Équipe 8", "Équipe 9", "Équipe 10", "Équipe 11", "Équipe 12", "Équipe 13", "Équipe 14"
  ]

  const Spaces: seq<string> := ["Zone A", "Zone B", "Zone C", "Zone D", "Zone E"]

  /** The five weekday labels, Monday first. */
  const WorkDays: seq<string> := ["Lundi", "Mardi", "Mercredi", "Jeudi", "Vendredi"]

  /** No label of the fixed vocabulary is the empty string that marks "unset". */
  lemma LabelsNonEmpty()
    ensures "" !in WorkDays && "" !in TaskTypes && "" !in Teams && "" !in Spaces
  {
  }

  /** Position of a weekday label in `WorkDays`, i.e. its distance in days from Monday. */
  function DayOffset(day: string): (k: nat)
    requires day in WorkDays
    ensures k < |WorkDays| && WorkDays[k] == day
  {
    if day == "Lundi" then 0
    else if day == "Mardi" then 1
    else if day == "Mercredi" then 2
    else if day == "Jeudi" then 3
    else 4
  }

  /** The labels are distinct, so the i-th label is found back at position i. */
  lemma DayOffsetOfIndex(i: int)
    requires 0 <= i < |WorkDays|
    ensures DayOffset(WorkDays[i]) == i
  {
  }
}
