/** The record a daily update is turned into: nine named text fields. */
module Entry {
  const DateKey := "Date"
  const ProjectKey := "Project Name"
  const LeaveKey := "Leave/WFH"
  const TasksKey := "Tasks Completed Today"
  const HoursKey := "Hours Worked"
  const BlockersKey := "Blockers / Issues"
  const TomorrowKey := "Planned Tasks for Tomorrow"
  const NotesKey := "Notes/Remarks"
  const UpdatedOnKey := "Date update on"

  /** The keys in the order of the spreadsheet's columns. */
  const Columns: seq<string> := [
    DateKey, ProjectKey, LeaveKey, TasksKey, HoursKey, BlockersKey, TomorrowKey, NotesKey, UpdatedOnKey
  ]

  /** A parsed or hand-written update: field name to value. */
  type Record = map<string, string>

  /** `entry.get(key, "")` */
  function Get(entry: Record, key: string): string {
    if key in entry then entry[key] else ""
  }
}
