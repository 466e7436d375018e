/** The records the project store works on: a project and its ordered subtasks. */
module Types {

  /** One checklist entry of a project; the title may be empty (a freshly added placeholder). */
  datatype Subtask = Subtask(title: string, completed: bool)

  /** A tracked goal. `progress` is a whole percentage derived from the subtasks,
      `isStarted` and `isCompleted` are the lifecycle flags, and the order of
      `subtasks` is the display order. */
  datatype Project = Project(
    id: int,
    title: string,
    date: string,
    progress: int,
    isStarted: bool,
    isCompleted: bool,
    subtasks: seq<Subtask>)

  /** The empty, unchecked subtask used as a placeholder on creation and by "add subtask". */
  const Blank: Subtask := Subtask("", false)
}
