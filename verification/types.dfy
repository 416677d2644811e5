/** The task record, the four-valued quadrant domain and the add draft. */
module Types {

  /** A quadrant is one of 1 (urgent and important), 2 (important, not urgent),
      3 (urgent, not important) and 4 (neither). */
  type QuadrantId = q: int | 1 <= q <= 4 witness 1

  datatype Option<T> = None | Some(value: T)

  /** One task on the board. `position` is the task's rank inside its quadrant. */
  datatype Task = Task(
    id: string,
    title: string,
    description: string,
    isCompleted: bool,
    quadrant: QuadrantId,
    position: nat)

  /** What the editor hands to the store when a task is added: a task without
      `id` and `position`, the two fields only the store assigns. */
  datatype TaskDraft = TaskDraft(
    title: string,
    description: string,
    isCompleted: bool,
    quadrant: QuadrantId)

  /** The draft part of a task (everything except `id` and `position`). */
  function DraftOf(t: Task): TaskDraft {
    TaskDraft(t.title, t.description, t.isCompleted, t.quadrant)
  }

  /** The task the store builds from a draft once it has chosen an id and a position. */
  function WithIdentity(d: TaskDraft, id: string, position: nat): (t: Task)
    ensures t.id == id && t.position == position
    ensures DraftOf(t) == d
  {
    Task(id, d.title, d.description, d.isCompleted, d.quadrant, position)
  }

  /** A task is exactly its draft part plus its id and position: splitting a
      task into the two and joining them again gives the same task. */
  lemma TaskIsDraftPlusIdentity(t: Task)
    ensures WithIdentity(DraftOf(t), t.id, t.position) == t
  {
  }
}
