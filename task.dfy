/**
  The records of the task list: a task, its status, the form payload that
  creates or edits one, and the optional-value wrapper used for partial
  payloads and for the storage slot.
 */
module Types {

  datatype Option<T> = None | Some(value: T) {
    /** The wrapped value, or `default` when there is none. */
    function GetOr(default: T): T {
      match this
      case Some(v) => v
      case None => default
    }
  }

  /** A JavaScript `Date`, as milliseconds since the Unix epoch. */
  type Time = int

  datatype TaskStatus = Pending | Completed

  datatype Task = Task(
    id: string,
    title: string,
    description: string,
    status: TaskStatus,
    createdAt: Time,
    updatedAt: Time)

  /** What the task form submits. */
  datatype TaskFormData = TaskFormData(title: string, description: string)

  /** `Partial<TaskFormData>`: each field is either supplied or omitted. */
  datatype TaskFormPatch = TaskFormPatch(title: Option<string>, description: Option<string>)
}
