/** Task vocabulary: statuses in their domain and storage spellings, and the overdue rule. */
module TaskDomain {

  datatype Option<+T> = None | Some(value: T)

  // A UUID that has already been parsed, so that equal ids are equal values.
  type Id = string

  // Microseconds on one time line. ZERO_TIME is Go's zero time.Time, which a due date uses for "not set".
  type Time = int
  const ZERO_TIME: Time := 0

  // domain.Status is a string type: any text can be put into it.
  type Status = string
  const NOT_COMPLETED: Status := "not_completed"
  const IN_PROGRESS: Status := "in_progress"
  const COMPLETED: Status := "completed"

  /** Reads a status in either spelling; anything unknown is "in progress". */
  function NewStatus(s: string): Status {
    if s == "not_completed" || s == "1" then NOT_COMPLETED
    else if s == "in_progress" || s == "2" then IN_PROGRESS
    else if s == "completed" || s == "3" then COMPLETED
    else IN_PROGRESS
  }

  /** The SMALLINT code a status is stored under. */
  function StorageCode(s: Status): string {
    if s == NOT_COMPLETED then "1"
    else if s == IN_PROGRESS then "2"
    else if s == COMPLETED then "3"
    else "2"
  }

  /** The status a reader sees at time now. */
  function Overdue(s: Status, due: Time, now: Time): Status {
    if s != COMPLETED && due != ZERO_TIME && due < now then NOT_COMPLETED else s
  }

  // The two texts that StorageCode and NewStatus read differently: StorageCode sees no known status in "1" and
  // "3" and stores "2", whereas NewStatus takes them for storage codes.
  predicate SpelledForDomain(s: Status) {
    s != "1" && s != "3"
  }

  /** Storing a status and reading it back gives what reading the text itself gives, for exactly these texts. */
  lemma {:induction false} StorageRoundTrip(s: Status)
    ensures NewStatus(StorageCode(s)) == NewStatus(s) <==> SpelledForDomain(s)
  {
    assert |"not_completed"| == 13 && |"in_progress"| == 11 && |"completed"| == 9;
    assert "1"[0] != "2"[0] && "3"[0] != "2"[0] && "1"[0] != "3"[0];
    assert NOT_COMPLETED[0] != IN_PROGRESS[0] && COMPLETED[0] != IN_PROGRESS[0] && NOT_COMPLETED[0] != COMPLETED[0];
  }

  /** Whoever ages a status twice sees what one look at the later time shows. */
  lemma {:induction false} OverdueStable(s: Status, due: Time, early: Time, late: Time)
    requires early <= late
    ensures Overdue(Overdue(s, due, early), due, late) == Overdue(s, due, late)
  {
  }

  datatype Subtask = Subtask(id: Id, taskId: Id, title: string, isDone: bool, order: nat)

  /** False for a task without subtasks: such a task is completed by hand. */
  predicate AllSubtasksDone(subtasks: seq<Subtask>) {
    subtasks != [] && forall s :: s in subtasks ==> s.isDone
  }
}
