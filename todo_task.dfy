/**
 * The todo list's task record: a status with two states, a task id that
 * wraps a `usize`, and a task made of an id, a status and a text.
 *
 * The Rust file declares only the data; the methods the rest of the crate
 * calls on a task (`Task::new`, `from_parts`, `do`, `undo`, `to_csv` and the
 * accessors, `TaskStatus::val`) are given here with their evident meaning.
 */
module TodoTask {
  import opened RustStr

  datatype TaskStatus = Pending | Done

  /** The word a status is listed and stored as. */
  function StatusVal(s: TaskStatus): (w: string)
    ensures w == "pending" || w == "done"
    ensures (w == "pending") <==> s == Pending
  {
    match s
    case Pending => "pending"
    case Done => "done"
  }

  /** Equality of ids is equality of the wrapped numbers (derived `PartialEq`). */
  datatype TaskId = TaskId(id: nat) {

    /** `TaskId::val`. */
    function Val(): nat {
      id
    }

    /** `TaskId::new`: the id that `Val` gives back. */
    static function New(id: nat): (t: TaskId)
      ensures t.Val() == id
    {
      TaskId(id)
    }
  }

  datatype Task = Task(id: TaskId, status: TaskStatus, text: string) {

    /** `Task::new`: a new task is pending. */
    static function New(id: TaskId, text: string): (t: Task)
      ensures t.id == id && t.status == Pending && t.text == text
    {
      Task(id, Pending, text)
    }

    /** `Task::r#do`: marks the task done, nothing else changes. */
    function Do(): (t: Task)
      ensures t.status == Done && t.id == id && t.text == text
    {
      this.(status := Done)
    }

    /** `Task::undo`: marks the task pending again, nothing else changes. */
    function Undo(): (t: Task)
      ensures t.status == Pending && t.id == id && t.text == text
    {
      this.(status := Pending)
    }

    /** The three `;`-separated fields a task is stored as. */
    function CsvFields(): seq<string> {
      [NatToString(id.Val()), StatusVal(status), text]
    }

    /** `Task::to_csv`: `id;status;text`. */
    function ToCsv(): string {
      Join(CsvFields(), ";")
    }
  }

  /** Two ids are equal exactly when the numbers they wrap are. */
  lemma TaskIdEquality(a: TaskId, b: TaskId)
    ensures a == b <==> a.Val() == b.Val()
  {
  }

  /** `Do` and `Undo` undo each other. */
  lemma DoUndoRoundTrip(t: Task)
    ensures t.Do().Undo() == t.Undo() && t.Undo().Do() == t.Do()
    ensures t.status == Pending ==> t.Do().Undo() == t
    ensures t.status == Done ==> t.Undo().Do() == t
  {
  }
}
