/**
 * The todo list's task table: a map from task ids to tasks, loaded from
 * `;`-separated lines, changed in place by add, delete, do and undo, and
 * listed and saved in ascending id order. What the table reports goes to
 * its printer; here the printer is the sequence of messages it was given.
 */
module TodoTaskList {
  import opened Wrappers
  import opened RustStr
  import opened TodoTask
  import opened TodoCommand

  /** A line handed to the printer, with its level. */
  datatype Message = Notice(text: string) | Warning(text: string)

  // ---------------------------------------------------------------------------
  // Sorted ids
  // ---------------------------------------------------------------------------

  predicate Increasing(ids: seq<nat>) {
    forall i, j :: 0 <= i < j < |ids| ==> ids[i] < ids[j]
  }

  predicate IsMin(m: nat, keys: set<nat>) {
    m in keys && forall k :: k in keys ==> m <= k
  }

  lemma {:induction false} MinExists(keys: set<nat>)
    requires keys != {}
    ensures exists m :: IsMin(m, keys)
    decreases |keys|
  {
    var x :| x in keys;
    if keys != {x} {
      MinExists(keys - {x});
      var y :| IsMin(y, keys - {x});
      var m := if x <= y then x else y;
      forall k | k in keys
        ensures m <= k
      {
        if k != x {
          assert k in keys - {x};
        }
      }
      assert IsMin(m, keys);
    } else {
      assert IsMin(x, keys);
    }
  }

  /** The smallest element of a non-empty set of ids. */
  function Min(keys: set<nat>): (m: nat)
    requires keys != {}
    ensures IsMin(m, keys)
  {
    MinExists(keys);
    var m :| IsMin(m, keys);
    m
  }

  /**
   * The keys collected and sorted, as `ids.sort()` leaves them: as many ids
   * as keys, each a key, in strictly ascending order. `SortedKeysComplete`
   * shows that every key is listed.
   */
  function SortedKeys(keys: set<nat>): (ids: seq<nat>)
    ensures |ids| == |keys|
    ensures forall i :: 0 <= i < |ids| ==> ids[i] in keys
    ensures Increasing(ids)
    decreases |keys|
  {
    if keys == {} then []
    else
      var m := Min(keys);
      [m] + SortedKeys(keys - {m})
  }

  /** Every key is among the sorted ids. */
  lemma {:induction false} SortedKeysComplete(keys: set<nat>)
    ensures forall k :: k in keys <==> k in SortedKeys(keys)
    decreases |keys|
  {
    if keys != {} {
      var m := Min(keys);
      SortedKeysComplete(keys - {m});
      assert SortedKeys(keys) == [m] + SortedKeys(keys - {m});
    }
  }

  // ---------------------------------------------------------------------------
  // get_next_task_id
  // ---------------------------------------------------------------------------

  /**
   * From position `i` of the sorted ids on: one more than the first id whose
   * successor in the list is not the next number, or than the last id.
   */
  function GapFrom(ids: seq<nat>, i: nat): nat
    requires Increasing(ids) && i < |ids|
    decreases |ids| - i
  {
    if i + 1 == |ids| then ids[i] + 1
    else if (assert ids[i] < ids[i + 1]; ids[i] != ids[i + 1] - 1) then ids[i] + 1
    else GapFrom(ids, i + 1)
  }

  /** The id `get_next_task_id` picks for the sorted ids. */
  function NextId(ids: seq<nat>): nat
    requires Increasing(ids)
  {
    if ids == [] then 1 else GapFrom(ids, 0)
  }

  lemma {:induction false} GapFromIsFirstGap(ids: seq<nat>, i: nat)
    requires Increasing(ids) && i < |ids|
    ensures GapFrom(ids, i) - 1 in ids[i..]
    ensures GapFrom(ids, i) !in ids
    ensures forall k :: ids[i] <= k < GapFrom(ids, i) ==> k in ids[i..]
    decreases |ids| - i
  {
    if i + 1 < |ids| && ids[i] + 1 == ids[i + 1] {
      GapFromIsFirstGap(ids, i + 1);
      forall k | ids[i] <= k < GapFrom(ids, i)
        ensures k in ids[i..]
      {
        if k == ids[i] {
          assert ids[i..][0] == k;
        } else {
          assert k in ids[i + 1..];
        }
      }
    } else {
      assert ids[i..][0] == ids[i];
      forall k | 0 <= k < |ids|
        ensures ids[k] != ids[i] + 1
      {
        if k > i + 1 {
          assert ids[k] > ids[i + 1];
        }
      }
    }
  }

  /**
   * The id picked for a table is new: 1 for an empty table; otherwise the
   * number just above a present id, such that every number from the
   * smallest id up to it is present — the first gap above the smallest id.
   */
  lemma NextIdIsFirstGap(ids: seq<nat>)
    requires Increasing(ids)
    ensures NextId(ids) !in ids
    ensures ids == [] ==> NextId(ids) == 1
    ensures ids != [] ==> NextId(ids) - 1 in ids
    ensures ids != [] ==> forall k :: ids[0] <= k < NextId(ids) ==> k in ids
  {
    if ids != [] {
      GapFromIsFirstGap(ids, 0);
      assert ids[0..] == ids;
    }
  }

  /** The id picked for a table of tasks is a key the table does not hold. */
  lemma NextIdIsFresh(tasks: map<nat, Task>)
    ensures NextId(SortedKeys(tasks.Keys)) !in tasks
    ensures tasks == map[] ==> NextId(SortedKeys(tasks.Keys)) == 1
  {
    NextIdIsFirstGap(SortedKeys(tasks.Keys));
    SortedKeysComplete(tasks.Keys);
  }

  // ---------------------------------------------------------------------------
  // Stored lines
  // ---------------------------------------------------------------------------

  /**
   * The per-line parse of the loader: exactly three `;`-separated parts, a
   * usize id and a status word; any other line is ignored with a warning.
   */
  function ParseLine(line: string): Result<Task, Message> {
    var pieces := Split(line, ';');
    if |pieces| != 3 then Err(Warning("Ignoring task '" + line + "' due to missmatched parts"))
    else match ParseUsize(pieces[0])
      case None => Err(Warning("Ignoring task '" + line + "' due to invalid id"))
      case Some(id) =>
        if pieces[1] == "pending" then Ok(Task(TaskId.New(id), Pending, pieces[2]))
        else if pieces[1] == "done" then Ok(Task(TaskId.New(id), Done, pieces[2]))
        else Err(Warning("Ignoring task '" + line + "' due to invalid status"))
  }

  /** A line is accepted exactly when it has three parts, a usize id and a known status. */
  lemma ParseLineAccepts(line: string)
    ensures ParseLine(line).Ok? <==>
      (Occurrences(line, ';') == 2
       && ParseUsize(Split(line, ';')[0]).Some?
       && Split(line, ';')[1] in {"pending", "done"})
    ensures ParseLine(line).Ok? ==>
      var t := ParseLine(line).value;
      t.id.Val() <= USIZE_MAX && ';' !in t.text && t.text == Split(line, ';')[2]
  {
  }

  /** A task whose text holds no `;` is read back from its CSV line. */
  lemma ParseLineOfCsv(t: Task)
    requires t.id.Val() <= USIZE_MAX && ';' !in t.text
    ensures ParseLine(t.ToCsv()) == Ok(t)
  {
    var fields := t.CsvFields();
    assert ';' !in fields[0] by {
      assert forall i :: 0 <= i < |fields[0]| ==> IsDigit(fields[0][i]);
    }
    assert ';' !in fields[1];
    SplitOfJoin(fields, ';');
    ParseUsizeOfNatToString(t.id.Val());
  }

  /**
   * A task whose text holds a `;` is saved as a line of more than three
   * parts, which the loader ignores with a warning.
   */
  lemma {:induction false} SemicolonTextNotReloaded(t: Task)
    requires ';' in t.text
    ensures |Split(t.ToCsv(), ';')| > 3
    ensures ParseLine(t.ToCsv()) == Err(Warning("Ignoring task '" + t.ToCsv() + "' due to missmatched parts"))
  {
    var f := t.CsvFields();
    assert Join(f[1..], ";") == f[1] + ";" + f[2] by {
      assert f[1..][1..] == [f[2]];
    }
    assert t.ToCsv() == f[0] + ";" + (f[1] + ";" + f[2]);
    assert multiset(t.ToCsv())[';'] == multiset(f[0])[';'] + 1 + multiset(f[1])[';'] + 1 + multiset(f[2])[';'];
    assert multiset(t.text)[';'] > 0;
  }

  /** Every line parsed, in order. */
  function ParseLines(lines: seq<string>): (rs: seq<Result<Task, Message>>)
    ensures |rs| == |lines|
    ensures forall i :: 0 <= i < |lines| ==> rs[i] == ParseLine(lines[i])
  {
    seq(|lines|, i requires 0 <= i < |lines| => ParseLine(lines[i]))
  }

  /** The table built from parse results in order: each accepted task under its id, a later one overwriting. */
  function Accepted(rs: seq<Result<Task, Message>>): (tasks: map<nat, Task>)
    ensures forall k :: k in tasks ==> tasks[k].id.Val() == k
  {
    if rs == [] then map[]
    else
      var before := Accepted(rs[..|rs| - 1]);
      match rs[|rs| - 1]
      case Ok(t) => before[t.id.Val() := t]
      case Err(_) => before
  }

  /** The warnings of the rejected results, in order. */
  function Rejected(rs: seq<Result<Task, Message>>): (ws: seq<Message>)
    ensures |ws| <= |rs|
  {
    if rs == [] then []
    else
      var before := Rejected(rs[..|rs| - 1]);
      match rs[|rs| - 1]
      case Ok(_) => before
      case Err(w) => before + [w]
  }

  /** The table the loader builds from the lines. */
  function LoadedTasks(lines: seq<string>): map<nat, Task> {
    Accepted(ParseLines(lines))
  }

  /** The warnings the loader prints, one per rejected line, in order. */
  function LoadWarnings(lines: seq<string>): seq<Message> {
    Rejected(ParseLines(lines))
  }

  /** An accepted task that no later result overwrites is in the table. */
  lemma {:induction false} AcceptedLastWins(rs: seq<Result<Task, Message>>, i: nat)
    requires i < |rs| && rs[i].Ok?
    requires forall j :: i < j < |rs| && rs[j].Ok? ==> rs[j].value.id != rs[i].value.id
    ensures rs[i].value.id.Val() in Accepted(rs) && Accepted(rs)[rs[i].value.id.Val()] == rs[i].value
  {
    var n := |rs| - 1;
    if i < n {
      var before := rs[..n];
      AcceptedLastWins(before, i);
      if rs[n].Ok? {
        TaskIdEquality(rs[n].value.id, rs[i].value.id);
      }
    }
  }

  /** Every task in the table is an accepted result. */
  lemma {:induction false} AcceptedFromResults(rs: seq<Result<Task, Message>>, k: nat)
    requires k in Accepted(rs)
    ensures exists i :: 0 <= i < |rs| && rs[i] == Ok(Accepted(rs)[k])
  {
    var n := |rs| - 1;
    var before := rs[..n];
    if rs[n].Ok? && rs[n].value.id.Val() == k {
      assert rs[n] == Ok(Accepted(rs)[k]);
    } else {
      AcceptedFromResults(before, k);
      var i :| 0 <= i < |before| && before[i] == Ok(Accepted(before)[k]);
      assert rs[i] == before[i];
    }
  }

  /**
   * A loaded id holds the task of the last line accepted with that id, and
   * every loaded task comes from an accepted line.
   */
  lemma LoadedTasksLastWins(lines: seq<string>, i: nat)
    requires i < |lines| && ParseLine(lines[i]).Ok?
    requires forall j :: i < j < |lines| && ParseLine(lines[j]).Ok? ==>
      ParseLine(lines[j]).value.id != ParseLine(lines[i]).value.id
    ensures var t := ParseLine(lines[i]).value;
      t.id.Val() in LoadedTasks(lines) && LoadedTasks(lines)[t.id.Val()] == t
  {
    AcceptedLastWins(ParseLines(lines), i);
  }

  lemma LoadedTasksFromLines(lines: seq<string>, k: nat)
    requires k in LoadedTasks(lines)
    ensures exists i :: 0 <= i < |lines| && ParseLine(lines[i]) == Ok(LoadedTasks(lines)[k])
  {
    AcceptedFromResults(ParseLines(lines), k);
  }

  // ---------------------------------------------------------------------------
  // Listing and saving, in ascending id order
  // ---------------------------------------------------------------------------

  /** One listed task: `id<TAB>status<TAB>text`. */
  function ListingLine(t: Task): string {
    NatToString(t.id.Val()) + "\t" + StatusVal(t.status) + "\t" + t.text
  }

  /** What `print_tasks` prints: one notice per task, by ascending id. */
  function Listing(tasks: map<nat, Task>): (out: seq<Message>)
    ensures |out| == |tasks|
    ensures forall i :: 0 <= i < |out| ==> out[i] == Notice(ListingLine(tasks[SortedKeys(tasks.Keys)[i]]))
  {
    var ids := SortedKeys(tasks.Keys);
    seq(|ids|, i requires 0 <= i < |ids| => Notice(ListingLine(tasks[ids[i]])))
  }

  /** The lines `sync_to_file` writes: each task's CSV form, by ascending id. */
  function CsvLines(tasks: map<nat, Task>): (ls: seq<string>)
    ensures |ls| == |tasks|
    ensures forall i :: 0 <= i < |ls| ==> ls[i] == tasks[SortedKeys(tasks.Keys)[i]].ToCsv()
  {
    var ids := SortedKeys(tasks.Keys);
    seq(|ids|, i requires 0 <= i < |ids| => tasks[ids[i]].ToCsv())
  }

  /** The file content `sync_to_file` writes: every CSV line followed by a newline. */
  function Saved(tasks: map<nat, Task>): string {
    Terminated(CsvLines(tasks))
  }

  /**
   * Listing and saving visit every task exactly once, by strictly ascending
   * id: position `i` shows the task under the `i`-th smallest id.
   */
  lemma ListingInAscendingOrder(tasks: map<nat, Task>, i: nat, j: nat)
    requires i < j < |tasks|
    ensures var ids := SortedKeys(tasks.Keys);
      ids[i] < ids[j]
      && Listing(tasks)[i] == Notice(ListingLine(tasks[ids[i]]))
      && CsvLines(tasks)[i] == tasks[ids[i]].ToCsv()
  {
  }

  /** The listing, one task further on. */
  lemma ListingOneMore(tasks: map<nat, Task>, i: nat)
    requires i < |tasks|
    ensures var t := tasks[SortedKeys(tasks.Keys)[i]];
      Listing(tasks)[..i + 1] == Listing(tasks)[..i]
        + [Notice(NatToString(t.id.Val()) + "\t" + StatusVal(t.status) + "\t" + t.text)]
  {
    TakeOneMore(Listing(tasks), i + 1);
  }

  /** Every task is listed and saved. */
  lemma ListingCoversEveryTask(tasks: map<nat, Task>, k: nat)
    requires k in tasks
    ensures exists i :: (0 <= i < |tasks| && Listing(tasks)[i] == Notice(ListingLine(tasks[k]))
      && CsvLines(tasks)[i] == tasks[k].ToCsv())
  {
    var ids := SortedKeys(tasks.Keys);
    SortedKeysComplete(tasks.Keys);
    assert k in ids;
    var i :| 0 <= i < |ids| && ids[i] == k;
    assert Listing(tasks)[i] == Notice(ListingLine(tasks[k]));
  }

  /** A task that survives a save and a load. */
  predicate Storable(t: Task) {
    t.id.Val() <= USIZE_MAX && ';' !in t.text && IsPlainLine(t.text)
  }

  /** Every task accepted, by ascending id. */
  function AcceptedInOrder(tasks: map<nat, Task>): (rs: seq<Result<Task, Message>>)
    ensures |rs| == |tasks|
    ensures forall i :: 0 <= i < |rs| ==> rs[i] == Ok(tasks[SortedKeys(tasks.Keys)[i]])
  {
    var ids := SortedKeys(tasks.Keys);
    seq(|ids|, i requires 0 <= i < |ids| => Ok(tasks[ids[i]]))
  }

  /** The results of parsing the saved lines: every task accepted, by ascending id. */
  lemma ParseLinesOfCsv(tasks: map<nat, Task>)
    requires forall k :: k in tasks ==> Storable(tasks[k])
    ensures ParseLines(CsvLines(tasks)) == AcceptedInOrder(tasks)
  {
    var ids := SortedKeys(tasks.Keys);
    forall i | 0 <= i < |ids|
      ensures ParseLine(CsvLines(tasks)[i]) == Ok(tasks[ids[i]])
    {
      ParseLineOfCsv(tasks[ids[i]]);
    }
  }

  lemma TakeAll<T>(s: seq<T>)
    ensures s[..|s|] == s
  {
  }

  lemma TakeOneMore<T>(s: seq<T>, n: nat)
    requires 0 < n <= |s|
    ensures s[..n] == s[..n - 1] + [s[n - 1]]
  {
  }

  /** Accepting the tasks under the first `n` sorted ids gives the table on those ids. */
  lemma {:induction false} AcceptedOfSorted(tasks: map<nat, Task>, n: nat)
    requires forall k :: k in tasks ==> tasks[k].id.Val() == k
    requires n <= |tasks|
    ensures var ids := SortedKeys(tasks.Keys);
      var m := Accepted(AcceptedInOrder(tasks)[..n]);
      forall k :: (k in m <==> k in ids[..n]) && (k in m ==> m[k] == tasks[k])
  {
    if n > 0 {
      var ids := SortedKeys(tasks.Keys);
      var rs := AcceptedInOrder(tasks);
      AcceptedOfSorted(tasks, n - 1);
      var id := ids[n - 1];
      var before := Accepted(rs[..n - 1]);
      var m := Accepted(rs[..n]);
      assert m == before[id := tasks[id]] by {
        assert rs[..n][..n - 1] == rs[..n - 1];
        assert rs[..n][n - 1] == Ok(tasks[id]);
      }
      TakeOneMore(ids, n);
      forall k
        ensures (k in m <==> k in ids[..n]) && (k in m ==> m[k] == tasks[k])
      {
        if k != id {
          assert k in m <==> k in before;
          assert k in ids[..n] <==> k in ids[..n - 1];
        }
      }
    }
  }

  lemma {:induction false} NothingRejectedOfSorted(tasks: map<nat, Task>, n: nat)
    requires n <= |tasks|
    ensures Rejected(AcceptedInOrder(tasks)[..n]) == []
  {
    if n > 0 {
      var rs := AcceptedInOrder(tasks);
      NothingRejectedOfSorted(tasks, n - 1);
      assert rs[..n][..n - 1] == rs[..n - 1];
    }
  }

  /** Two tables that agree with the same list of ids are equal. */
  lemma SameTable(m: map<nat, Task>, tasks: map<nat, Task>, ids: seq<nat>)
    requires forall k :: k in ids <==> k in tasks
    requires forall k :: (k in m <==> k in ids) && (k in m ==> m[k] == tasks[k])
    ensures m == tasks
  {
    assert m.Keys == tasks.Keys;
  }

  /** The tasks accepted in ascending id order make up the table again. */
  lemma AcceptedInOrderIsTable(tasks: map<nat, Task>)
    requires forall k :: k in tasks ==> tasks[k].id.Val() == k
    ensures Accepted(AcceptedInOrder(tasks)) == tasks
  {
    var ids := SortedKeys(tasks.Keys);
    var rs := AcceptedInOrder(tasks);
    AcceptedOfSorted(tasks, |tasks|);
    TakeAll(rs);
    TakeAll(ids);
    SortedKeysComplete(tasks.Keys);
    SameTable(Accepted(rs), tasks, ids);
  }

  /** The saved file splits back into the saved lines. */
  lemma LinesOfSaved(tasks: map<nat, Task>)
    requires forall k :: k in tasks ==> Storable(tasks[k])
    ensures Lines(Saved(tasks)) == CsvLines(tasks)
  {
    var ls := CsvLines(tasks);
    var ids := SortedKeys(tasks.Keys);
    forall i | 0 <= i < |ls|
      ensures IsPlainLine(ls[i])
    {
      CsvLineIsPlain(tasks[ids[i]]);
    }
    LinesOfTerminated(ls);
  }

  /** A saved table loads back as the same table, without warnings. */
  lemma SaveLoadRoundTrip(tasks: map<nat, Task>)
    requires forall k :: k in tasks ==> tasks[k].id.Val() == k && Storable(tasks[k])
    ensures LoadedTasks(Lines(Saved(tasks))) == tasks
    ensures LoadWarnings(Lines(Saved(tasks))) == []
  {
    LinesOfSaved(tasks);
    ParseLinesOfCsv(tasks);
    AcceptedInOrderIsTable(tasks);
    NothingRejectedOfSorted(tasks, |tasks|);
    TakeAll(AcceptedInOrder(tasks));
  }

  lemma CsvLineIsPlain(t: Task)
    requires Storable(t)
    ensures IsPlainLine(t.ToCsv())
  {
    var fields := t.CsvFields();
    assert Join(fields[1..], ";") == fields[1] + ";" + Join(fields[2..], ";");
    assert t.ToCsv() == fields[0] + ";" + (fields[1] + ";" + fields[2]);
    assert '\n' !in fields[0] by {
      assert forall i :: 0 <= i < |fields[0]| ==> IsDigit(fields[0][i]);
    }
    assert '\n' !in fields[1];
  }

  // ---------------------------------------------------------------------------
  // The operations, as functions of the table
  // ---------------------------------------------------------------------------

  function UnknownTaskMessage(k: nat): Message {
    Warning("Unknown task with key " + NatToString(k))
  }

  /** `add_task`: the text stored as a new pending task under the next id. */
  function AfterAdd(tasks: map<nat, Task>, text: string): map<nat, Task> {
    var n := NextId(SortedKeys(tasks.Keys));
    tasks[n := Task.New(TaskId.New(n), text)]
  }

  /** What `delete_task` prints. */
  function DeleteMessage(tasks: map<nat, Task>, k: nat): Message {
    if k in tasks then Notice("Task with key " + NatToString(k) + " successfully deleted")
    else UnknownTaskMessage(k)
  }

  /** `do_task`: a known task marked done. */
  function AfterDo(tasks: map<nat, Task>, k: nat): map<nat, Task> {
    if k in tasks then tasks[k := tasks[k].Do()] else tasks
  }

  /** `undo_task`: a known task marked pending. */
  function AfterUndo(tasks: map<nat, Task>, k: nat): map<nat, Task> {
    if k in tasks then tasks[k := tasks[k].Undo()] else tasks
  }

  /** The warning `do_task` and `undo_task` print for an unknown id. */
  function UnknownWarnings(tasks: map<nat, Task>, k: nat): seq<Message> {
    if k in tasks then [] else [UnknownTaskMessage(k)]
  }

  /** A table and what an operation printed. */
  datatype Outcome = Outcome(tasks: map<nat, Task>, printed: seq<Message>)

  /** `execute`: each command's effect on the table and what it prints. */
  function Step(tasks: map<nat, Task>, command: Command): Outcome {
    match command
    case Add(text) => Outcome(AfterAdd(tasks, text), [])
    case Delete(id) => Outcome(tasks - {id.Val()}, [DeleteMessage(tasks, id.Val())])
    case Do(id) => Outcome(AfterDo(tasks, id.Val()), UnknownWarnings(tasks, id.Val()))
    case List => Outcome(tasks, Listing(tasks))
    case UnDo(id) => Outcome(AfterUndo(tasks, id.Val()), UnknownWarnings(tasks, id.Val()))
    case Exit => Outcome(tasks, [])
  }

  /** Every task is stored under its own id. */
  predicate KeyedById(tasks: map<nat, Task>) {
    forall k :: k in tasks ==> tasks[k].id.Val() == k
  }

  /**
   * `add` inserts exactly one entry, a pending task with the text under a
   * fresh id; every other entry stays as it was; nothing is printed.
   */
  lemma AddInsertsOneFreshTask(tasks: map<nat, Task>, text: string)
    ensures var n := NextId(SortedKeys(tasks.Keys));
      var r := Step(tasks, Add(text));
      n !in tasks
      && r.tasks.Keys == tasks.Keys + {n}
      && r.tasks[n] == Task(TaskId(n), Pending, text)
      && (forall k :: k in tasks ==> r.tasks[k] == tasks[k])
      && r.printed == []
  {
    NextIdIsFresh(tasks);
  }

  /**
   * `delete` removes the id and nothing else; it reports the deletion, or
   * warns about an unknown id and leaves the table as it was.
   */
  lemma DeleteRemovesOnlyThatTask(tasks: map<nat, Task>, id: TaskId)
    ensures var r := Step(tasks, Delete(id));
      r.tasks.Keys == tasks.Keys - {id.Val()}
      && (forall k :: k in r.tasks ==> r.tasks[k] == tasks[k])
      && (id.Val() !in tasks ==> r.tasks == tasks && r.printed == [Warning("Unknown task with key " + NatToString(id.Val()))])
      && (id.Val() in tasks ==> r.printed == [Notice("Task with key " + NatToString(id.Val()) + " successfully deleted")])
  {
  }

  /**
   * `do` and `undo` on a known id change that task's status and nothing else
   * and print nothing; on an unknown id they change nothing and warn.
   */
  lemma DoUndoChangeOnlyThatTask(tasks: map<nat, Task>, id: TaskId)
    ensures var k := id.Val();
      var d := Step(tasks, Do(id));
      var u := Step(tasks, UnDo(id));
      d.tasks.Keys == tasks.Keys && u.tasks.Keys == tasks.Keys
      && (forall j :: j in tasks && j != k ==> d.tasks[j] == tasks[j] && u.tasks[j] == tasks[j])
      && (k in tasks ==>
            d.tasks[k] == tasks[k].(status := Done) && u.tasks[k] == tasks[k].(status := Pending)
            && d.printed == [] && u.printed == [])
      && (k !in tasks ==>
            d.tasks == tasks && u.tasks == tasks
            && d.printed == [UnknownTaskMessage(k)] && u.printed == [UnknownTaskMessage(k)])
  {
  }

  /** `exit` and `list` leave the table as it was; `exit` prints nothing, `list` the listing. */
  lemma ExitAndListChangeNothing(tasks: map<nat, Task>)
    ensures Step(tasks, Exit) == Outcome(tasks, [])
    ensures Step(tasks, List) == Outcome(tasks, Listing(tasks))
  {
  }

  /** Every command keeps each task under its own id. */
  lemma StepKeepsTasksKeyedById(tasks: map<nat, Task>, command: Command)
    requires KeyedById(tasks)
    ensures KeyedById(Step(tasks, command).tasks)
  {
  }

  /** Loading the lines one more line at a time. */
  lemma LoadOneMore(lines: seq<string>, i: nat)
    requires i < |lines|
    ensures var before := LoadedTasks(lines[..i]);
      LoadedTasks(lines[..i + 1]) == (match ParseLine(lines[i])
        case Ok(t) => before[t.id.Val() := t]
        case Err(_) => before)
    ensures LoadWarnings(lines[..i + 1]) == LoadWarnings(lines[..i])
      + (match ParseLine(lines[i]) case Ok(_) => [] case Err(w) => [w])
  {
    var rs := ParseLines(lines[..i + 1]);
    assert rs[..i] == ParseLines(lines[..i]);
  }

  // ---------------------------------------------------------------------------
  // The table
  // ---------------------------------------------------------------------------

  /** `TaskList`: the tasks by id, and what its printer was given. */
  class TaskList {
    var tasks: map<nat, Task>
    var printed: seq<Message>

    ghost predicate Valid()
      reads this
    {
      KeyedById(tasks)
    }

    /**
     * `TaskList::new`: `file` holds the file's content, or `None` when the
     * file does not exist. Each line is parsed; rejected lines are warned
     * about and skipped.
     */
    constructor (file: Option<string>)
      ensures Valid()
      ensures file.None? ==> tasks == map[] && printed == []
      ensures file.Some? ==>
        tasks == LoadedTasks(Lines(file.value)) && printed == LoadWarnings(Lines(file.value))
    {
      var loaded: map<nat, Task> := map[];
      var warnings: seq<Message> := [];
      if file.Some? {
        var lines := Lines(file.value);
        var i := 0;
        assert lines[..0] == [];
        while i < |lines|
          invariant 0 <= i <= |lines|
          invariant loaded == LoadedTasks(lines[..i])
          invariant warnings == LoadWarnings(lines[..i])
        {
          var line := lines[i];
          LoadOneMore(lines, i);
          var pieces := Split(line, ';');
          if |pieces| != 3 {
            var warning := Warning("Ignoring task '" + line + "' due to missmatched parts");
            assert ParseLine(line) == Err(warning);
            warnings := warnings + [warning];
            i := i + 1;
            continue;
          }
          var parsed := ParseUsize(pieces[0]);
          if parsed.None? {
            var warning := Warning("Ignoring task '" + line + "' due to invalid id");
            assert ParseLine(line) == Err(warning);
            warnings := warnings + [warning];
            i := i + 1;
            continue;
          }
          var status: TaskStatus;
          if pieces[1] == "pending" {
            status := Pending;
          } else if pieces[1] == "done" {
            status := Done;
          } else {
            var warning := Warning("Ignoring task '" + line + "' due to invalid status");
            assert ParseLine(line) == Err(warning);
            warnings := warnings + [warning];
            i := i + 1;
            continue;
          }
          var text := pieces[2];
          var id := TaskId.New(parsed.value);
          var task := Task(id, status, text);
          assert ParseLine(line) == Ok(task);
          loaded := loaded[id.Val() := task];
          i := i + 1;
        }
        assert lines[..|lines|] == lines;
      }
      tasks := loaded;
      printed := warnings;
    }

    /** `execute`: dispatches the command to its operation; `Exit` does nothing. */
    method Execute(command: Command)
      requires Valid()
      modifies this
      ensures Valid()
      ensures tasks == Step(old(tasks), command).tasks
      ensures printed == old(printed) + Step(old(tasks), command).printed
    {
      match command {
        case Add(text) => AddTask(text);
        case Delete(id) => DeleteTask(id);
        case Do(id) => DoTask(id);
        case List => PrintTasks();
        case UnDo(id) => UndoTask(id);
        case Exit =>
      }
    }

    /** `do_task`. */
    method DoTask(id: TaskId)
      requires Valid()
      modifies this
      ensures Valid()
      ensures tasks == AfterDo(old(tasks), id.Val())
      ensures printed == old(printed) + UnknownWarnings(old(tasks), id.Val())
    {
      if id.Val() !in tasks {
        var msg := "Unknown task with key " + NatToString(id.Val());
        printed := printed + [Warning(msg)];
        return;
      }
      var task := tasks[id.Val()];
      tasks := tasks[id.Val() := task.Do()];
    }

    /** `undo_task`. */
    method UndoTask(id: TaskId)
      requires Valid()
      modifies this
      ensures Valid()
      ensures tasks == AfterUndo(old(tasks), id.Val())
      ensures printed == old(printed) + UnknownWarnings(old(tasks), id.Val())
    {
      if id.Val() !in tasks {
        var msg := "Unknown task with key " + NatToString(id.Val());
        printed := printed + [Warning(msg)];
        return;
      }
      var task := tasks[id.Val()];
      tasks := tasks[id.Val() := task.Undo()];
    }

    /** `print_tasks`: one notice per task, by ascending id. */
    method PrintTasks()
      modifies this
      ensures tasks == old(tasks)
      ensures printed == old(printed) + Listing(tasks)
    {
      var table := tasks;
      var ids := SortedKeys(table.Keys);
      var i := 0;
      while i < |ids|
        invariant 0 <= i <= |ids|
        invariant tasks == table
        invariant printed == old(printed) + Listing(table)[..i]
      {
        var task := table[ids[i]];
        var line := NatToString(task.id.Val()) + "\t" + StatusVal(task.status) + "\t" + task.text;
        ListingOneMore(table, i);
        printed := printed + [Notice(line)];
        i := i + 1;
      }
      TakeAll(Listing(table));
    }

    /** `add_task`. */
    method AddTask(text: string)
      requires Valid()
      modifies this
      ensures Valid()
      ensures tasks == AfterAdd(old(tasks), text)
      ensures printed == old(printed)
    {
      var id := NextTaskId();
      var task := Task.New(id, text);
      tasks := tasks[id.Val() := task];
    }

    /** `get_next_task_id`: walks the sorted ids for the first one not followed by its successor. */
    method NextTaskId() returns (id: TaskId)
      ensures id.Val() == NextId(SortedKeys(tasks.Keys))
    {
      var ids := SortedKeys(tasks.Keys);
      if ids == [] {
        return TaskId.New(1);
      }
      var last := ids[|ids| - 1];
      var index := 0;
      while index < last
        invariant 0 <= index < |ids|
        invariant index <= last
        invariant ids[index] >= index
        invariant GapFrom(ids, index) == GapFrom(ids, 0)
      {
        var key := ids[index];
        if index + 1 >= |ids| {
          break;
        }
        var nextKey := ids[index + 1];
        if key != nextKey - 1 {
          return TaskId.New(key + 1);
        }
        index := index + 1;
      }
      return TaskId.New(ids[|ids| - 1] + 1);
    }

    /** `delete_task`. */
    method DeleteTask(id: TaskId)
      requires Valid()
      modifies this
      ensures Valid()
      ensures tasks == old(tasks) - {id.Val()}
      ensures printed == old(printed) + [DeleteMessage(old(tasks), id.Val())]
    {
      if id.Val() in tasks {
        tasks := tasks - {id.Val()};
        var msg := "Task with key " + NatToString(id.Val()) + " successfully deleted";
        printed := printed + [Notice(msg)];
      } else {
        var msg := "Unknown task with key " + NatToString(id.Val());
        printed := printed + [Warning(msg)];
      }
    }

    /** `sync_to_file`: the content written, each task's CSV line by ascending id. */
    method SyncToFile() returns (content: string)
      ensures content == Saved(tasks)
    {
      var ids := SortedKeys(tasks.Keys);
      ghost var lines := CsvLines(tasks);
      content := "";
      var i := 0;
      while i < |ids|
        invariant 0 <= i <= |ids|
        invariant content == Terminated(lines[..i])
      {
        var task := tasks[ids[i]];
        var str := task.ToCsv() + "\n";
        TakeOneMore(lines, i + 1);
        TerminatedOneMore(lines[..i], task.ToCsv());
        content := content + str;
        i := i + 1;
      }
      TakeAll(lines);
    }
  }
}
