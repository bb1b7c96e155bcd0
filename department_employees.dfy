/**
 * The department registry of department_employees: a loop that reads one
 * action per line, keeps a map from department name to the list of its
 * employees, and stops at the first `Exit`.
 *
 * The three regular expressions are written out as matchers over the
 * trimmed line; `\w` is taken as an ASCII letter, digit or underscore.
 * Standard input becomes the sequence of lines given to `Run`, and what
 * the loop prints is returned as a sequence of lines.
 */
module DepartmentEmployees {
  import opened Wrappers
  import opened RustStr

  type Registry = map<string, seq<string>>

  datatype Action =
    | Add(employee: string, department: string)
    | Show(department: string)
    | Exit
    | Unknown

  // ---------------------------------------------------------------------
  // Recognising an action
  // ---------------------------------------------------------------------

  /** A character `\w` matches. */
  predicate IsNameChar(c: char) {
    ('a' <= c <= 'z') || ('A' <= c <= 'Z') || ('0' <= c <= '9') || c == '_'
  }

  /** A string `\w+` matches as a whole. */
  predicate IsName(s: string) {
    |s| > 0 && forall i :: 0 <= i < |s| ==> IsNameChar(s[i])
  }

  /** The length of the longest run of name characters at the start of `s`. */
  function NameLength(s: string): (n: nat)
    ensures n <= |s|
    ensures forall i :: 0 <= i < n ==> IsNameChar(s[i])
    ensures n < |s| ==> !IsNameChar(s[n])
  {
    if |s| == 0 || !IsNameChar(s[0]) then 0 else 1 + NameLength(s[1..])
  }

  lemma {:induction false} NameLengthOfNameThen(e: string, t: string)
    requires IsName(e)
    requires t != [] && !IsNameChar(t[0])
    ensures NameLength(e + t) == |e|
  {
    if |e| > 1 {
      assert (e + t)[1..] == e[1..] + t;
      NameLengthOfNameThen(e[1..], t);
    } else {
      assert (e + t)[1..] == t;
    }
  }

  /** `^Add (?P<employee>\w+) to (?P<department>\w+)$`, with its two captures. */
  function MatchAdd(line: string): Option<(string, string)> {
    if |line| >= 4 && line[..4] == "Add " then
      var rest := line[4..];
      var n := NameLength(rest);
      if n > 0 && |rest| >= n + 4 && rest[n..n + 4] == " to " && IsName(rest[n + 4..]) then
        Some((rest[..n], rest[n + 4..]))
      else
        None
    else
      None
  }

  /** `^Show (?P<department>\w+)$`, with its capture. */
  function MatchShow(line: string): Option<string> {
    if |line| >= 5 && line[..5] == "Show " && IsName(line[5..]) then Some(line[5..]) else None
  }

  /** `^Exit`: only the start of the line has to match. */
  predicate StartsWithExit(line: string) {
    |line| >= 4 && line[..4] == "Exit"
  }

  /** The regular expressions are tried in the order Add, Show, Exit. */
  function Classify(line: string): Action {
    match MatchAdd(line)
    case Some(captures) => Add(captures.0, captures.1)
    case None =>
      match MatchShow(line)
      case Some(department) => Show(department)
      case None => if StartsWithExit(line) then Exit else Unknown
  }

  /** A line `Add E to D` with two names matches, capturing E and D. */
  lemma MatchAddOfLine(e: string, d: string)
    requires IsName(e) && IsName(d)
    ensures MatchAdd("Add " + e + " to " + d) == Some((e, d))
  {
    var line := "Add " + e + " to " + d;
    var rest := line[4..];
    assert line[..4] == "Add ";
    assert rest == e + (" to " + d);
    NameLengthOfNameThen(e, " to " + d);
    assert rest[..|e|] == e;
    assert rest[|e|..|e| + 4] == " to ";
    assert rest[|e| + 4..] == d;
  }

  /** A line that matches is `Add E to D` for its two captures, both names. */
  lemma MatchAddIsLine(line: string)
    requires MatchAdd(line).Some?
    ensures var (e, d) := MatchAdd(line).value;
      IsName(e) && IsName(d) && line == "Add " + e + " to " + d
  {
    var rest := line[4..];
    var n := NameLength(rest);
    assert rest == rest[..n] + rest[n..n + 4] + rest[n + 4..];
    assert line == line[..4] + rest;
  }

  /** The Add expression matches exactly the lines `Add E to D` with two names. */
  lemma MatchAddExactly(line: string, e: string, d: string)
    ensures MatchAdd(line) == Some((e, d)) <==> IsName(e) && IsName(d) && line == "Add " + e + " to " + d
  {
    if IsName(e) && IsName(d) && line == "Add " + e + " to " + d {
      MatchAddOfLine(e, d);
    }
    if MatchAdd(line) == Some((e, d)) {
      MatchAddIsLine(line);
    }
  }

  /** The Show expression matches exactly the lines `Show D` with a name. */
  lemma MatchShowExactly(line: string, d: string)
    ensures MatchShow(line) == Some(d) <==> IsName(d) && line == "Show " + d
  {
    if MatchShow(line) == Some(d) {
      assert line == line[..5] + line[5..];
    }
  }

  /** `Add E to D` is an Add of E to D. */
  lemma ClassifyAddLine(e: string, d: string)
    requires IsName(e) && IsName(d)
    ensures Classify("Add " + e + " to " + d) == Add(e, d)
  {
    MatchAddExactly("Add " + e + " to " + d, e, d);
  }

  /** `Show D` is a Show of D: it cannot also read as an Add. */
  lemma ClassifyShowLine(d: string)
    requires IsName(d)
    ensures Classify("Show " + d) == Show(d)
  {
    var line := "Show " + d;
    assert line[..4] != "Add " by {
      assert line[0] == 'S';
    }
    MatchShowExactly(line, d);
  }

  /** A line is an Exit exactly when it starts with `Exit`: no such line reads as Add or Show. */
  lemma ClassifyExitIffPrefix(line: string)
    ensures Classify(line) == Exit <==> StartsWithExit(line)
  {
    if StartsWithExit(line) {
      assert line[0] == line[..4][0] == 'E';
    }
  }

  // ---------------------------------------------------------------------
  // The effect of one action
  // ---------------------------------------------------------------------

  /** The employees of a department, none when it is absent. */
  function Employees(registry: Registry, department: string): seq<string> {
    if department in registry then registry[department] else []
  }

  /**
   * `entry(department).or_insert(Vec::new()).push(employee)` for an Add; every
   * other action leaves the map as it is.
   */
  function Updated(registry: Registry, action: Action): (r: Registry)
    ensures action.Add? ==> r.Keys == registry.Keys + {action.department}
    ensures action.Add? ==> r[action.department] == Employees(registry, action.department) + [action.employee]
    ensures action.Add? ==> forall k :: k in registry && k != action.department ==> r[k] == registry[k]
    ensures !action.Add? ==> r == registry
  {
    match action
    case Add(e, d) => registry[d := Employees(registry, d) + [e]]
    case _ => registry
  }

  /** What the loop prints for one action. */
  function Reply(registry: Registry, action: Action): seq<string> {
    match action
    case Add(e, d) => ["Employee " + e + " added to the " + d + " deparment"]
    case Show(d) =>
      if d in registry then ["The employees of the " + d + " department are: " + Join(registry[d], ", ")]
      else ["The department " + d + " does not exists!"]
    case Exit => []
    case Unknown => ["Unknwon action!"]
  }

  // ---------------------------------------------------------------------
  // A whole session
  // ---------------------------------------------------------------------

  /** The map after the given actions, starting from an empty one. */
  function RegistryAfter(actions: seq<Action>): Registry {
    if actions == [] then map[]
    else Updated(RegistryAfter(actions[..|actions| - 1]), actions[|actions| - 1])
  }

  /** Everything printed for the given actions. */
  function PrintedAfter(actions: seq<Action>): seq<string> {
    if actions == [] then []
    else
      var before := actions[..|actions| - 1];
      PrintedAfter(before) + Reply(RegistryAfter(before), actions[|actions| - 1])
  }

  /** The actions the loop handles: those before the first Exit. */
  function UntilExit(actions: seq<Action>): (handled: seq<Action>)
    ensures Exit !in handled
    ensures |handled| <= |actions| && handled == actions[..|handled|]
    ensures |handled| < |actions| ==> actions[|handled|] == Exit
  {
    if actions == [] || actions[0] == Exit then [] else [actions[0]] + UntilExit(actions[1..])
  }

  /** The employees added to `department`, in the order of the actions. */
  function AddedTo(actions: seq<Action>, department: string): seq<string> {
    if actions == [] then []
    else
      var last := actions[|actions| - 1];
      AddedTo(actions[..|actions| - 1], department)
        + (if last.Add? && last.department == department then [last.employee] else [])
  }

  /**
   * A department's list holds exactly the employees added to it, in the
   * order they were added, and a department exists once something is added.
   */
  lemma {:induction false} EmployeesInInsertionOrder(actions: seq<Action>, department: string)
    ensures Employees(RegistryAfter(actions), department) == AddedTo(actions, department)
    ensures department in RegistryAfter(actions) <==> AddedTo(actions, department) != []
  {
    if actions != [] {
      EmployeesInInsertionOrder(actions[..|actions| - 1], department);
    }
  }

  /**
   * Show after a sequence of actions reports the employees added to the
   * department, joined by `", "`, or that the department does not exist.
   */
  lemma ShowReportsAdded(actions: seq<Action>, department: string)
    ensures Reply(RegistryAfter(actions), Show(department)) ==
      if AddedTo(actions, department) != [] then
        ["The employees of the " + department + " department are: " + Join(AddedTo(actions, department), ", ")]
      else
        ["The department " + department + " does not exists!"]
  {
    EmployeesInInsertionOrder(actions, department);
  }

  /** Only Add changes the map; every action prints exactly one line except Exit. */
  lemma {:induction false} OnlyAddChangesTheMap(actions: seq<Action>)
    requires forall k :: 0 <= k < |actions| ==> !actions[k].Add?
    ensures RegistryAfter(actions) == map[]
    ensures Exit !in actions ==> |PrintedAfter(actions)| == |actions|
  {
    if actions != [] {
      OnlyAddChangesTheMap(actions[..|actions| - 1]);
    }
  }

  /** The handled actions are the prefix that ends at the first Exit. */
  lemma {:induction false} UntilExitOfPrefix(actions: seq<Action>, i: nat)
    requires i <= |actions| && Exit !in actions[..i]
    requires i == |actions| || actions[i] == Exit
    ensures UntilExit(actions) == actions[..i]
  {
    if i > 0 {
      assert actions[0] == actions[..i][0];
      assert actions[1..][..i - 1] == actions[..i][1..];
      UntilExitOfPrefix(actions[1..], i - 1);
      assert actions[..i] == [actions[0]] + actions[..i][1..];
    }
  }

  lemma AfterOneMore(actions: seq<Action>, i: nat)
    requires i < |actions|
    ensures RegistryAfter(actions[..i + 1]) == Updated(RegistryAfter(actions[..i]), actions[i])
    ensures PrintedAfter(actions[..i + 1]) == PrintedAfter(actions[..i]) + Reply(RegistryAfter(actions[..i]), actions[i])
  {
    assert actions[..i + 1][..i] == actions[..i];
  }

  /** The action each line of input stands for, once trimmed. */
  function Actions(input: seq<string>): (actions: seq<Action>)
    ensures |actions| == |input|
    ensures forall k :: 0 <= k < |input| ==> actions[k] == Classify(Trim(input[k]))
  {
    seq(|input|, k requires 0 <= k < |input| => Classify(Trim(input[k])))
  }

  lemma TakeOneMore<T>(s: seq<T>, i: nat)
    requires i < |s|
    ensures s[..i + 1] == s[..i] + [s[i]]
  {
  }

  /** One pass of the `'main` loop for an action other than `Exit`: the updated map and the line printed. */
  method Respond(registry: Registry, action: Action) returns (next: Registry, reply: seq<string>)
    requires action != Exit
    ensures next == Updated(registry, action)
    ensures reply == Reply(registry, action)
  {
    next := registry;
    if action.Add? {
      var employee, department := action.employee, action.department;
      var employees := if department in registry then registry[department] else [];
      next := registry[department := employees + [employee]];
      reply := ["Employee " + employee + " added to the " + department + " deparment"];
    } else if action.Show? {
      var department := action.department;
      if department in registry {
        reply := ["The employees of the " + department + " department are: " + Join(registry[department], ", ")];
      } else {
        reply := ["The department " + department + " does not exists!"];
      }
    } else {
      reply := ["Unknwon action!"];
    }
  }

  /**
   * The `'main` loop over the given input lines: it returns the map, the
   * printed lines, and whether an `Exit` line ended it.
   */
  method Run(input: seq<string>) returns (registry: Registry, printed: seq<string>, exited: bool)
    ensures registry == RegistryAfter(UntilExit(Actions(input)))
    ensures printed == PrintedAfter(UntilExit(Actions(input)))
    ensures exited <==> Exit in Actions(input)
  {
    ghost var actions := Actions(input);
    registry := map[];
    printed := [];
    exited := false;
    var i := 0;
    while i < |input|
      invariant 0 <= i <= |input|
      invariant Exit !in actions[..i]
      invariant registry == RegistryAfter(actions[..i])
      invariant printed == PrintedAfter(actions[..i])
    {
      var action := Classify(Trim(input[i]));
      assert action == actions[i];
      AfterOneMore(actions, i);
      if action == Exit {
        exited := true;
        break;
      }
      TakeOneMore(actions, i);
      var reply;
      registry, reply := Respond(registry, action);
      printed := printed + reply;
      i := i + 1;
    }
    UntilExitOfPrefix(actions, i);
    if !exited {
      assert actions[..i] == actions;
    }
  }
}
