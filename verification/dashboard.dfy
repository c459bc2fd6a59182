/** The dashboard's recent-task table: search across four columns and the status badge colour. */
module Dashboard {
  import opened Seqs
  import opened Text

  datatype Task = Task(id: string, name: string, assignedTo: string, dueDate: string, status: string)

  const RecentTasks := [
    Task("TSK-001", "Code review", "Alice", "2025-05-28", "Completed"),
    Task("TSK-002", "Design mockups", "Bob", "2025-05-29", "In Progress"),
    Task("TSK-003", "Write tests", "Charlie", "2025-05-30", "Blocked"),
    Task("TSK-004", "Deploy updates", "Dana", "2025-06-01", "Pending")
  ]

  /** The query occurs, ignoring case, in the name, the assignee, the status or the id. */
  predicate TaskMatches(t: Task, query: string) {
    IncludesIgnoringCase(t.name, query) || IncludesIgnoringCase(t.assignedTo, query)
    || IncludesIgnoringCase(t.status, query) || IncludesIgnoringCase(t.id, query)
  }

  /** `filteredTasks`: the matching tasks, in their original order. */
  function FilteredTasks(tasks: seq<Task>, query: string): (r: seq<Task>)
    ensures forall i :: 0 <= i < |tasks| ==> (tasks[i] in r <==> TaskMatches(tasks[i], query))
    ensures forall i :: 0 <= i < |r| ==> r[i] in tasks && TaskMatches(r[i], query)
    ensures Subsequence(r, tasks)
  {
    Filter(tasks, (t: Task) => TaskMatches(t, query))
  }

  /** An empty query keeps every task, in order. */
  lemma EmptyQueryKeepsAll(tasks: seq<Task>)
    ensures FilteredTasks(tasks, []) == tasks
  {
    forall i | 0 <= i < |tasks| ensures TaskMatches(tasks[i], []) {
      IncludesIgnoringCaseEmpty(tasks[i].name);
    }
    FilterKeepsAll(tasks, (t: Task) => TaskMatches(t, []));
  }

  /** Searching ignores the query's case. */
  lemma QueryCaseIgnored(tasks: seq<Task>, query: string)
    ensures FilteredTasks(tasks, Lower(query)) == FilteredTasks(tasks, query)
  {
    LowerIdempotent(query);
    FilterSameTest(tasks, (t: Task) => TaskMatches(t, Lower(query)), (t: Task) => TaskMatches(t, query));
  }

  /** `statusColorMap[status] || "gray"`. */
  function StatusColor(status: string): (c: string)
    ensures status == "Completed" ==> c == "green"
    ensures status == "In Progress" ==> c == "blue"
    ensures status == "Blocked" ==> c == "red"
    ensures status !in {"Completed", "In Progress", "Blocked"} ==> c == "gray"
  {
    match status
    case "Completed" => "green"
    case "In Progress" => "blue"
    case "Blocked" => "red"
    case "Pending" => "gray"
    case _ => "gray"
  }

  /** A table row: a task with its badge colour, or the single "nothing found" row. */
  datatype Row = TaskRow(task: Task, color: string) | NoTasksFound(query: string)

  /** The table body for a query. */
  function Rows(tasks: seq<Task>, query: string): (rows: seq<Row>)
    ensures var f := FilteredTasks(tasks, query);
            (|f| == 0 ==> rows == [NoTasksFound(query)])
            && (|f| > 0 ==> |rows| == |f| && forall i :: 0 <= i < |f| ==> rows[i] == TaskRow(f[i], StatusColor(f[i].status)))
  {
    var f := FilteredTasks(tasks, query);
    if |f| == 0 then [NoTasksFound(query)]
    else seq(|f|, i requires 0 <= i < |f| => TaskRow(f[i], StatusColor(f[i].status)))
  }

  /** The table is never empty, and it shows "nothing found" exactly when no task matches. */
  lemma NoTasksRowIffNoMatch(tasks: seq<Task>, query: string)
    ensures |Rows(tasks, query)| >= 1
    ensures NoTasksFound(query) in Rows(tasks, query) <==> forall i :: 0 <= i < |tasks| ==> !TaskMatches(tasks[i], query)
  {
    var f := FilteredTasks(tasks, query);
    var rows := Rows(tasks, query);
    if |f| > 0 {
      assert f[0] in tasks;
      assert forall i :: 0 <= i < |rows| ==> rows[i].TaskRow?;
    } else {
      assert forall i :: 0 <= i < |tasks| ==> tasks[i] !in f;
    }
  }
}
