/**
 * The continuous development runner (automation/agent_runner.py): a list of development
 * tasks with priorities and dependencies, a persistent state record, the rule that picks
 * the next task, the round-robin choice of agent, and the bookkeeping of one cycle.
 *
 * Running an agent (file writes), git commits, prompts, logging, the JSON state and task
 * files and the randomised sleep between cycles are not modelled; the outcome of running
 * an agent on a task is a parameter.
 */
module AgentRunner {
  import opened Types
  import Seqs
  import Sorting

  datatype Agent = Gemini | Codex | Claude {
    /** `AgentType.value`. */
    function Value(): string {
      match this
      case Gemini => "gemini"
      case Codex => "codex"
      case Claude => "claude"
    }

    /** The rotation the runner follows, written out case by case. */
    function Next(): Agent {
      match this
      case Gemini => Codex
      case Codex => Claude
      case Claude => Gemini
    }
  }

  /** `agent_order` in select_agent. */
  const AgentOrder: seq<Agent> := [Gemini, Codex, Claude]

  /** A task record; a missing "priority" is None, a missing "dependencies" list is []. */
  datatype Task = Task(id: string, kind: string, title: string, priority: Option<string>,
                       dependencies: seq<string>)

  // ---------------------------------------------------------------------------------
  // Task selection
  // ---------------------------------------------------------------------------------

  /** `priority_map.get(t.get("priority", "medium"), 2)`. */
  function PriorityRank(priority: Option<string>): (r: int)
    ensures 1 <= r <= 3
    ensures r == 3 <==> priority == Some("high")
    ensures r == 1 <==> priority == Some("low")
  {
    var p := Or(priority, "medium");
    if p == "high" then 3 else if p == "medium" then 2 else if p == "low" then 1 else 2
  }

  /** A task is available when it is not completed and all its dependencies are. */
  predicate Eligible(t: Task, completed: seq<string>) {
    t.id !in completed && forall d :: d in t.dependencies ==> d in completed
  }

  function Eligibility(completed: seq<string>): Task -> bool {
    t => Eligible(t, completed)
  }

  /** `available_tasks`: the eligible tasks in list order. */
  function Available(tasks: seq<Task>, completed: seq<string>): seq<Task> {
    Seqs.Filter(tasks, Eligibility(completed))
  }

  /** The key of the descending sort: `sort(key=…, reverse=True)` is stable. */
  function DescendingKey(t: Task): int {
    -PriorityRank(t.priority)
  }

  /** select_next_task: the head of the available tasks sorted by descending priority. */
  function NextTask(tasks: seq<Task>, completed: seq<string>): Option<Task> {
    var available := Available(tasks, completed);
    if available == [] then None else Some(Sorting.SortBy(available, DescendingKey)[0])
  }

  /**
   * No task is picked exactly when none is eligible; a picked task is in the list, is not
   * completed, has all its dependencies completed, has the highest priority among the
   * eligible tasks, and no eligible task before it has that priority.
   */
  lemma NextTaskSpec(tasks: seq<Task>, completed: seq<string>)
    ensures NextTask(tasks, completed).None? <==> forall t :: t in tasks ==> !Eligible(t, completed)
    ensures NextTask(tasks, completed).Some? ==>
              var n := NextTask(tasks, completed).value;
              && n in tasks
              && n.id !in completed
              && (forall d :: d in n.dependencies ==> d in completed)
              && (forall t :: t in tasks && Eligible(t, completed) ==>
                    PriorityRank(t.priority) <= PriorityRank(n.priority))
              && exists i :: 0 <= i < |Available(tasks, completed)|
                   && Available(tasks, completed)[i] == n
                   && forall j :: 0 <= j < i ==>
                        PriorityRank(Available(tasks, completed)[j].priority) < PriorityRank(n.priority)
  {
    var available := Available(tasks, completed);
    Seqs.FilterMembers(tasks, Eligibility(completed));
    if available != [] {
      assert available[0] in available;
      Sorting.SortByHead(available, DescendingKey);
      Sorting.SortBySortedPermutation(available, DescendingKey);
      assert Sorting.SortBy(available, DescendingKey)[0] in multiset(available);
    } else {
      forall t | t in tasks ensures !Eligible(t, completed) {
        assert t !in available;
      }
    }
  }

  // ---------------------------------------------------------------------------------
  // Agent rotation
  // ---------------------------------------------------------------------------------

  /**
   * `next((i for i, a in enumerate(agent_order) if a.value == value), -1)`, from index k:
   * the first position from k on whose agent has that value, or -1 when there is none.
   */
  function AgentIndexFrom(value: string, k: nat): (i: int)
    requires k <= |AgentOrder|
    ensures -1 <= i < |AgentOrder|
    ensures i == -1 <==> forall j :: k <= j < |AgentOrder| ==> AgentOrder[j].Value() != value
    ensures i >= 0 ==> k <= i && AgentOrder[i].Value() == value
                       && forall j :: k <= j < i ==> AgentOrder[j].Value() != value
    decreases |AgentOrder| - k
  {
    if k == |AgentOrder| then -1
    else if AgentOrder[k].Value() == value then k
    else AgentIndexFrom(value, k + 1)
  }

  /** select_agent: the successor of the last agent; the first agent when there is none. */
  function SelectAgent(lastAgent: Option<string>): Agent {
    if lastAgent.Some? && lastAgent.value != "" then
      AgentOrder[(AgentIndexFrom(lastAgent.value, 0) + 1) % |AgentOrder|]
    else
      AgentOrder[0]
  }

  /** After agent a the runner picks a.Next(). */
  lemma SelectAgentRotates(a: Agent)
    ensures SelectAgent(Some(a.Value())) == a.Next()
  {
    match a
    case Gemini =>
    case Codex =>
      assert AgentOrder[0].Value() != a.Value();
    case Claude =>
      assert AgentOrder[0].Value() != a.Value();
      assert AgentOrder[1].Value() != a.Value();
  }

  /** With no last agent, an empty one or an unrecognised one, the runner picks Gemini. */
  lemma SelectAgentDefault(lastAgent: Option<string>)
    requires lastAgent.None? || forall a: Agent :: a.Value() != lastAgent.value
    ensures SelectAgent(lastAgent) == Gemini
  {
    if lastAgent.Some? && lastAgent.value != "" {
      assert AgentOrder[0].Value() != lastAgent.value;
      assert AgentOrder[1].Value() != lastAgent.value;
      assert AgentOrder[2].Value() != lastAgent.value;
    }
  }

  /** Three successful cycles in a row bring the rotation back to the same agent. */
  lemma RotationPeriod(a: Agent)
    ensures SelectAgent(Some(SelectAgent(Some(SelectAgent(Some(a.Value())).Value())).Value())) == a
    ensures SelectAgent(Some(a.Value())) != a
  {
    SelectAgentRotates(a);
    SelectAgentRotates(a.Next());
    SelectAgentRotates(a.Next().Next());
  }

  // ---------------------------------------------------------------------------------
  // The orchestrator state and one cycle
  // ---------------------------------------------------------------------------------

  /** AgentOrchestrator: its task list and the fields of `current_state`. */
  class Orchestrator {
    var tasks: seq<Task>
    var lastRun: Option<string>
    var currentPhase: string
    var completedTasks: seq<string>
    var currentTask: Option<string>
    var lastAgent: Option<string>
    var runCount: nat

    /** A task is recorded as completed at most once. */
    predicate Valid()
      reads this
    {
      Seqs.NoDuplicates(completedTasks)
    }

    /** A fresh runner: the default state of load_state when no state file exists. */
    constructor (tasks: seq<Task>)
      ensures this.tasks == tasks
      ensures lastRun == None && currentPhase == "implementation" && completedTasks == []
      ensures currentTask == None && lastAgent == None && runCount == 0
      ensures Valid()
    {
      this.tasks := tasks;
      lastRun := None;
      currentPhase := "implementation";
      completedTasks := [];
      currentTask := None;
      lastAgent := None;
      runCount := 0;
    }

    /** select_next_task: collects the available tasks, sorts them and takes the head. */
    method SelectNextTask() returns (r: Option<Task>)
      ensures r == NextTask(tasks, completedTasks)
    {
      var available: seq<Task> := [];
      for k := 0 to |tasks|
        invariant available == Available(tasks[..k], completedTasks)
      {
        var task := tasks[k];
        assert tasks[..k + 1] == tasks[..k] + [task];
        Seqs.FilterSnoc(tasks[..k], task, Eligibility(completedTasks));
        if task.id !in completedTasks {
          var depsSatisfied := forall d :: d in task.dependencies ==> d in completedTasks;
          if depsSatisfied {
            available := available + [task];
          }
        }
      }
      assert tasks[..|tasks|] == tasks;
      if available == [] {
        return None;
      }
      available := Sorting.SortBy(available, DescendingKey);
      return Some(available[0]);
    }

    /**
     * run_cycle. `outcome` stands for execute_agent_task; `now` for the timestamp.
     * Without an eligible task nothing changes and the result is false.
     */
    method RunCycle(outcome: (Agent, Task) -> bool, now: string) returns (ran: bool)
      modifies this
      ensures ran <==> old(NextTask(tasks, completedTasks)).Some?
      ensures !ran ==> unchanged(this)
      ensures ran ==>
                var task := old(NextTask(tasks, completedTasks)).value;
                var agent := old(SelectAgent(lastAgent));
                var success := outcome(agent, task);
                && tasks == old(tasks)
                && currentPhase == old(currentPhase)
                && completedTasks == old(completedTasks) + (if success then [task.id] else [])
                && lastAgent == (if success then Some(agent.Value()) else old(lastAgent))
                && currentTask == (if success then None else Some(task.id))
                && lastRun == Some(now)
                && runCount == old(runCount) + 1
      ensures old(Valid()) ==> Valid()
    {
      var task := SelectNextTask();
      if task.None? {
        return false;
      }
      NextTaskSpec(tasks, completedTasks);
      var agent := SelectAgent(lastAgent);
      var success := outcome(agent, task.value);
      if success {
        AppendFresh(completedTasks, task.value.id);
        completedTasks := completedTasks + [task.value.id];
        lastAgent := Some(agent.Value());
      }
      lastRun := Some(now);
      currentTask := if success then None else Some(task.value.id);
      runCount := runCount + 1;
      return true;
    }
  }

  /** Appending an absent element keeps a sequence free of duplicates. */
  lemma AppendFresh(s: seq<string>, x: string)
    requires x !in s
    ensures Seqs.NoDuplicates(s) ==> Seqs.NoDuplicates(s + [x])
  {
    if Seqs.NoDuplicates(s) {
      forall i, j | 0 <= i < j < |s + [x]| ensures (s + [x])[i] != (s + [x])[j] {
        if j == |s| {
          assert (s + [x])[i] == s[i];
        }
      }
    }
  }

  // ---------------------------------------------------------------------------------
  // The initial task list
  // ---------------------------------------------------------------------------------

  /** generate_initial_tasks. */
  const InitialTasks: seq<Task> := [
    Task("block-component", "component", "Implement Block Component", Some("high"), []),
    Task("template-system", "component", "Build Template System", Some("high"),
         ["block-component"]),
    Task("graph-view", "component", "Create Graph View with React Flow", Some("high"),
         ["block-component"]),
    Task("compositor", "feature", "Implement Document Compositor", Some("medium"),
         ["block-component", "template-system"]),
    Task("llm-chunking", "feature", "LLM-Powered Chunking", Some("medium"), ["block-component"]),
    Task("dashboard-system", "feature", "User-Composed Dashboard System", Some("medium"),
         ["block-component", "graph-view"]),
    Task("tag-system", "component", "Tag System with Inheritance", Some("high"),
         ["block-component"]),
    Task("persistence", "feature", "Local Storage Persistence", Some("medium"),
         ["block-component", "graph-view"]),
    Task("performance", "optimization", "Performance Optimization", Some("low"), ["graph-view"]),
    Task("tests", "test", "Component Testing", Some("low"), ["block-component", "template-system"])
  ]

  /** Every dependency of an initial task names a task earlier in the list. */
  lemma InitialTasksOrdered()
    ensures forall i, d :: 0 <= i < |InitialTasks| && d in InitialTasks[i].dependencies ==>
              exists j :: 0 <= j < i && InitialTasks[j].id == d
  {
    var ts := InitialTasks;
    forall i, d | 0 <= i < |ts| && d in ts[i].dependencies
      ensures exists j :: 0 <= j < i && ts[j].id == d
    {
      if d == "block-component" {
        assert ts[0].id == d;
      } else if d == "template-system" {
        assert ts[1].id == d;
      } else {
        assert ts[2].id == d;
      }
    }
  }

  /** From the initial state the first task picked is block-component. */
  lemma InitialFirstTask()
    ensures NextTask(InitialTasks, []) == Some(InitialTasks[0])
  {
    var ts := InitialTasks;
    assert Available(ts, []) == [ts[0]] by {
      forall i | 1 <= i < |ts| ensures !Eligibility([])(ts[i]) {
        assert ts[i].dependencies != [];
        assert ts[i].dependencies[0] in ts[i].dependencies;
      }
      FilterSingle(ts, Eligibility([]));
    }
  }

  /** Filtering keeps only the head when no later element satisfies the predicate. */
  lemma FilterSingle(s: seq<Task>, p: Task -> bool)
    requires s != [] && p(s[0])
    requires forall i :: 1 <= i < |s| ==> !p(s[i])
    ensures Seqs.Filter(s, p) == [s[0]]
  {
    Seqs.FilterMembers(s[1..], p);
    assert forall x :: x in s[1..] ==> !p(x);
  }
}
