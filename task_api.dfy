/**
 * The task endpoints of the minimal API: creating a task (which stores it and
 * pushes it to every connected client), listing the tasks, and the summary
 * endpoint's answer.
 *
 * The database context is a class whose `tasks` field is the table; the
 * `broadcasts` field is the sequence of messages the create endpoint sent to
 * all SignalR clients.
 */
module TaskApi {
  import opened Wrappers
  import opened Text
  import opened Ordering
  import opened Dtos
  import Summary = AiSummaryService

  /** A stored task (Models/TaskItem.cs); `createAt` is a `DateTime` counted in ticks. */
  datatype TaskItem = TaskItem(id: int, title: string, taskDescription: string, createAt: int)

  /** The sort key `x => x.CreateAt`. */
  function CreateAtOf(t: TaskItem): int {
    t.createAt
  }

  /** A stored task's id. */
  function IdOf(t: TaskItem): int {
    t.id
  }

  /** `new TaskDto(task.Id, task.Title, task.TaskDescription, task.CreateAt)` */
  function ToDto(t: TaskItem): (d: TaskDto)
    ensures d.id == t.id && d.title == t.title && d.description == t.taskDescription
    ensures CreatedAtOf(d) == CreateAtOf(t)
  {
    TaskDto(t.id, t.title, t.taskDescription, t.createAt)
  }

  /** A message sent to all connected hub clients: the client method's name and its argument. */
  datatype HubMessage = HubMessage(target: string, payload: TaskDto)

  const TaskAdded := "TaskAdded"
  const RequiredMessage := "Title and description are required"
  const TasksRoute := "/api/tasks/"

  /** The result of the create endpoint: 400 with a message, or 201 with a location and the created task. */
  datatype CreateResult = BadRequest(error: string) | Created(location: string, value: TaskDto)

  /** The create endpoint refuses a request whose title or description is null or empty; it looks before trimming. */
  function IsRejected(request: CreateTaskDto): (r: bool)
    ensures !r <==> && request.title.Some? && |request.title.value| > 0
                    && request.description.Some? && |request.description.value| > 0
  {
    IsNullOrEmpty(request.title) || IsNullOrEmpty(request.description)
  }

  /**
   * The validation looks at the raw strings: a title or description made only
   * of white space is accepted, and trimming then stores it as "".
   */
  lemma WhiteSpaceOnlyIsAcceptedAndStoredEmpty(title: string, description: string)
    requires title != [] && AllWhiteSpace(title)
    requires description != []
    ensures !IsRejected(CreateTaskDto(Some(title), Some(description)))
    ensures Trim(title) == ""
  {
  }

  class TaskStore {
    /** The `Tasks` table, in insertion order. */
    var tasks: seq<TaskItem>
    /** The messages the create endpoint sent to all connected clients, oldest first. */
    var broadcasts: seq<HubMessage>

    /** The store never holds two tasks with the same id. */
    ghost predicate Valid()
      reads this
    {
      DistinctBy(tasks, IdOf)
    }

    constructor ()
      ensures Valid() && tasks == [] && broadcasts == []
    {
      tasks := [];
      broadcasts := [];
    }

    /** `id` is not used by any stored task. */
    predicate IsFreshId(id: int)
      reads this
    {
      forall i :: 0 <= i < |tasks| ==> tasks[i].id != id
    }

    /**
     * POST /api/tasks. The store supplies a fresh id and the clock supplies
     * `now`. A rejected request changes nothing; an accepted one adds exactly
     * one task holding the trimmed strings, sends that task as "TaskAdded" to
     * all clients, and answers with the same task.
     */
    method CreateTask(request: CreateTaskDto, now: int, freshId: int) returns (result: CreateResult)
      requires Valid() && IsFreshId(freshId)
      modifies this
      ensures Valid()
      ensures IsRejected(request) ==>
        && result == BadRequest(RequiredMessage)
        && tasks == old(tasks) && broadcasts == old(broadcasts)
      ensures !IsRejected(request) ==>
        && var item := TaskItem(freshId, Trim(request.title.value), Trim(request.description.value), now);
        && tasks == old(tasks) + [item]
        && broadcasts == old(broadcasts) + [HubMessage(TaskAdded, ToDto(item))]
        && result == Created(TasksRoute + IntToString(freshId), ToDto(item))
    {
      if IsNullOrEmpty(request.title) || IsNullOrEmpty(request.description) {
        return BadRequest(RequiredMessage);
      }
      var task := TaskItem(freshId, Trim(request.title.value), Trim(request.description.value), now);
      tasks := tasks + [task];
      var taskDto := ToDto(task);
      broadcasts := broadcasts + [HubMessage(TaskAdded, taskDto)];
      result := Created(TasksRoute + IntToString(task.id), taskDto);
    }

    /**
     * GET /api/tasks: every stored task once, newest first, tasks created at
     * the same instant in insertion order.
     */
    function ListTasks(): (r: seq<TaskDto>)
      reads this
      ensures |r| == |tasks|
      ensures SortedDesc(r, CreatedAtOf)
      ensures multiset(r) == multiset(Select(tasks, ToDto))
      ensures forall k :: WithKey(r, CreatedAtOf, k) == WithKey(Select(tasks, ToDto), CreatedAtOf, k)
      ensures Valid() ==> forall i, j :: 0 <= i < j < |r| ==> r[i].id != r[j].id
    {
      SortedIdsDistinct(tasks);
      var dtos := Select(tasks, ToDto);
      SelectOrderByDescending(tasks, ToDto, CreateAtOf, CreatedAtOf);
      OrderByDescendingSorted(dtos, CreatedAtOf);
      OrderByDescendingPermutes(dtos, CreatedAtOf);
      StableForAllKeys(dtos, CreatedAtOf);
      Select(OrderByDescending(tasks, CreateAtOf), ToDto)
    }

    /**
     * POST /api/tasks/summary: the summary of the listed tasks and the number
     * of stored tasks, whichever way the summary was produced.
     */
    function SummaryResponse(gitHubModelsKey: Option<string>, provider: Summary.ProviderRequest -> Summary.HttpOutcome): (r: TaskSummaryDto)
      reads this
      ensures r.totalTasks == |tasks|
      ensures |r.summary| > 0
      ensures r.summary == Summary.GenerateSummary(ListTasks(), gitHubModelsKey, provider).text
    {
      TaskSummaryDto(Summary.GenerateSummary(ListTasks(), gitHubModelsKey, provider).text, |tasks|)
    }

    /**
     * The local summary of the listed tasks shows the first `min(n, 3)` of
     * the list: sorting the already sorted list again changes nothing.
     */
    lemma SummaryShowsNewestListed()
      ensures Summary.RecentTasks(ListTasks()) == ListTasks()[..Summary.Min(|tasks|, Summary.RecentCount)]
    {
      OrderByDescendingOfSorted(ListTasks(), CreatedAtOf);
    }
  }

  /** Listing newest first keeps distinct ids distinct. */
  lemma SortedIdsDistinct(tasks: seq<TaskItem>)
    ensures DistinctBy(tasks, IdOf) ==> DistinctBy(OrderByDescending(tasks, CreateAtOf), IdOf)
  {
    if DistinctBy(tasks, IdOf) {
      OrderByDescendingDistinct(tasks, CreateAtOf, IdOf);
    }
  }

  lemma StableForAllKeys<T>(s: seq<T>, key: T -> int)
    ensures forall k :: WithKey(OrderByDescending(s, key), key, k) == WithKey(s, key, k)
  {
    forall k
      ensures WithKey(OrderByDescending(s, key), key, k) == WithKey(s, key, k)
    {
      OrderByDescendingStable(s, key, k);
    }
  }
}
