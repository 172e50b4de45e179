# Real-time task manager: summary pipeline and task endpoints

This project models the core of the task manager's ASP.NET Core API in Dafny
and proves properties of that model:

- `AiSummaryService` (`task-manager-api/Services/AiSummaryService.cs`): the
  deterministic local summary (`GenerateLocalSummary`), the prompt and
  request sent to the GitHub Models chat-completions endpoint, the
  interpretation of its answer, and the fallback decision of
  `GenerateSummaryAsync` / `GenerateGitHubModelsSummaryAsync` /
  `CallGitHubModelsApiAsync`.
- The task endpoints of `task-manager-api/Program.cs` (lines 81-120): POST
  `/api/tasks` (validation, trimming, storing, the "TaskAdded" broadcast and
  the Created answer), GET `/api/tasks` (newest first) and POST
  `/api/tasks/summary` (the summary text and the task count).

Files:

- `wrappers.dfy`: `Option`, standing for a nullable reference.
- `text.dfy`: the .NET string operations the code relies on
  (`IsNullOrEmpty`, `Trim` with `char.IsWhiteSpace`, `Contains`, `Join`, and
  the decimal rendering of an `int` in an interpolated string). `Trim` is
  characterised as the inner slice between white space, `Contains` by the
  positions where the substring occurs, `Join` by its partner `Split`, and
  the decimal rendering by its partner `DecimalValue`.
- `ordering.dfy`: LINQ's `OrderByDescending` (a stable sort, written as an
  insertion sort) and `Select`, with the sort proved sorted, a permutation,
  stable, and the only sequence with those three properties.
- `dtos.dfy`: `CreateTaskDto`, `TaskDto`, `TaskSummaryDto`.
- `summary_service.dfy`: module `AiSummaryService`.
- `task_api.dfy`: module `TaskApi`, with the `TaskStore` class whose `tasks`
  field is the `Tasks` table and whose `broadcasts` field is the sequence of
  messages sent to all SignalR clients.

Modelling choices:

- A `DateTime` is an integer count of ticks; the clock (`DateTime.Now`) is a
  parameter `now` of `CreateTask`.
- A null string is `None`; a configuration entry that is absent is `None`.
- The HTTP call is a function parameter `provider` from the request that
  would be sent to its `HttpOutcome`: an exception (`TransportFailure`), or a
  status code with the body and the abstract result of `JsonDocument.Parse`
  on it (`Malformed` for a `JsonException`, or a `Json` value). The run
  records the request that was sent, if any, so "no request is sent" can be
  stated.
- A JSON object is a map from property name to value; for a name that
  occurs twice, `JsonElement.TryGetProperty` matches the last definition,
  which is the one the map keeps.
- `TryGetProperty` on a non-object, `GetArrayLength` on a non-array, the
  indexer on a non-array and `GetString` on a value that is neither a string
  nor null throw `InvalidOperationException`, which the `catch (JsonException)`
  of `CallGitHubModelsApiAsync` does not catch; it reaches the outer catch of
  `GenerateSummaryAsync`. The model returns `Thrown` from
  `CallGitHubModelsApi` for those and for a transport failure, and
  `GenerateSummary` turns it into the local summary, as the code does.
- Ids are supplied by the store: `CreateTask` takes a `freshId` that no
  stored task carries. The code shows no id scheme of its own (EF Core's
  in-memory provider generates it).
- The code checks for null or empty title and description before trimming,
  so a title of blanks is accepted and stored as ""
  (`TaskApi.WhiteSpaceOnlyIsAcceptedAndStoredEmpty`).
- The code has one provider (GitHub Models, `gpt-4o-mini`); the model has
  exactly one, not an ordered list of providers.

## Model

| member | source | states |
|---|---|---|
| `Text.IsNullOrEmpty` | task-manager-api/Program.cs:89 | `string.IsNullOrEmpty` is false exactly for a non-null string of at least one character |
| `Text.Trim` | task-manager-api/Program.cs:96-97 | `string.Trim` returns the slice of its input with only white space before and after it; the slice is empty exactly when the input is all white space, and otherwise starts and ends with a character that is not white space |
| `Text.TrimRemovesPadding` | task-manager-api/Program.cs:96-97 | trimming white space padded around a string whose ends are not white space gives back that string |
| `Text.IntToString` | task-manager-api/Program.cs:109 | the id in the Created location is written as decimal digits without a leading zero that read back to the id, preceded by a minus sign exactly for a negative id |
| `Text.NatToStringRoundTrip` | task-manager-api/Services/AiSummaryService.cs:56 | the count written into the summary is plain decimal digits without a leading zero, and reading them back gives the count |
| `Text.ContainsIff` | task-manager-api/Services/AiSummaryService.cs:122-126 | `string.Contains` holds exactly when the substring occurs at some position of the error body |
| `Text.SplitJoin` | task-manager-api/Services/AiSummaryService.cs:91 | splitting a `string.Join` on a separator that no item contains gives back the items |
| `Ordering.Select` | task-manager-api/Program.cs:84 | `Select` keeps the length and maps every element in place |
| `Ordering.OrderByDescendingSorted` | task-manager-api/Program.cs:83 | `OrderByDescending` returns the elements largest key first |
| `Ordering.OrderByDescendingPermutes` | task-manager-api/Program.cs:83 | `OrderByDescending` returns a permutation of its input |
| `Ordering.OrderByDescendingStable` | task-manager-api/Services/AiSummaryService.cs:54 | `OrderByDescending` is stable: for every key, the elements carrying it keep their input order |
| `Ordering.StableSortUnique` | task-manager-api/Services/AiSummaryService.cs:54 | a sorted sequence that keeps the input order within every key is unique, so the stable sort is fully determined |
| `Ordering.OrderByDescendingOfSorted` | task-manager-api/Program.cs:114-117 | sorting an already sorted sequence again changes nothing |
| `Ordering.SelectOrderByDescending` | task-manager-api/Program.cs:83-84 | projecting tasks to DTOs before or after sorting by creation time gives the same list |
| `Ordering.TakeOfOrderByDescending` | task-manager-api/Services/AiSummaryService.cs:54 | `OrderByDescending(..).Take(m)` keeps m input elements, none older than an element left out, and the earliest input elements of every key |
| `AiSummaryService.GenerateLocalSummary` | task-manager-api/Services/AiSummaryService.cs:48-70 | the summary built by accumulating lines equals the local summary specification `LocalSummary` |
| `AiSummaryService.AppendBullets` | task-manager-api/Services/AiSummaryService.cs:59-62 | the `foreach` loop appends one "• Title: Description\n" line per kept task, in order |
| `AiSummaryService.LocalSummaryEmptyIff` | task-manager-api/Services/AiSummaryService.cs:50-51 | the local summary is "No tasks available." if and only if the list is empty |
| `AiSummaryService.LocalSummaryHeader` | task-manager-api/Services/AiSummaryService.cs:53-58 | for a non-empty list the summary opens with "Summary for (n total)\n\nRecent tasks:\n", n the list length |
| `AiSummaryService.LocalSummaryTrailer` | task-manager-api/Services/AiSummaryService.cs:64-67 | the summary ends with "\n... and more (n-3) added tasks." if and only if n > 3 |
| `AiSummaryService.RecentTasksAreLatest` | task-manager-api/Services/AiSummaryService.cs:54 | the listed tasks are min(n,3) input tasks, newest first, none older than a task left out, ties in input order |
| `AiSummaryService.LocalSummaryBulletCount` | task-manager-api/Services/AiSummaryService.cs:59-62 | when no title or description holds a bullet, the summary holds exactly min(n,3) bullets |
| `AiSummaryService.ExampleWithoutKey` | task-manager-api/Services/AiSummaryService.cs:48-80 | four tasks and no key: the exact text counting 4, listing the three newest and reporting 1 more, and no request sent |
| `AiSummaryService.BuildRequest` | task-manager-api/Services/AiSummaryService.cs:88-115 | the request goes to the fixed endpoint and model, with "Bearer " + key, 200 max tokens, the fixed system message and the built prompt as the user message |
| `AiSummaryService.PromptListsEveryTask` | task-manager-api/Services/AiSummaryService.cs:91-93 | the prompt is the fixed instruction, then one "- Title: Description " line per task in input order, then the fixed closing request |
| `AiSummaryService.IsSuccessStatusCode` | task-manager-api/Services/AiSummaryService.cs:117 | a status counts as success exactly when it is in the 2xx range |
| `AiSummaryService.ExtractContent` | task-manager-api/Services/AiSummaryService.cs:144-163 | a text is found exactly when `choices[0].message.content` is a non-empty JSON string, and it is that string |
| `AiSummaryService.ClassifyFailure` | task-manager-api/Services/AiSummaryService.cs:117-134 | an error body containing "insufficient_quota" is a quota failure; otherwise one containing "invalid_api_key" or "unauthorized" is a key failure; otherwise a general API error |
| `AiSummaryService.CallGitHubModelsApi` | task-manager-api/Services/AiSummaryService.cs:86-173 | provider content is returned only from a 2xx answer whose parsed body holds it; every other returned text is the local summary |
| `AiSummaryService.GitHubModelsSummary` | task-manager-api/Services/AiSummaryService.cs:72-84 | a null or empty key gives the local summary, with the missing key as the reason |
| `AiSummaryService.RequestSent` | task-manager-api/Services/AiSummaryService.cs:74-115 | a request is sent if and only if there are tasks and the key is neither null nor empty |
| `AiSummaryService.GenerateSummary` | task-manager-api/Services/AiSummaryService.cs:26-46 | never fails and never returns an empty text; no tasks gives "Not found tasks to summarize" without a request; a missing key gives the local summary without a request; a fallback is the local summary; provider content comes from a 2xx answer |
| `AiSummaryService.ProviderContentReturnedVerbatim` | task-manager-api/Services/AiSummaryService.cs:148-161 | a 2xx answer with a non-empty `choices[0].message.content` is returned verbatim and no fallback follows |
| `AiSummaryService.NonSuccessStatusFallsBack` | task-manager-api/Services/AiSummaryService.cs:117-137 | any non-2xx status gives the local summary whatever the body says; the body only picks the log reason |
| `AiSummaryService.ProviderFailureFallsBack` | task-manager-api/Services/AiSummaryService.cs:41-45 | a transport exception, an unparsable body, a missing or empty content or a JSON value of the wrong kind gives the local summary |
| `AiSummaryService.ProviderConsultedOnlyOnRequest` | task-manager-api/Services/AiSummaryService.cs:31-38 | the result depends on the provider only through its answer to the request recorded as sent; with no tasks or no key it does not depend on it at all |
| `AiSummaryService.SummaryIsContentOrLocal` | task-manager-api/Services/AiSummaryService.cs:26-46 | for a non-empty list the text is the provider's content or the local summary |
| `TaskApi.WhiteSpaceOnlyIsAcceptedAndStoredEmpty` | task-manager-api/Program.cs:89-97 | validation runs before trimming: a whitespace-only title passes and trims to "" |
| `TaskApi.IsRejected` | task-manager-api/Program.cs:89-92 | a create request passes validation exactly when both title and description are non-null and at least one character long |
| `TaskApi.ToDto` | task-manager-api/Program.cs:104 | the DTO carries the task's id, title, description and creation time unchanged |
| `TaskApi.TaskStore.CreateTask` | task-manager-api/Program.cs:87-110 | a null or empty title or description gives BadRequest and changes nothing; otherwise exactly one task with the trimmed strings is appended, and the same DTO is broadcast as "TaskAdded" and returned in Created |
| `TaskApi.TaskStore.ListTasks` | task-manager-api/Program.cs:81-85 | the list holds every stored task once, newest first, equal creation times in insertion order, and no id twice |
| `TaskApi.TaskStore.SummaryResponse` | task-manager-api/Program.cs:112-120 | `TotalTasks` is the number of stored tasks and the summary text is the non-empty summary of the listed tasks, whichever way it was produced |
| `TaskApi.TaskStore.SummaryShowsNewestListed` | task-manager-api/Program.cs:114-117 | the local summary of the listed tasks shows the first min(n,3) tasks of the list |

## Left out

- The SignalR hub (`TaskHub.cs`): its connect and disconnect handlers only
  log, and membership and fan-out are left to the framework; the create
  endpoint's broadcast is modelled as the message appended to
  `TaskStore.broadcasts`, not as delivery to clients.
- `TaskHub.SendTaskUpdate`: any connected client can call it to send any
  object to all clients as "TaskAdded". It is not modelled, so
  `TaskStore.broadcasts` holds only the messages of the create endpoint, and
  a "TaskAdded" message a client sends this way need not be a stored task.
- Concurrency between requests and `async`/`await`: every operation is
  modelled as one atomic step.
- The HTTP client, header mutation, JSON serialisation of the request and
  `JsonDocument` parsing: replaced by the `provider` parameter and the
  `HttpOutcome`/`JsonParse` datatypes.
- The request's `temperature` (a floating-point constant) and all logging;
  the log reason survives only as the `Origin`/`FallbackReason` of a run.
- The records `AiApiResponse`, `AiChoice`, `AiMessage`: the code never uses them.
- Configuration loading, dependency injection, CORS, Swagger, `app.Run`, the
  health-check route and the `/weatherforecast` scaffold (random and
  floating-point).
- `TaskDbContext`: EF Core model configuration (key and maximum lengths) with
  no logic of its own; the maximum lengths are not enforced by the endpoint
  and are not modelled.
- The React UI.
- `TaskApi.TaskStore.CreateTask`: the id is taken as a parameter that no
  stored task carries, because the code leaves id generation to the database
  provider.
