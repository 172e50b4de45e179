/**
 * The summary pipeline of `AiSummaryService`: a deterministic local summary
 * and the decision between it and the text produced by the GitHub Models
 * chat-completions endpoint.
 *
 * The HTTP exchange and the JSON parser are not modelled as I/O: the provider
 * is a function from the request that would be sent to the outcome of sending
 * it, and a response body comes with the abstract result of parsing it.
 */
module AiSummaryService {
  import opened Wrappers
  import opened Text
  import opened Ordering
  import opened Dtos

  // ---------------------------------------------------------------------------
  // Local summary
  // ---------------------------------------------------------------------------

  const NoTasksAvailable := "No tasks available."
  const RecentHeading := "Recent tasks:\n"
  const BulletMark := '•'

  /** How many tasks the local summary lists. */
  const RecentCount := 3

  function Header(total: nat): string {
    "Summary for (" + NatToString(total) + " total)\n\n"
  }

  function Bullet(t: TaskDto): string {
    [BulletMark] + " " + t.title + ": " + t.description + "\n"
  }

  /** The bullet lines of `ts`, in order. */
  function Bullets(ts: seq<TaskDto>): string {
    if ts == [] then "" else Bullets(ts[..|ts| - 1]) + Bullet(ts[|ts| - 1])
  }

  function Trailer(more: nat): string {
    "\n... and more " + NatToString(more) + " added tasks."
  }

  function Min(a: int, b: int): int {
    if a <= b then a else b
  }

  /** `tasks.OrderByDescending(t => t.CreatedAt).Take(3)` */
  function RecentTasks(tasks: seq<TaskDto>): (r: seq<TaskDto>)
    ensures |r| == Min(|tasks|, RecentCount)
  {
    OrderByDescending(tasks, CreatedAtOf)[..Min(|tasks|, RecentCount)]
  }

  /** The header and the bullet lines of the recent tasks. */
  function Listing(tasks: seq<TaskDto>): string {
    Header(|tasks|) + RecentHeading + Bullets(RecentTasks(tasks))
  }

  /** What `GenerateLocalSummary` returns. */
  function LocalSummary(tasks: seq<TaskDto>): (r: string)
    ensures |r| > 0
  {
    if tasks == [] then NoTasksAvailable
    else if |tasks| > RecentCount then Listing(tasks) + Trailer(|tasks| - RecentCount)
    else Listing(tasks)
  }

  /**
   * `GenerateLocalSummary`: builds the summary line by line, the way the
   * C# method accumulates it with `+=`.
   */
  method GenerateLocalSummary(tasks: seq<TaskDto>) returns (summary: string)
    ensures summary == LocalSummary(tasks)
  {
    if |tasks| == 0 {
      return NoTasksAvailable;
    }
    var totalTasks := |tasks|;
    var recentTasks := RecentTasks(tasks);
    summary := Header(totalTasks);
    summary := summary + RecentHeading;
    summary := AppendBullets(summary, recentTasks);
    assert summary == Listing(tasks);
    if totalTasks > RecentCount {
      summary := summary + Trailer(totalTasks - RecentCount);
    }
  }

  /** The `foreach` loop of `GenerateLocalSummary`: one bullet line per task, appended in order. */
  method AppendBullets(start: string, ts: seq<TaskDto>) returns (summary: string)
    ensures summary == start + Bullets(ts)
  {
    summary := start;
    for i := 0 to |ts|
      invariant summary == start + Bullets(ts[..i])
    {
      BulletsSnoc(ts, i);
      summary := summary + Bullet(ts[i]);
    }
    assert ts[..|ts|] == ts;
  }

  lemma BulletsSnoc(ts: seq<TaskDto>, i: nat)
    requires i < |ts|
    ensures Bullets(ts[..i + 1]) == Bullets(ts[..i]) + Bullet(ts[i])
  {
    assert ts[..i + 1][..i] == ts[..i];
  }

  /** The local summary is the fixed message exactly when there are no tasks. */
  lemma LocalSummaryEmptyIff(tasks: seq<TaskDto>)
    ensures LocalSummary(tasks) == NoTasksAvailable <==> tasks == []
  {
    if tasks != [] {
      var r := LocalSummary(tasks);
      assert r[0] == Header(|tasks|)[0] == 'S';
    }
  }

  /**
   * A non-empty list gives a summary that opens with the header, holding the
   * total, and the heading of the list.
   */
  lemma LocalSummaryHeader(tasks: seq<TaskDto>)
    requires tasks != []
    ensures Header(|tasks|) + RecentHeading <= LocalSummary(tasks)
  {
    var h := Header(|tasks|) + RecentHeading;
    PrefixOfConcat(h, Bullets(RecentTasks(tasks)));
    if |tasks| > RecentCount {
      PrefixOfConcat(Listing(tasks), Trailer(|tasks| - RecentCount));
    }
  }

  lemma PrefixOfConcat(a: string, b: string)
    ensures a <= a + b
  {
  }

  lemma BulletsEndWithNewline(ts: seq<TaskDto>)
    requires ts != []
    ensures var b := Bullets(ts); |b| > 0 && b[|b| - 1] == '\n'
  {
  }

  /** The trailer is there if and only if there are more than three tasks. */
  lemma LocalSummaryTrailer(tasks: seq<TaskDto>)
    requires tasks != []
    ensures var r := LocalSummary(tasks);
      && (r[|r| - 1] == '.' <==> |tasks| > RecentCount)
      && (|tasks| > RecentCount ==> Trailer(|tasks| - RecentCount) <= r[|r| - |Trailer(|tasks| - RecentCount)|..])
  {
    var r := LocalSummary(tasks);
    if |tasks| > RecentCount {
      var t := Trailer(|tasks| - RecentCount);
      assert r[|r| - |t|..] == t;
    } else {
      BulletsEndWithNewline(RecentTasks(tasks));
    }
  }

  /**
   * The listed tasks are the most recent ones: `min(n, 3)` of them, newest
   * first, none older than a task that was left out, and, among tasks created
   * at the same instant, the earliest in the input.
   */
  lemma RecentTasksAreLatest(tasks: seq<TaskDto>)
    ensures var r := RecentTasks(tasks);
      && |r| == Min(|tasks|, RecentCount)
      && SortedDesc(r, CreatedAtOf)
      && multiset(r) <= multiset(tasks)
      && (forall t, i :: t in multiset(tasks) - multiset(r) && 0 <= i < |r| ==> r[i].createdAt >= t.createdAt)
      && (forall k :: WithKey(r, CreatedAtOf, k) <= WithKey(tasks, CreatedAtOf, k))
  {
    var m := Min(|tasks|, RecentCount);
    var sorted := OrderByDescending(tasks, CreatedAtOf);
    var r := RecentTasks(tasks);
    assert r == sorted[..m];
    OrderByDescendingSorted(tasks, CreatedAtOf);
    TakeOfOrderByDescending(tasks, CreatedAtOf, m);
    forall t, i | t in multiset(tasks) - multiset(r) && 0 <= i < |r|
      ensures r[i].createdAt >= t.createdAt
    {
      assert CreatedAtOf(sorted[i]) >= CreatedAtOf(t);
    }
  }

  lemma {:induction false} BulletsCount(ts: seq<TaskDto>)
    requires forall i :: 0 <= i < |ts| ==> BulletMark !in ts[i].title && BulletMark !in ts[i].description
    ensures Occurrences(Bullets(ts), BulletMark) == |ts|
  {
    if ts != [] {
      var last := ts[|ts| - 1];
      var text := " " + last.title + ": " + last.description + "\n";
      BulletsCount(ts[..|ts| - 1]);
      assert Bullet(last) == [BulletMark] + text;
      OccurrencesConcat(Bullets(ts[..|ts| - 1]), Bullet(last), BulletMark);
      OccurrencesConcat([BulletMark], text, BulletMark);
      OccurrencesAbsent(text, BulletMark);
      assert Occurrences([BulletMark], BulletMark) == 1;
    }
  }

  lemma HeaderHasNoBullet(n: nat)
    ensures BulletMark !in Header(n) + RecentHeading
  {
    NatToStringRoundTrip(n);
  }

  lemma TrailerHasNoBullet(n: nat)
    ensures BulletMark !in Trailer(n)
  {
    NatToStringRoundTrip(n);
  }

  lemma ListingBulletCount(tasks: seq<TaskDto>)
    requires tasks != []
    requires forall i :: 0 <= i < |tasks| ==> BulletMark !in tasks[i].title && BulletMark !in tasks[i].description
    ensures Occurrences(Listing(tasks), BulletMark) == Min(|tasks|, RecentCount)
  {
    var n := |tasks|;
    var recent := RecentTasks(tasks);
    RecentTasksAreLatest(tasks);
    forall i | 0 <= i < |recent|
      ensures BulletMark !in recent[i].title && BulletMark !in recent[i].description
    {
      assert recent[i] in multiset(tasks);
      var j :| 0 <= j < |tasks| && tasks[j] == recent[i];
    }
    BulletsCount(recent);
    HeaderHasNoBullet(n);
    OccurrencesAbsent(Header(n) + RecentHeading, BulletMark);
    OccurrencesConcat(Header(n) + RecentHeading, Bullets(recent), BulletMark);
  }

  /**
   * Read back from the text: when no title or description contains the
   * bullet character, the summary holds exactly `min(n, 3)` bullets.
   */
  lemma LocalSummaryBulletCount(tasks: seq<TaskDto>)
    requires forall i :: 0 <= i < |tasks| ==> BulletMark !in tasks[i].title && BulletMark !in tasks[i].description
    ensures Occurrences(LocalSummary(tasks), BulletMark) == Min(|tasks|, RecentCount)
  {
    var n := |tasks|;
    if n == 0 {
      OccurrencesAbsent(NoTasksAvailable, BulletMark);
    } else {
      ListingBulletCount(tasks);
      if n > RecentCount {
        TrailerHasNoBullet(n - RecentCount);
        OccurrencesAbsent(Trailer(n - RecentCount), BulletMark);
        OccurrencesConcat(Listing(tasks), Trailer(n - RecentCount), BulletMark);
      }
    }
  }

  /** The four tasks of the worked example below, created one after the other. */
  function ExampleTasks(): seq<TaskDto> {
    [TaskDto(1, "Buy milk", "2%, 1 gal", 10), TaskDto(2, "Write report", "Q3 summary", 20),
     TaskDto(3, "Call Bob", "re: contract", 30), TaskDto(4, "Clean", "garage", 40)]
  }

  lemma ExampleTasksNewestFirst()
    ensures var ts := ExampleTasks(); OrderByDescending(ts, CreatedAtOf) == [ts[3], ts[2], ts[1], ts[0]]
  {
    var tasks := ExampleTasks();
    var a, b, c, d := tasks[0], tasks[1], tasks[2], tasks[3];
    assert tasks[1..] == [b, c, d] && [b, c, d][1..] == [c, d] && [c, d][1..] == [d];
    assert OrderByDescending([d], CreatedAtOf) == [d];
    assert InsertDesc(c, [d], CreatedAtOf) == [d, c];
    assert OrderByDescending([c, d], CreatedAtOf) == [d, c];
    assert InsertDesc(b, [c], CreatedAtOf) == [c, b];
    assert InsertDesc(b, [d, c], CreatedAtOf) == [d, c, b];
    assert OrderByDescending([b, c, d], CreatedAtOf) == [d, c, b];
    assert InsertDesc(a, [b], CreatedAtOf) == [b, a];
    assert InsertDesc(a, [c, b], CreatedAtOf) == [c, b, a];
    assert InsertDesc(a, [d, c, b], CreatedAtOf) == [d, c, b, a];
  }

  lemma BulletsOfThree(x: TaskDto, y: TaskDto, z: TaskDto)
    ensures Bullets([x, y, z]) == Bullet(x) + Bullet(y) + Bullet(z)
  {
    assert [x, y, z][..2] == [x, y] && [x, y][..1] == [x] && [x][..0] == [];
    assert Bullets([x]) == Bullet(x);
    assert Bullets([x, y]) == Bullet(x) + Bullet(y);
    assert Bullets([x, y, z]) == Bullets([x, y]) + Bullet(z);
  }

  lemma ExampleBullets()
    ensures Bullets(RecentTasks(ExampleTasks()))
         == "• Clean: garage\n" + "• Call Bob: re: contract\n" + "• Write report: Q3 summary\n"
  {
    var tasks := ExampleTasks();
    ExampleTasksNewestFirst();
    assert RecentTasks(tasks) == [tasks[3], tasks[2], tasks[1]];
    BulletsOfThree(tasks[3], tasks[2], tasks[1]);
    ExampleBulletLines();
  }

  lemma ExampleBulletLines()
    ensures Bullet(ExampleTasks()[3]) == "• Clean: garage\n"
    ensures Bullet(ExampleTasks()[2]) == "• Call Bob: re: contract\n"
    ensures Bullet(ExampleTasks()[1]) == "• Write report: Q3 summary\n"
  {
    var tasks := ExampleTasks();
    assert tasks[3] == TaskDto(4, "Clean", "garage", 40);
    assert tasks[2] == TaskDto(3, "Call Bob", "re: contract", 30);
    assert tasks[1] == TaskDto(2, "Write report", "Q3 summary", 20);
    BulletClean();
    BulletCallBob();
    BulletReport();
  }

  lemma BulletClean()
    ensures Bullet(TaskDto(4, "Clean", "garage", 40)) == "• Clean: garage\n"
  {
  }

  lemma BulletCallBob()
    ensures Bullet(TaskDto(3, "Call Bob", "re: contract", 30)) == "• Call Bob: re: contract\n"
  {
  }

  lemma BulletReport()
    ensures Bullet(TaskDto(2, "Write report", "Q3 summary", 20)) == "• Write report: Q3 summary\n"
  {
  }

  /**
   * The four example tasks and no key configured: the summary counts 4,
   * lists the three newest (newest first) and reports one more task; no
   * request is sent.
   */
  lemma ExampleWithoutKey(provider: ProviderRequest -> HttpOutcome)
    ensures var run := GenerateSummary(ExampleTasks(), None, provider);
      && run.request == None
      && run.text == "Summary for (4 total)\n\nRecent tasks:\n"
                   + "• Clean: garage\n" + "• Call Bob: re: contract\n" + "• Write report: Q3 summary\n"
                   + "\n... and more 1 added tasks."
  {
    var tasks := ExampleTasks();
    assert IsNullOrEmpty(None);
    assert GenerateSummary(tasks, None, provider) == SummaryRun(LocalSummary(tasks), LocalFallback(MissingKey), None);
    ExampleLocalSummary();
  }

  lemma ExampleLocalSummary()
    ensures LocalSummary(ExampleTasks())
         == "Summary for (4 total)\n\nRecent tasks:\n"
          + "• Clean: garage\n" + "• Call Bob: re: contract\n" + "• Write report: Q3 summary\n"
          + "\n... and more 1 added tasks."
  {
    var tasks := ExampleTasks();
    assert |tasks| == 4;
    ExampleBullets();
    ExampleHeaderAndTrailer();
    assert LocalSummary(tasks) == Header(4) + RecentHeading + Bullets(RecentTasks(tasks)) + Trailer(1);
  }

  lemma ExampleHeaderAndTrailer()
    ensures Header(4) == "Summary for (4 total)\n\n"
    ensures Trailer(1) == "\n... and more 1 added tasks."
  {
    assert NatToString(4) == "4" && NatToString(1) == "1";
  }

  // ---------------------------------------------------------------------------
  // Prompt and request
  // ---------------------------------------------------------------------------

  const Endpoint := "https://models.inference.ai.azure.com/chat/completions"
  const Model := "gpt-4o-mini"
  const SystemMessage := "You are an assistant who summarizes to-do lists in a clear and organized way."
  const MaxTokens := 200
  const PromptIntro := "Summarize the following tasks in a concise and organized manner:\n\n"
  const PromptOutro := "\n\nProvide a summary in English highlighting the main topics and activities."

  /** One task as the prompt lists it; note the trailing space. */
  function PromptLine(t: TaskDto): string {
    "- " + t.title + ": " + t.description + " "
  }

  /** The user message: the instruction, every task on its own line in input order, then the closing request. */
  function BuildPrompt(tasks: seq<TaskDto>): string {
    PromptIntro + Join("\n", Select(tasks, PromptLine)) + PromptOutro
  }

  /**
   * The chat-completions request. The sampling temperature (a floating-point
   * constant) is not part of the model.
   */
  datatype ProviderRequest = ProviderRequest(
    endpoint: string,
    authorization: string,
    model: string,
    systemMessage: string,
    userMessage: string,
    maxTokens: nat)

  function BuildRequest(tasks: seq<TaskDto>, apiKey: string): (r: ProviderRequest)
    ensures r.endpoint == Endpoint && r.model == Model && r.maxTokens == MaxTokens
    ensures r.systemMessage == SystemMessage
    ensures r.authorization == "Bearer " + apiKey
    ensures r.userMessage == BuildPrompt(tasks)
  {
    ProviderRequest(Endpoint, "Bearer " + apiKey, Model, SystemMessage, BuildPrompt(tasks), MaxTokens)
  }

  /**
   * The prompt opens with the instruction and closes with the request for an
   * English summary; when no title or description holds a line break, the
   * lines in between are exactly the tasks, one each, in input order.
   */
  lemma PromptListsEveryTask(tasks: seq<TaskDto>)
    requires tasks != []
    requires forall i :: 0 <= i < |tasks| ==> '\n' !in tasks[i].title && '\n' !in tasks[i].description
    ensures var p := BuildPrompt(tasks);
      && |PromptIntro| + |PromptOutro| <= |p|
      && p[..|PromptIntro|] == PromptIntro
      && p[|p| - |PromptOutro|..] == PromptOutro
      && Split(p[|PromptIntro|..|p| - |PromptOutro|], '\n') == Select(tasks, PromptLine)
  {
    var lines := Select(tasks, PromptLine);
    var middle := Join("\n", lines);
    var p := BuildPrompt(tasks);
    assert p == PromptIntro + middle + PromptOutro;
    assert p[..|PromptIntro|] == PromptIntro;
    assert p[|p| - |PromptOutro|..] == PromptOutro;
    assert p[|PromptIntro|..|p| - |PromptOutro|] == middle;
    forall i | 0 <= i < |lines|
      ensures '\n' !in lines[i]
    {
      assert lines[i] == "- " + tasks[i].title + ": " + tasks[i].description + " ";
    }
    SplitJoin(lines, '\n');
  }

  // ---------------------------------------------------------------------------
  // The provider's answer
  // ---------------------------------------------------------------------------

  /** A JSON value as `JsonDocument` exposes it. Object members are keyed by name. */
  datatype Json =
    | JNull
    | JBool(b: bool)
    | JNumber(literal: string)
    | JString(s: string)
    | JArray(items: seq<Json>)
    | JObject(members: map<string, Json>)

  /** What `JsonDocument.Parse` makes of a body: a `JsonException`, or a document. */
  datatype JsonParse = Malformed | Parsed(root: Json)

  /**
   * What sending the request produced: an exception (no connection, time-out,
   * a failure while reading the body), or a status code with the body and its
   * parse.
   */
  datatype HttpOutcome =
    | TransportFailure
    | Response(statusCode: int, body: string, parsed: JsonParse)

  /** `HttpResponseMessage.IsSuccessStatusCode`. */
  function IsSuccessStatusCode(statusCode: int): (r: bool)
    ensures r <==> statusCode / 100 == 2
  {
    200 <= statusCode <= 299
  }

  /** The text sits at `choices[0].message.content`, with every step of that path of the right JSON kind. */
  predicate ContentIs(root: Json, text: string) {
    && root.JObject? && "choices" in root.members
    && root.members["choices"].JArray? && |root.members["choices"].items| > 0
    && root.members["choices"].items[0].JObject?
    && "message" in root.members["choices"].items[0].members
    && root.members["choices"].items[0].members["message"].JObject?
    && "content" in root.members["choices"].items[0].members["message"].members
    && root.members["choices"].items[0].members["message"].members["content"] == JString(text)
  }

  /** The three ways the lookup of `choices[0].message.content` can end. */
  datatype Extraction =
    | Found(text: string)
      // a step is missing, the array is empty, or the content is null or ""
    | NotFound
      // a step has the wrong JSON kind: `TryGetProperty`, `GetArrayLength`, the
      // indexer or `GetString` throws `InvalidOperationException`
    | WrongKind

  /**
   * The lookup in `CallGitHubModelsApiAsync` of a successful answer's content. It finds a text exactly when a non-empty
   * string sits at `choices[0].message.content`.
   */
  function ExtractContent(root: Json): (r: Extraction)
    ensures r.Found? ==> r.text != "" && ContentIs(root, r.text)
    ensures forall text :: ContentIs(root, text) && text != "" ==> r == Found(text)
  {
    if !root.JObject? then WrongKind
    else if "choices" !in root.members then NotFound
    else
      var choices := root.members["choices"];
      if !choices.JArray? then WrongKind
      else if |choices.items| == 0 then NotFound
      else
        var firstChoice := choices.items[0];
        if !firstChoice.JObject? then WrongKind
        else if "message" !in firstChoice.members then NotFound
        else
          var message := firstChoice.members["message"];
          if !message.JObject? then WrongKind
          else if "content" !in message.members then NotFound
          else match message.members["content"]
            case JString(text) => if text == "" then NotFound else Found(text)
            case JNull => NotFound
            case _ => WrongKind
  }

  // ---------------------------------------------------------------------------
  // The fallback decision
  // ---------------------------------------------------------------------------

  const NothingToSummarize := "Not found tasks to summarize"

  /** Why the local summary was used; each reason is one of the service's log messages. */
  datatype FallbackReason =
    | MissingKey
    | QuotaExceeded
    | InvalidApiKey
    | ApiError(statusCode: int)
    | EmptyContent
    | UnparsableResponse
    | UnexpectedError

  /** Where the returned text came from. */
  datatype Origin = NoTasks | ProviderContent | LocalFallback(reason: FallbackReason)

  /** How a call of one of the private methods ends: with a text, or with an exception that escapes it. */
  datatype Attempt = Returned(text: string, origin: Origin) | Thrown

  /**
   * The log classification of an error body in `CallGitHubModelsApiAsync`. It decides
   * which warning is written and nothing else.
   */
  function ClassifyFailure(statusCode: int, errorBody: string): (r: FallbackReason)
    ensures r == QuotaExceeded <==> Contains(errorBody, "insufficient_quota")
    ensures r == InvalidApiKey <==>
      !Contains(errorBody, "insufficient_quota")
      && (Contains(errorBody, "invalid_api_key") || Contains(errorBody, "unauthorized"))
    ensures r.QuotaExceeded? || r.InvalidApiKey? || r == ApiError(statusCode)
  {
    if Contains(errorBody, "insufficient_quota") then QuotaExceeded
    else if Contains(errorBody, "invalid_api_key") || Contains(errorBody, "unauthorized") then InvalidApiKey
    else ApiError(statusCode)
  }

  /**
   * `CallGitHubModelsApiAsync`: sends the request and interprets the answer.
   * A JSON kind mismatch is not a `JsonException`, so it escapes as `Thrown`.
   */
  function CallGitHubModelsApi(tasks: seq<TaskDto>, apiKey: string, provider: ProviderRequest -> HttpOutcome): (r: Attempt)
    ensures r.Returned? && r.origin == ProviderContent ==>
      && var outcome := provider(BuildRequest(tasks, apiKey));
      && outcome.Response? && IsSuccessStatusCode(outcome.statusCode)
      && outcome.parsed.Parsed? && ContentIs(outcome.parsed.root, r.text) && r.text != ""
    ensures r.Returned? && r.origin != ProviderContent ==> r.origin.LocalFallback? && r.text == LocalSummary(tasks)
  {
    match provider(BuildRequest(tasks, apiKey))
    case TransportFailure => Thrown
    case Response(statusCode, body, parsed) =>
      if !IsSuccessStatusCode(statusCode) then
        Returned(LocalSummary(tasks), LocalFallback(ClassifyFailure(statusCode, body)))
      else
        match parsed
        case Malformed => Returned(LocalSummary(tasks), LocalFallback(UnparsableResponse))
        case Parsed(root) =>
          match ExtractContent(root)
          case Found(text) => Returned(text, ProviderContent)
          case NotFound => Returned(LocalSummary(tasks), LocalFallback(EmptyContent))
          case WrongKind => Thrown
  }

  /**
   * `GenerateGitHubModelsSummaryAsync`: without a key (`None` is a missing
   * configuration entry) the local summary is used and nothing is sent.
   */
  function GitHubModelsSummary(tasks: seq<TaskDto>, gitHubModelsKey: Option<string>, provider: ProviderRequest -> HttpOutcome): (r: Attempt)
    ensures IsNullOrEmpty(gitHubModelsKey) ==> r == Returned(LocalSummary(tasks), LocalFallback(MissingKey))
  {
    if IsNullOrEmpty(gitHubModelsKey) then Returned(LocalSummary(tasks), LocalFallback(MissingKey))
    else CallGitHubModelsApi(tasks, gitHubModelsKey.value, provider)
  }

  /** The request the service sends for these tasks and this key, if it sends one. */
  function RequestSent(tasks: seq<TaskDto>, gitHubModelsKey: Option<string>): (r: Option<ProviderRequest>)
    ensures r.Some? <==> tasks != [] && !IsNullOrEmpty(gitHubModelsKey)
  {
    if tasks == [] || IsNullOrEmpty(gitHubModelsKey) then None
    else Some(BuildRequest(tasks, gitHubModelsKey.value))
  }

  /** The text returned, where it came from, and the request that was sent, if any. */
  datatype SummaryRun = SummaryRun(text: string, origin: Origin, request: Option<ProviderRequest>)

  /**
   * `GenerateSummaryAsync`. It never fails: every exception is turned into
   * the local summary, and the text is never empty.
   */
  function GenerateSummary(tasks: seq<TaskDto>, gitHubModelsKey: Option<string>, provider: ProviderRequest -> HttpOutcome): (run: SummaryRun)
    ensures |run.text| > 0
    ensures run.request == RequestSent(tasks, gitHubModelsKey)
    ensures tasks == [] ==> run == SummaryRun(NothingToSummarize, NoTasks, None)
    ensures tasks != [] && IsNullOrEmpty(gitHubModelsKey) ==> run == SummaryRun(LocalSummary(tasks), LocalFallback(MissingKey), None)
    ensures run.origin.LocalFallback? ==> tasks != [] && run.text == LocalSummary(tasks)
    ensures run.origin == ProviderContent ==>
      && run.request.Some?
      && var outcome := provider(run.request.value);
      && outcome.Response? && IsSuccessStatusCode(outcome.statusCode)
      && outcome.parsed.Parsed? && ContentIs(outcome.parsed.root, run.text)
  {
    if tasks == [] then SummaryRun(NothingToSummarize, NoTasks, None)
    else
      match GitHubModelsSummary(tasks, gitHubModelsKey, provider)
      case Returned(text, origin) => SummaryRun(text, origin, RequestSent(tasks, gitHubModelsKey))
      case Thrown => SummaryRun(LocalSummary(tasks), LocalFallback(UnexpectedError), RequestSent(tasks, gitHubModelsKey))
  }

  /**
   * A 2xx answer whose `choices[0].message.content` is a non-empty string is
   * returned as it is, and no fallback follows.
   */
  lemma ProviderContentReturnedVerbatim(tasks: seq<TaskDto>, gitHubModelsKey: Option<string>,
                                        provider: ProviderRequest -> HttpOutcome, text: string)
    requires tasks != [] && !IsNullOrEmpty(gitHubModelsKey)
    requires var outcome := provider(BuildRequest(tasks, gitHubModelsKey.value));
      && outcome.Response? && IsSuccessStatusCode(outcome.statusCode)
      && outcome.parsed.Parsed? && ContentIs(outcome.parsed.root, text)
    requires text != ""
    ensures GenerateSummary(tasks, gitHubModelsKey, provider) == SummaryRun(text, ProviderContent, RequestSent(tasks, gitHubModelsKey))
  {
  }

  /**
   * Any status outside 2xx gives the local summary, whatever the error body
   * says; the body only chooses the log reason.
   */
  lemma NonSuccessStatusFallsBack(tasks: seq<TaskDto>, gitHubModelsKey: Option<string>,
                                  provider: ProviderRequest -> HttpOutcome)
    requires tasks != [] && !IsNullOrEmpty(gitHubModelsKey)
    requires var outcome := provider(BuildRequest(tasks, gitHubModelsKey.value));
      outcome.Response? && !IsSuccessStatusCode(outcome.statusCode)
    ensures var run := GenerateSummary(tasks, gitHubModelsKey, provider);
      && run.text == LocalSummary(tasks)
      && run.origin == LocalFallback(ClassifyFailure(provider(run.request.value).statusCode, provider(run.request.value).body))
  {
  }

  /**
   * Every other failure (no answer, an unparsable body, a missing or empty
   * content, a JSON value of the wrong kind) gives the local summary too.
   */
  lemma ProviderFailureFallsBack(tasks: seq<TaskDto>, gitHubModelsKey: Option<string>,
                                 provider: ProviderRequest -> HttpOutcome)
    requires tasks != [] && !IsNullOrEmpty(gitHubModelsKey)
    requires var outcome := provider(BuildRequest(tasks, gitHubModelsKey.value));
      || outcome.TransportFailure?
      || (outcome.Response? && outcome.parsed.Malformed?)
      || (outcome.Response? && outcome.parsed.Parsed? && !ExtractContent(outcome.parsed.root).Found?)
    ensures GenerateSummary(tasks, gitHubModelsKey, provider).text == LocalSummary(tasks)
  {
  }

  /**
   * The provider is consulted only about the request that is recorded as
   * sent: two providers that agree on it (or any two, when nothing is sent)
   * lead to the same run.
   */
  lemma ProviderConsultedOnlyOnRequest(tasks: seq<TaskDto>, gitHubModelsKey: Option<string>,
                                       p1: ProviderRequest -> HttpOutcome, p2: ProviderRequest -> HttpOutcome)
    requires var sent := RequestSent(tasks, gitHubModelsKey); sent.Some? ==> p1(sent.value) == p2(sent.value)
    ensures GenerateSummary(tasks, gitHubModelsKey, p1) == GenerateSummary(tasks, gitHubModelsKey, p2)
  {
  }

  /** Whatever the provider does, the text is the provider's content or the local summary. */
  lemma SummaryIsContentOrLocal(tasks: seq<TaskDto>, gitHubModelsKey: Option<string>,
                                provider: ProviderRequest -> HttpOutcome)
    requires tasks != []
    ensures var run := GenerateSummary(tasks, gitHubModelsKey, provider);
      run.text == LocalSummary(tasks) || run.origin == ProviderContent
  {
  }
}
