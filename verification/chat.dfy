/**
 * The `/chat` endpoint of main.py: validation of the incoming message, and the
 * dispatch of the interpreted `{action, task}` value onto the task store with
 * the reply text for each action.
 */
module Chat {
  import opened Wrappers
  import opened Text
  import opened Tasks

  // ----- request validation -----

  const EMPTY_MESSAGE: string := "Message cannot be empty"

  /**
   * `ChatRequest.validate_message`: refuses empty or whitespace-only input;
   * otherwise keeps the input with only its surrounding whitespace removed.
   */
  function ValidateMessage(v: string): (r: Result<string, string>)
    ensures r.Failure? <==> AllSpace(v)
    ensures r.Failure? ==> r.error == EMPTY_MESSAGE
    ensures r.Success? ==> r.value != [] && !IsSpace(r.value[0]) && !IsSpace(r.value[|r.value| - 1])
    ensures r.Success? ==> var i := StripStart(v);
      OccursAt(v, r.value, i) && AllSpace(v[..i]) && AllSpace(v[i + |r.value|..])
  {
    if v == [] || |Strip(v)| == 0 then Failure(EMPTY_MESSAGE) else Success(Strip(v))
  }

  /** Validating an accepted message again accepts it unchanged. */
  lemma ValidateIdempotent(v: string)
    requires ValidateMessage(v).Success?
    ensures ValidateMessage(ValidateMessage(v).value) == ValidateMessage(v)
  {
    StripIdempotent(v);
  }

  // ----- the interpreted command -----

  /**
   * What `AIAgent.interpret_command` returns, as far as the handler reads it:
   * the `action` and `task` keys (absent or a string) and the `error` key.
   */
  datatype AiResponse = AiResponse(action: Option<string>, task: Option<string>, error: Option<string>)

  /** The agent's reply when the completion call or the JSON parsing fails. */
  function AgentFailure(e: string): AiResponse
  {
    AiResponse(Some("unknown"), None, Some(e))
  }

  /** `ai_response.get("action", "unknown")`. */
  function ActionOf(ai: AiResponse): string
  {
    match ai.action
    case Some(a) => a
    case None => "unknown"
  }

  /** Python truthiness of the `task` value: present and not the empty string. */
  predicate Truthy(task: Option<string>)
  {
    task.Some? && task.value != []
  }

  /** One request as the handler sees it: the interpreted command plus the uuid and clock values `create_task` would draw. */
  datatype Request = Request(ai: AiResponse, id: string, now: nat)

  /** The JSON body of a successful reply. */
  datatype ChatResponse = ChatResponse(response: string, action: string, tasks: seq<Task>)

  /** `HTTPException(status_code, detail)`. */
  datatype HttpError = HttpError(status: nat, detail: string)

  /** The reply to one request together with the task list after it. */
  datatype Outcome = Outcome(reply: Result<ChatResponse, HttpError>, tasks: seq<Task>)

  // ----- reply texts -----

  const NO_TASKS: string := "\U{1F4CB} No tasks found"
  const HELP: string := "\U{2753} " + "Try: 'add [task]', 'show tasks', 'remove [task]', or 'clear all'"

  function AddedMessage(content: string): string { "\U{2705} Added: " + content }
  function RemovedMessage(name: string): string { "\U{2705} Removed: " + name }
  function NotFoundMessage(name: string): string { "\U{274C} Not found: " + name }
  function ClearedMessage(count: nat): string { "\U{1F5D1}\U{FE0F} Cleared " + NatToString(count) + " tasks" }

  /** The first line of the `show` reply. */
  function ShowHeader(count: nat): string { "\U{1F4CB} Tasks (" + NatToString(count) + "):" }

  /** One `• content` line per task, in list order. */
  function Bullets(ts: seq<Task>): seq<string>
  {
    seq(|ts|, i requires 0 <= i < |ts| => "\U{2022} " + ts[i].content)
  }

  /** The `show` reply: a count header and the bullet lines, or the fixed text for an empty list. */
  function ShowMessage(ts: seq<Task>): (r: string)
    ensures r == NO_TASKS <==> ts == []
  {
    if ts == [] then NO_TASKS
    else
      var m := ShowHeader(|ts|) + "\n" + Join(Bullets(ts));
      assert m[2] != NO_TASKS[2];
      m
  }

  // ----- dispatch -----

  /** The commands that fall through to the help text: anything but a usable add, remove, show or clear. */
  predicate IsHelpCase(ai: AiResponse)
  {
    var a := ActionOf(ai);
    a != "show" && a != "clear" && ((a == "add" || a == "remove") ==> !Truthy(ai.task))
  }

  /** What the `chat` handler does with one interpreted request, given the task list before it. */
  function Handle(ts: seq<Task>, req: Request): (o: Outcome)
    ensures o.reply.Success? ==> o.reply.value.tasks == o.tasks
    ensures o.reply.Failure? ==> o.tasks == ts && o.reply.error == HttpError(400, "Too many tasks")
    ensures |o.tasks| <= |ts| + 1
  {
    var action := ActionOf(req.ai);
    var task := req.ai.task;
    if action == "add" && Truthy(task) then
      if |ts| >= MAX_TASKS then
        Outcome(Failure(HttpError(400, TooManyTasks.Text())), ts)
      else
        var t := NewTask(task.value, req.id, req.now);
        Outcome(Success(ChatResponse(AddedMessage(t.content), action, ts + [t])), ts + [t])
    else if action == "remove" && Truthy(task) then
      var found := FirstMatch(ts, task.value).Some?;
      var rest := RemoveFirstMatch(ts, task.value);
      var message := if found then RemovedMessage(task.value) else NotFoundMessage(task.value);
      Outcome(Success(ChatResponse(message, action, rest)), rest)
    else if action == "show" then
      Outcome(Success(ChatResponse(ShowMessage(ts), action, ts)), ts)
    else if action == "clear" then
      Outcome(Success(ChatResponse(ClearedMessage(|ts|), action, [])), [])
    else
      Outcome(Success(ChatResponse(HELP, action, ts)), ts)
  }

  /** The `chat` handler, acting on the store in place. */
  method HandleChat(store: TaskList, req: Request) returns (r: Result<ChatResponse, HttpError>)
    modifies store
    ensures r == Handle(old(store.tasks), req).reply
    ensures store.tasks == Handle(old(store.tasks), req).tasks
    ensures old(store.Valid()) ==> store.Valid()
  {
    var action := ActionOf(req.ai);
    var taskContent := req.ai.task;
    var message: string;
    if action == "add" && Truthy(taskContent) {
      var created := store.CreateTask(taskContent.value, req.id, req.now);
      if created.Failure? {
        return Failure(HttpError(400, created.error.Text()));
      }
      message := AddedMessage(created.value.content);
    } else if action == "remove" && Truthy(taskContent) {
      var removed := store.FindAndRemoveTask(taskContent.value);
      message := if removed then RemovedMessage(taskContent.value) else NotFoundMessage(taskContent.value);
    } else if action == "show" {
      message := ShowMessage(store.tasks);
    } else if action == "clear" {
      var count := |store.tasks|;
      store.Clear();
      message := ClearedMessage(count);
    } else {
      message := HELP;
    }
    return Success(ChatResponse(message, action, store.tasks));
  }

  /** The task list after a series of requests, each handled on the list the previous one left. */
  function Replay(ts: seq<Task>, reqs: seq<Request>): seq<Task>
    decreases reqs
  {
    if reqs == [] then ts else Replay(Handle(ts, reqs[0]).tasks, reqs[1..])
  }

  // ----- properties of the dispatch -----

  /** Every request keeps the store within capacity and every content within the length limit. */
  lemma HandleKeepsValid(ts: seq<Task>, req: Request)
    requires ValidTasks(ts)
    ensures ValidTasks(Handle(ts, req).tasks)
  {
    var action := ActionOf(req.ai);
    if action == "add" && Truthy(req.ai.task) {
      if |ts| < MAX_TASKS {
        AppendKeepsValid(ts, req.ai.task.value, req.id, req.now);
      }
    } else if action == "remove" && Truthy(req.ai.task) {
      RemoveKeepsValid(ts, req.ai.task.value);
    }
  }

  /** From a valid list, such as the empty one at start-up, no series of requests can overfill the store or store an over-long content. */
  lemma {:induction false} ReplayKeepsValid(ts: seq<Task>, reqs: seq<Request>)
    requires ValidTasks(ts)
    ensures ValidTasks(Replay(ts, reqs))
    decreases reqs
  {
    if reqs != [] {
      HandleKeepsValid(ts, reqs[0]);
      ReplayKeepsValid(Handle(ts, reqs[0]).tasks, reqs[1..]);
    }
  }

  /** `add`: refused with HTTP 400 "Too many tasks" on a full store, which stays as it was; otherwise the truncated content is appended at the end and echoed. */
  lemma HandleAdd(ts: seq<Task>, req: Request)
    requires ActionOf(req.ai) == "add" && Truthy(req.ai.task)
    ensures var o, c := Handle(ts, req), req.ai.task.value;
      && (|ts| >= MAX_TASKS ==> o == Outcome(Failure(HttpError(400, "Too many tasks")), ts))
      && (|ts| < MAX_TASKS ==>
            && |o.tasks| == |ts| + 1 && o.tasks[..|ts|] == ts
            && o.tasks[|ts|].content == c[..Min(|c|, MAX_TASK_LENGTH)]
            && o.reply == Success(ChatResponse(AddedMessage(o.tasks[|ts|].content), "add", o.tasks)))
  {
    var o, c := Handle(ts, req), req.ai.task.value;
    if |ts| < MAX_TASKS {
      assert (ts + [NewTask(c, req.id, req.now)])[..|ts|] == ts;
    }
  }

  /** Adding MAX_TASKS tasks to the empty store succeeds each time and fills it exactly; the next add is refused and the store keeps MAX_TASKS tasks. */
  lemma {:induction false} FillToCapacity(ts: seq<Task>, reqs: seq<Request>)
    requires |ts| + |reqs| <= MAX_TASKS
    requires forall i :: 0 <= i < |reqs| ==> ActionOf(reqs[i].ai) == "add" && Truthy(reqs[i].ai.task)
    ensures |Replay(ts, reqs)| == |ts| + |reqs|
    ensures |ts| + |reqs| == MAX_TASKS ==> forall req: Request ::
      ActionOf(req.ai) == "add" && Truthy(req.ai.task) ==>
        Handle(Replay(ts, reqs), req) == Outcome(Failure(HttpError(400, "Too many tasks")), Replay(ts, reqs))
    decreases reqs
  {
    if reqs != [] {
      FillToCapacity(Handle(ts, reqs[0]).tasks, reqs[1..]);
    }
  }

  /** `remove`: reports whether some task matched, takes out the first match only and keeps the rest in order; without a match nothing changes. */
  lemma HandleRemove(ts: seq<Task>, req: Request)
    requires ActionOf(req.ai) == "remove" && Truthy(req.ai.task)
    ensures var o, q := Handle(ts, req), req.ai.task.value;
      && o.reply.Success? && o.reply.value.tasks == o.tasks
      && ((exists k :: 0 <= k < |ts| && Matches(q, ts[k])) ==>
            && o.reply.value.response == RemovedMessage(q)
            && |o.tasks| == |ts| - 1
            && exists k :: 0 <= k < |ts| && Matches(q, ts[k])
                 && (forall j :: 0 <= j < k ==> !Matches(q, ts[j]))
                 && o.tasks == ts[..k] + ts[k + 1..])
      && ((forall k :: 0 <= k < |ts| ==> !Matches(q, ts[k])) ==>
            o.reply.value.response == NotFoundMessage(q) && o.tasks == ts)
  {
    var q := req.ai.task.value;
    match FirstMatch(ts, q)
    case Some(k) =>
      RemoveFirstMatchShape(ts, q, k);
      assert Handle(ts, req).tasks == ts[..k] + ts[k + 1..];
    case None =>
      RemoveNoMatch(ts, q);
  }

  /** `show` leaves the list alone, and its reply is the fixed text exactly when the list is empty. */
  lemma HandleShow(ts: seq<Task>, req: Request)
    requires ActionOf(req.ai) == "show"
    ensures var o := Handle(ts, req);
      && o.tasks == ts && o.reply.Success? && o.reply.value.tasks == ts
      && (o.reply.value.response == NO_TASKS <==> ts == [])
  {
    if ts != [] {
      assert ShowMessage(ts)[2] != NO_TASKS[2];
    }
  }

  /** For a non-empty list, the `show` reply splits into the count header and one bullet line per task, in list order. */
  lemma HandleShowLines(ts: seq<Task>, req: Request)
    requires ActionOf(req.ai) == "show" && ts != []
    requires forall i :: 0 <= i < |ts| ==> NoNewline(ts[i].content)
    ensures var lines := SplitLines(Handle(ts, req).reply.value.response);
      && |lines| == |ts| + 1
      && lines[0] == ShowHeader(|ts|)
      && forall i :: 0 <= i < |ts| ==> lines[i + 1] == "\U{2022} " + ts[i].content
  {
    var lines := [ShowHeader(|ts|)] + Bullets(ts);
    assert ShowMessage(ts) == Join(lines) by {
      assert lines[1..] == Bullets(ts);
    }
    assert NoNewline(ShowHeader(|ts|)) by {
      var digits := NatToString(|ts|);
      assert forall i :: 0 <= i < |digits| ==> digits[i] != '\n';
    }
    forall i | 0 <= i < |lines| ensures NoNewline(lines[i]) {
      if i > 0 {
        assert lines[i] == "\U{2022} " + ts[i - 1].content;
      }
    }
    SplitJoin(lines);
  }

  /** `clear` empties the list and reports the count it had. */
  lemma HandleClear(ts: seq<Task>, req: Request)
    requires ActionOf(req.ai) == "clear"
    ensures var o := Handle(ts, req);
      o.tasks == [] && o.reply == Success(ChatResponse(ClearedMessage(|ts|), "clear", []))
  {
  }

  /** Different counts give different `clear` replies, so the reply tells how many tasks were dropped. */
  lemma ClearedMessageInjective(m: nat, n: nat)
    ensures ClearedMessage(m) == ClearedMessage(n) ==> m == n
  {
    var a, b := NatToString(m), NatToString(n);
    if ClearedMessage(m) == ClearedMessage(n) {
      var prefix := "\U{1F5D1}\U{FE0F} Cleared ";
      assert |a| == |b|;
      assert a == ClearedMessage(m)[|prefix|..|prefix| + |a|];
      assert b == ClearedMessage(n)[|prefix|..|prefix| + |b|];
      NatToStringInjective(m, n);
    }
  }

  /** The help text is the reply exactly for the fall-through commands, and those leave the list unchanged. */
  lemma HandleHelp(ts: seq<Task>, req: Request)
    ensures var o := Handle(ts, req);
      (o.reply.Success? && o.reply.value.response == HELP) <==> IsHelpCase(req.ai)
    ensures IsHelpCase(req.ai) ==> Handle(ts, req) == Outcome(Success(ChatResponse(HELP, ActionOf(req.ai), ts)), ts)
  {
    var action, task := ActionOf(req.ai), req.ai.task;
    assert HELP[0] == '\U{2753}';
    if action == "add" && Truthy(task) {
      assert AddedMessage(Truncate(task.value))[0] == '\U{2705}';
    } else if action == "remove" && Truthy(task) {
      assert RemovedMessage(task.value)[0] == '\U{2705}';
      assert NotFoundMessage(task.value)[0] == '\U{274C}';
    } else if action == "show" {
      if ts != [] {
        assert ShowMessage(ts)[0] == '\U{1F4CB}';
      }
    } else if action == "clear" {
      assert ClearedMessage(|ts|)[0] == '\U{1F5D1}';
    }
  }

  /** A failed interpretation gets the help text, with action "unknown", and the list is untouched. */
  lemma AgentFailureGetsHelp(ts: seq<Task>, e: string, id: string, now: nat)
    ensures Handle(ts, Request(AgentFailure(e), id, now)) == Outcome(Success(ChatResponse(HELP, "unknown", ts)), ts)
  {
  }
}
