# To-do chatbot: task store and command dispatch

A Dafny model of the core of a small chat-driven to-do service. A user message
is checked (`ChatRequest.validate_message`). An external language model
interprets it as an `{action, task}` value. The `/chat` handler then carries out
that value against one process-wide, in-memory list of tasks:

- `add` creates a task, cut to 500 characters, unless the list already holds 100;
- `remove` deletes the first task whose content contains the given name, ignoring case;
- `show` renders a count header and one bullet line per task;
- `clear` empties the list and reports how many tasks it held;
- anything else gets a fixed help text.

Layout:

- `wrappers.dfy`: `Option` and `Result`, standing for Python's `None` and for raised exceptions.
- `text.dfy` (module `Text`): the string operations the handler relies on.
  - `str.lower()`, the `in` substring test and `str.strip()`.
  - The decimal rendering of a count and `"\n".join`.
  - `LowerAt` and `ContainsIff` characterise lower-casing and the substring test. `Strip`'s contract characterises it and `StripIdempotent` adds idempotence. `ParseNatToString` and `SplitJoin` prove the inverses of the count rendering and the join.
- `tasks.dfy` (module `Tasks`): the task list.
  - The module-level `tasks` list becomes the class `TaskList` with a `seq<Task>` field.
  - `create_task` and `find_and_remove_task` become its methods, and `tasks.clear()` its `Clear`.
  - Each method is specified by pure functions (`Truncate`, `FirstMatch`, `RemoveFirstMatch`).
  - Lemmas state what those functions promise.
- `chat.dfy` (module `Chat`): message validation and the `chat` handler.
  - `HandleChat` is the handler acting on a `TaskList`.
  - `Handle` is the same dispatch as a function of the list before the request.
  - `Replay` runs a series of requests.
  - The lemmas cover each action, the store invariant and the help fall-through.

The interpreter's answer is an input value (`AiResponse`). When the agent
fails, it answers with action `"unknown"` and an `error` key (ai_agent.py:35-36).
The handler ignores that key, and a failed interpretation gets the help text
(`AgentFailureGetsHelp`).

## Model

| member | source | states |
|---|---|---|
| `Tasks.TaskList.constructor` | main.py:25 | The list starts empty, so the store invariant holds at start-up. |
| `Tasks.TaskList.CreateTask` | main.py:42-53 | A list already holding `MAX_TASKS` tasks is refused with "Too many tasks" and left unchanged. Otherwise exactly one task, with the given id and time and the truncated content, is appended at the end; earlier tasks are unchanged; the invariant is kept. |
| `Tasks.TaskList.FindAndRemoveTask` | main.py:55-61 | The scan runs in list order. The result is true exactly when some task's lowercased content contains the lowercased name. The new list is the old one without its first match, or the old list when nothing matches. |
| `Tasks.TaskList.Clear` | main.py:87 | The list becomes empty. |
| `Tasks.NewTask` | main.py:47-51 | The task `create_task` builds, with the given id and time and the truncated content; no contract of its own, `HandleAdd` and `AppendKeepsValid` state its use. |
| `Tasks.Truncate` | main.py:49 | The stored content is a prefix of the input, of length `min(len(content), MAX_TASK_LENGTH)`. |
| `Tasks.TruncateExact` | main.py:49 | Content within the limit is kept whole. Longer content keeps exactly its first `MAX_TASK_LENGTH` characters. |
| `Tasks.FirstMatch` | main.py:57-58 | The index found matches, and no earlier task matches. No index is found exactly when no task matches. |
| `Tasks.Matches` | main.py:58 | `task_name.lower() in task.content.lower()`; no contract of its own, `InfixMatches` and `FirstMatch` state its use. |
| `Tasks.RemoveFirstMatch` | main.py:57-61 | The list after `find_and_remove_task`: at most one task shorter, and unchanged exactly when no task matches. `RemoveFirstMatchShape`, `RemoveFirstMatchMultiset` and `RemoveNoMatch` give its exact shape. |
| `Tasks.RemoveFirstMatchShape` | main.py:57-60 | When the first match is at index k, removal shortens the list by one and takes out the task at k. Tasks before it stay in place; tasks after it move up by one, in the same order. |
| `Tasks.RemoveFirstMatchMultiset` | main.py:59 | Removal loses exactly the removed task; no task is duplicated or invented. |
| `Tasks.RemoveNoMatch` | main.py:61 | When no task matches, the list is unchanged. |
| `Tasks.ValidTasks` | main.py:44-49 | The store invariant: at most `MAX_TASKS` tasks, each content at most `MAX_TASK_LENGTH` characters; no contract of its own, `AppendKeepsValid`, `RemoveKeepsValid`, `HandleKeepsValid` and `ReplayKeepsValid` show that every operation keeps it. |
| `Tasks.AppendKeepsValid` | main.py:44-52 | Appending a new task to a valid list with room keeps it within capacity and every content within the length limit. |
| `Tasks.RemoveKeepsValid` | main.py:59 | Removal keeps the store invariant. |
| `Tasks.InfixMatches` | main.py:58 | A name that is a piece of a task's content matches that task (the match ignores case). |
| `Tasks.AddThenRemove` | main.py:47-60 | After a task is added, removing by any piece of its stored content finds a task, and the list goes back to its old size. |
| `Text.ContainsIff` | main.py:58 | The front-to-back search for `sub in s` succeeds exactly when `sub` occurs at some index of `s`. |
| `Text.LowerAppend` | main.py:58 | Lower-casing distributes over concatenation. |
| `Text.Lower` | main.py:58 | `str.lower()` on ASCII letters; no contract of its own, `LowerAt` and `LowerAppend` state its behaviour. |
| `Text.LowerAt` | main.py:58 | Lower-casing keeps the length and lower-cases each character in place. |
| `Text.Contains` | main.py:58 | Python's `in` on strings; no contract of its own, `ContainsIff` states its behaviour. |
| `Text.IsSpace` | main.py:33-35 | The characters `str.isspace()` accepts (tab to carriage return, 0x1C-0x20, 0x85, 0xA0, 0x1680, 0x2000-0x200A, 0x2028, 0x2029, 0x202F, 0x205F, 0x3000), which `strip()` removes; no contract of its own, `Strip` and `ValidateMessage` state its use. |
| `Text.Strip` | main.py:35 | `strip()` keeps the piece of the input after the leading whitespace and before the trailing whitespace. The result is empty exactly for whitespace-only input, and otherwise neither starts nor ends with whitespace. |
| `Text.StripIdempotent` | main.py:35 | Stripping a stripped text changes nothing. |
| `Text.NatToString` | main.py:82 | `str(n)` inside an f-string: at least one decimal digit, and a leading `0` exactly for zero. `ParseNatToString` proves it reads back as `n`. |
| `Text.ParseNatToString` | main.py:82 | A rendered count reads back as the same number. |
| `Text.NatToStringInjective` | main.py:88 | Different counts render differently. |
| `Text.Join` | main.py:81 | `"\n".join(lines)`: no lines give the empty text; `SplitJoin` proves that splitting at line breaks gives the lines back. |
| `Text.SplitJoin` | main.py:81 | Lines without a line break, joined with `"\n"`, split back into the same lines. |
| `Chat.ValidateMessage` | main.py:32-35 | Empty or whitespace-only messages are refused with "Message cannot be empty". Any other message is accepted as the input with only its surrounding whitespace removed, which is non-empty and has no whitespace at either end. |
| `Chat.ValidateIdempotent` | main.py:35 | An accepted message is accepted again unchanged. |
| `Chat.ActionOf` | main.py:69 | `ai_response.get("action", "unknown")`; no contract of its own, `AgentFailureGetsHelp` and `HandleHelp` state its use. |
| `Chat.Truthy` | main.py:73-76 | Python truthiness of `task_content`; no contract of its own, `HandleHelp` states that a falsy task gets the help text. |
| `Chat.AgentFailure` | ai_agent.py:35-36 | The agent's reply on failure; no contract of its own, `AgentFailureGetsHelp` states how the handler treats it. |
| `Chat.AddedMessage` | main.py:75 | The `add` reply "✅ Added: content"; no contract of its own, `HandleAdd` states its use. |
| `Chat.RemovedMessage` | main.py:78 | The `remove` reply on a match; no contract of its own, `HandleRemove` states its use. |
| `Chat.NotFoundMessage` | main.py:78 | The `remove` reply without a match; no contract of its own, `HandleRemove` states its use. |
| `Chat.ClearedMessage` | main.py:88 | The `clear` reply with the count held before; no contract of its own, `HandleClear` states its use and `ClearedMessageInjective` that the count can be read off it. |
| `Chat.ShowHeader` | main.py:82 | The first line of the `show` reply, with `len(tasks)`; no contract of its own, `HandleShowLines` states its use. |
| `Chat.NO_TASKS` | main.py:84 | The `show` reply for an empty list; `ShowMessage` and `HandleShow` state it is given exactly then. |
| `Chat.HELP` | main.py:90 | The help text; `HandleHelp` states exactly when it is the reply. |
| `Chat.Bullets` | main.py:81 | One "• content" line per task; no contract of its own, `HandleShowLines` states the lines in order. |
| `Chat.ShowMessage` | main.py:79-84 | The `show` reply is "No tasks found" exactly when the list is empty; `HandleShowLines` states the header and bullet lines. |
| `Chat.IsHelpCase` | main.py:73-90 | The commands that reach the `else` at main.py:89: an action other than `show` and `clear`, and not `add` or `remove` with a truthy task; no contract of its own, `HandleHelp` states that exactly these get the help text. |
| `Chat.Handle` | main.py:69-99 | The dispatch as a function. A successful reply echoes the list as it is after the request. An error is HTTP 400 "Too many tasks" and leaves the list unchanged. No request grows the list by more than one. The `Handle*` lemmas state each branch. |
| `Chat.HandleChat` | main.py:64-99 | The handler's reply and the list it leaves are those of `Handle` on the list before the request. The store invariant is kept. |
| `Chat.HandleKeepsValid` | main.py:73-90 | Every request keeps the list within `MAX_TASKS` and every content within `MAX_TASK_LENGTH`. |
| `Chat.ReplayKeepsValid` | main.py:25 | Starting from a valid list, such as the empty one at start-up, no series of requests breaks the store invariant. |
| `Chat.HandleAdd` | main.py:73-99 | `add` with a non-empty task on a full list gives an HTTP 400 error "Too many tasks" and leaves the list as it was. Otherwise the list grows by one at the end, the earlier tasks are unchanged, the new content is the input's prefix of length `min(len, 500)`, and the reply echoes it with the new list. |
| `Chat.FillToCapacity` | main.py:44-45 | Add requests succeed one by one until the list holds `MAX_TASKS`. The next add is refused and the list keeps `MAX_TASKS` tasks. |
| `Chat.HandleRemove` | main.py:76-78 | `remove` with a non-empty name replies "Removed" exactly when some task matched, and "Not found" otherwise. With a match, only the first matching task is deleted and the others keep their order. Without one, the list is unchanged. |
| `Chat.HandleShow` | main.py:79-84 | `show` leaves the list unchanged and echoes it. Its reply is "No tasks found" exactly when the list is empty. |
| `Chat.HandleShowLines` | main.py:80-82 | For a non-empty list whose contents hold no line break, the `show` reply splits into the header with `len(tasks)` followed by one "• content" line per task, in list order. |
| `Chat.HandleClear` | main.py:85-88 | `clear` leaves the list empty. Its reply reports the count held before and echoes the empty list. |
| `Chat.ClearedMessageInjective` | main.py:88 | Different counts give different `clear` replies. |
| `Chat.HandleHelp` | main.py:89-90 | The reply is the help text exactly for an unknown action, or for `add`/`remove` with a missing or empty task. In those cases the list is unchanged. |
| `Chat.AgentFailureGetsHelp` | main.py:69-90 | A failed interpretation (action `"unknown"` with an error) gets the help text and leaves the list unchanged. |

## Left out

- FastAPI plumbing is not modelled: the app, the CORS middleware, the routes, the `/health` endpoint (its count is `|tasks|`) and the uvicorn start-up. The 422 response FastAPI produces when `validate_message` raises is not modelled either; `ValidateMessage` returns the error value instead.
- `AIAgent.interpret_command` is a foreign call to a language model, followed by JSON parsing. Its answer is an input of the model. Only its failure value (`AgentFailure`) is written out.
- Non-string JSON values for `action` or `task` are not modelled; the model's values are absent or a string. A non-string `task` that Python finds truthy would raise inside `create_task`, and that path is not covered.
- The `uuid.uuid4()` id and the `datetime.now()` time are passed in with each request. The uniqueness of ids is not modelled.
- `config.py`'s environment loading is not modelled; `MAX_TASKS` (100) and `MAX_TASK_LENGTH` (500) are constants.
- Concurrency is not modelled: the model is sequential, so the check-then-append race between concurrent requests is absent.
- The catch-all exception handler maps any exception to HTTP 400. The model covers only the "Too many tasks" error that `create_task` raises. Other exceptions raised inside the handler are not modelled: the `AttributeError` from `ai_response.get` and the errors from non-string tasks are two examples.
- A non-object agent reply is not modelled. `json.loads` may return a string, list, number or `null`, and `ai_response.get` (main.py:69) then raises, giving HTTP 400 rather than the help text. `AiResponse` can only represent a JSON object.
- Text.Lower: lower-cases only ASCII letters, whereas Python's `str.lower()` applies full Unicode case mapping.
- Tasks.InfixMatches: holds for the ASCII `Lower` only. Python's `str.lower()` depends on context: a word-final Σ becomes ς. So for the task "ΑΣ" and the name "Σ", main.py:58 tests `'σ' in 'ας'`, which is false, and the program finds no match.
- Tasks.AddThenRemove: holds for the ASCII `Lower` only. For non-ASCII content the program can fail to find a task by a piece of its content, as in the Σ example above.
- Chat.HandleShowLines: states the line structure of the reply only when no task content holds a line break; a content with a line break is still rendered, but its reply then has more lines than tasks.
