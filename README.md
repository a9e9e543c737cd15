# demo-agent core in Dafny

This project models the three pieces of sequential logic in `main.py` of the
demo-agent service. The service is a Flask app that hands a user's prompt to a
Gemini chat session with one tool, `parse_pdf_from_url`, and then cuts the
model's answer into a subject, a content block and a link.

- **`run_pdf_agent`** (module `AgentLoop`, `agent.dfy`) is the bounded agent
  loop. The chat session is the class `Chat`. It holds the responses the model
  still has to give, as a script, and the log of the messages sent to it.
  `RunPdfAgent` is the method with the `while` loop over `iteration`. It calls
  `ScanParts`, the `for` loop over a response's parts that sets
  `has_function_call`, and `RunToolCall` for the tool dispatch. The method is
  proved equal to the function `Run`, which describes the loop's whole run: its
  outcome, the messages sent, the tools executed and the iterations started.
  The lemmas about `Run` state the behaviour of the loop: a plain-text answer,
  a known tool call, an unknown tool call, the bounds, and when the sentinel is
  returned.
- **`parse_response`** (module `ResponseParser`, `parser.dfy`) runs three
  regular-expression searches. Each search is modelled the way Python's `re`
  engine runs it:
  - the leftmost start position wins;
  - `\s*` is greedy and backtracks;
  - `.+?` is lazy and `(.+)` is greedy;
  - `re.DOTALL` lets `.` match newlines.

  Each search is then proved equal to a plain description over the positions
  of the markers (`SubjectRef`, `ContentRef`, the link-token predicate).
- **`require_api_key`** (module `Auth`, `auth.dfy`) decides, from the
  `Authorization` header and the configured key, whether to answer 401, answer
  403 or call the wrapped handler.

`strings.dfy` (module `Strings`) holds what the parser and the key check share:
- Python's whitespace class;
- index searches;
- maximal runs of whitespace and of non-whitespace;
- `str.strip()`.

`wrappers.dfy` holds `Option`.

The model's environment:
- The model's responses are the `script` parameter.
- `response.text` is the parameter `textOf`.
- The registered tools are a map from names to functions `Args -> Option<ToolResult>`. `None` stands for a tool call that raises.
- The wall-clock timestamp of `parse_response` is the string parameter `now`.

Behaviour a reader might not expect, which the model keeps as the code has it:
- **Unstripped fallback content.** Without a `Content:` marker that has a
  character after it, the content is the whole text, returned unchanged and not
  stripped (`ContentFallback`).
- **Up to `max_iterations + 1` sends.** The loop can send `max_iterations + 1`
  messages, not at most `max_iterations`: the iteration that runs a registered
  tool sends twice (`RunBounds`).
- **A known tool call is answered.** A model that keeps asking for the
  registered tool gets an answer after the first call. It does not reach the
  sentinel. Only calls to unregistered tools lead to `"Max iterations reached"`
  (`RunExhaustedIff`, `RepeatedUnknownCallExhausts`).
- **The subject needs a non-space character.** A non-empty subject needs a
  non-space character between `Subject:` and a later `\n\nContent:`, and the
  break that ends it is the first one that starts after that character. The
  greedy `\s*` can swallow an earlier break. For example,
  `"Subject: \n\nContent: a\n\nContent: b"` has the subject `"Content: a"`
  (`SubjectMatchesRef`, `SubjectNonEmptyIff`).
- **A configured key that starts with `Bearer `.** Such a key is accepted only
  after a second `Bearer `. The bare key is refused, because the check cuts
  the prefix off before it compares (`CheckApiKey`, `BareKeyAccepted`).
- **Any registry.** The loop and all its lemmas take the tool registry as a
  parameter, so they hold for every registry. `tool_functions` itself is
  `ToolFunctions`. Under it, a part calls a registered tool exactly when it is
  a call of `parse_pdf_from_url` (`KnownCallIsPdfTool`).

## Model

| member | source | states |
|---|---|---|
| Strings.FindFrom | main.py:184-192 | The leftmost occurrence of a literal at or after a position. No occurrence lies between the position and the result, and `None` means there is none at all. |
| Strings.FindFromIs | main.py:184-192 | A search finds `j` whenever the literal occurs at `j` and nowhere between the start of the search and `j`. |
| Strings.FindFromFirst | main.py:184-192 | A search from the start finds `i` if and only if `i` is the first occurrence. |
| Strings.FirstOccurrenceUnique | main.py:184-192 | The position a search from the start finds is the only first occurrence. |
| Strings.SpaceRun | main.py:184-185 | What the greedy `\s*` takes: a maximal run of whitespace, stopping at the end or at a non-space character. |
| Strings.WordRun | main.py:192 | What the greedy `[^\s]+` takes: a maximal run of non-whitespace, stopping at the end or at whitespace. |
| Strings.TrimStartSpec | main.py:190-191 | Removing leading whitespace drops a prefix made only of whitespace and keeps a suffix that starts with a non-space character. |
| Strings.TrimEndSpec | main.py:190-191 | Removing trailing whitespace drops a suffix made only of whitespace and keeps a prefix that ends with a non-space character. |
| Strings.TrimStart | main.py:190-191 | Definition of `str.lstrip()`: drops the leading whitespace. Its properties are stated by `TrimStartSpec` and `TrimStartSkipsSpace`. |
| Strings.TrimEnd | main.py:190-191 | Definition of `str.rstrip()`: drops the trailing whitespace. Its properties are stated by `TrimEndSpec`. |
| Strings.Strip | main.py:190-191 | Definition of `str.strip()` as `rstrip` after `lstrip`. Its properties are stated by `StripSpec`, `StripIsTrimmed`, `StripNonEmpty` and `StripSkipsSpace`. |
| Strings.StripSpec | main.py:190-191 | `str.strip()` is no longer than its argument, and its result begins and ends with a non-space character. It is empty exactly when the argument is all whitespace. |
| Strings.StripIsTrimmed | main.py:190-191 | `str.strip()` returns a slice of its argument with only whitespace on either side. |
| Strings.StripNonEmpty | main.py:190 | A slice that holds a non-space character does not strip to `""`. |
| Strings.TrimStartSkipsSpace | main.py:190-191 | Leading whitespace already skipped does not change what `lstrip` keeps. |
| Strings.StripSkipsSpace | main.py:184-191 | Whitespace consumed by `\s*` in front of a group does not change the group's `strip()`. |
| ResponseParser.SubjectGroup | main.py:184 | The lazy group `(.+?)(?=\n\nContent:)`, tried after each length of `\s*` from the longest down. It is at least one character long and ends at a break with no break inside it. `None` means no break follows. |
| ResponseParser.SubjectAt | main.py:184 | The subject pattern at one start: a group exists only at a `Subject:` marker, is followed by `\n\nContent:`, and fails only when no break follows the marker. |
| ResponseParser.SubjectSearch | main.py:187 | `re.search` for the subject: the leftmost start where the pattern matches, and `None` when it matches at no start. |
| ResponseParser.SubjectSpan | main.py:187-190 | Group 1 of the subject match is a non-empty span of the text. |
| ResponseParser.SubjectSpanAfter | main.py:184 | The reference span after a marker: from the first non-space character to the first break that starts after it. |
| ResponseParser.SubjectSpanRef | main.py:184-187 | The reference span lies inside the text and is non-empty. |
| ResponseParser.Subject | main.py:184-190 | Definition of the subject as the regex computes it: group 1 of the leftmost match, stripped, or `""`. `SubjectMatchesRef` proves it equal to `SubjectRef`. |
| ResponseParser.SubjectRef | main.py:184-190 | Definition of the subject without the regex engine: the stripped reference span, or `""`. Its properties are stated by `SubjectBetweenMarkers`, `SubjectNonEmptyIff` and `NoSubjectMarker`. |
| ResponseParser.SubjectMatchesRef | main.py:184-190 | The regex search gives the same subject as the reference description. |
| ResponseParser.SubjectBreakSpan | main.py:184-187 | When a break follows the first non-space character after the first `Subject:`, the regex and the reference give the same span. |
| ResponseParser.SubjectAtBlank | main.py:184-190 | When every break after the first `Subject:` has only whitespace before it, both descriptions give the empty subject. |
| ResponseParser.SubjectGroupBlank | main.py:184 | Any group that backtracking finds without such a break lies inside the whitespace after the marker. |
| ResponseParser.SubjectOfBlank | main.py:190 | A span made only of whitespace gives the subject `""`. |
| ResponseParser.SubjectSearchFails | main.py:187 | A first `Subject:` with no break after it leaves no match at any start. |
| ResponseParser.ContentGroup | main.py:185 | The greedy `(.+)` after each length of `\s*`: it exists exactly when a character follows the marker, and it starts where `\s*` stopped. |
| ResponseParser.ContentAt | main.py:185 | The content pattern matches at a start exactly when `Content:` occurs there with a character after it. Only whitespace lies between the marker and the group. |
| ResponseParser.ContentSearch | main.py:188 | `re.search` for the content: the leftmost start where the pattern matches, and `None` when it matches nowhere. |
| ResponseParser.ContentStart | main.py:188-191 | Group 1 of the content match starts inside the text. |
| ResponseParser.ContentStartRef | main.py:185-188 | The reference start is right after the first `Content:`, when a character follows it. |
| ResponseParser.Content | main.py:185-191 | Definition of the content as the regex computes it: group 1 stripped, or the whole text. `ContentMatchesRef` proves it equal to `ContentRef`. |
| ResponseParser.ContentRef | main.py:185-191 | Definition of the content without the regex engine. Its properties are stated by `ContentAfterMarker` and `ContentFallback`. |
| ResponseParser.ContentMatchesRef | main.py:185-191 | The regex search gives the same content as the reference description. |
| ResponseParser.ContentOfShift | main.py:185-191 | Whitespace that `\s*` took in front of the group does not change the stripped content. |
| ResponseParser.ContentAtEnd | main.py:188-191 | A first `Content:` that ends the text leaves no content match, so the fallback applies. |
| ResponseParser.UrlAt | main.py:192 | The link pattern matches at `i` exactly when `https://` is followed by a non-space character there. The match is maximal: it holds no whitespace and ends at whitespace or the end. |
| ResponseParser.UrlSearch | main.py:192 | `re.search` for the link: the leftmost start where it matches, and `None` when there is none. |
| ResponseParser.UrlAtIsToken | main.py:192 | What matches at a link start is a link token: it begins with `https://`, holds no whitespace and is followed by whitespace or the end. |
| ResponseParser.Url | main.py:192 | Definition of the url: group 1 of the leftmost link match, or `""`. Its properties are stated by `UrlFound` and `UrlIsLeftmostToken`. |
| ResponseParser.UrlFound | main.py:192 | The url is `""` exactly when no link starts anywhere. Otherwise it is the link token at the leftmost link start. |
| ResponseParser.UrlFoundAt | main.py:192 | When the search succeeds at `i`, `i` is the leftmost link start and the url is the non-empty token there. |
| ResponseParser.UrlNotFound | main.py:192 | When the search fails, no link starts anywhere and the url is `""`. |
| ResponseParser.ParseResponse | main.py:180-199 | The returned record. `time` is `Updated on: ` followed by the clock string. The subject and content are the reference descriptions. The url is `""` exactly when there is no link start, and otherwise the leftmost maximal link token. |
| ResponseParser.NoSubjectMarker | main.py:190 | Without `Subject:` the subject is `""`. |
| ResponseParser.SubjectBetweenMarkers | main.py:184-190 | Take the first `Subject:` and a break after a non-space character that follows it, with no break in between. The subject is then the stripped text between the marker and that break. |
| ResponseParser.SubjectBreakFound | main.py:184-187 | Under those conditions both searches of the reference find that marker and that break. |
| ResponseParser.SubjectRefBetween | main.py:184-190 | When the reference span starts after whitespace following a point, the subject is the stripped text from that point to the break. |
| ResponseParser.SubjectOfShift | main.py:184-190 | Whitespace in front of a span does not change its subject. |
| ResponseParser.SubjectOfNonEmpty | main.py:190 | A span that holds a non-space character gives a non-empty subject. |
| ResponseParser.SubjectSpanRefAt | main.py:184-187 | Given both search results, the reference span runs from the first non-space character after the marker to the break. |
| ResponseParser.SubjectNonEmptyIff | main.py:184-190 | The subject is non-empty exactly when some non-space character after the first `Subject:` is followed by a `\n\nContent:`. |
| ResponseParser.WitnessedAfter | main.py:184-187 | That condition only concerns the first marker. |
| ResponseParser.SubjectAfterMarker | main.py:184-190 | With the first marker at `i`, the subject is non-empty exactly when a break follows a non-space character after `i`. |
| ResponseParser.SubjectBreakWitness | main.py:184-190 | A break after the first non-space character gives a non-empty subject and witnesses the condition. |
| ResponseParser.SubjectNoBreak | main.py:184-190 | Without such a break the subject is `""` and every break has only whitespace between the marker and itself. |
| ResponseParser.ContentAfterMarker | main.py:185-191 | When a character follows the first `Content:`, the content is the stripped remainder after that marker. |
| ResponseParser.ContentFallback | main.py:191 | Without a `Content:` that has a character after it, the content is the whole text, unchanged and not stripped. |
| ResponseParser.UrlIsLeftmostToken | main.py:192 | At the leftmost link start, the url runs from `https://` to the next whitespace or to the end. |
| Auth.ProvidedKey | main.py:39-42 | The provided key is what follows `Bearer `, or the whole header when the header lacks that prefix. |
| Auth.CheckApiKey | main.py:31-50 | `Missing` exactly for an absent or empty header. `Accept` exactly for `Bearer ` + key, or for the bare key when the key does not start with `Bearer `. `Invalid` otherwise. |
| Auth.RequireApiKey | main.py:28-52 | The handler's result exactly when the key is accepted. Otherwise the fixed 401 body for a missing header and the fixed 403 body for a wrong key. |
| Auth.NoHeaderIs401 | main.py:33-37 | A missing or empty header is answered 401, whatever the key. |
| Auth.BearerKeyAccepted | main.py:39-50 | `Bearer ` + key reaches the handler. |
| Auth.BareKeyAccepted | main.py:39-50 | The bare key reaches the handler unless it is empty or starts with `Bearer `. |
| Auth.OtherHeaderIs403 | main.py:39-48 | Any other non-empty header is answered 403, and the answer does not depend on the handler. |
| AgentLoop.Visible | main.py:166-178 | What the caller sees: the answer text, the sentinel `Max iterations reached` on exhaustion, and a raise exactly on failure. |
| AgentLoop.ToolFunctions | main.py:85 | The registry has exactly one key, `parse_pdf_from_url`, bound to the PDF tool. |
| AgentLoop.KnownCallIsPdfTool | main.py:85 | Under `tool_functions`, a part calls a registered tool exactly when it is a call of `parse_pdf_from_url`. |
| AgentLoop.SystemInstruction | main.py:118-122 | A non-empty system prompt is used as given. Otherwise `You are a helpful assistant.` is used. |
| AgentLoop.FirstKnownCall | main.py:135-147 | The first part at or after a position that calls a registered tool. No earlier part does, and `None` means no part does. |
| AgentLoop.FirstKnownCallIs | main.py:135-147 | The first registered call is at `i` when the part at `i` is one and no part before it is. |
| AgentLoop.ScanParts | main.py:134-147 | The scan of a response's parts stops at the first registered call. When there is none, its flag is set exactly when some part is a function call. |
| AgentLoop.Prompts | main.py:127-131 | `n` sends of the user's prompt. |
| AgentLoop.PromptsSnoc | main.py:127-131 | One more iteration adds one more send of the prompt to the log. |
| AgentLoop.Chat.constructor | main.py:118-124 | A new session has the system instruction, the whole script still to give and an empty log. |
| AgentLoop.Chat.SendMessage | main.py:131 | `send_message` appends the message to the log and hands out the next response. It fails when the model has none left. |
| AgentLoop.RunToolCall | main.py:147-166 | Runs the registered tool once and sends its result back under the same name. The reply is the text of the model's re-response. A raising tool or a missing re-response fails. The log gains the function response, and the session is left with the script after the re-response; nothing is consumed when the tool raises. |
| AgentLoop.RunPdfAgent | main.py:112-178 | The loop returns what `Run` predicts. The messages it sends and the tools it runs are those of `Run`. |
| AgentLoop.Run | main.py:125-172 | Definition of the loop's whole run as a function of the script: outcome, messages sent, tools executed, iterations. `RunPdfAgent` is proved equal to it. Its properties are stated by `RunPlainText`, `RunKnownCall`, `RunUnknownCalls`, `RunSkipsUnknown`, `RunNoIterations`, `RunBounds` and `RunExhaustedIff`. |
| AgentLoop.CallStep | main.py:147-166 | Definition of the iteration that runs a registered call: the tool's result goes back under the same name, and the re-response's text is the answer. `RunToolCall` is proved against it, and `RunKnownCall` and `RunBounds` state its place in the run. |
| AgentLoop.RunPlainText | main.py:131-170 | A first response without a function call is the answer, after exactly one send of the user's prompt. |
| AgentLoop.RunKnownCall | main.py:135-166 | The first part that calls a registered tool is executed, once. Later parts are not looked at. |
| AgentLoop.RunUnknownCalls | main.py:136-170 | A response whose calls all name unregistered tools executes nothing and ends nothing. The loop goes on with one more send. |
| AgentLoop.RunSkipsUnknown | main.py:127-170 | `n` such responses cost `n` iterations and `n` sends of the prompt, and the loop carries on with the rest of the script. |
| AgentLoop.AfterAfter | main.py:127-131 | Iterations that only send the prompt compose. |
| AgentLoop.RunNoIterations | main.py:125-172 | With `max_iterations <= 0` nothing is sent and the sentinel is returned. |
| AgentLoop.RunBounds | main.py:125-172 | For every run: at most `max_iterations` iterations, each starting with a send of the prompt, and at most `max_iterations + 1` sends. At most one tool runs, a registered one, and its result is the only extra message. An answer is the text of the reply to the last message. Exhaustion sends only prompts. A failure is a send with no response left or a raising tool. |
| AgentLoop.RunExhaustedIff | main.py:127-172 | The sentinel is returned exactly when each of the first `max_iterations` responses exists and holds only calls to unregistered tools. |
| AgentLoop.RepeatedUnknownCallExhausts | main.py:136-172 | A model that keeps asking for the same unregistered tool gets the sentinel after `max_iterations` sends of the prompt. |

## Left out

- `parse_pdf_from_url` (main.py:55-81) is network and PDF I/O. It is an abstract tool that returns a record or raises. Its contents and its `"error1"` tag are not modelled, and neither is the unused `write_images`.
- The Gemini SDK (`GenerativeModel`, `start_chat`, `protos.*` and the tool schema, main.py:88-124 and 152-163) is a foreign library. It is replaced by the scripted `Chat`, which takes the system instruction but does not use it.
- `response.text` is the parameter `textOf`. The SDK raises when a response has no text; that case is not modelled.
- A send that finds the script empty stands for any failure to talk to the model. It ends the loop with a raise, as the `except` branch re-raises (main.py:174-178).
- The tool's keyword arguments are an abstract map. A call whose arguments do not fit the tool is the tool returning `None`, which raises.
- Part truthiness: a `function_call` attribute counts as present exactly for the call parts of the model. An empty call the SDK might report is not modelled.
- The timestamp call `time.strftime(..., time.localtime())` (main.py:195) reads the wall clock. Its formatted value is the parameter `now`.
- Whitespace is the exact set of code points for which Python's `str.isspace` holds. That set is used for both `strip()` and `\s`. Unicode normalisation does not arise.
- The Flask routes, `jsonify`, the endpoint bodies and the 400/500 answers (main.py:202-305) are HTTP plumbing.
- The environment configuration (main.py:16-25) is not modelled. The configured key is a parameter of `Auth.CheckApiKey`.
- The prints and the traceback (main.py:129, 143-149, 174-177) are console output.
- `max_iterations` has the default 10 in Python (main.py:112). `RunPdfAgent` always takes it as an argument, so a caller that omits it passes 10.
- `response.candidates[0]` raises `IndexError` when a response has no candidate (main.py:135). A `Response` is the parts of its first candidate, and a response without one is not modelled.
