# LangChain + Cohere demo programs, modelled in Dafny

The repository holds two small command-line programs built on LangChain and
Cohere chat models.

- **The SQL agent**, in two variants. `src/l1.py` is the packaged
  application and `l1.py` is the earlier script. It:
  - inspects a SQLite music database;
  - renders a compact schema text, one line `- <table>: <col>, <col>, ...`
    per usable table;
  - embeds that text in a fixed system prompt;
  - gives the agent a single tool, `execute_sql`, which turns every
    database failure into tool output starting with `Error: `;
  - reads a question, where a blank line means the default question;
  - prints the last message of every snapshot the agent streams, and stops
    at the first snapshot it cannot print after reporting the failure
    through `handle_error`.
- **The chat program**, `src/l2.py`. It:
  - reads a system prompt and a human prompt, each with a default;
  - sends them to the model as a two-message conversation;
  - offers a menu loop for inspecting the response: raw response,
    metadata, or the message listing, until the user types `0`.

The Dafny project has one module per component:

| file | module | what it holds |
|---|---|---|
| `text.dfy` | `Text` | The Python string operations used: `str.strip()` over the exact `str.isspace()` set, `x.strip() or default`, `sep.join`, `str(n)`; also a split on one character, which the programs do not call, used only to read the schema text back line by line in the lemmas. |
| `schema.dfy` | `Schema` | `get_compact_schema`, both as the join over a generator and as the script's loop. |
| `sql_tool.dfy` | `SqlTool` | `execute_sql` and its error containment. |
| `prompts.dfy` | `Prompts` | Assembly of both system prompt variants, and `get_user_question`. |
| `error_report.dfy` | `ErrorReport` | `handle_error`: the two-`print` variant and the `'\n'.join` variant. |
| `stream.dfy` | `Stream` | The stream-consumption loop with its `break`. |
| `chat.dfy` | `Chat` | `get_prompt`, the message list, and `interactive_response_viewer`. |
| `wrappers.dfy` | `Wrappers` | `Option`. |

Outside collaborators are given as values:

- The database metadata is a catalog: the tables in the order
  `get_usable_table_names()` lists them, each with its inspector column
  records.
- `db.run` is a function from a query to `Ok(text)` or `Err(message)`.
- `pretty_print` is a rendering oracle that either yields text or fails.
- The agent's stream is a given sequence of snapshots.
- Each `input()` call is replaced by the line the user typed.
- The menu's input is a finite sequence of lines; running out of lines is
  `input()` raising `EOFError`.

## Model

| member | source | states |
|---|---|---|
| Schema.ColumnNames | src/l1.py:59 | The column names are exactly the inspector records' `name` fields, one per record, in the same order. |
| Schema.CompactSchema | src/l1.py:56-61 | The schema text is empty exactly when the database has no usable table. |
| Schema.LineShape | src/l1.py:59 | A table's line is `- `, the table name, and `: `, followed by the column names joined by `, `. A table without columns gives `- <table>: ` and nothing after it. |
| Schema.LineHasNoBreak | src/l1.py:59 | A line built from names without line breaks contains no line break. |
| Schema.OneLinePerTable | src/l1.py:58-61 | With at least one table and single-line names, splitting the schema text on newlines gives back exactly one rendered line per table, in `get_usable_table_names()` order. |
| Schema.CompactSchemaLoop | l1.py:32-43 | The script's loop over the tables, appending to `schema_lines` and then joining, produces the same text as the generator variant. |
| SqlTool.ExecuteSql | src/l1.py:27-36 | On success the tool returns the database's text unchanged. On any failure it returns `Error: ` followed by the failure's message, and so never raises. |
| SqlTool.ToolResultRoundTrip | l1.py:21-30 | The database's outcome can be read back from the tool's output. Every failure comes back with its exact message. Every success whose text does not itself start with `Error: ` comes back as the same text. |
| SqlTool.ErrorsStayDistinct | src/l1.py:33-36 | Every failure is marked with `Error: `. Failures with different messages give different tool outputs. |
| Prompts.AgentPromptEmbedsSchema | src/l1.py:41-47 | The packaged prompt contains the schema text verbatim, just after `Schema:` and a newline and just before a newline and `Rules:`. The schema can be read back out of the prompt, so different schemas give different prompts. |
| Prompts.ScriptPromptEmbedsSchema | l1.py:46-54 | The same for the script's prompt, where `Schema:` and `Rules:` are each preceded by a blank line. |
| Prompts.AgentPromptGroundsTables | src/l1.py:39-61 | The schema read back from the agent's prompt has one line per usable table, in catalog order. |
| Prompts.DefaultQuestionIsStripped | src/l1.py:12 | The default question is non-empty and has no surrounding whitespace. |
| Prompts.GetUserQuestion | src/l1.py:63-66 | A line of nothing but whitespace gives the default question. Any other line gives the line stripped. The question is never empty and is already stripped. |
| ErrorReport.ErrorLines | src/l1.py:71-75 | The report begins with `\nError <context>: <e>`. A second line `Response: <text>` follows exactly when the exception carries a response text. |
| ErrorReport.HandleErrorMessage | l1.py:70-75 | The script's conditional append, followed by `'\n'.join(error_msg)`, gives the report lines joined by newlines, starting with the heading. |
| ErrorReport.ReportText | l1.py:72-75 | The script's text is the heading alone, or the heading, a newline and `Response: <text>`. |
| ErrorReport.PrintedIsJoin | src/l1.py:73-75 | For a non-empty list of lines, printing them with one `print` each writes the same as printing them joined by newlines in one `print`. |
| ErrorReport.VariantsPrintAlike | src/l1.py:71-75 | The packaged `handle_error` writes exactly what the script's `handle_error` writes. |
| Stream.ConsumeStream | src/l1.py:86-95 | The loop with its `break` produces exactly the events of the stream specification. |
| Stream.ShowsEveryLastMessage | src/l1.py:91-92 | When every snapshot renders, the loop shows one event per snapshot, in stream order: the rendering of that snapshot's last message. |
| Stream.HaltsAtFirstFailure | l1.py:82-91 | If snapshot `k` is the first that fails to render, the loop shows the `k` earlier snapshots and reports that failure under `processing stream` as its last event. Snapshots after `k` are never looked at, so appending any of them changes nothing. |
| Stream.RenderLast | src/l1.py:92 | An empty snapshot fails with IndexError's message `list index out of range`; otherwise the outcome is the rendering of the snapshot's last message. |
| Stream.OnlyLastMessagesMatter | src/l1.py:92 | Two streams whose snapshots agree on their last messages produce the same events. |
| Chat.GetPrompt | src/l2.py:10-14 | A line that is not blank gives the line stripped. |
| Chat.BlankPromptDefault | src/l2.py:13-14 | A blank line gives the system default exactly when the prompt type is `"system"`, and the human default exactly when it is any other type. |
| Chat.DefaultsAreStripped | src/l2.py:7-8 | Neither default has surrounding whitespace. |
| Chat.PromptIsStripped | src/l2.py:10-14 | Whatever is typed, the prompt is non-empty and already stripped. |
| Chat.BuildMessages | src/l2.py:19-28 | The conversation has exactly two messages: the system prompt, then the human prompt, each non-empty and stripped. |
| Chat.MessagesToShow | src/l2.py:52 | A response with `messages` lists exactly those messages; a response without them lists itself as its only message. |
| Chat.PreviewRule | src/l2.py:54 | A message's preview is `[No content]` exactly when its content is absent, empty, or the placeholder text itself. Otherwise the preview is the content. |
| Chat.Listing | src/l2.py:53-55 | The listing has one line per message. |
| Chat.ListMessages | src/l2.py:53-55 | The `enumerate(messages, 1)` loop gives one line `<i>. <type>: <preview>` per message, numbered from 1, in order. |
| Chat.ShowChoice | src/l2.py:44-57 | The `elif` chain prints what the choice specifies: `1` the raw response, `2` the metadata, `3` the header and the listing, anything else the invalid-choice notice. |
| Chat.InteractiveResponseViewer | src/l2.py:32-57 | The early return and the `while True` loop print and read exactly what the viewer specification says. Without metadata it prints the notice and reads nothing. |
| Chat.NoMetadataReadsNothing | src/l2.py:34-36 | A response without `response_metadata` prints only the notice and consumes no input. |
| Chat.MenuKeepsPrinted | src/l2.py:38-40 | The loop prints the menu first, right after the output already written, which is kept; it prints more after it. Reading goes forward and never past the end of the input. |
| Chat.MenuEndsOnZero | src/l2.py:40-43 | The loop ends either right after a line that strips to `0`, or when the input runs out, having read every line. |
| Chat.MenuSkipsOthers | src/l2.py:44-57 | Every line read before the last did not strip to `0`. When the input runs out, no line did. |
| Chat.ExitsOnlyOnZero | src/l2.py:38-43 | With metadata, the viewer ends by choice exactly when some input line strips to `0`. It then stops at the first such line. No other line (`1`, `2`, `3` or invalid) ends it. |
| Text.StripSlice | src/l1.py:66 | `strip()` keeps the slice of the input that starts after its leading whitespace. |
| Text.StripDrops | src/l1.py:66 | What `strip()` drops before and after that slice is all whitespace. |
| Text.StripEnds | src/l1.py:66 | The stripped text neither starts nor ends with whitespace. |
| Text.StripEmpty | src/l1.py:66 | `strip()` leaves nothing exactly when the input is all whitespace. |
| Text.StripIdempotent | src/l2.py:14 | Stripping twice is the same as stripping once. |
| Text.OrDefault | l1.py:68 | `x.strip() or default` gives the default exactly for all-whitespace input, and otherwise the non-empty stripped text. |
| Text.OrDefaultStable | l1.py:68 | With a non-empty, stripped default the result is non-empty and stripped, and applying the rule again changes nothing. |
| Text.JoinAvoids | src/l1.py:58 | A character found neither in the separator nor in any part is not in the joined text. |
| Text.SplitJoin | src/l1.py:58 | Splitting a join of one or more parts on the separator character gives back the parts, provided no part contains that character. |
| Text.NatToStringValue | src/l2.py:55 | The decimal rendering of the message number denotes that number. |
| Text.NatToStringInjective | src/l2.py:55 | Different message numbers are rendered differently. |

## Left out

- The LangChain agent itself is not modelled. This covers `create_agent`, the Cohere model, tool calling, and `agent.stream`. The stream is a given sequence of snapshots, and the model's response is a given value.
- SQL semantics and the SQLite engine are not modelled: `db.run` is a given function. The read-only role and the five-row limit are prompt text only, and the code enforces neither.
- `get_usable_table_names()` and `get_columns()` are given as the catalog. If introspecting a table fails, the exception propagates. The code has no skip-this-table policy, so the model has none either.
- `create_database`, `load_dotenv`, the module-level singletons of the script, and `get_runtime` are not modelled. `get_runtime` is reduced to the context passed to the tool.
- User I/O is not modelled:
  - the prompt strings that `input()` shows;
  - `Processing: ...`;
  - `Agent response: ...`;
  - `pprint`'s formatting, which is given as text.
- `prompt_type.title()` in `get_prompt` is not modelled. It only affects the prompt that `input()` shows.
- `KeyboardInterrupt` and `exit(0)` are not modelled, and neither is the program exit when `EOFError` reaches `get_user_question` or `get_prompt`.
- Chat.InteractiveResponseViewer: `EOFError` from the menu's `input()` ends the viewer with `InputExhausted`. The report that `main` then prints under `during agent invocation` is not part of the model.
- The outer `handle_error(e, "in main execution")` handlers are not modelled. Their output is ErrorReport's with that context.
- Every snapshot is assumed to carry a `messages` list, as `stream_mode="values"` delivers it; a `KeyError` from `step["messages"]` (src/l1.py:92, l1.py:88), which the code would also report under `processing stream`, cannot arise in the model.
- A stream that fails is not modelled: the model's stream is a given sequence and cannot fail. In the code, an exception raised by `agent.stream` while producing the next snapshot is thrown outside the loop's `try` (src/l1.py:86-90, l1.py:82-86), so it ends the program and is reported under `in main execution` (src/l1.py:103-104, l1.py:92-93), not under `processing stream`.
- Chat.PreviewRule: message content is known only as its `str()` rendering. Python truthiness is reduced to non-emptiness of that text, which matches strings but not other content types such as lists.
- `handle_error` in `src/l2.py` is the same code as in `src/l1.py` and is modelled once. The script's `get_user_question` has the same default and the same rule as the packaged one, and is modelled once, as Prompts.GetUserQuestion.
