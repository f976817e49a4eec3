/** The standalone chat program: two prompts with defaults, the two-message
    conversation sent to the model, and the menu for inspecting the model's
    response. The model call is not modelled; the response is a given value
    and the menu's input lines are a given finite sequence. */
module Chat {
  import opened Text
  import opened Wrappers

  const DefaultSystemPrompt: string := "You are a helpful geography assistant"
  const DefaultHumanPrompt: string := "What is the capital of Laos?"

  /** The default offered for a prompt of the given type. */
  function DefaultFor(promptType: string): string {
    if promptType == "system" then DefaultSystemPrompt else DefaultHumanPrompt
  }

  /** `get_prompt(prompt_type)` applied to the line the user typed. */
  function GetPrompt(promptType: string, typed: string): (p: string)
    ensures !AllSpace(typed) ==> p == Strip(typed)
  {
    OrDefault(typed, DefaultFor(promptType))
  }

  /** A blank line gets the system default exactly when the prompt type is
      `"system"`, and the human default exactly when it is anything else. */
  lemma BlankPromptDefault(promptType: string, typed: string)
    requires AllSpace(typed)
    ensures GetPrompt(promptType, typed) == DefaultSystemPrompt <==> promptType == "system"
    ensures GetPrompt(promptType, typed) == DefaultHumanPrompt <==> promptType != "system"
  {
    assert DefaultSystemPrompt[0] != DefaultHumanPrompt[0];
  }

  lemma DefaultsAreStripped()
    ensures Strip(DefaultSystemPrompt) == DefaultSystemPrompt
    ensures Strip(DefaultHumanPrompt) == DefaultHumanPrompt
  {
    StripKeeps(DefaultSystemPrompt);
    StripKeeps(DefaultHumanPrompt);
  }

  datatype ChatMessage = SystemMessage(content: string) | HumanMessage(content: string)

  /** Whatever is typed, a prompt is non-empty and already stripped. */
  lemma PromptIsStripped(promptType: string, typed: string)
    ensures GetPrompt(promptType, typed) != []
    ensures Strip(GetPrompt(promptType, typed)) == GetPrompt(promptType, typed)
  {
    DefaultsAreStripped();
    OrDefaultStable(typed, DefaultFor(promptType));
  }

  /** The conversation `create_agent` sends: the system prompt, then the
      human prompt, each non-empty and stripped. */
  function BuildMessages(systemTyped: string, humanTyped: string): (msgs: seq<ChatMessage>)
    ensures |msgs| == 2
    ensures msgs[0] == SystemMessage(GetPrompt("system", systemTyped))
    ensures msgs[1] == HumanMessage(GetPrompt("human", humanTyped))
    ensures msgs[0].content != [] && Strip(msgs[0].content) == msgs[0].content
    ensures msgs[1].content != [] && Strip(msgs[1].content) == msgs[1].content
  {
    PromptIsStripped("system", systemTyped);
    PromptIsStripped("human", humanTyped);
    [SystemMessage(GetPrompt("system", systemTyped)), HumanMessage(GetPrompt("human", humanTyped))]
  }

  /** A message as the menu lists it: its class name and its `content`
      attribute, absent or rendered with `str()`. */
  datatype Entry = Entry(typeName: string, content: Option<string>)

  /** The model's response, as far as the menu looks at it: the response as
      a message, the text `pprint(vars(response))` writes, the text
      `pprint(response.response_metadata)` writes when that attribute
      exists, and the `messages` attribute when it exists. */
  datatype Response = Response(
    self: Entry,
    raw: string,
    metadata: Option<string>,
    messages: Option<seq<Entry>>)

  const NoMetadataText: string := "No detailed metadata available for this response."
  const MenuText: string :=
    "\nResponse Details Menu:\n1. Show raw response\n2. Show response metadata\n3. Show available messages\n0. Exit"
  const InvalidText: string := "\nInvalid choice. Please try again."
  const NoContentText: string := "[No content]"

  function MessagesHeader(): string {
    "\nAvailable Message Types:\n" + seq(50, _ => '-')
  }

  /** `response.messages` if the response has it, otherwise `[response]`. */
  function MessagesToShow(r: Response): (entries: seq<Entry>)
    ensures r.messages.Some? ==> entries == r.messages.value
    ensures r.messages.None? ==> entries == [r.self]
  {
    if r.messages.Some? then r.messages.value else [r.self]
  }

  /** The preview of a message's content. */
  function Preview(content: Option<string>): string {
    if content.Some? && content.value != "" then content.value else NoContentText
  }

  /** The preview is the placeholder exactly when the content is absent,
      empty, or itself the placeholder text; otherwise it is the content. */
  lemma PreviewRule(content: Option<string>)
    ensures Preview(content) == NoContentText
      <==> content.None? || content.value == "" || content.value == NoContentText
    ensures content.Some? && content.value != "" ==> Preview(content) == content.value
  {
  }

  /** One listed message: `<i>. <type>: <preview>`. */
  function EntryLine(i: nat, e: Entry): string {
    NatToString(i) + ". " + e.typeName + ": " + Preview(e.content)
  }

  /** The listing of option 3, numbered from 1. */
  function Listing(entries: seq<Entry>): (lines: seq<string>)
    ensures |lines| == |entries|
  {
    seq(|entries|, k requires 0 <= k < |entries| => EntryLine(k + 1, entries[k]))
  }

  /** The `enumerate(messages, 1)` loop of option 3. */
  method ListMessages(entries: seq<Entry>) returns (lines: seq<string>)
    ensures |lines| == |entries|
    ensures forall k :: 0 <= k < |entries| ==> lines[k] == EntryLine(k + 1, entries[k])
  {
    lines := [];
    var i := 1;
    for k := 0 to |entries|
      invariant i == k + 1
      invariant |lines| == k
      invariant forall j :: 0 <= j < k ==> lines[j] == EntryLine(j + 1, entries[j])
    {
      var msg := entries[k];
      var contentPreview := if msg.content.Some? && msg.content.value != "" then msg.content.value else "[No content]";
      lines := lines + [NatToString(i) + ". " + msg.typeName + ": " + contentPreview];
      i := i + 1;
    }
  }

  /** What one menu choice other than `'0'` prints. */
  function ChoiceOutput(r: Response, choice: string): seq<string>
    requires r.metadata.Some?
  {
    if choice == "1" then ["\nRaw Response:", r.raw]
    else if choice == "2" then ["\nResponse Metadata:", r.metadata.value]
    else if choice == "3" then [MessagesHeader()] + Listing(MessagesToShow(r))
    else [InvalidText]
  }

  /** How the viewer ends: no metadata to show, the user chose `0`, or the
      input ran out (where `input()` raises EOFError). */
  datatype ViewerEnd = NoMetadata | ChoseExit | InputExhausted

  datatype ViewerRun = ViewerRun(output: seq<string>, consumed: nat, end: ViewerEnd)

  predicate IsExit(line: string) {
    Strip(line) == "0"
  }

  /** The menu loop from input position `at`, with `printed` already
      written: print the menu, read a line (running out of input ends the
      loop), stop on `0`, otherwise print what the choice shows and go on. */
  function Menu(r: Response, inputs: seq<string>, at: nat, printed: seq<string>): ViewerRun
    requires r.metadata.Some? && at <= |inputs|
    decreases |inputs| - at
  {
    var printed := printed + [MenuText];
    if at == |inputs| then ViewerRun(printed, at, InputExhausted)
    else if IsExit(inputs[at]) then ViewerRun(printed, at + 1, ChoseExit)
    else Menu(r, inputs, at + 1, printed + ChoiceOutput(r, Strip(inputs[at])))
  }

  /** `interactive_response_viewer(response)` fed the given input lines. */
  function Viewer(r: Response, inputs: seq<string>): ViewerRun {
    if r.metadata.None? then ViewerRun([NoMetadataText], 0, NoMetadata)
    else Menu(r, inputs, 0, [])
  }

  /** The viewer with its early return and its `while True` loop. */
  method InteractiveResponseViewer(r: Response, inputs: seq<string>)
    returns (output: seq<string>, consumed: nat, end: ViewerEnd)
    ensures ViewerRun(output, consumed, end) == Viewer(r, inputs)
    ensures r.metadata.None? ==> consumed == 0 && output == [NoMetadataText]
  {
    if r.metadata.None? {
      output, consumed, end := [NoMetadataText], 0, NoMetadata;
      return;
    }
    output, consumed := [], 0;
    while true
      invariant consumed <= |inputs|
      invariant Menu(r, inputs, consumed, output) == Menu(r, inputs, 0, [])
      decreases |inputs| - consumed
    {
      output := output + [MenuText];
      if consumed == |inputs| {
        end := InputExhausted;
        return;
      }
      var choice := Strip(inputs[consumed]);
      consumed := consumed + 1;
      if choice == "0" {
        end := ChoseExit;
        break;
      }
      var shown := ShowChoice(r, choice);
      output := output + shown;
    }
  }

  /** The `elif` chain for the choices other than `'0'`: the imperative form
      of `ChoiceOutput`, whose option 3 runs the `ListMessages` loop. */
  method ShowChoice(r: Response, choice: string) returns (shown: seq<string>)
    requires r.metadata.Some?
    ensures shown == ChoiceOutput(r, choice)
  {
    if choice == "1" {
      shown := ["\nRaw Response:", r.raw];
    } else if choice == "2" {
      shown := ["\nResponse Metadata:", r.metadata.value];
    } else if choice == "3" {
      var lines := ListMessages(MessagesToShow(r));
      assert lines == Listing(MessagesToShow(r));
      shown := [MessagesHeader()] + lines;
    } else {
      shown := [InvalidText];
    }
  }

  /** Without `response_metadata` the viewer prints its notice and reads no
      input at all. */
  lemma NoMetadataReadsNothing(r: Response, inputs: seq<string>)
    requires r.metadata.None?
    ensures Viewer(r, inputs).consumed == 0 && Viewer(r, inputs).output == [NoMetadataText]
  {
  }

  /** The menu loop keeps what was printed before it, always prints at
      least the menu, and reads forward from `at` without passing the end. */
  lemma {:induction false} MenuKeepsPrinted(r: Response, inputs: seq<string>, at: nat, printed: seq<string>)
    requires r.metadata.Some? && at <= |inputs|
    ensures var run := Menu(r, inputs, at, printed);
      && at <= run.consumed <= |inputs|
      && |run.output| > |printed| && run.output[..|printed|] == printed
      && run.output[|printed|] == MenuText
    decreases |inputs| - at
  {
    var next := printed + [MenuText];
    assert next[..|printed|] == printed;
    if at < |inputs| && !IsExit(inputs[at]) {
      var more := next + ChoiceOutput(r, Strip(inputs[at]));
      MenuKeepsPrinted(r, inputs, at + 1, more);
      assert more[..|printed|] == printed;
    }
  }

  /** The menu loop from position `at` ends either on a line that strips to
      `0` or after reading every line from `at` on. */
  lemma {:induction false} MenuEndsOnZero(r: Response, inputs: seq<string>, at: nat, printed: seq<string>)
    requires r.metadata.Some? && at <= |inputs|
    ensures var run := Menu(r, inputs, at, printed);
      && at <= run.consumed <= |inputs|
      && (run.end == ChoseExit || run.end == InputExhausted)
      && (run.end == ChoseExit ==> run.consumed > at && IsExit(inputs[run.consumed - 1]))
      && (run.end == InputExhausted ==> run.consumed == |inputs|)
    decreases |inputs| - at
  {
    if at < |inputs| && !IsExit(inputs[at]) {
      var more := printed + [MenuText] + ChoiceOutput(r, Strip(inputs[at]));
      MenuEndsOnZero(r, inputs, at + 1, more);
    }
  }

  /** Every line the menu loop reads from `at` on, except the last one it
      reads, continued the loop; so when the input runs out, none of the
      lines from `at` on strips to `0`. */
  lemma {:induction false} MenuSkipsOthers(r: Response, inputs: seq<string>, at: nat, printed: seq<string>)
    requires r.metadata.Some? && at <= |inputs|
    ensures var run := Menu(r, inputs, at, printed);
      && at <= run.consumed <= |inputs|
      && (forall j :: at <= j < run.consumed - 1 ==> !IsExit(inputs[j]))
      && (run.end == InputExhausted ==> forall j :: at <= j < |inputs| ==> !IsExit(inputs[j]))
    decreases |inputs| - at
  {
    MenuEndsOnZero(r, inputs, at, printed);
    if at < |inputs| && !IsExit(inputs[at]) {
      var more := printed + [MenuText] + ChoiceOutput(r, Strip(inputs[at]));
      MenuSkipsOthers(r, inputs, at + 1, more);
    }
  }

  /** With metadata, the viewer reads lines up to and including the first
      one that strips to `0` and then stops; no other line, whether `1`, `2`,
      `3` or invalid, ends it. Without such a line it reads every line and
      ends when the input runs out. */
  lemma ExitsOnlyOnZero(r: Response, inputs: seq<string>)
    requires r.metadata.Some?
    ensures var run := Viewer(r, inputs);
      && run.consumed <= |inputs|
      && (run.end == ChoseExit <==> exists j :: 0 <= j < |inputs| && IsExit(inputs[j]))
      && (run.end == ChoseExit ==> run.consumed >= 1 && IsExit(inputs[run.consumed - 1]))
      && (run.end == ChoseExit ==> forall j :: 0 <= j < run.consumed - 1 ==> !IsExit(inputs[j]))
      && (run.end == InputExhausted ==> run.consumed == |inputs|)
  {
    MenuEndsOnZero(r, inputs, 0, []);
    MenuSkipsOthers(r, inputs, 0, []);
    var run := Viewer(r, inputs);
    if run.end == ChoseExit {
      assert IsExit(inputs[run.consumed - 1]);
    }
  }
}
