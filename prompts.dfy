/** The SQL agent's text inputs: its system prompt, which embeds the compact
    schema between fixed role and rule text, and the user's question, which
    falls back to a default when the typed line is blank. */
module Prompts {
  import opened Text
  import opened Wrappers
  import Schema

  const DefaultQuestion: string := "List top 10 artists with highest tracks"

  const RulesText: string :=
    "- Use execute_sql with explicit columns (avoid SELECT *)\n"
    + "- Limit 5 rows unless specified\n"
    + "- Fix and retry on errors"

  /** The text before and after the schema in the packaged application. */
  const AgentHead: string := "SQL analyst for music database (read-only).\nSchema:\n"
  const AgentTail: string := "\nRules:\n" + RulesText

  /** The same, in the script variant, which puts a blank line before
      `Schema:` and before `Rules:`. */
  const ScriptHead: string := "SQL analyst for music database (read-only).\n\nSchema:\n"
  const ScriptTail: string := "\n\nRules:\n" + RulesText

  /** A prompt made of a fixed head, the schema verbatim, and a fixed tail. */
  function Embed(head: string, schema: string, tail: string): (p: string)
    ensures |p| == |head| + |schema| + |tail|
    ensures p[..|head|] == head
    ensures p[|head|..|p| - |tail|] == schema
    ensures p[|p| - |tail|..] == tail
  {
    var p := head + schema + tail;
    assert p[..|head|] == head;
    assert p[|head|..|p| - |tail|] == schema;
    assert p[|p| - |tail|..] == tail;
    p
  }

  /** Recovers the schema from a prompt built with the given head and tail. */
  function ExtractSchema(prompt: string, head: string, tail: string): Option<string> {
    if |prompt| >= |head| + |tail| && prompt[..|head|] == head && prompt[|prompt| - |tail|..] == tail
    then Some(prompt[|head|..|prompt| - |tail|])
    else None
  }

  /** `system_prompt` in `create_sql_agent`. */
  function AgentSystemPrompt(schema: string): string {
    Embed(AgentHead, schema, AgentTail)
  }

  /** `SYSTEM_PROMPT` of the script variant. */
  function ScriptSystemPrompt(schema: string): string {
    Embed(ScriptHead, schema, ScriptTail)
  }

  /** The packaged agent's prompt carries the rendered schema verbatim,
      right after `Schema:` and a newline and right before a newline and
      `Rules:`; the schema can be read back out of it, so different schemas
      always give different prompts. */
  lemma AgentPromptEmbedsSchema(schema: string, other: string)
    ensures ExtractSchema(AgentSystemPrompt(schema), AgentHead, AgentTail) == Some(schema)
    ensures AgentHead[|AgentHead| - 8..] == "Schema:\n"
    ensures AgentTail[..7] == "\nRules:"
    ensures AgentSystemPrompt(schema) == AgentSystemPrompt(other) ==> schema == other
  {
    assert AgentHead[|AgentHead| - 8..] == "Schema:\n";
    assert AgentTail[..7] == "\nRules:";
  }

  /** The script's prompt carries the schema verbatim right after `Schema:`
      and a newline, and it can be read back out. */
  lemma ScriptPromptEmbedsSchema(schema: string, other: string)
    ensures ExtractSchema(ScriptSystemPrompt(schema), ScriptHead, ScriptTail) == Some(schema)
    ensures ScriptHead[|ScriptHead| - 8..] == "Schema:\n"
    ensures ScriptTail[..8] == "\n\nRules:"
    ensures ScriptSystemPrompt(schema) == ScriptSystemPrompt(other) ==> schema == other
  {
    assert ScriptHead[|ScriptHead| - 8..] == "Schema:\n";
    assert ScriptTail[..8] == "\n\nRules:";
  }

  /** Built from a database with usable tables whose names are single-line,
      the agent's prompt yields, read back, the schema text whose lines are
      exactly one rendered line per table in catalog order. */
  lemma AgentPromptGroundsTables(catalog: Schema.Catalog)
    requires catalog != [] && Schema.SingleLineNames(catalog)
    ensures var s := ExtractSchema(AgentSystemPrompt(Schema.CompactSchema(catalog)), AgentHead, AgentTail);
      s.Some? && Split('\n', s.value) == Schema.SchemaLines(catalog)
  {
    AgentPromptEmbedsSchema(Schema.CompactSchema(catalog), Schema.CompactSchema(catalog));
    Schema.OneLinePerTable(catalog);
  }

  lemma DefaultQuestionIsStripped()
    ensures DefaultQuestion != [] && Strip(DefaultQuestion) == DefaultQuestion
  {
    StripKeeps(DefaultQuestion);
  }

  /** `get_user_question` applied to the line the user typed: the line
      stripped, or the default question when nothing but whitespace was
      typed. The result is never empty and is already stripped. */
  function GetUserQuestion(typed: string): (q: string)
    ensures AllSpace(typed) ==> q == DefaultQuestion
    ensures !AllSpace(typed) ==> q == Strip(typed)
    ensures q != [] && Strip(q) == q
  {
    DefaultQuestionIsStripped();
    OrDefaultStable(typed, DefaultQuestion);
    OrDefault(typed, DefaultQuestion)
  }
}
