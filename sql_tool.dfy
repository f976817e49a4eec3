/** The agent's single tool, `execute_sql`. The tool looks the database up in
    the run's context when it is called, runs the query there, and turns any
    failure into tool output text instead of raising. The database engine is
    not modelled: its `run` is a given function from a query to an outcome. */
module SqlTool {

  /** What `db.run(query)` does: return the rows as text, or raise an
      exception whose `str()` is `message`. */
  datatype RunOutcome = Ok(text: string) | Err(message: string)

  /** The database handle, reduced to the one capability the tool uses. */
  datatype Database = Database(run: string -> RunOutcome)

  /** The per-run context the tool resolves at call time. */
  datatype RuntimeContext = RuntimeContext(db: Database)

  const ErrorPrefix: string := "Error: "

  /** `execute_sql(query)`: the database's own text on success, passed on
      untouched (no row limit or truncation is applied here); on any failure
      `Error: ` followed by the failure's message. The tool never fails. */
  function ExecuteSql(ctx: RuntimeContext, query: string): (r: string)
    ensures ctx.db.run(query).Ok? ==> r == ctx.db.run(query).text
    ensures ctx.db.run(query).Err? ==> r == ErrorPrefix + ctx.db.run(query).message
  {
    match ctx.db.run(query)
    case Ok(text) => text
    case Err(message) => "Error: " + message
  }

  /** How the model reads a tool result back: text starting with `Error: `
      is a failure carrying the rest as its message, anything else is rows. */
  function ReadToolResult(r: string): RunOutcome {
    if LooksLikeError(r) then Err(r[|ErrorPrefix|..]) else Ok(r)
  }

  predicate LooksLikeError(text: string) {
    |text| >= |ErrorPrefix| && text[..|ErrorPrefix|] == ErrorPrefix
  }

  /** The tool's output can be read back into the database's outcome: every
      failure comes back with its exact message, and every success whose rows
      do not themselves start with `Error: ` comes back as the same rows. */
  lemma ToolResultRoundTrip(ctx: RuntimeContext, query: string)
    requires ctx.db.run(query).Ok? ==> !LooksLikeError(ctx.db.run(query).text)
    ensures ReadToolResult(ExecuteSql(ctx, query)) == ctx.db.run(query)
  {
    var r := ExecuteSql(ctx, query);
    if ctx.db.run(query).Err? {
      assert r[..|ErrorPrefix|] == ErrorPrefix;
      assert r[|ErrorPrefix|..] == ctx.db.run(query).message;
    }
  }

  /** Every failure is marked as one, and two failures with different
      messages give different tool output. */
  lemma ErrorsStayDistinct(ctx: RuntimeContext, q1: string, q2: string)
    requires ctx.db.run(q1).Err? && ctx.db.run(q2).Err?
    requires ctx.db.run(q1).message != ctx.db.run(q2).message
    ensures ExecuteSql(ctx, q1) != ExecuteSql(ctx, q2)
    ensures LooksLikeError(ExecuteSql(ctx, q1)) && LooksLikeError(ExecuteSql(ctx, q2))
  {
    var r1, r2 := ExecuteSql(ctx, q1), ExecuteSql(ctx, q2);
    assert r1[|ErrorPrefix|..] == ctx.db.run(q1).message;
    assert r2[|ErrorPrefix|..] == ctx.db.run(q2).message;
  }
}
