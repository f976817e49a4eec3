/** `handle_error`: how a caught exception is reported to the user. The
    packaged application prints the heading and the optional response line
    with one `print` each; the script collects them in `error_msg` and prints
    them joined by newlines in one call. Both write the same text. */
module ErrorReport {
  import opened Text
  import opened Wrappers

  /** A caught exception: its `str()`, and `e.response.text` when the
      exception has a `response` attribute that itself has `text`. */
  datatype Failure = Failure(text: string, responseText: Option<string>)

  function Heading(context: string, e: Failure): string {
    "\nError " + context + ": " + e.text
  }

  /** The report's lines: the heading, then a `Response: ` line exactly when
      the exception carries a response text. */
  function ErrorLines(context: string, e: Failure): (lines: seq<string>)
    ensures |lines| == (if e.responseText.Some? then 2 else 1)
    ensures lines[0] == Heading(context, e)
    ensures e.responseText.Some? ==> lines[1] == "Response: " + e.responseText.value
  {
    match e.responseText
    case Some(t) => [Heading(context, e), "Response: " + t]
    case None => [Heading(context, e)]
  }

  /** The script's `handle_error`: builds `error_msg` with a conditional
      append and returns the text it prints. */
  method HandleErrorMessage(context: string, e: Failure) returns (msg: string)
    ensures msg == Join("\n", ErrorLines(context, e))
    ensures |msg| >= |Heading(context, e)| && msg[..|Heading(context, e)|] == Heading(context, e)
  {
    var errorMsg := [Heading(context, e)];
    if e.responseText.Some? {
      errorMsg := errorMsg + ["Response: " + e.responseText.value];
    }
    msg := Join("\n", errorMsg);
  }

  /** The report text: the heading alone when there is no response text,
      otherwise the heading, a newline, and the `Response: ` line. */
  lemma ReportText(context: string, e: Failure)
    ensures e.responseText.None? ==> Join("\n", ErrorLines(context, e)) == Heading(context, e)
    ensures e.responseText.Some? ==>
      Join("\n", ErrorLines(context, e)) == Heading(context, e) + "\nResponse: " + e.responseText.value
  {
    if e.responseText.Some? {
      var lines := ErrorLines(context, e);
      assert Join("\n", lines) == lines[0] + "\n" + Join("\n", lines[1..]);
    }
  }

  /** What a series of `print` calls writes: each argument and a newline. */
  function Printed(lines: seq<string>): string
    decreases |lines|
  {
    if lines == [] then "" else lines[0] + "\n" + Printed(lines[1..])
  }

  /** Printing lines one by one writes the same as printing them joined by
      newlines in one call. */
  lemma {:induction false} PrintedIsJoin(lines: seq<string>)
    requires lines != []
    ensures Printed(lines) == Join("\n", lines) + "\n"
    decreases |lines|
  {
    if |lines| > 1 {
      PrintedIsJoin(lines[1..]);
    }
  }

  /** The two `handle_error` variants write identical output. */
  lemma VariantsPrintAlike(context: string, e: Failure)
    ensures Printed(ErrorLines(context, e)) == Join("\n", ErrorLines(context, e)) + "\n"
  {
    PrintedIsJoin(ErrorLines(context, e));
  }
}
