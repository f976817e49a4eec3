/** The loop that consumes the agent's stream. The agent yields one snapshot
    of the conversation per completed step; the loop prints the last message
    of each snapshot and, the first time printing fails, reports the failure
    and stops. The agent's own model and tool turns are not modelled: the
    stream is a given sequence of snapshots, and `pretty_print` is a given
    rendering oracle. */
module Stream {
  import opened Wrappers
  import opened ErrorReport

  /** A conversation message as the stream delivers it. */
  datatype Message = Message(kind: string, content: string)

  /** `step["messages"]`: the conversation so far. */
  datatype Snapshot = Snapshot(messages: seq<Message>)

  /** The outcome of `pretty_print()` on one message. */
  datatype Rendering = Rendered(text: string) | RenderFailed(error: Failure)

  /** What the loop does with one snapshot: show text, or report a failure. */
  datatype Event = Shown(text: string) | Reported(context: string, error: Failure)

  const StreamContext: string := "processing stream"

  /** `str()` of the IndexError that `[-1]` raises on an empty list. */
  const EmptySnapshotError: Failure := Failure("list index out of range", None)

  function LastMessage(s: Snapshot): Option<Message> {
    if s.messages == [] then None else Some(s.messages[|s.messages| - 1])
  }

  /** `step["messages"][-1].pretty_print()`, failures included. */
  function RenderLast(s: Snapshot, render: Message -> Rendering): (r: Rendering)
    ensures s.messages == [] ==> r == RenderFailed(EmptySnapshotError)
    ensures s.messages != [] ==> r == render(s.messages[|s.messages| - 1])
  {
    match LastMessage(s)
    case None => RenderFailed(EmptySnapshotError)
    case Some(m) => render(m)
  }

  /** The events of the loop over `steps`. */
  function StreamEvents(steps: seq<Snapshot>, render: Message -> Rendering): seq<Event>
    decreases |steps|
  {
    if steps == [] then []
    else match RenderLast(steps[0], render)
      case Rendered(t) => [Shown(t)] + StreamEvents(steps[1..], render)
      case RenderFailed(e) => [Reported(StreamContext, e)]
  }

  predicate RendersAll(steps: seq<Snapshot>, render: Message -> Rendering) {
    forall j :: 0 <= j < |steps| ==> RenderLast(steps[j], render).Rendered?
  }

  /** The consuming `for` loop with its `break`. */
  method ConsumeStream(steps: seq<Snapshot>, render: Message -> Rendering) returns (events: seq<Event>)
    ensures events == StreamEvents(steps, render)
  {
    events := [];
    for i := 0 to |steps|
      invariant events + StreamEvents(steps[i..], render) == StreamEvents(steps, render)
    {
      assert steps[i..][1..] == steps[i + 1..];
      var outcome := RenderLast(steps[i], render);
      if outcome.RenderFailed? {
        events := events + [Reported(StreamContext, outcome.error)];
        break;
      }
      events := events + [Shown(outcome.text)];
    }
  }

  /** When every snapshot renders, the loop shows each snapshot's last
      message, one per snapshot, in stream order. */
  lemma {:induction false} ShowsEveryLastMessage(steps: seq<Snapshot>, render: Message -> Rendering)
    requires RendersAll(steps, render)
    ensures |StreamEvents(steps, render)| == |steps|
    ensures forall j :: 0 <= j < |steps| ==>
      StreamEvents(steps, render)[j] == Shown(RenderLast(steps[j], render).text)
    decreases |steps|
  {
    if steps != [] {
      assert RenderLast(steps[0], render).Rendered?;
      ShowsEveryLastMessage(steps[1..], render);
      forall j | 1 <= j < |steps| ensures StreamEvents(steps, render)[j] == StreamEvents(steps[1..], render)[j - 1] {
      }
    }
  }

  /** With the first failure at snapshot `k`, the loop shows the `k` earlier
      snapshots, reports that failure as its last event, and never looks at a
      later snapshot: any snapshots appended after `k` change nothing. */
  lemma {:induction false} HaltsAtFirstFailure(steps: seq<Snapshot>, render: Message -> Rendering, k: nat, later: seq<Snapshot>)
    requires k < |steps|
    requires RendersAll(steps[..k], render)
    requires RenderLast(steps[k], render).RenderFailed?
    ensures |StreamEvents(steps, render)| == k + 1
    ensures StreamEvents(steps, render)[k] == Reported(StreamContext, RenderLast(steps[k], render).error)
    ensures forall j :: 0 <= j < k ==> StreamEvents(steps, render)[j] == Shown(RenderLast(steps[j], render).text)
    ensures StreamEvents(steps[..k + 1] + later, render) == StreamEvents(steps, render)
    decreases k
  {
    if k == 0 {
      assert (steps[..1] + later)[0] == steps[0];
    } else {
      assert RenderLast(steps[0], render).Rendered? by { assert steps[..k][0] == steps[0]; }
      assert RendersAll(steps[1..][..k - 1], render) by {
        var rest := steps[1..][..k - 1];
        forall j | 0 <= j < k - 1 ensures RenderLast(rest[j], render).Rendered? {
          assert rest[j] == steps[..k][j + 1];
        }
      }
      HaltsAtFirstFailure(steps[1..], render, k - 1, later);
      var longer := steps[..k + 1] + later;
      assert longer[0] == steps[0];
      assert longer[1..] == steps[1..][..k] + later;
      forall j | 1 <= j <= k ensures StreamEvents(steps, render)[j] == StreamEvents(steps[1..], render)[j - 1] {
      }
    }
  }

  /** Only the last message of each snapshot matters: two streams whose
      snapshots agree on their last messages produce the same events. */
  lemma {:induction false} OnlyLastMessagesMatter(a: seq<Snapshot>, b: seq<Snapshot>, render: Message -> Rendering)
    requires |a| == |b|
    requires forall j :: 0 <= j < |a| ==> LastMessage(a[j]) == LastMessage(b[j])
    ensures StreamEvents(a, render) == StreamEvents(b, render)
    decreases |a|
  {
    if a != [] {
      assert LastMessage(a[0]) == LastMessage(b[0]);
      OnlyLastMessagesMatter(a[1..], b[1..], render);
    }
  }
}
