/** The loop that feeds blockchain events to a handler until it is told to stop. */
module EventProcessor {
  import opened Common
  import opened Retry
  import opened EventStream

  datatype Status = Received(event: Event) | StreamFailed(error: StreamError) | TimedOut

  /** One item of the event stream, and whether the token is cancelled when it is looked at. */
  datatype Tick = Tick(status: Status, cancelled: bool)

  /** Cancellation is final. */
  predicate Monotone(script: seq<Tick>) {
    forall i, j :: 0 <= i < j < |script| && script[i].cancelled ==> script[j].cancelled
  }

  datatype Ending = Cancelled | Failed(error: StreamError) | Closed

  /** The token is looked at only at the beginning of a block and when the stream times out. */
  predicate ShouldContinue(t: Tick) {
    match t.status
    case Received(BlockBegin(_)) => !t.cancelled
    case TimedOut => !t.cancelled
    case _ => true
  }

  /** The items at which a cancelled token ends the run: the beginning of a block and a timeout. */
  predicate Checkpoint(status: Status) {
    status.TimedOut? || (status.Received? && status.event.BlockBegin?)
  }

  /** The run does not end here: the stream goes on, and no cancellation is noticed. */
  predicate Passes(t: Tick) {
    !t.status.StreamFailed? && !(t.cancelled && Checkpoint(t.status))
  }

  function Events(script: seq<Tick>): seq<Event> {
    if script == [] then []
    else
      var t := script[|script| - 1];
      Events(script[..|script| - 1]) + if t.status.Received? then [t.status.event] else []
  }

  /** The run stops at the first tick that stops it: everything before is handled, in order. */
  ghost predicate HandledUpTo(script: seq<Tick>, k: nat, handled: seq<Event>, end: Ending) {
    && k <= |script|
    && (forall i :: 0 <= i < k ==> Passes(script[i]))
    && handled == Events(script[..k])
    && match end
       case Closed => k == |script|
       case Failed(e) => k < |script| && script[k].status == StreamFailed(e)
       case Cancelled => k < |script| && script[k].cancelled && Checkpoint(script[k].status)
  }

  /**
   * `consume_events`. `attempts(n)(k)` is the k-th outcome of handling the n-th event. Whatever the
   * handler does, the same events are handled, each retried on its own; failures end nothing.
   */
  method ConsumeEvents(script: seq<Tick>, attempts: nat -> nat -> Result<seq<nat>, nat>, maxAttempts: u64)
    returns (handled: seq<Event>, results: seq<Result<seq<nat>, nat>>, calls: seq<nat>, end: Ending, k: nat)
    ensures HandledUpTo(script, k, handled, end)
    ensures end.Closed? <==> forall t <- script :: Passes(t)
    ensures |results| == |calls| == |handled|
    ensures forall n: nat :: n < |results| ==> Retried(attempts(n), maxAttempts, results[n], calls[n])
  {
    handled, results, calls, k := [], [], [], 0;
    while k < |script|
      invariant k <= |script| && forall i :: 0 <= i < k ==> Passes(script[i])
      invariant handled == Events(script[..k]) && |results| == |calls| == |handled|
      invariant forall n: nat :: n < |results| ==> Retried(attempts(n), maxAttempts, results[n], calls[n])
    {
      var tick := script[k];
      assert tick in script;
      if !ShouldContinue(tick) {
        end := Cancelled;
        return;
      }
      if tick.status.StreamFailed? {
        end := Failed(tick.status.error);
        return;
      }
      assert script[..k + 1][..k] == script[..k];
      if tick.status.Received? {
        var res, n, _ := WithRetry(attempts(|results|), maxAttempts);
        handled, results, calls := handled + [tick.status.event], results + [res], calls + [n];
      }
      k := k + 1;
    }
    assert script[..k] == script;
    end := Closed;
  }

  // ---------------------------------------------------------------------------------------
  // Cancellation respects block boundaries.

  /** The position relative to blocks after the first `i` ticks. */
  function At(script: seq<Tick>, i: nat): Position
    requires i <= |script|
  {
    if i == 0 then Outside
    else
      match script[i - 1].status
      case Received(e) => Follow(At(script, i - 1), e)
      case _ => At(script, i - 1)
  }

  ghost predicate WellBracketed(script: seq<Tick>) {
    forall i :: 0 <= i <= |script| ==> !At(script, i).Broken?
  }

  /** A run cancelled at the beginning of a block has handled whole blocks only. */
  lemma CancelledBetweenBlocks(script: seq<Tick>, k: nat, handled: seq<Event>, end: Ending)
    requires WellBracketed(script) && HandledUpTo(script, k, handled, end)
    ensures end.Cancelled? && !script[k].status.TimedOut? ==> At(script, k) == Outside
  {
    if end.Cancelled? && !script[k].status.TimedOut? {
      assert !At(script, k + 1).Broken?;
    }
  }

  /**
   * From the moment of cancellation on, the run at most finishes the open block: every further event
   * handled is inside that block, and nothing is handled once the block has ended.
   */
  lemma CancellationFinishesOpenBlock(script: seq<Tick>, k: nat, handled: seq<Event>, end: Ending, c: nat, i: nat)
    requires WellBracketed(script) && Monotone(script) && HandledUpTo(script, k, handled, end)
    requires c < |script| && script[c].cancelled && c <= i < k
    ensures script[i].status.Received? && At(script, i).Inside? && At(script, i) == At(script, c)
    ensures script[i].status.event.Abci? || (script[i].status.event == BlockEnd(At(script, c).height) && i + 1 == k)
    decreases i
  {
    assert Passes(script[i]) && script[i].cancelled;
    assert !At(script, i + 1).Broken?;
    if c < i {
      CancellationFinishesOpenBlock(script, k, handled, end, c, i - 1);
    }
    if i + 1 < k && At(script, i + 1).Outside? {
      assert Passes(script[i + 1]) && script[i + 1].cancelled;
      assert !At(script, i + 2).Broken?;
    }
  }

  /** What the subscription delivered, as the processor saw it. */
  function Delivered(script: seq<Tick>): seq<Item> {
    if script == [] then []
    else
      var before := Delivered(script[..|script| - 1]);
      match script[|script| - 1].status
      case Received(e) => before + [Ok(e)]
      case StreamFailed(e) => before + [Err(e)]
      case TimedOut => before
  }

  lemma {:induction false} AtIsAfter(script: seq<Tick>, i: nat)
    requires i <= |script|
    ensures At(script, i) == After(Outside, Delivered(script[..i]))
  {
    if i > 0 {
      AtIsAfter(script, i - 1);
      assert script[..i][..i - 1] == script[..i - 1];
      var before := Delivered(script[..i - 1]);
      match script[i - 1].status
      case Received(e) => AfterSnoc(Outside, before, Ok(e));
      case StreamFailed(e) => AfterSnoc(Outside, before, Err(e));
      case TimedOut =>
    }
  }

  lemma {:induction false} BrokenForever(script: seq<Tick>, i: nat, j: nat)
    requires i <= j <= |script| && At(script, i).Broken?
    ensures At(script, j).Broken?
  {
    if i < j {
      BrokenForever(script, i, j - 1);
    }
  }

  /** Whatever `events` puts out, under any schedule, is well bracketed for the processor. */
  lemma SubscriptionIsBracketed(script: seq<Tick>, steps: seq<Step>, buffer: nat, maxAttempts: u64)
    requires Delivered(script) == Run(steps, buffer, maxAttempts).output
    ensures WellBracketed(script)
  {
    OutputIsBracketed(steps, buffer, maxAttempts);
    AtIsAfter(script, |script|);
    assert script[..|script|] == script;
    forall i | 0 <= i <= |script|
      ensures !At(script, i).Broken?
    {
      if At(script, i).Broken? {
        BrokenForever(script, i, |script|);
      }
    }
  }
}
