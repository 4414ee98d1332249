/**
 * The life of an enqueued message: from the channel through the batching queue and one broadcast to
 * the callback that tells the submitter what became of it.
 */
module BroadcasterTask {
  import opened Common
  import opened MsgQueue

  /** The outcome of broadcasting one batch; hashes and errors are told apart by numbers. */
  datatype BatchResult = Included(hash: nat) | Failed(error: nat)

  /** What a submitter is told. */
  datatype Outcome = ExceedsCap | BatchFailed(error: nat) | InTx(hash: nat, index: nat)

  datatype Callback = Callback(msg: Msg, outcome: Outcome)

  /** The transaction confirmer may be absent, or its channel open or closed. */
  datatype Confirmer = Absent | Open | Gone

  function OutcomeOf(r: BatchResult, i: nat): Outcome {
    match r
    case Included(hash) => InTx(hash, i)
    case Failed(e) => BatchFailed(e)
  }

  /** What the message at index `i` of a batch has to be told. */
  predicate Tells(outcome: Outcome, r: BatchResult, i: nat) {
    match r
    case Included(hash) => outcome == InTx(hash, i)
    case Failed(e) => outcome == BatchFailed(e)
  }

  /** Every message of the batch gets the batch's result, with its own index in the transaction. */
  ghost predicate Answers(fired: seq<Callback>, batch: Batch, r: BatchResult) {
    |fired| == |batch| && forall i :: 0 <= i < |batch| ==> fired[i].msg == batch[i] && Tells(fired[i].outcome, r, i)
  }

  /** A broadcast batch that cannot be handed to the confirmer ends the task without any callback. */
  method HandleTxRes(confirmer: Confirmer, r: BatchResult, batch: Batch) returns (ok: bool, fired: seq<Callback>)
    ensures ok <==> !(confirmer.Gone? && r.Included?)
    ensures if ok then Answers(fired, batch, r) else fired == []
    ensures ok && r.Included? ==> forall i :: 0 <= i < |batch| ==> fired[i] == Callback(batch[i], InTx(r.hash, i))
    ensures ok && r.Failed? ==> forall i :: 0 <= i < |batch| ==> fired[i] == Callback(batch[i], BatchFailed(r.error))
  {
    fired := [];
    if confirmer.Gone? && r.Included? {
      return false, [];
    }
    for i := 0 to |batch|
      invariant Answers(fired, batch[..i], r)
    {
      match r
      case Included(hash) => fired := fired + [Callback(batch[i], InTx(hash, i))];
      case Failed(e) => fired := fired + [Callback(batch[i], BatchFailed(e))];
    }
    assert batch[..|batch|] == batch;
    ok := true;
  }

  lemma SameAnswers(a: seq<Callback>, b: seq<Callback>, batch: Batch, r: BatchResult)
    requires Answers(a, batch, r) && Answers(b, batch, r)
    ensures a == b
  {
    forall i | 0 <= i < |batch|
      ensures a[i] == b[i]
    {
      assert Tells(a[i].outcome, r, i) && Tells(b[i].outcome, r, i);
    }
  }

  /** One batch taken from the queue, how its broadcast went and the confirmer at that moment. */
  datatype Round = Round(batch: Batch, result: BatchResult, confirmer: Confirmer)

  /** The first round whose transaction cannot be handed to the confirmer, or the end. */
  function FirstStuck(rounds: seq<Round>): (n: nat)
    ensures n <= |rounds|
    ensures forall i :: 0 <= i < n ==> !(rounds[i].confirmer.Gone? && rounds[i].result.Included?)
    ensures n < |rounds| ==> rounds[n].confirmer.Gone? && rounds[n].result.Included?
  {
    if rounds == [] || (rounds[0].confirmer.Gone? && rounds[0].result.Included?) then 0
    else 1 + FirstStuck(rounds[1..])
  }

  /** The callbacks for one finished batch. */
  function Report(batch: Batch, r: BatchResult): (fired: seq<Callback>)
    ensures Answers(fired, batch, r)
  {
    if batch == [] then []
    else Report(batch[..|batch| - 1], r) + [Callback(batch[|batch| - 1], OutcomeOf(r, |batch| - 1))]
  }

  function Reported(rounds: seq<Round>): (reports: seq<seq<Callback>>)
    ensures |reports| == |rounds|
  {
    if rounds == [] then []
    else Reported(rounds[..|rounds| - 1]) + [Report(rounds[|rounds| - 1].batch, rounds[|rounds| - 1].result)]
  }

  lemma ReportedSnoc(rounds: seq<Round>, n: nat)
    requires n < |rounds|
    ensures Reported(rounds[..n + 1]) == Reported(rounds[..n]) + [Report(rounds[n].batch, rounds[n].result)]
  {
    assert rounds[..n + 1][..n] == rounds[..n];
  }

  /**
   * The task's loop over the batches the queue yields before it ends or the token is cancelled. Failed
   * broadcasts are reported and do not stop it; only a lost confirmer does, and exactly there.
   */
  method RunTask(rounds: seq<Round>) returns (ok: bool, reports: seq<seq<Callback>>)
    ensures ok <==> FirstStuck(rounds) == |rounds|
    ensures reports == Reported(rounds[..FirstStuck(rounds)])
  {
    reports, ok := [], true;
    var n := 0;
    while n < |rounds|
      invariant n <= FirstStuck(rounds)
      invariant reports == Reported(rounds[..n])
    {
      var round := rounds[n];
      var fired;
      ok, fired := HandleTxRes(round.confirmer, round.result, round.batch);
      if !ok {
        return;
      }
      SameAnswers(fired, Report(round.batch, round.result), round.batch, round.result);
      ReportedSnoc(rounds, n);
      reports := reports + [fired];
      n := n + 1;
    }
    ok := true;
  }

  // ---------------------------------------------------------------------------------------
  // Every interleaving of submitters, queue and broadcaster.

  datatype Done = Done(batch: Batch, result: BatchResult)

  datatype State = State(
    enqueued: seq<Msg>,    // every message a submitter handed in
    channel: seq<Msg>,
    queue: seq<Msg>,
    inflight: Batch,       // the batch being broadcast
    fired: seq<Callback>,  // callbacks, in the order they fired
    dropped: seq<Msg>,     // messages whose callback was dropped when the task ended
    done: seq<Done>,
    closed: bool,          // all submitters are gone
    stopped: bool)         // the task ended early

  const INIT := State([], [], [], [], [], [], [], false, false)

  datatype Step =
    | Enqueue(msg: Msg)
    | Take                                             // the queue receives the next message
    | Timeout                                          // the deadline releases the queue
    | CloseChannel
    | Drain                                            // the closed channel is empty
    | Complete(result: BatchResult, confirmer: Confirmer)
    | Cancel

  function Ids(ms: seq<Msg>): set<nat> {
    set m <- ms :: m.id
  }

  predicate Enabled(s: State, step: Step) {
    && !s.stopped
    && match step
       case Enqueue(m) => !s.closed && m.id !in Ids(s.enqueued)
       case Take => s.inflight == [] && s.channel != []
       case Timeout => s.inflight == [] && s.channel == [] && !s.closed
       case CloseChannel => true
       case Drain => s.inflight == [] && s.channel == [] && s.closed
       case Complete(_, _) => s.inflight != []
       case Cancel => s.inflight == []
  }

  function Stop(s: State): State {
    s.(channel := [], queue := [], inflight := [], dropped := s.inflight + s.queue + s.channel, stopped := true)
  }

  function Next(s: State, step: Step, cap: u64): State {
    match step
    case Enqueue(m) => s.(enqueued := s.enqueued + [m], channel := s.channel + [m])
    case Take =>
      if s.channel == [] then s
      else
        var m := s.channel[0];
        var p := Push(s.queue, m, cap);
        s.(channel := s.channel[1..],
           queue := p.queue,
           inflight := s.inflight + Held(p.batch),
           fired := s.fired + Refusal(p, m))
    case Timeout => s.(inflight := s.inflight + s.queue, queue := [])
    case Drain => s.(inflight := s.inflight + s.queue, queue := [])
    case CloseChannel => s.(closed := true)
    case Complete(r, confirmer) =>
      if confirmer.Gone? && r.Included? then Stop(s)
      else
        s.(inflight := [],
           fired := s.fired + Report(s.inflight, r),
           done := s.done + [Done(s.inflight, r)])
    case Cancel => Stop(s)
  }

  function Run(steps: seq<Step>, cap: u64): State {
    if steps == [] then INIT
    else
      var s := Run(steps[..|steps| - 1], cap);
      if Enabled(s, steps[|steps| - 1]) then Next(s, steps[|steps| - 1], cap) else s
  }

  function Told(fired: seq<Callback>): (ms: seq<Msg>)
    ensures |ms| == |fired| && forall i :: 0 <= i < |ms| ==> ms[i] == fired[i].msg
  {
    if fired == [] then [] else Told(fired[..|fired| - 1]) + [fired[|fired| - 1].msg]
  }

  /** How often `x` occurs. */
  function Count(ms: seq<Msg>, x: Msg): nat {
    if ms == [] then 0 else Count(ms[..|ms| - 1], x) + if ms[|ms| - 1] == x then 1 else 0
  }

  lemma {:induction false} CountAppend(a: seq<Msg>, b: seq<Msg>, x: Msg)
    ensures Count(a + b, x) == Count(a, x) + Count(b, x)
  {
    if b == [] {
      assert a + b == a;
    } else {
      assert (a + b)[..|a + b| - 1] == a + b[..|b| - 1];
      CountAppend(a, b[..|b| - 1], x);
    }
  }

  lemma CountOne(m: Msg, x: Msg)
    ensures Count([m], x) == if m == x then 1 else 0
  {
    assert [m][..0] == [];
  }

  lemma {:induction false} CountPositive(ms: seq<Msg>, x: Msg)
    ensures Count(ms, x) > 0 <==> x in ms
  {
    if ms != [] {
      CountPositive(ms[..|ms| - 1], x);
      assert ms == ms[..|ms| - 1] + [ms[|ms| - 1]];
    }
  }

  /** How many callbacks fired for the message `x`. */
  function TimesTold(fired: seq<Callback>, x: Msg): nat {
    Count(Told(fired), x)
  }

  /** How many places hold the message `x`. */
  function Places(s: State, x: Msg): nat {
    Count(s.channel, x) + Count(s.queue, x) + Count(s.inflight, x) + TimesTold(s.fired, x) + Count(s.dropped, x)
  }

  lemma ToldAppend(a: seq<Callback>, b: seq<Callback>, x: Msg)
    ensures TimesTold(a + b, x) == TimesTold(a, x) + TimesTold(b, x)
  {
    assert Told(a + b) == Told(a) + Told(b);
    CountAppend(Told(a), Told(b), x);
  }

  lemma ToldReport(batch: Batch, r: BatchResult, x: Msg)
    ensures TimesTold(Report(batch, r), x) == Count(batch, x)
  {
    assert Told(Report(batch, r)) == batch;
  }

  function Refusal(p: Pushed, m: Msg): seq<Callback> {
    if p.rejected.Some? then [Callback(m, ExceedsCap)] else []
  }

  lemma PushKeepsCount(queue: seq<Msg>, m: Msg, cap: u64, x: Msg)
    requires Gas(queue) <= cap
    ensures var p := Push(queue, m, cap);
            Count(Held(p.batch), x) + Count(p.queue, x) + TimesTold(Refusal(p, m), x) == Count(queue, x) + Count([m], x)
  {
    var p := Push(queue, m, cap);
    PushConserves(queue, m, cap);
    CountAppend(Held(p.batch), p.queue, x);
    CountAppend(queue, [m], x);
    assert Told([Callback(m, ExceedsCap)]) == [m];
  }

  lemma TakeKeepsPlaces(s: State, cap: u64, x: Msg)
    requires s.channel != [] && Gas(s.queue) <= cap
    ensures Places(Next(s, Take, cap), x) == Places(s, x)
  {
    var m := s.channel[0];
    var p := Push(s.queue, m, cap);
    PushKeepsCount(s.queue, m, cap, x);
    assert s.channel == [m] + s.channel[1..];
    CountAppend([m], s.channel[1..], x);
    CountAppend(s.inflight, Held(p.batch), x);
    ToldAppend(s.fired, Refusal(p, m), x);
  }

  lemma StopKeepsPlaces(s: State, x: Msg)
    requires s.dropped == []
    ensures Places(Stop(s), x) == Places(s, x)
  {
    CountAppend(s.inflight + s.queue, s.channel, x);
    CountAppend(s.inflight, s.queue, x);
  }

  lemma CompleteKeepsPlaces(s: State, r: BatchResult, confirmer: Confirmer, cap: u64, x: Msg)
    requires s.dropped == []
    ensures Places(Next(s, Complete(r, confirmer), cap), x) == Places(s, x)
  {
    if confirmer.Gone? && r.Included? {
      StopKeepsPlaces(s, x);
    } else {
      ToldAppend(s.fired, Report(s.inflight, r), x);
      ToldReport(s.inflight, r, x);
    }
  }

  lemma StepKeepsPlaces(s: State, step: Step, cap: u64, x: Msg)
    requires s.dropped == [] && Gas(s.queue) <= cap && Enabled(s, step)
    ensures Places(Next(s, step, cap), x) == Places(s, x) + if step.Enqueue? then Count([step.msg], x) else 0
  {
    match step
    case Enqueue(m) => CountAppend(s.channel, [m], x);
    case Take => TakeKeepsPlaces(s, cap, x);
    case Timeout => CountAppend(s.inflight, s.queue, x);
    case Drain => CountAppend(s.inflight, s.queue, x);
    case CloseChannel =>
    case Complete(r, confirmer) => CompleteKeepsPlaces(s, r, confirmer, cap, x);
    case Cancel => StopKeepsPlaces(s, x);
  }

  ghost predicate Basic(s: State, cap: u64) {
    Gas(s.queue) <= cap && (!s.stopped ==> s.dropped == [])
  }

  lemma StepIsBasic(s: State, step: Step, cap: u64)
    requires Basic(s, cap) && Enabled(s, step)
    ensures Basic(Next(s, step, cap), cap)
  {
    if step.Take? {
      PushConserves(s.queue, s.channel[0], cap);
    }
  }

  lemma {:induction false} RunIsBasic(steps: seq<Step>, cap: u64)
    ensures Basic(Run(steps, cap), cap)
  {
    if steps != [] {
      RunIsBasic(steps[..|steps| - 1], cap);
      var s := Run(steps[..|steps| - 1], cap);
      if Enabled(s, steps[|steps| - 1]) {
        StepIsBasic(s, steps[|steps| - 1], cap);
      }
    }
  }

  /**
   * In every run, a submitted message is in exactly one place: the channel, the queue, the batch being
   * broadcast, answered, or dropped with the task. So no callback ever fires twice.
   */
  lemma {:induction false} ExactlyOnePlace(steps: seq<Step>, cap: u64, x: Msg)
    ensures var s := Run(steps, cap); Places(s, x) == Count(s.enqueued, x) == if x in s.enqueued then 1 else 0
  {
    if steps != [] {
      var before, step := steps[..|steps| - 1], steps[|steps| - 1];
      ExactlyOnePlace(before, cap, x);
      RunIsBasic(before, cap);
      var s := Run(before, cap);
      if Enabled(s, step) {
        StepKeepsPlaces(s, step, cap, x);
        if step.Enqueue? {
          CountAppend(s.enqueued, [step.msg], x);
          CountOne(step.msg, x);
        }
      }
    }
  }

  // ---------------------------------------------------------------------------------------
  // What the callbacks say.

  /** The message is at index `i` of a finished batch and was told that batch's result for index `i`. */
  predicate FromBatch(c: Callback, d: Done, i: nat) {
    i < |d.batch| && c.msg == d.batch[i] && Tells(c.outcome, d.result, i)
  }

  ghost predicate Explained(c: Callback, done: seq<Done>, cap: u64) {
    if c.msg.gas > cap then c.outcome == ExceedsCap
    else exists k: nat, i: nat :: k < |done| && FromBatch(c, done[k], i)
  }

  ghost predicate AllExplained(fired: seq<Callback>, done: seq<Done>, cap: u64) {
    forall j :: 0 <= j < |fired| ==> Explained(fired[j], done, cap)
  }

  predicate AllWithin(ms: seq<Msg>, cap: u64) {
    forall m <- ms :: m.gas <= cap
  }

  lemma ExplainedGrows(c: Callback, done: seq<Done>, d: Done, cap: u64)
    requires Explained(c, done, cap)
    ensures Explained(c, done + [d], cap)
  {
    if c.msg.gas <= cap {
      var k: nat, i: nat :| k < |done| && FromBatch(c, done[k], i);
      assert FromBatch(c, (done + [d])[k], i);
    }
  }

  lemma ReportIsExplained(fired: seq<Callback>, done: seq<Done>, batch: Batch, r: BatchResult, cap: u64)
    requires AllExplained(fired, done, cap) && AllWithin(batch, cap)
    ensures AllExplained(fired + Report(batch, r), done + [Done(batch, r)], cap)
  {
    var all, d := fired + Report(batch, r), Done(batch, r);
    forall j | 0 <= j < |all|
      ensures Explained(all[j], done + [d], cap)
    {
      if j < |fired| {
        ExplainedGrows(fired[j], done, d, cap);
      } else {
        assert FromBatch(all[j], (done + [d])[|done|], j - |fired|);
      }
    }
  }

  ghost predicate Sound(s: State, cap: u64) {
    && Gas(s.queue) <= cap
    && AllWithin(s.queue, cap)
    && AllWithin(s.inflight, cap)
    && AllExplained(s.fired, s.done, cap)
  }

  lemma PushStaysWithin(queue: seq<Msg>, m: Msg, cap: u64)
    requires Gas(queue) <= cap && AllWithin(queue, cap)
    ensures var p := Push(queue, m, cap); AllWithin(p.queue, cap) && AllWithin(Held(p.batch), cap)
  {
  }

  lemma RefusalIsExplained(fired: seq<Callback>, done: seq<Done>, queue: seq<Msg>, m: Msg, cap: u64)
    requires AllExplained(fired, done, cap)
    ensures AllExplained(fired + Refusal(Push(queue, m, cap), m), done, cap)
  {
  }

  lemma TakeIsSound(s: State, cap: u64)
    requires Sound(s, cap) && s.channel != []
    ensures Sound(Next(s, Take, cap), cap)
  {
    var m := s.channel[0];
    var p := Push(s.queue, m, cap);
    PushConserves(s.queue, m, cap);
    PushStaysWithin(s.queue, m, cap);
    RefusalIsExplained(s.fired, s.done, s.queue, m, cap);
    assert AllWithin(s.inflight + Held(p.batch), cap);
  }

  /**
   * In every run each callback tells the truth: the over-cap rejection goes to exactly the messages
   * above the cap, and any other message is told the result of a batch that contained it, with its own
   * index in that batch.
   */
  lemma {:induction false} CallbacksAreExplained(steps: seq<Step>, cap: u64)
    ensures Sound(Run(steps, cap), cap)
  {
    if steps != [] {
      var step := steps[|steps| - 1];
      CallbacksAreExplained(steps[..|steps| - 1], cap);
      var s := Run(steps[..|steps| - 1], cap);
      if Enabled(s, step) {
        match step
        case Take => TakeIsSound(s, cap);
        case Complete(r, confirmer) => ReportIsExplained(s.fired, s.done, s.inflight, r, cap);
        case _ =>
      }
    }
  }

  /**
   * So in every run a callback with a hash and an index comes from a finished batch that was included
   * under that hash and has the message at that index; one with an error from a batch that failed with it;
   * and the over-cap rejection goes only to messages above the cap.
   */
  lemma CallbacksTellTheTruth(steps: seq<Step>, cap: u64, j: nat)
    requires j < |Run(steps, cap).fired|
    ensures var s := Run(steps, cap);
            var c := s.fired[j];
            match c.outcome
            case ExceedsCap => c.msg.gas > cap
            case InTx(hash, i) =>
              c.msg.gas <= cap &&
              exists k: nat :: k < |s.done| && s.done[k].result == Included(hash) && i < |s.done[k].batch| && s.done[k].batch[i] == c.msg
            case BatchFailed(e) =>
              c.msg.gas <= cap && exists k: nat :: k < |s.done| && s.done[k].result == Failed(e) && c.msg in s.done[k].batch
  {
    CallbacksAreExplained(steps, cap);
    var s := Run(steps, cap);
    assert Explained(s.fired[j], s.done, cap);
  }

  function Finished(done: seq<Done>): seq<Batch> {
    if done == [] then [] else Finished(done[..|done| - 1]) + [done[|done| - 1].batch]
  }

  /** Finished batches, the one being broadcast, the queue and the channel are the accepted messages, in order. */
  ghost predicate InOrder(s: State, cap: u64) {
    && Gas(s.queue) <= cap
    && (!s.stopped ==>
          Flatten(Finished(s.done)) + (s.inflight + (s.queue + Accepted(s.channel, cap))) == Accepted(s.enqueued, cap))
  }

  lemma {:induction false} AcceptedCons(m: Msg, ms: seq<Msg>, cap: u64)
    ensures Accepted([m] + ms, cap) == (if m.gas <= cap then [m] else []) + Accepted(ms, cap)
  {
    if ms == [] {
      AcceptedSnoc([], m, cap);
      assert [] + [m] == [m] + ms;
    } else {
      var p, x := ms[..|ms| - 1], ms[|ms| - 1];
      AcceptedCons(m, p, cap);
      AcceptedSnoc([m] + p, x, cap);
      AcceptedSnoc(p, x, cap);
      assert [m] + p + [x] == [m] + ms && p + [x] == ms;
    }
  }

  lemma TakeMoves(queue: seq<Msg>, m: Msg, rest: seq<Msg>, cap: u64)
    requires Gas(queue) <= cap
    ensures var p := Push(queue, m, cap);
            Held(p.batch) + (p.queue + Accepted(rest, cap)) == queue + Accepted([m] + rest, cap)
  {
    var p, tail := Push(queue, m, cap), Accepted(rest, cap);
    PushConserves(queue, m, cap);
    AcceptedCons(m, rest, cap);
    Regroup(Held(p.batch), p.queue, tail);
    Regroup(queue, [m], tail);
    assert [] + tail == tail;
  }

  lemma TakeIsInOrder(s: State, cap: u64)
    requires InOrder(s, cap) && Enabled(s, Take)
    ensures InOrder(Next(s, Take, cap), cap)
  {
    var m := s.channel[0];
    assert s.channel == [m] + s.channel[1..];
    TakeMoves(s.queue, m, s.channel[1..], cap);
    PushConserves(s.queue, m, cap);
    assert s.inflight + Held(Push(s.queue, m, cap).batch) == Held(Push(s.queue, m, cap).batch);
    assert s.inflight + (s.queue + Accepted(s.channel, cap)) == s.queue + Accepted(s.channel, cap);
  }

  lemma EnqueueMoves(done: seq<Msg>, inflight: seq<Msg>, queue: seq<Msg>, channel: seq<Msg>, x: seq<Msg>)
    ensures done + (inflight + (queue + (channel + x))) == done + (inflight + (queue + channel)) + x
  {
  }

  lemma EnqueueIsInOrder(s: State, m: Msg, cap: u64)
    requires InOrder(s, cap) && Enabled(s, Enqueue(m))
    ensures InOrder(Next(s, Enqueue(m), cap), cap)
  {
    AcceptedSnoc(s.channel, m, cap);
    AcceptedSnoc(s.enqueued, m, cap);
    EnqueueMoves(Flatten(Finished(s.done)), s.inflight, s.queue, Accepted(s.channel, cap), if m.gas <= cap then [m] else []);
  }

  lemma ReleaseMoves(queue: seq<Msg>, channel: seq<Msg>)
    ensures ([] + queue) + ([] + channel) == [] + (queue + channel)
  {
  }

  lemma ReleaseIsInOrder(s: State, step: Step, cap: u64)
    requires InOrder(s, cap) && Enabled(s, step) && (step.Timeout? || step.Drain?)
    ensures InOrder(Next(s, step, cap), cap)
  {
    ReleaseMoves(s.queue, Accepted(s.channel, cap));
  }

  lemma CompleteMoves(done: seq<Msg>, inflight: seq<Msg>, rest: seq<Msg>)
    ensures done + inflight + ([] + rest) == done + (inflight + rest)
  {
  }

  lemma CompleteIsInOrder(s: State, r: BatchResult, confirmer: Confirmer, cap: u64)
    requires InOrder(s, cap) && Enabled(s, Complete(r, confirmer))
    ensures InOrder(Next(s, Complete(r, confirmer), cap), cap)
  {
    var d := Done(s.inflight, r);
    assert (s.done + [d])[..|s.done|] == s.done;
    FlattenSnoc(Finished(s.done), s.inflight);
    CompleteMoves(Flatten(Finished(s.done)), s.inflight, s.queue + Accepted(s.channel, cap));
  }

  /** In every run messages are broadcast in the order they were handed in, and none is skipped. */
  lemma {:induction false} BroadcastInOrder(steps: seq<Step>, cap: u64)
    ensures InOrder(Run(steps, cap), cap)
  {
    if steps != [] {
      BroadcastInOrder(steps[..|steps| - 1], cap);
      var s, step := Run(steps[..|steps| - 1], cap), steps[|steps| - 1];
      if Enabled(s, step) {
        match step
        case Enqueue(m) => EnqueueIsInOrder(s, m, cap);
        case Take => TakeIsInOrder(s, cap);
        case Timeout => ReleaseIsInOrder(s, step, cap);
        case Drain => ReleaseIsInOrder(s, step, cap);
        case CloseChannel =>
        case Complete(r, confirmer) => CompleteIsInOrder(s, r, confirmer, cap);
        case Cancel =>
      }
    }
  }

  /**
   * Once everything handed in has been worked off and the task did not end early, every message has
   * been answered, exactly once, and truthfully.
   */
  lemma EveryoneIsAnswered(steps: seq<Step>, cap: u64, m: Msg)
    requires var s := Run(steps, cap);
             !s.stopped && s.channel == [] && s.queue == [] && s.inflight == [] && m in s.enqueued
    ensures var s := Run(steps, cap);
            && TimesTold(s.fired, m) == 1
            && exists j :: 0 <= j < |s.fired| && s.fired[j].msg == m && Explained(s.fired[j], s.done, cap)
  {
    var s := Run(steps, cap);
    ExactlyOnePlace(steps, cap, m);
    RunIsBasic(steps, cap);
    CallbacksAreExplained(steps, cap);
    CountPositive(Told(s.fired), m);
    var j :| 0 <= j < |s.fired| && Told(s.fired)[j] == m;
    assert s.fired[j].msg == m;
  }

  // ---------------------------------------------------------------------------------------
  // The code: the task over the polled queue.

  /** The rounds of the task: `result(n)` and `confirmer(n)` are what the n-th batch meets. */
  function Rounds(out: seq<Batch>, result: nat -> BatchResult, confirmer: nat -> Confirmer): (rounds: seq<Round>)
    ensures |rounds| == |out|
    ensures forall n: nat :: n < |out| ==> rounds[n] == Round(out[n], result(n), confirmer(n))
  {
    if out == [] then []
    else
      var n := |out| - 1;
      Rounds(out[..n], result, confirmer) + [Round(out[n], result(n), confirmer(n))]
  }

  function Joined(reports: seq<seq<Callback>>): seq<Callback> {
    if reports == [] then [] else Joined(reports[..|reports| - 1]) + reports[|reports| - 1]
  }

  /** The rounds are about these batches. */
  predicate Handles(rounds: seq<Round>, batches: seq<Batch>) {
    |rounds| == |batches| && forall n :: 0 <= n < |rounds| ==> rounds[n].batch == batches[n]
  }

  lemma JoinedSnoc(reports: seq<seq<Callback>>, report: seq<Callback>)
    ensures Joined(reports + [report]) == Joined(reports) + report
  {
    assert (reports + [report])[..|reports|] == reports;
  }

  lemma ToldJoin(a: seq<Callback>, batch: Batch, r: BatchResult)
    ensures Told(a + Report(batch, r)) == Told(a) + batch
  {
  }

  lemma {:induction false} EachToldOnce(rounds: seq<Round>, batches: seq<Batch>)
    requires Handles(rounds, batches)
    ensures Told(Joined(Reported(rounds))) == Flatten(batches)
  {
    if rounds != [] {
      var n := |rounds| - 1;
      EachToldOnce(rounds[..n], batches[..n]);
      JoinedSnoc(Reported(rounds[..n]), Report(rounds[n].batch, rounds[n].result));
      ToldJoin(Joined(Reported(rounds[..n])), batches[n], rounds[n].result);
    }
  }

  lemma {:induction false} FlattenAppend(a: seq<Batch>, b: seq<Batch>)
    ensures Flatten(a + b) == Flatten(a) + Flatten(b)
  {
    if b == [] {
      assert a + b == a;
    } else {
      assert a + b == a + b[..|b| - 1] + [b[|b| - 1]];
      FlattenAppend(a, b[..|b| - 1]);
      FlattenSnoc(a + b[..|b| - 1], b[|b| - 1]);
      Regroup(Flatten(a), Flatten(b[..|b| - 1]), b[|b| - 1]);
    }
  }

  lemma FlattenSplit(out: seq<Batch>, k: nat)
    requires k <= |out|
    ensures Flatten(out[..k]) + Flatten(out[k..]) == Flatten(out)
  {
    FlattenAppend(out[..k], out[k..]);
    assert out == out[..k] + out[k..];
  }

  lemma AnsweredOrNot(rounds: seq<Round>, out: seq<Batch>, k: nat, rest: seq<Msg>, told: seq<Msg>, others: seq<Msg>)
    requires Handles(rounds, out) && k <= |out|
    requires told == Told(Joined(Reported(rounds[..k]))) && others == Flatten(out[k..])
    ensures told + (others + rest) == Flatten(out) + rest
  {
    EachToldOnce(rounds[..k], out[..k]);
    FlattenSplit(out, k);
    Regroup(told, others, rest);
  }

  /** The callback is about a message of one of the batches and tells that batch's result. */
  ghost predicate FromRound(c: Callback, rounds: seq<Round>) {
    exists k: nat, i: nat :: k < |rounds| && FromBatch(c, Done(rounds[k].batch, rounds[k].result), i)
  }

  ghost predicate FromBatches(fired: seq<Callback>, rounds: seq<Round>) {
    forall j :: 0 <= j < |fired| ==> FromRound(fired[j], rounds)
  }

  lemma FromEarlierRound(c: Callback, rounds: seq<Round>, round: Round)
    requires FromRound(c, rounds)
    ensures FromRound(c, rounds + [round])
  {
    var k: nat, i: nat :| k < |rounds| && FromBatch(c, Done(rounds[k].batch, rounds[k].result), i);
    var more := rounds + [round];
    assert more[k] == rounds[k];
    assert k < |more| && FromBatch(c, Done(more[k].batch, more[k].result), i);
  }

  lemma FromLastRound(rounds: seq<Round>, round: Round, i: nat)
    requires i < |round.batch|
    ensures FromRound(Report(round.batch, round.result)[i], rounds + [round])
  {
    var more, k := rounds + [round], |rounds|;
    assert more[k] == round;
    assert FromBatch(Report(round.batch, round.result)[i], Done(more[k].batch, more[k].result), i);
  }

  lemma FromBatchesSnoc(fired: seq<Callback>, rounds: seq<Round>, round: Round)
    requires FromBatches(fired, rounds)
    ensures FromBatches(fired + Report(round.batch, round.result), rounds + [round])
  {
    var all := fired + Report(round.batch, round.result);
    forall j | 0 <= j < |all|
      ensures FromRound(all[j], rounds + [round])
    {
      if j < |fired| {
        FromEarlierRound(fired[j], rounds, round);
      } else {
        FromLastRound(rounds, round, j - |fired|);
      }
    }
  }

  lemma {:induction false} ReportsAreFromBatches(rounds: seq<Round>)
    ensures FromBatches(Joined(Reported(rounds)), rounds)
  {
    if rounds != [] {
      var n := |rounds| - 1;
      ReportsAreFromBatches(rounds[..n]);
      JoinedSnoc(Reported(rounds[..n]), Report(rounds[n].batch, rounds[n].result));
      FromBatchesSnoc(Joined(Reported(rounds[..n])), rounds[..n], rounds[n]);
      assert rounds[..n] + [rounds[n]] == rounds;
    }
  }

  /**
   * The task on top of the polled queue, on any script of the channel, any broadcast results and any state
   * of the confirmer. The messages told a batch result, followed by those not answered (of the batch the
   * task stopped at, or not handled yet), are the accepted messages received: every one of them is in
   * exactly one place. A task that did not stop has answered everything once the channel has closed.
   */
  method RunBroadcaster(gasCap: u64, duration: nat, start: nat, script: seq<Tick>, polls: nat,
                        result: nat -> BatchResult, confirmer: nat -> Confirmer)
    returns (ok: bool, out: seq<Batch>, fired: seq<Callback>, unanswered: seq<Msg>, refused: seq<Msg>, ghost received: seq<Msg>)
    ensures Told(fired) + unanswered == Accepted(received, gasCap) && refused == Rejected(received, gasCap)
    ensures received <= Messages(script) && (polls >= |script| ==> received == Messages(script))
    ensures var rounds := Rounds(out, result, confirmer);
            && fired == Joined(Reported(rounds[..FirstStuck(rounds)]))
            && FromBatches(fired, rounds[..FirstStuck(rounds)])
            && (ok <==> FirstStuck(rounds) == |rounds|)
    ensures ok && polls >= |script| && Closes(script) ==>
              unanswered == [] && Told(fired) == Accepted(Messages(script), gasCap)
  {
    var rest;
    ghost var acts;
    out, rest, refused, received, acts := RunQueue(gasCap, duration, start, script, polls);
    var rounds := Rounds(out, result, confirmer);
    var reports;
    ok, reports := RunTask(rounds);
    ghost var k := FirstStuck(rounds);
    ReportsAreFromBatches(rounds[..k]);
    fired := Joined(reports);
    unanswered := Flatten(out[|reports|..]) + rest;
    AnsweredOrNot(rounds, out, k, rest, Told(fired), Flatten(out[k..]));
  }
}
