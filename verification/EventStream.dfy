/**
 * From block heights to blockchain events: every height is fetched (with retries) by a window of
 * concurrent requests, and the results are flattened in the order of the heights.
 */
module EventStream {
  import opened Common
  import opened Retry
  import BlockHeights

  type Height = nat

  datatype Event = BlockBegin(height: Height) | Abci(payload: nat) | BlockEnd(height: Height)

  datatype StreamError = HeightQuery(id: nat) | BlockResultsQuery(id: nat) | EventDecoding(block: Height)

  type Item = Result<Event, StreamError>

  /** An event as the chain reports it: it may or may not decode. */
  datatype RawEvent = Decodable(payload: nat) | Malformed

  datatype BlockResults = BlockResults(
    height: Height,
    beginBlock: Option<seq<RawEvent>>,
    txs: Option<seq<seq<RawEvent>>>,
    endBlock: Option<seq<RawEvent>>)

  function OrEmpty<T>(xs: Option<seq<T>>): seq<T> {
    if xs.Some? then xs.value else []
  }

  function Flatten<T>(xss: seq<seq<T>>): seq<T> {
    if xss == [] then [] else xss[0] + Flatten(xss[1..])
  }

  function Decode(h: Height, raw: seq<RawEvent>): (items: seq<Item>)
    ensures |items| == |raw|
    ensures forall i :: 0 <= i < |raw| ==>
              items[i] == if raw[i].Decodable? then Ok(Abci(raw[i].payload)) else Err(EventDecoding(h))
  {
    if raw == [] then []
    else [if raw[0].Decodable? then Ok(Abci(raw[0].payload)) else Err(EventDecoding(h))] + Decode(h, raw[1..])
  }

  function RawEvents(b: BlockResults): seq<RawEvent> {
    OrEmpty(b.beginBlock) + Flatten(OrEmpty(b.txs)) + OrEmpty(b.endBlock)
  }

  function BlockEvents(b: BlockResults): seq<Item> {
    [Ok(BlockBegin(b.height))] + Decode(b.height, RawEvents(b)) + [Ok(BlockEnd(b.height))]
  }

  // ---------------------------------------------------------------------------------------
  // Where each event of a block is.

  /** The number of events in all the parts. */
  function Total(parts: seq<seq<RawEvent>>): nat {
    if parts == [] then 0 else Total(parts[..|parts| - 1]) + |parts[|parts| - 1]|
  }

  /** The item is what becomes of this event of block `h`. */
  predicate Stands(item: Item, raw: RawEvent, h: Height) {
    match raw
    case Decodable(payload) => item == Ok(Abci(payload))
    case Malformed => item == Err(EventDecoding(h))
  }

  /** The items from `lo` on stand for these events. */
  ghost predicate StandsFrom(items: seq<Item>, lo: nat, raw: seq<RawEvent>, h: Height) {
    lo + |raw| <= |items| && forall i :: 0 <= i < |raw| ==> Stands(items[lo + i], raw[i], h)
  }

  function Part<T>(xs: Option<seq<T>>): (r: seq<T>)
    ensures xs.Some? ==> r == xs.value
    ensures xs.None? ==> r == []
  {
    match xs
    case Some(es) => es
    case None => []
  }

  /**
   * All events of the block and nothing else, in the order of the chain: the begin marker, the events of
   * the block's beginning, those of each transaction in turn, those of its end, and the end marker.
   */
  ghost predicate IsBlock(items: seq<Item>, b: BlockResults) {
    && HasMarkers(items, b)
    && StandsFrom(items, 1, Part(b.beginBlock), b.height)
    && TxsStand(items, 1 + |Part(b.beginBlock)|, Part(b.txs), b.height)
    && StandsFrom(items, 1 + |Part(b.beginBlock)| + Total(Part(b.txs)), Part(b.endBlock), b.height)
  }

  /** It is as long as its events and two markers, and starts and ends with those. */
  ghost predicate HasMarkers(items: seq<Item>, b: BlockResults) {
    && |items| == 2 + |Part(b.beginBlock)| + Total(Part(b.txs)) + |Part(b.endBlock)|
    && items[0] == Ok(BlockBegin(b.height))
    && items[|items| - 1] == Ok(BlockEnd(b.height))
  }

  /** The events of each transaction follow those of the transactions before it. */
  ghost predicate TxsStand(items: seq<Item>, lo: nat, txs: seq<seq<RawEvent>>, h: Height) {
    forall t :: 0 <= t < |txs| ==> StandsFrom(items, lo + Total(txs[..t]), txs[t], h)
  }

  lemma {:induction false} TotalCons(first: seq<RawEvent>, rest: seq<seq<RawEvent>>)
    ensures Total([first] + rest) == |first| + Total(rest)
  {
    if rest == [] {
      assert [first] + rest == [first] && [first][..0] == [];
    } else {
      assert ([first] + rest)[..|rest|] == [first] + rest[..|rest| - 1];
      TotalCons(first, rest[..|rest| - 1]);
    }
  }

  lemma {:induction false} FlattenTotal(parts: seq<seq<RawEvent>>)
    ensures |Flatten(parts)| == Total(parts)
  {
    if parts != [] {
      FlattenTotal(parts[1..]);
      TotalCons(parts[0], parts[1..]);
      assert parts == [parts[0]] + parts[1..];
    }
  }

  lemma ShiftSlice(a: seq<RawEvent>, xs: seq<RawEvent>, lo: nat, part: seq<RawEvent>)
    requires lo + |part| <= |xs| && xs[lo..lo + |part|] == part
    ensures (a + xs)[|a| + lo..|a| + lo + |part|] == part
  {
    var slice := (a + xs)[|a| + lo..|a| + lo + |part|];
    forall i | 0 <= i < |part|
      ensures slice[i] == part[i]
    {
      assert part[i] == xs[lo..lo + |part|][i] == xs[lo + i];
    }
  }

  lemma TotalBefore(parts: seq<seq<RawEvent>>, t: nat)
    requires 0 < t <= |parts|
    ensures Total(parts[..t]) == |parts[0]| + Total(parts[1..][..t - 1])
  {
    TotalCons(parts[0], parts[1..t]);
    assert parts[..t] == [parts[0]] + parts[1..t] && parts[1..][..t - 1] == parts[1..t];
  }

  /** The t-th part starts where the parts before it end. */
  lemma {:induction false} FlattenPart(parts: seq<seq<RawEvent>>, t: nat, lo: nat, all: seq<RawEvent>)
    requires t < |parts| && lo == Total(parts[..t]) && all == Flatten(parts)
    ensures lo + |parts[t]| <= |all| && all[lo..lo + |parts[t]|] == parts[t]
    decreases t
  {
    if t == 0 {
      assert parts[..0] == [];
    } else {
      var rest := Flatten(parts[1..]);
      TotalBefore(parts, t);
      FlattenPart(parts[1..], t - 1, lo - |parts[0]|, rest);
      ShiftSlice(parts[0], rest, lo - |parts[0]|, parts[t]);
    }
  }

  /** The events of `part` stand at their place among the decoded ones. */
  lemma DecodedPart(h: Height, raw: seq<RawEvent>, lo: nat, part: seq<RawEvent>, items: seq<Item>)
    requires lo + |part| <= |raw| && raw[lo..lo + |part|] == part
    requires items == [Ok(BlockBegin(h))] + Decode(h, raw) + [Ok(BlockEnd(h))]
    ensures StandsFrom(items, 1 + lo, part, h)
  {
    forall i | 0 <= i < |part|
      ensures Stands(items[1 + lo + i], part[i], h)
    {
      assert part[i] == raw[lo..lo + |part|][i] == raw[lo + i];
      assert items[1 + lo + i] == Decode(h, raw)[lo + i];
    }
  }

  lemma MiddlePart(a: seq<RawEvent>, b: seq<RawEvent>, c: seq<RawEvent>, lo: nat, part: seq<RawEvent>)
    requires lo + |part| <= |b| && b[lo..lo + |part|] == part
    ensures (a + b + c)[|a| + lo..|a| + lo + |part|] == part
  {
    var slice := (a + b + c)[|a| + lo..|a| + lo + |part|];
    forall i | 0 <= i < |part|
      ensures slice[i] == part[i]
    {
      assert part[i] == b[lo..lo + |part|][i] == b[lo + i];
    }
  }

  lemma OuterParts(a: seq<RawEvent>, b: seq<RawEvent>, c: seq<RawEvent>)
    ensures (a + b + c)[0..|a|] == a
    ensures (a + b + c)[|a| + |b|..|a| + |b| + |c|] == c
  {
  }

  lemma TxInPlace(h: Height, begin: seq<RawEvent>, txs: seq<seq<RawEvent>>, end: seq<RawEvent>, raw: seq<RawEvent>,
                  items: seq<Item>, t: nat)
    requires t < |txs| && raw == begin + Flatten(txs) + end
    requires items == [Ok(BlockBegin(h))] + Decode(h, raw) + [Ok(BlockEnd(h))]
    ensures StandsFrom(items, 1 + |begin| + Total(txs[..t]), txs[t], h)
  {
    var lo := Total(txs[..t]);
    FlattenPart(txs, t, lo, Flatten(txs));
    MiddlePart(begin, Flatten(txs), end, lo, txs[t]);
    DecodedPart(h, raw, |begin| + lo, txs[t], items);
  }

  lemma TxsInPlace(h: Height, begin: seq<RawEvent>, txs: seq<seq<RawEvent>>, end: seq<RawEvent>, raw: seq<RawEvent>, items: seq<Item>)
    requires raw == begin + Flatten(txs) + end
    requires items == [Ok(BlockBegin(h))] + Decode(h, raw) + [Ok(BlockEnd(h))]
    ensures TxsStand(items, 1 + |begin|, txs, h)
  {
    forall t | 0 <= t < |txs|
      ensures StandsFrom(items, 1 + |begin| + Total(txs[..t]), txs[t], h)
    {
      TxInPlace(h, begin, txs, end, raw, items, t);
    }
  }

  lemma OthersInPlace(h: Height, begin: seq<RawEvent>, middle: seq<RawEvent>, end: seq<RawEvent>, raw: seq<RawEvent>,
                      items: seq<Item>, total: nat)
    requires raw == begin + middle + end && |middle| == total
    requires items == [Ok(BlockBegin(h))] + Decode(h, raw) + [Ok(BlockEnd(h))]
    ensures |items| == 2 + |begin| + total + |end|
    ensures items[0] == Ok(BlockBegin(h)) && items[|items| - 1] == Ok(BlockEnd(h))
    ensures StandsFrom(items, 1, begin, h) && StandsFrom(items, 1 + |begin| + total, end, h)
  {
    OuterParts(begin, middle, end);
    DecodedPart(h, raw, 0, begin, items);
    DecodedPart(h, raw, |begin| + |middle|, end, items);
  }

  lemma Assembled(b: BlockResults, begin: seq<RawEvent>, txs: seq<seq<RawEvent>>, end: seq<RawEvent>, items: seq<Item>)
    requires begin == Part(b.beginBlock) && txs == Part(b.txs) && end == Part(b.endBlock)
    requires |items| == 2 + |begin| + Total(txs) + |end|
    requires items[0] == Ok(BlockBegin(b.height)) && items[|items| - 1] == Ok(BlockEnd(b.height))
    requires StandsFrom(items, 1, begin, b.height) && StandsFrom(items, 1 + |begin| + Total(txs), end, b.height)
    requires TxsStand(items, 1 + |begin|, txs, b.height)
    ensures IsBlock(items, b)
  {
  }

  /** Every event of the block is there, at its place. */
  lemma EventsInPlace(b: BlockResults)
    ensures IsBlock(BlockEvents(b), b)
  {
    var begin, txs, end := Part(b.beginBlock), Part(b.txs), Part(b.endBlock);
    FlattenTotal(txs);
    OthersInPlace(b.height, begin, Flatten(txs), end, RawEvents(b), BlockEvents(b), Total(txs));
    TxsInPlace(b.height, begin, txs, end, RawEvents(b), BlockEvents(b));
    Assembled(b, begin, txs, end, BlockEvents(b));
  }

  // ---------------------------------------------------------------------------------------
  // The window of concurrent fetches.

  /** What the height stream delivers: a height or a failed height query. */
  type Input = BlockHeights.Item

  /** One attempt to query the results of a block; failures are told apart by a number. */
  type Attempt = Result<BlockResults, nat>

  /** One element of the window: its input and the outcomes of the attempts made so far. */
  datatype Fetch = Fetch(input: Input, log: seq<Attempt>)

  /** The result of `retrieve_all_block_events` once the fetch needs no further attempt. */
  function Outcome(f: Fetch, maxAttempts: u64): Option<Result<seq<Item>, StreamError>> {
    if f.input.Failed? then Some(Err(HeightQuery(f.input.error)))
    else if f.log == [] then None
    else
      match f.log[|f.log| - 1]
      case Ok(results) => Some(Ok(BlockEvents(results)))
      case Err(e) => if |f.log| >= maxAttempts then Some(Err(BlockResultsQuery(e))) else None
  }

  /** What one fetched input contributes to the flattened stream. */
  function Contribution(f: Fetch, maxAttempts: u64): seq<Item> {
    match Outcome(f, maxAttempts)
    case None => []
    case Some(Err(e)) => [Err(e)]
    case Some(Ok(items)) => items
  }

  /** The stream that handles one input after the other. */
  function Sequential(fs: seq<Fetch>, maxAttempts: u64): seq<Item> {
    if fs == [] then []
    else Sequential(fs[..|fs| - 1], maxAttempts) + Contribution(fs[|fs| - 1], maxAttempts)
  }

  /**
   * `events` between two polls: the ordered window of fetches in flight, the block being flattened,
   * and, as history, what was read from the height stream, delivered in order and put out.
   */
  datatype State = State(
    window: seq<Fetch>,
    current: seq<Item>,
    taken: seq<Input>,
    delivered: seq<Fetch>,
    output: seq<Item>)

  const INIT := State([], [], [], [], [])

  datatype Step =
    | Spawn(input: Input)                  // the buffer reads one more height
    | TryFetch(i: nat, attempt: Attempt)   // an attempt of the i-th fetch in flight completes
    | Deliver                              // the oldest fetch is complete and leaves the buffer
    | Emit                                 // the next event of the current block is put out

  predicate Enabled(s: State, step: Step, buffer: nat, maxAttempts: u64) {
    match step
    case Spawn(_) => |s.window| < buffer
    case TryFetch(i, _) => i < |s.window| && Outcome(s.window[i], maxAttempts).None?
    case Deliver => s.current == [] && s.window != [] && Outcome(s.window[0], maxAttempts).Some?
    case Emit => s.current != []
  }

  function Apply(s: State, step: Step, buffer: nat, maxAttempts: u64): State {
    if !Enabled(s, step, buffer, maxAttempts) then s
    else
      match step
      case Spawn(input) => s.(window := s.window + [Fetch(input, [])], taken := s.taken + [input])
      case TryFetch(i, a) =>
        s.(window := s.window[i := s.window[i].(log := s.window[i].log + [a])])
      case Deliver =>
        s.(window := s.window[1..],
           current := Contribution(s.window[0], maxAttempts),
           delivered := s.delivered + [s.window[0]])
      case Emit => s.(current := s.current[1..], output := s.output + [s.current[0]])
  }

  /** Any interleaving whatsoever: steps that are not enabled are skipped. */
  function Run(steps: seq<Step>, buffer: nat, maxAttempts: u64): State {
    if steps == [] then INIT
    else Apply(Run(steps[..|steps| - 1], buffer, maxAttempts), steps[|steps| - 1], buffer, maxAttempts)
  }

  /** The fetches' inputs, position by position. */
  predicate Reads(fs: seq<Fetch>, inputs: seq<Input>) {
    |fs| == |inputs| && forall i :: 0 <= i < |fs| ==> fs[i].input == inputs[i]
  }

  /** The attempts of a fetch are those of one retried request: only the last one may have succeeded. */
  predicate WellRetried(f: Fetch, maxAttempts: u64) {
    && (f.input.Failed? ==> f.log == [])
    && |f.log| <= Budget(maxAttempts)
    && forall k :: 0 <= k < |f.log| - 1 ==> f.log[k].Err?
  }

  predicate AllRetried(fs: seq<Fetch>, maxAttempts: u64) {
    forall f <- fs :: WellRetried(f, maxAttempts)
  }

  predicate AllComplete(fs: seq<Fetch>, maxAttempts: u64) {
    forall f <- fs :: Outcome(f, maxAttempts).Some? && WellRetried(f, maxAttempts)
  }

  ghost predicate Invariant(s: State, buffer: nat, maxAttempts: u64) {
    && |s.window| <= buffer
    && Reads(s.delivered + s.window, s.taken)
    && AllComplete(s.delivered, maxAttempts)
    && AllRetried(s.window, maxAttempts)
    && s.output + s.current == Sequential(s.delivered, maxAttempts)
  }

  lemma MoveFirst(a: seq<Item>, b: seq<Item>)
    requires b != []
    ensures a + [b[0]] + b[1..] == a + b
  {
  }

  lemma SequentialSnoc(fs: seq<Fetch>, f: Fetch, maxAttempts: u64)
    ensures Sequential(fs + [f], maxAttempts) == Sequential(fs, maxAttempts) + Contribution(f, maxAttempts)
  {
    assert (fs + [f])[..|fs|] == fs;
  }

  lemma ReadsOneMore(delivered: seq<Fetch>, window: seq<Fetch>, taken: seq<Input>, f: Fetch)
    requires Reads(delivered + window, taken)
    ensures Reads(delivered + (window + [f]), taken + [f.input])
  {
    assert delivered + (window + [f]) == delivered + window + [f];
  }

  lemma SpawnKeepsInvariant(s: State, input: Input, buffer: nat, maxAttempts: u64)
    requires Invariant(s, buffer, maxAttempts)
    ensures Invariant(Apply(s, Spawn(input), buffer, maxAttempts), buffer, maxAttempts)
  {
    var f := Fetch(input, []);
    ReadsOneMore(s.delivered, s.window, s.taken, f);
    assert AllRetried(s.window + [f], maxAttempts);
  }

  lemma AttemptKeepsRetried(f: Fetch, a: Attempt, maxAttempts: u64)
    requires WellRetried(f, maxAttempts) && Outcome(f, maxAttempts).None?
    ensures WellRetried(f.(log := f.log + [a]), maxAttempts)
  {
  }

  lemma ReadsAfterUpdate(delivered: seq<Fetch>, window: seq<Fetch>, taken: seq<Input>, i: nat, f: Fetch)
    requires Reads(delivered + window, taken) && i < |window| && f.input == window[i].input
    ensures Reads(delivered + window[i := f], taken)
  {
    assert delivered + window[i := f] == (delivered + window)[|delivered| + i := f];
  }

  lemma TryFetchKeepsInvariant(s: State, i: nat, a: Attempt, buffer: nat, maxAttempts: u64)
    requires Invariant(s, buffer, maxAttempts)
    ensures Invariant(Apply(s, TryFetch(i, a), buffer, maxAttempts), buffer, maxAttempts)
  {
    if i < |s.window| && Outcome(s.window[i], maxAttempts).None? {
      var f := s.window[i].(log := s.window[i].log + [a]);
      AttemptKeepsRetried(s.window[i], a, maxAttempts);
      ReadsAfterUpdate(s.delivered, s.window, s.taken, i, f);
      assert AllRetried(s.window[i := f], maxAttempts);
    }
  }

  lemma DeliverKeepsInvariant(s: State, buffer: nat, maxAttempts: u64)
    requires Invariant(s, buffer, maxAttempts)
    ensures Invariant(Apply(s, Deliver, buffer, maxAttempts), buffer, maxAttempts)
  {
    if Enabled(s, Deliver, buffer, maxAttempts) {
      assert s.delivered + [s.window[0]] + s.window[1..] == s.delivered + s.window;
      SequentialSnoc(s.delivered, s.window[0], maxAttempts);
      assert s.output + s.current == s.output;
    }
  }

  lemma EmitKeepsInvariant(s: State, buffer: nat, maxAttempts: u64)
    requires Invariant(s, buffer, maxAttempts)
    ensures Invariant(Apply(s, Emit, buffer, maxAttempts), buffer, maxAttempts)
  {
    if s.current != [] {
      MoveFirst(s.output, s.current);
    }
  }

  /**
   * Concurrency is invisible: under every schedule, with any window size, what was put out together
   * with what is about to be put out is what fetching one block after the other would produce for the
   * delivered inputs, and these are the first inputs read, in the order read.
   */
  lemma {:induction false} ConcurrentIsSequential(steps: seq<Step>, buffer: nat, maxAttempts: u64)
    ensures Invariant(Run(steps, buffer, maxAttempts), buffer, maxAttempts)
  {
    if steps != [] {
      var before := steps[..|steps| - 1];
      ConcurrentIsSequential(before, buffer, maxAttempts);
      var s := Run(before, buffer, maxAttempts);
      match steps[|steps| - 1]
      case Spawn(input) => SpawnKeepsInvariant(s, input, buffer, maxAttempts);
      case TryFetch(i, a) => TryFetchKeepsInvariant(s, i, a, buffer, maxAttempts);
      case Deliver => DeliverKeepsInvariant(s, buffer, maxAttempts);
      case Emit => EmitKeepsInvariant(s, buffer, maxAttempts);
    }
  }

  /** `reply(i)(k)` is what the node answers to the k-th attempt for the i-th input, whenever it is made. */
  type Replies = nat -> nat -> Attempt

  ghost predicate Answers(reply: Replies, fs: seq<Fetch>) {
    forall i: nat :: i < |fs| ==> Logs(reply(i), fs[i].log)
  }

  ghost predicate Logs(attempt: nat -> Attempt, log: seq<Attempt>) {
    forall k: nat :: k < |log| ==> log[k] == attempt(k)
  }

  lemma LogIsRetried(f: Fetch, attempt: nat -> Attempt, maxAttempts: u64)
    requires f.input.Block? && WellRetried(f, maxAttempts) && Outcome(f, maxAttempts).Some? && Logs(attempt, f.log)
    ensures |f.log| > 0 && Retried(attempt, maxAttempts, attempt(|f.log| - 1), |f.log|)
  {
  }

  lemma SameLogs(a: seq<Attempt>, b: seq<Attempt>, attempt: nat -> Attempt)
    requires |a| == |b| && Logs(attempt, a) && Logs(attempt, b)
    ensures a == b
  {
  }

  /** A delivered fetch ends as `with_retry` would on the same attempts. */
  lemma OutcomeIsRetried(f: Fetch, maxAttempts: u64, attempt: nat -> Attempt)
    requires f.input.Block? && WellRetried(f, maxAttempts) && Outcome(f, maxAttempts).Some? && Logs(attempt, f.log)
    ensures exists res ::
              && Retried(attempt, maxAttempts, res, |f.log|)
              && Outcome(f, maxAttempts) == Some(match res case Ok(b) => Ok(BlockEvents(b)) case Err(e) => Err(BlockResultsQuery(e)))
  {
    LogIsRetried(f, attempt, maxAttempts);
  }

  /** The input and the replies determine a complete fetch. */
  lemma FetchIsDetermined(f: Fetch, f': Fetch, attempt: nat -> Attempt, maxAttempts: u64)
    requires f.input == f'.input && WellRetried(f, maxAttempts) && WellRetried(f', maxAttempts)
    requires Outcome(f, maxAttempts).Some? && Outcome(f', maxAttempts).Some?
    requires Logs(attempt, f.log) && Logs(attempt, f'.log)
    ensures f == f'
  {
    if f.input.Block? {
      LogIsRetried(f, attempt, maxAttempts);
      LogIsRetried(f', attempt, maxAttempts);
      RetriedIsUnique(attempt, maxAttempts, attempt(|f.log| - 1), |f.log|, attempt(|f'.log| - 1), |f'.log|);
      SameLogs(f.log, f'.log, attempt);
    }
  }

  /** Runs that read the same inputs and get the same replies deliver the same fetches, one just fewer. */
  lemma DeliveredAgree(s: State, t: State, inputs: seq<Input>, reply: Replies, buffer: nat, buffer': nat, maxAttempts: u64)
    requires Invariant(s, buffer, maxAttempts) && Invariant(t, buffer', maxAttempts)
    requires s.taken <= inputs && t.taken <= inputs
    requires Answers(reply, s.delivered) && Answers(reply, t.delivered) && |s.delivered| <= |t.delivered|
    ensures s.delivered <= t.delivered
  {
    forall i | 0 <= i < |s.delivered|
      ensures s.delivered[i] == t.delivered[i]
    {
      assert (s.delivered + s.window)[i] == s.delivered[i] && (t.delivered + t.window)[i] == t.delivered[i];
      FetchIsDetermined(s.delivered[i], t.delivered[i], reply(i), maxAttempts);
    }
  }

  lemma {:induction false} SequentialGrows(fs: seq<Fetch>, gs: seq<Fetch>, maxAttempts: u64)
    requires fs <= gs
    ensures Sequential(fs, maxAttempts) <= Sequential(gs, maxAttempts)
  {
    if |fs| < |gs| {
      SequentialGrows(fs, gs[..|gs| - 1], maxAttempts);
    } else {
      assert fs == gs;
    }
  }

  lemma OutputsAgree(s: State, t: State, inputs: seq<Input>, reply: Replies, buffer: nat, buffer': nat, maxAttempts: u64)
    requires Invariant(s, buffer, maxAttempts) && Invariant(t, buffer', maxAttempts)
    requires s.taken <= inputs && t.taken <= inputs
    requires Answers(reply, s.delivered) && Answers(reply, t.delivered) && |s.delivered| <= |t.delivered|
    ensures s.output <= t.output || t.output <= s.output
  {
    DeliveredAgree(s, t, inputs, reply, buffer, buffer', maxAttempts);
    SequentialGrows(s.delivered, t.delivered, maxAttempts);
    var all := Sequential(t.delivered, maxAttempts);
    assert s.output <= Sequential(s.delivered, maxAttempts) <= all;
    assert t.output <= all;
  }

  /**
   * The output does not depend on the schedule: given the inputs and the node's replies, any two runs,
   * with any window sizes and at any moments, put out the same stream as far as both have come.
   */
  lemma SchedulesAgree(one: seq<Step>, other: seq<Step>, inputs: seq<Input>, reply: Replies,
                       buffer: nat, buffer': nat, maxAttempts: u64)
    requires Run(one, buffer, maxAttempts).taken <= inputs && Run(other, buffer', maxAttempts).taken <= inputs
    requires Answers(reply, Run(one, buffer, maxAttempts).delivered)
    requires Answers(reply, Run(other, buffer', maxAttempts).delivered)
    ensures var s, t := Run(one, buffer, maxAttempts), Run(other, buffer', maxAttempts);
            s.output <= t.output || t.output <= s.output
  {
    var s, t := Run(one, buffer, maxAttempts), Run(other, buffer', maxAttempts);
    ConcurrentIsSequential(one, buffer, maxAttempts);
    ConcurrentIsSequential(other, buffer', maxAttempts);
    if |s.delivered| <= |t.delivered| {
      OutputsAgree(s, t, inputs, reply, buffer, buffer', maxAttempts);
    } else {
      OutputsAgree(t, s, inputs, reply, buffer', buffer, maxAttempts);
    }
  }

  predicate IsDrained(s: State) {
    s.window == [] && s.current == []
  }

  lemma DrainedOutput(s: State, buffer: nat, maxAttempts: u64)
    requires Invariant(s, buffer, maxAttempts) && IsDrained(s)
    ensures |s.delivered| == |s.taken| && s.output == Sequential(s.delivered, maxAttempts)
  {
    assert s.delivered + s.window == s.delivered;
    assert s.output + s.current == s.output;
  }

  /** Two runs that have worked off the same inputs have put out the same stream. */
  lemma DrainedSchedulesAgree(one: seq<Step>, other: seq<Step>, reply: Replies, buffer: nat, buffer': nat, maxAttempts: u64)
    requires IsDrained(Run(one, buffer, maxAttempts)) && IsDrained(Run(other, buffer', maxAttempts))
    requires Run(one, buffer, maxAttempts).taken == Run(other, buffer', maxAttempts).taken
    requires Answers(reply, Run(one, buffer, maxAttempts).delivered)
    requires Answers(reply, Run(other, buffer', maxAttempts).delivered)
    ensures Run(one, buffer, maxAttempts).output == Run(other, buffer', maxAttempts).output
  {
    var s, t := Run(one, buffer, maxAttempts), Run(other, buffer', maxAttempts);
    ConcurrentIsSequential(one, buffer, maxAttempts);
    ConcurrentIsSequential(other, buffer', maxAttempts);
    DrainedOutput(s, buffer, maxAttempts);
    DrainedOutput(t, buffer', maxAttempts);
    DeliveredAgree(s, t, s.taken, reply, buffer, buffer', maxAttempts);
    assert s.delivered == t.delivered;
  }

  // ---------------------------------------------------------------------------------------
  // The bracket structure of the stream.

  datatype Position = Outside | Inside(height: Height) | Broken

  /** Follows block boundaries: a block begins only outside and ends only its own block. */
  function Follow(p: Position, e: Event): Position {
    match e
    case BlockBegin(h) => if p.Outside? then Inside(h) else Broken
    case Abci(_) => if p.Inside? then p else Broken
    case BlockEnd(h) => if p == Inside(h) then Outside else Broken
  }

  /** The position after a stream prefix; errors are not events. */
  function After(p: Position, items: seq<Item>): Position {
    if items == [] then p
    else
      var before := After(p, items[..|items| - 1]);
      match items[|items| - 1]
      case Ok(e) => Follow(before, e)
      case Err(_) => before
  }

  lemma AfterSnoc(p: Position, items: seq<Item>, x: Item)
    ensures After(p, items + [x]) == if x.Ok? then Follow(After(p, items), x.value) else After(p, items)
  {
    assert (items + [x])[..|items|] == items;
  }

  lemma {:induction false} AfterAppend(p: Position, a: seq<Item>, b: seq<Item>)
    ensures After(p, a + b) == After(After(p, a), b)
  {
    if b == [] {
      assert a + b == a;
    } else {
      assert (a + b)[..|a + b| - 1] == a + b[..|b| - 1];
      AfterAppend(p, a, b[..|b| - 1]);
    }
  }

  lemma {:induction false} AfterDecoded(h: Height, raw: seq<RawEvent>)
    ensures After(Inside(h), Decode(h, raw)) == Inside(h)
  {
    if raw != [] {
      AfterDecoded(h, raw[1..]);
      AfterAppend(Inside(h), [Decode(h, raw)[0]], Decode(h, raw[1..]));
      AfterSnoc(Inside(h), [], Decode(h, raw)[0]);
      assert [] + [Decode(h, raw)[0]] == [Decode(h, raw)[0]];
    }
  }

  /** A run of events that stays inside a block, between the block's markers. */
  lemma Enclosed(h: Height, inner: seq<Item>)
    requires After(Inside(h), inner) == Inside(h)
    ensures After(Outside, [Ok(BlockBegin(h))] + inner + [Ok(BlockEnd(h))]) == Outside
  {
    var begin: seq<Item> := [Ok(BlockBegin(h))];
    AfterOne(Outside, Ok(BlockBegin(h)));
    AfterAppend(Outside, begin, inner);
    AfterSnoc(Outside, begin + inner, Ok(BlockEnd(h)));
  }

  lemma AfterOne(p: Position, x: Item)
    ensures After(p, [x]) == if x.Ok? then Follow(p, x.value) else p
  {
    AfterSnoc(p, [], x);
    assert [] + [x] == [x];
  }

  lemma BlockIsBracketed(b: BlockResults)
    ensures After(Outside, BlockEvents(b)) == Outside
  {
    AfterDecoded(b.height, RawEvents(b));
    Enclosed(b.height, Decode(b.height, RawEvents(b)));
  }

  lemma {:induction false} SequentialIsBracketed(fs: seq<Fetch>, maxAttempts: u64)
    ensures After(Outside, Sequential(fs, maxAttempts)) == Outside
  {
    if fs != [] {
      var f := fs[|fs| - 1];
      SequentialIsBracketed(fs[..|fs| - 1], maxAttempts);
      AfterAppend(Outside, Sequential(fs[..|fs| - 1], maxAttempts), Contribution(f, maxAttempts));
      match Outcome(f, maxAttempts)
      case None =>
      case Some(Err(e)) => AfterSnoc(Outside, [], Err(e)); assert [] + [Err(e)] == Contribution(f, maxAttempts);
      case Some(Ok(items)) => BlockIsBracketed(f.log[|f.log| - 1].value);
    }
  }

  lemma {:induction false} BrokenStaysBroken(items: seq<Item>)
    ensures After(Broken, items) == Broken
  {
    if items != [] {
      BrokenStaysBroken(items[..|items| - 1]);
    }
  }

  /** At no moment of any run is a block boundary out of place. */
  lemma OutputIsBracketed(steps: seq<Step>, buffer: nat, maxAttempts: u64)
    ensures !After(Outside, Run(steps, buffer, maxAttempts).output).Broken?
  {
    var s := Run(steps, buffer, maxAttempts);
    ConcurrentIsSequential(steps, buffer, maxAttempts);
    SequentialIsBracketed(s.delivered, maxAttempts);
    AfterAppend(Outside, s.output, s.current);
    BrokenStaysBroken(s.current);
  }

  // ---------------------------------------------------------------------------------------
  // Delivered blocks are whole.

  /** The stream contains the whole block as one piece. */
  ghost predicate Contains(items: seq<Item>, b: BlockResults) {
    exists lo: nat, hi: nat :: lo <= hi <= |items| && IsBlock(items[lo..hi], b)
  }

  /** If the block was fetched, the stream contains it with all its events. */
  ghost predicate Whole(items: seq<Item>, f: Fetch) {
    f.input.Block? && f.log != [] && f.log[|f.log| - 1].Ok? ==> Contains(items, f.log[|f.log| - 1].value)
  }

  ghost predicate BlocksAreWhole(items: seq<Item>, fs: seq<Fetch>) {
    forall f <- fs :: Whole(items, f)
  }

  lemma SliceBefore(items: seq<Item>, c: seq<Item>, lo: nat, hi: nat)
    requires lo <= hi <= |items|
    ensures (items + c)[lo..hi] == items[lo..hi]
  {
  }

  lemma SliceAfter(a: seq<Item>, items: seq<Item>, lo: nat, hi: nat)
    requires lo <= hi <= |items|
    ensures (a + items)[|a| + lo..|a| + hi] == items[lo..hi]
  {
    var moved := (a + items)[|a| + lo..|a| + hi];
    forall i | 0 <= i < hi - lo
      ensures moved[i] == items[lo..hi][i]
    {
      assert moved[i] == (a + items)[|a| + lo + i];
    }
  }

  lemma ContainsBefore(items: seq<Item>, c: seq<Item>, b: BlockResults)
    requires Contains(items, b)
    ensures Contains(items + c, b)
  {
    var lo: nat, hi: nat :| lo <= hi <= |items| && IsBlock(items[lo..hi], b);
    SliceBefore(items, c, lo, hi);
  }

  lemma ContainsAfter(a: seq<Item>, items: seq<Item>, b: BlockResults)
    requires Contains(items, b)
    ensures Contains(a + items, b)
  {
    var lo: nat, hi: nat :| lo <= hi <= |items| && IsBlock(items[lo..hi], b);
    SliceAfter(a, items, lo, hi);
  }

  lemma ContributionIsWhole(f: Fetch, maxAttempts: u64)
    ensures Whole(Contribution(f, maxAttempts), f)
  {
    if f.input.Block? && f.log != [] && f.log[|f.log| - 1].Ok? {
      var b := f.log[|f.log| - 1].value;
      var items := BlockEvents(b);
      EventsInPlace(b);
      assert items[0..|items|] == items;
    }
  }

  lemma WholeSnoc(fs: seq<Fetch>, f: Fetch, done: seq<Item>, next: seq<Item>)
    requires BlocksAreWhole(done, fs) && Whole(next, f)
    ensures BlocksAreWhole(done + next, fs + [f])
  {
    if f.input.Block? && f.log != [] && f.log[|f.log| - 1].Ok? {
      ContainsAfter(done, next, f.log[|f.log| - 1].value);
    }
    forall g <- fs
      ensures Whole(done + next, g)
    {
      WholeBefore(done, next, g);
    }
    OneMoreWhole(done + next, fs, f);
  }

  lemma OneMoreWhole(items: seq<Item>, fs: seq<Fetch>, f: Fetch)
    requires BlocksAreWhole(items, fs) && Whole(items, f)
    ensures BlocksAreWhole(items, fs + [f])
  {
  }

  lemma WholeBefore(items: seq<Item>, c: seq<Item>, f: Fetch)
    requires Whole(items, f)
    ensures Whole(items + c, f)
  {
    if f.input.Block? && f.log != [] && f.log[|f.log| - 1].Ok? {
      ContainsBefore(items, c, f.log[|f.log| - 1].value);
    }
  }

  lemma WholeStep(fs: seq<Fetch>, f: Fetch, maxAttempts: u64)
    requires BlocksAreWhole(Sequential(fs, maxAttempts), fs)
    ensures BlocksAreWhole(Sequential(fs + [f], maxAttempts), fs + [f])
  {
    ContributionIsWhole(f, maxAttempts);
    SequentialSnoc(fs, f, maxAttempts);
    WholeSnoc(fs, f, Sequential(fs, maxAttempts), Contribution(f, maxAttempts));
  }

  lemma {:induction false} SequentialIsWhole(fs: seq<Fetch>, maxAttempts: u64)
    ensures BlocksAreWhole(Sequential(fs, maxAttempts), fs)
  {
    if fs != [] {
      var p, f := fs[..|fs| - 1], fs[|fs| - 1];
      assert p + [f] == fs;
      SequentialIsWhole(p, maxAttempts);
      WholeStep(p, f, maxAttempts);
    }
  }

  /**
   * At any moment of any run, every block fetched and delivered is put out, or about to be, with all its
   * events in the order of the chain and in one piece.
   */
  lemma DeliveredBlocksAreWhole(steps: seq<Step>, buffer: nat, maxAttempts: u64)
    ensures var s := Run(steps, buffer, maxAttempts);
            BlocksAreWhole(s.output + s.current, s.delivered) && (s.current == [] ==> BlocksAreWhole(s.output, s.delivered))
  {
    var s := Run(steps, buffer, maxAttempts);
    ConcurrentIsSequential(steps, buffer, maxAttempts);
    SequentialIsWhole(s.delivered, maxAttempts);
    assert s.current == [] ==> s.output + s.current == s.output;
  }

  // ---------------------------------------------------------------------------------------
  // Heights and events together.

  /** What a subscriber learns about one input: its block began, or it failed. */
  datatype Mark = Began(height: Height) | Missed(error: StreamError)

  function MarkOf(x: Item): seq<Mark> {
    match x
    case Ok(BlockBegin(h)) => [Began(h)]
    case Err(HeightQuery(_)) => [Missed(x.error)]
    case Err(BlockResultsQuery(_)) => [Missed(x.error)]
    case _ => []
  }

  /** The blocks begun and the failed inputs of a stream, in order. */
  function Marks(items: seq<Item>): seq<Mark> {
    if items == [] then [] else Marks(items[..|items| - 1]) + MarkOf(items[|items| - 1])
  }

  lemma MarksSnoc(items: seq<Item>, x: Item)
    ensures Marks(items + [x]) == Marks(items) + MarkOf(x)
  {
    assert (items + [x])[..|items|] == items;
  }

  lemma {:induction false} MarksAppend(a: seq<Item>, b: seq<Item>)
    ensures Marks(a + b) == Marks(a) + Marks(b)
  {
    if b == [] {
      assert a + b == a;
    } else {
      assert (a + b)[..|a + b| - 1] == a + b[..|b| - 1];
      MarksAppend(a, b[..|b| - 1]);
    }
  }

  lemma {:induction false} NothingMarked(items: seq<Item>)
    requires forall x <- items :: MarkOf(x) == []
    ensures Marks(items) == []
  {
    if items != [] {
      NothingMarked(items[..|items| - 1]);
    }
  }

  lemma DecodedIsUnmarked(h: Height, raw: seq<RawEvent>)
    ensures Marks(Decode(h, raw)) == []
  {
    NothingMarked(Decode(h, raw));
  }

  lemma MarksOfOne(x: Item)
    ensures Marks([x]) == MarkOf(x)
  {
    MarksSnoc([], x);
    assert [] + [x] == [x];
  }

  /** A block's events begin that block, once, and contain no failed input. */
  lemma BlockBeginsOnce(b: BlockResults)
    ensures Marks(BlockEvents(b)) == [Began(b.height)]
  {
    var begin: seq<Item> := [Ok(BlockBegin(b.height))];
    var inner := Decode(b.height, RawEvents(b));
    MarksOfOne(Ok(BlockBegin(b.height)));
    DecodedIsUnmarked(b.height, RawEvents(b));
    MarksAppend(begin, inner);
    MarksSnoc(begin + inner, Ok(BlockEnd(b.height)));
  }

  /** The node answers about the block it was asked for. */
  ghost predicate AboutItsBlock(f: Fetch) {
    f.input.Block? ==> forall a <- f.log :: a.Ok? ==> a.value.height == f.input.value
  }

  ghost predicate AllAboutTheirBlocks(fs: seq<Fetch>) {
    forall f <- fs :: AboutItsBlock(f)
  }

  /** The one mark a complete fetch leaves: its block if some attempt succeeded, its last error otherwise. */
  function MarkFor(f: Fetch): Mark {
    match f.input
    case Failed(e) => Missed(HeightQuery(e))
    case Block(h) =>
      if f.log == [] || f.log[|f.log| - 1].Ok? then Began(h) else Missed(BlockResultsQuery(f.log[|f.log| - 1].error))
  }

  lemma ContributionLeavesOneMark(f: Fetch, maxAttempts: u64)
    requires Outcome(f, maxAttempts).Some? && AboutItsBlock(f)
    ensures Marks(Contribution(f, maxAttempts)) == [MarkFor(f)]
  {
    match Outcome(f, maxAttempts)
    case Some(Err(e)) => MarksOfOne(Err(e));
    case Some(Ok(_)) => BlockBeginsOnce(f.log[|f.log| - 1].value);
  }

  /** One mark per fetch, in order. */
  ghost predicate MarkedBy(marks: seq<Mark>, fs: seq<Fetch>) {
    |marks| == |fs| && forall i :: 0 <= i < |fs| ==> marks[i] == MarkFor(fs[i])
  }

  lemma MarkedBySnoc(marks: seq<Mark>, fs: seq<Fetch>, f: Fetch)
    requires MarkedBy(marks, fs)
    ensures MarkedBy(marks + [MarkFor(f)], fs + [f])
  {
  }

  lemma SequentialMarksStep(p: seq<Fetch>, f: Fetch, maxAttempts: u64)
    requires MarkedBy(Marks(Sequential(p, maxAttempts)), p)
    requires Outcome(f, maxAttempts).Some? && AboutItsBlock(f)
    ensures MarkedBy(Marks(Sequential(p + [f], maxAttempts)), p + [f])
  {
    var done, next := Sequential(p, maxAttempts), Contribution(f, maxAttempts);
    SequentialSnoc(p, f, maxAttempts);
    ContributionLeavesOneMark(f, maxAttempts);
    MarksAppend(done, next);
    MarkedBySnoc(Marks(done), p, f);
  }

  lemma {:induction false} SequentialMarks(fs: seq<Fetch>, maxAttempts: u64)
    requires AllComplete(fs, maxAttempts) && AllAboutTheirBlocks(fs)
    ensures MarkedBy(Marks(Sequential(fs, maxAttempts)), fs)
  {
    if fs != [] {
      var p, f := fs[..|fs| - 1], fs[|fs| - 1];
      assert p + [f] == fs;
      SequentialMarks(p, maxAttempts);
      SequentialMarksStep(p, f, maxAttempts);
    }
  }

  /** The i-th mark is that of the i-th input: a begun block only for that height, an error only if it failed. */
  ghost predicate InPlace(marks: seq<Mark>, inputs: seq<Input>, fs: seq<Fetch>) {
    && |marks| <= |fs| <= |inputs|
    && forall i :: 0 <= i < |marks| ==> fs[i].input == inputs[i] && marks[i] == MarkFor(fs[i])
  }

  /**
   * The whole subscription, at any moment of any run, whatever fails. `queries` is any sequence of
   * results of the height query and the fetches have read any part of its gap-free heights. Then the
   * blocks begun and the errors put out correspond one to one, in order, to the first of those heights:
   * each height begins its own block or leaves one error in its place.
   */
  lemma EveryBlockOnceInOrder(queries: seq<BlockHeights.Item>, steps: seq<Step>, buffer: nat, maxAttempts: u64)
    requires Run(steps, buffer, maxAttempts).taken <= BlockHeights.GapFilled(queries)
    requires AllAboutTheirBlocks(Run(steps, buffer, maxAttempts).delivered)
    ensures var s := Run(steps, buffer, maxAttempts);
            && InPlace(Marks(s.output), BlockHeights.GapFilled(queries), s.delivered)
            && (s.current == [] ==> |Marks(s.output)| == |s.delivered|)
  {
    var s := Run(steps, buffer, maxAttempts);
    ConcurrentIsSequential(steps, buffer, maxAttempts);
    SequentialMarks(s.delivered, maxAttempts);
    MarksAppend(s.output, s.current);
    ReadsPrefix(s.delivered, s.window, s.taken);
    assert s.current == [] ==> s.output + s.current == s.output;
  }

  lemma ReadsPrefix(fs: seq<Fetch>, rest: seq<Fetch>, inputs: seq<Input>)
    requires Reads(fs + rest, inputs)
    ensures |fs| <= |inputs| && forall i :: 0 <= i < |fs| ==> fs[i].input == inputs[i]
  {
    assert forall i :: 0 <= i < |fs| ==> (fs + rest)[i] == fs[i];
  }

  /** The heights of the blocks begun. */
  function Begun(marks: seq<Mark>): seq<BlockHeights.Item> {
    if marks == [] then []
    else
      var m := marks[|marks| - 1];
      Begun(marks[..|marks| - 1]) + if m.Began? then [BlockHeights.Block(m.height)] else []
  }

  lemma {:induction false} BegunAsRead(marks: seq<Mark>, inputs: seq<Input>, fs: seq<Fetch>)
    requires InPlace(marks, inputs, fs)
    requires forall i :: 0 <= i < |marks| && inputs[i].Block? ==> marks[i].Began?
    ensures Begun(marks) == BlockHeights.Heights(inputs[..|marks|])
  {
    if marks != [] {
      var n := |marks| - 1;
      BegunAsRead(marks[..n], inputs, fs);
      assert inputs[..n + 1][..n] == inputs[..n];
    }
  }

  predicate Ascending(marks: seq<Mark>) {
    forall i, j :: 0 <= i < j < |marks| && marks[i].Began? && marks[j].Began? ==> marks[i].height < marks[j].height
  }

  /** Every block asked for was eventually answered. */
  predicate NoneMissed(marks: seq<Mark>) {
    forall m <- marks :: m.Missed? ==> m.error.HeightQuery?
  }

  lemma InPlaceAscends(marks: seq<Mark>, inputs: seq<Input>, fs: seq<Fetch>)
    requires InPlace(marks, inputs, fs) && BlockHeights.StrictlyAscending(inputs)
    ensures Ascending(marks)
  {
  }

  lemma InPlaceIsContiguous(marks: seq<Mark>, queries: seq<BlockHeights.Item>, inputs: seq<Input>, fs: seq<Fetch>)
    requires inputs == BlockHeights.GapFilled(queries) && InPlace(marks, inputs, fs) && NoneMissed(marks)
    ensures Begun(marks) <= BlockHeights.FullRange(queries)
    ensures |marks| == |inputs| ==> Begun(marks) == BlockHeights.FullRange(queries)
  {
    BegunAsRead(marks, inputs, fs);
    BlockHeights.HeightsOfPrefix(inputs, |marks|);
    BlockHeights.GapFilledIsContiguous(queries);
    assert inputs[..|inputs|] == inputs;
  }

  /**
   * So no block ever begins twice or out of order; and as long as every requested block was eventually
   * answered, the blocks begun are the first height, the next one, and so on without a gap, up to the
   * highest height once everything is worked off.
   */
  lemma BlocksBeginInOrder(queries: seq<BlockHeights.Item>, steps: seq<Step>, buffer: nat, maxAttempts: u64)
    requires Run(steps, buffer, maxAttempts).taken <= BlockHeights.GapFilled(queries)
    requires AllAboutTheirBlocks(Run(steps, buffer, maxAttempts).delivered)
    ensures var marks := Marks(Run(steps, buffer, maxAttempts).output);
            && Ascending(marks)
            && (NoneMissed(marks) ==>
                  && Begun(marks) <= BlockHeights.FullRange(queries)
                  && (|marks| == |BlockHeights.GapFilled(queries)| ==> Begun(marks) == BlockHeights.FullRange(queries)))
  {
    var s, inputs := Run(steps, buffer, maxAttempts), BlockHeights.GapFilled(queries);
    EveryBlockOnceInOrder(queries, steps, buffer, maxAttempts);
    BlockHeights.GapFilledAscends(queries);
    InPlaceAscends(Marks(s.output), inputs, s.delivered);
    if NoneMissed(Marks(s.output)) {
      InPlaceIsContiguous(Marks(s.output), queries, inputs, s.delivered);
    }
  }

  // ---------------------------------------------------------------------------------------
  // Reading given heights in order.

  lemma RunSnoc(steps: seq<Step>, step: Step, buffer: nat, maxAttempts: u64)
    ensures Run(steps + [step], buffer, maxAttempts) ==
            Apply(Run(steps, buffer, maxAttempts), step, buffer, maxAttempts)
  {
    assert (steps + [step])[..|steps|] == steps;
  }

  /** The step with the next height filled in, if it reads one; nothing if there is none to read. */
  function Bind(step: Step, taken: seq<Input>, heights: seq<Input>): Option<Step> {
    if !step.Spawn? then Some(step)
    else if |taken| < |heights| then Some(Spawn(heights[|taken|]))
    else None
  }

  lemma BindReads(s: State, step: Step, heights: seq<Input>, buffer: nat, maxAttempts: u64)
    requires s.taken <= heights && Bind(step, s.taken, heights).Some?
    ensures Apply(s, Bind(step, s.taken, heights).value, buffer, maxAttempts).taken <= heights
  {
  }

  /** `events` on given heights under a schedule: `Spawn` steps read the next height, if there is one. */
  function Bound(heights: seq<Input>, schedule: seq<Step>, buffer: nat, maxAttempts: u64): State {
    if schedule == [] then INIT
    else
      var s := Bound(heights, schedule[..|schedule| - 1], buffer, maxAttempts);
      Follows(s, heights, schedule[|schedule| - 1], buffer, maxAttempts)
  }

  function Follows(s: State, heights: seq<Input>, step: Step, buffer: nat, maxAttempts: u64): State {
    match Bind(step, s.taken, heights)
    case None => s
    case Some(bound) => Apply(s, bound, buffer, maxAttempts)
  }

  lemma BoundSnoc(heights: seq<Input>, schedule: seq<Step>, n: nat, buffer: nat, maxAttempts: u64)
    requires n < |schedule|
    ensures Bound(heights, schedule[..n + 1], buffer, maxAttempts) ==
            Follows(Bound(heights, schedule[..n], buffer, maxAttempts), heights, schedule[n], buffer, maxAttempts)
  {
    assert schedule[..n + 1][..n] == schedule[..n];
  }

  /** It is one of the runs above, and reads the heights in order. */
  lemma {:induction false} BoundIsRun(heights: seq<Input>, schedule: seq<Step>, buffer: nat, maxAttempts: u64)
    returns (steps: seq<Step>)
    ensures Bound(heights, schedule, buffer, maxAttempts) == Run(steps, buffer, maxAttempts)
    ensures Bound(heights, schedule, buffer, maxAttempts).taken <= heights
  {
    steps := [];
    if schedule != [] {
      var s := Bound(heights, schedule[..|schedule| - 1], buffer, maxAttempts);
      steps := BoundIsRun(heights, schedule[..|schedule| - 1], buffer, maxAttempts);
      var step := Bind(schedule[|schedule| - 1], s.taken, heights);
      if step.Some? {
        BindReads(s, schedule[|schedule| - 1], heights, buffer, maxAttempts);
        RunSnoc(steps, step.value, buffer, maxAttempts);
        steps := steps + [step.value];
      }
    }
  }

  /** What a subscriber may rely on at any moment. */
  ghost predicate Subscribed(s: State, heights: seq<Input>) {
    && s.taken <= heights
    && !After(Outside, s.output).Broken?
    && BlocksAreWhole(s.output + s.current, s.delivered)
    && (AllAboutTheirBlocks(s.delivered) ==> InPlace(Marks(s.output), heights, s.delivered) && Ascending(Marks(s.output)))
  }

  /** Every height was read and everything fetched was put out. */
  predicate WorkedOff(s: State, heights: seq<Input>) {
    s.taken == heights && IsDrained(s)
  }

  /** Every height has left its mark; if none was missed, the blocks begun have no gap. */
  ghost predicate Complete(s: State, queries: seq<BlockHeights.Item>) {
    && |Marks(s.output)| == |BlockHeights.GapFilled(queries)|
    && BlocksAreWhole(s.output, s.delivered)
    && (NoneMissed(Marks(s.output)) ==> Begun(Marks(s.output)) == BlockHeights.FullRange(queries))
  }

  lemma RunIsSubscribed(queries: seq<BlockHeights.Item>, steps: seq<Step>, buffer: nat, maxAttempts: u64)
    requires Run(steps, buffer, maxAttempts).taken <= BlockHeights.GapFilled(queries)
    ensures Subscribed(Run(steps, buffer, maxAttempts), BlockHeights.GapFilled(queries))
  {
    OutputIsBracketed(steps, buffer, maxAttempts);
    DeliveredBlocksAreWhole(steps, buffer, maxAttempts);
    if AllAboutTheirBlocks(Run(steps, buffer, maxAttempts).delivered) {
      EveryBlockOnceInOrder(queries, steps, buffer, maxAttempts);
      BlocksBeginInOrder(queries, steps, buffer, maxAttempts);
    }
  }

  lemma WorkedOffIsComplete(queries: seq<BlockHeights.Item>, steps: seq<Step>, buffer: nat, maxAttempts: u64)
    requires WorkedOff(Run(steps, buffer, maxAttempts), BlockHeights.GapFilled(queries))
    requires AllAboutTheirBlocks(Run(steps, buffer, maxAttempts).delivered)
    ensures Complete(Run(steps, buffer, maxAttempts), queries)
  {
    ConcurrentIsSequential(steps, buffer, maxAttempts);
    DrainedOutput(Run(steps, buffer, maxAttempts), buffer, maxAttempts);
    DeliveredBlocksAreWhole(steps, buffer, maxAttempts);
    EveryBlockOnceInOrder(queries, steps, buffer, maxAttempts);
    BlocksBeginInOrder(queries, steps, buffer, maxAttempts);
  }

  function Spawns(inputs: seq<Input>): seq<Step> {
    if inputs == [] then [] else Spawns(inputs[..|inputs| - 1]) + [Spawn(inputs[|inputs| - 1])]
  }

  /** The window is really used: up to `buffer` fetches are in flight at once. */
  lemma {:induction false} WindowFills(inputs: seq<Input>, buffer: nat, maxAttempts: u64)
    ensures |Run(Spawns(inputs), buffer, maxAttempts).window| == if |inputs| <= buffer then |inputs| else buffer
  {
    if inputs != [] {
      var n := |inputs| - 1;
      WindowFills(inputs[..n], buffer, maxAttempts);
      RunSnoc(Spawns(inputs[..n]), Spawn(inputs[n]), buffer, maxAttempts);
    }
  }

  // ---------------------------------------------------------------------------------------
  // Progress: no schedule gets stuck, and none goes on forever.

  /** The attempts a fetch may still make. */
  function AttemptsLeft(f: Fetch, maxAttempts: u64): nat {
    if Outcome(f, maxAttempts).Some? || |f.log| >= Budget(maxAttempts) then 0 else Budget(maxAttempts) - |f.log|
  }

  function AllAttemptsLeft(fs: seq<Fetch>, maxAttempts: u64): nat {
    if fs == [] then 0 else AllAttemptsLeft(fs[..|fs| - 1], maxAttempts) + AttemptsLeft(fs[|fs| - 1], maxAttempts)
  }

  lemma {:induction false} AttemptsAppend(a: seq<Fetch>, b: seq<Fetch>, maxAttempts: u64)
    ensures AllAttemptsLeft(a + b, maxAttempts) == AllAttemptsLeft(a, maxAttempts) + AllAttemptsLeft(b, maxAttempts)
  {
    if b == [] {
      assert a + b == a;
    } else {
      assert (a + b)[..|a + b| - 1] == a + b[..|b| - 1];
      AttemptsAppend(a, b[..|b| - 1], maxAttempts);
    }
  }

  lemma AttemptsOne(f: Fetch, maxAttempts: u64)
    ensures AllAttemptsLeft([f], maxAttempts) == AttemptsLeft(f, maxAttempts)
  {
    assert [f][..0] == [];
  }

  lemma AttemptsSplit(fs: seq<Fetch>, i: nat, f: Fetch, maxAttempts: u64)
    requires i < |fs|
    ensures AllAttemptsLeft(fs[i := f], maxAttempts) - AttemptsLeft(f, maxAttempts) ==
            AllAttemptsLeft(fs, maxAttempts) - AttemptsLeft(fs[i], maxAttempts)
  {
    var front, back := fs[..i], fs[i + 1..];
    assert fs == front + ([fs[i]] + back) && fs[i := f] == front + ([f] + back);
    AttemptsAppend(front, [fs[i]] + back, maxAttempts);
    AttemptsAppend(front, [f] + back, maxAttempts);
    AttemptsAppend([fs[i]], back, maxAttempts);
    AttemptsAppend([f], back, maxAttempts);
    AttemptsOne(f, maxAttempts);
    AttemptsOne(fs[i], maxAttempts);
  }

  lemma AttemptUsesUp(f: Fetch, a: Attempt, maxAttempts: u64)
    requires Outcome(f, maxAttempts).None?
    ensures AttemptsLeft(f.(log := f.log + [a]), maxAttempts) < AttemptsLeft(f, maxAttempts)
  {
  }

  /** What is left to do, in order of weight: heights, attempts, fetches in flight, events. */
  datatype Work = Work(heights: nat, attempts: nat, fetches: nat, events: nat)

  function Left(s: State, heights: seq<Input>, maxAttempts: u64): Work
    requires s.taken <= heights
  {
    Work(|heights| - |s.taken|, AllAttemptsLeft(s.window, maxAttempts), |s.window|, |s.current|)
  }

  predicate Less(a: Work, b: Work) {
    || a.heights < b.heights
    || (a.heights == b.heights &&
        (|| a.attempts < b.attempts
         || (a.attempts == b.attempts &&
             (a.fetches < b.fetches || (a.fetches == b.fetches && a.events < b.events)))))
  }

  lemma TryFetchIsProgress(s: State, i: nat, a: Attempt, heights: seq<Input>, buffer: nat, maxAttempts: u64)
    requires s.taken <= heights && Enabled(s, TryFetch(i, a), buffer, maxAttempts)
    ensures Less(Left(Apply(s, TryFetch(i, a), buffer, maxAttempts), heights, maxAttempts), Left(s, heights, maxAttempts))
  {
    AttemptUsesUp(s.window[i], a, maxAttempts);
    AttemptsSplit(s.window, i, s.window[i].(log := s.window[i].log + [a]), maxAttempts);
  }

  lemma DeliverIsProgress(s: State, heights: seq<Input>, buffer: nat, maxAttempts: u64)
    requires s.taken <= heights && Enabled(s, Deliver, buffer, maxAttempts)
    ensures Less(Left(Apply(s, Deliver, buffer, maxAttempts), heights, maxAttempts), Left(s, heights, maxAttempts))
  {
    AttemptsAppend([s.window[0]], s.window[1..], maxAttempts);
    AttemptsOne(s.window[0], maxAttempts);
    assert s.window == [s.window[0]] + s.window[1..];
  }

  /** Every enabled step leaves less to do; `Less` has no infinite descent. */
  lemma StepIsProgress(s: State, step: Step, heights: seq<Input>, buffer: nat, maxAttempts: u64)
    requires s.taken <= heights && Bind(step, s.taken, heights) == Some(step) && Enabled(s, step, buffer, maxAttempts)
    ensures Apply(s, step, buffer, maxAttempts).taken <= heights
    ensures Less(Left(Apply(s, step, buffer, maxAttempts), heights, maxAttempts), Left(s, heights, maxAttempts))
  {
    BindReads(s, step, heights, buffer, maxAttempts);
    match step
    case Spawn(_) =>
    case TryFetch(i, a) => TryFetchIsProgress(s, i, a, heights, buffer, maxAttempts);
    case Deliver => DeliverIsProgress(s, heights, buffer, maxAttempts);
    case Emit =>
  }

  /** The step a runtime can always take: put out, deliver, wait for the oldest fetch, or read on. */
  function Usual(s: State, heights: seq<Input>, a: Attempt, maxAttempts: u64): Step {
    if s.current != [] then Emit
    else if s.window == [] then if |s.taken| < |heights| then Spawn(heights[|s.taken|]) else Emit
    else if Outcome(s.window[0], maxAttempts).Some? then Deliver
    else TryFetch(0, a)
  }

  /** With a window of at least one fetch, the subscription is never stuck before everything is worked off. */
  lemma NeverStuck(s: State, heights: seq<Input>, a: Attempt, buffer: nat, maxAttempts: u64)
    requires s.taken <= heights && !WorkedOff(s, heights) && buffer >= 1
    ensures var step := Usual(s, heights, a, maxAttempts);
            Bind(step, s.taken, heights) == Some(step) && Enabled(s, step, buffer, maxAttempts)
  {
  }

  // ---------------------------------------------------------------------------------------
  // The code, from height queries to events.

  method RunEvents(heights: seq<Input>, schedule: seq<Step>, buffer: nat, maxAttempts: u64) returns (s: State)
    ensures s == Bound(heights, schedule, buffer, maxAttempts)
  {
    s := INIT;
    for n := 0 to |schedule|
      invariant s == Bound(heights, schedule[..n], buffer, maxAttempts)
    {
      BoundSnoc(heights, schedule, n, buffer, maxAttempts);
      var step := Bind(schedule[n], s.taken, heights);
      if step.Some? {
        s := Apply(s, step.value, buffer, maxAttempts);
      }
    }
    assert schedule[..|schedule|] == schedule;
  }

  /**
   * `events` over `blocks`: the height pipeline is polled `polls` times on any script, and the fetches
   * follow any schedule. The state is the one the schedule leads to on the heights delivered; the stream
   * keeps its promises at that moment, and once everything is worked off it is complete.
   */
  method Subscribe(answers: seq<BlockHeights.Poll>, timers: seq<bool>, polls: nat,
                   schedule: seq<Step>, buffer: nat, maxAttempts: u64)
    returns (heights: seq<Input>, s: State)
    requires BlockHeights.AllInRange(answers)
    ensures heights <= BlockHeights.Whole(answers)
    ensures BlockHeights.Suffices(answers, timers, polls) ==> heights == BlockHeights.Whole(answers)
    ensures s == Bound(heights, schedule, buffer, maxAttempts)
    ensures Subscribed(s, BlockHeights.Whole(answers))
    ensures WorkedOff(s, BlockHeights.Whole(answers)) && AllAboutTheirBlocks(s.delivered) ==>
              Complete(s, BlockHeights.Results(answers))
  {
    heights := BlockHeights.RunBlocks(answers, timers, polls);
    s := RunEvents(heights, schedule, buffer, maxAttempts);
    ghost var steps := BoundIsRun(heights, schedule, buffer, maxAttempts);
    RunIsSubscribed(BlockHeights.Results(answers), steps, buffer, maxAttempts);
    if WorkedOff(s, BlockHeights.Whole(answers)) && AllAboutTheirBlocks(s.delivered) {
      WorkedOffIsComplete(BlockHeights.Results(answers), steps, buffer, maxAttempts);
    }
  }

  /**
   * Whatever the scheduler prefers (`prefer`, taken whenever it is enabled) and the node answers, the
   * subscription terminates on given heights, and then it is complete.
   */
  method WorkOff(queries: seq<BlockHeights.Item>, heights: seq<Input>, prefer: State -> Step, answer: State -> Attempt,
                 buffer: nat, maxAttempts: u64)
    returns (s: State)
    requires buffer >= 1 && heights == BlockHeights.GapFilled(queries)
    ensures WorkedOff(s, heights) && Subscribed(s, heights)
    ensures AllAboutTheirBlocks(s.delivered) ==> Complete(s, queries)
  {
    s := INIT;
    ghost var steps: seq<Step> := [];
    while !WorkedOff(s, heights)
      invariant s == Run(steps, buffer, maxAttempts) && s.taken <= heights
      decreases |heights| - |s.taken|, AllAttemptsLeft(s.window, maxAttempts), |s.window|, |s.current|
    {
      NeverStuck(s, heights, answer(s), buffer, maxAttempts);
      var step := Usual(s, heights, answer(s), maxAttempts);
      var preferred := Bind(prefer(s), s.taken, heights);
      if preferred.Some? && Enabled(s, preferred.value, buffer, maxAttempts) {
        step := preferred.value;
      }
      StepIsProgress(s, step, heights, buffer, maxAttempts);
      RunSnoc(steps, step, buffer, maxAttempts);
      steps := steps + [step];
      s := Apply(s, step, buffer, maxAttempts);
    }
    RunIsSubscribed(queries, steps, buffer, maxAttempts);
    if AllAboutTheirBlocks(s.delivered) {
      WorkedOffIsComplete(queries, steps, buffer, maxAttempts);
    }
  }
}
