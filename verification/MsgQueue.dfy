/** The gas-capped batching queue in front of the broadcaster. */
module MsgQueue {
  import opened Common

  /** A queued message: who waits for its result, and its estimated gas. */
  datatype Msg = Msg(id: nat, gas: u64)

  type Batch = seq<Msg>

  function Gas(ms: seq<Msg>): nat {
    if ms == [] then 0 else Gas(ms[..|ms| - 1]) + ms[|ms| - 1].gas
  }

  function Flatten(bs: seq<Batch>): seq<Msg> {
    if bs == [] then [] else Flatten(bs[..|bs| - 1]) + bs[|bs| - 1]
  }

  lemma {:induction false} GasAppend(a: seq<Msg>, b: seq<Msg>)
    ensures Gas(a + b) == Gas(a) + Gas(b)
  {
    if b == [] {
      assert a + b == a;
    } else {
      assert (a + b)[..|a + b| - 1] == a + b[..|b| - 1];
      GasAppend(a, b[..|b| - 1]);
    }
  }

  lemma GasOne(m: Msg)
    ensures Gas([m]) == m.gas
  {
    assert [m][..0] == [];
  }

  lemma FlattenSnoc(bs: seq<Batch>, b: Batch)
    ensures Flatten(bs + [b]) == Flatten(bs) + b
  {
    assert (bs + [b])[..|bs|] == bs;
  }

  lemma {:induction false} FlattenCons(bs: seq<Batch>)
    requires bs != []
    ensures Flatten(bs) == bs[0] + Flatten(bs[1..])
  {
    if |bs| == 1 {
      assert bs[..0] == [] && bs[1..] == [];
    } else {
      assert bs[1..][..|bs| - 2] == bs[..|bs| - 1][1..];
      FlattenCons(bs[..|bs| - 1]);
    }
  }

  // ---------------------------------------------------------------------------------------
  // Pushing one message, in unbounded arithmetic.

  datatype Pushed = Pushed(queue: seq<Msg>, batch: Option<Batch>, rejected: Option<Msg>)

  function Push(queue: seq<Msg>, m: Msg, cap: u64): Pushed {
    if m.gas > cap then Pushed(queue, None, Some(m))
    else if Gas(queue) + m.gas > cap then Pushed([m], Some(queue), None)
    else if Gas(queue) + m.gas == cap then Pushed([], Some(queue + [m]), None)
    else Pushed(queue + [m], None, None)
  }

  function Held(b: Option<Batch>): seq<Msg> {
    if b.Some? then b.value else []
  }

  /** One push loses nothing, keeps the order and the cap, and never releases an empty batch. */
  lemma PushConserves(queue: seq<Msg>, m: Msg, cap: u64)
    requires Gas(queue) <= cap
    ensures var p := Push(queue, m, cap);
            && Held(p.batch) + p.queue == (if m.gas <= cap then queue + [m] else queue)
            && Gas(p.queue) <= cap
            && (p.batch.Some? ==> p.batch.value != [] && Gas(p.batch.value) <= cap)
            && (p.rejected == if m.gas > cap then Some(m) else None)
  {
    GasAppend(queue, [m]);
    assert [m][..0] == [];
  }

  /** The mutable queue. Its gas counter is a `u64` and additions are checked. */
  class Queue {
    const gasCap: u64
    var msgs: seq<Msg>
    var gasCost: u64

    /** The counter is the gas of the queued messages and may reach the cap, never exceed it. */
    ghost predicate Valid()
      reads this
    {
      gasCost == Gas(msgs) && gasCost <= gasCap
    }

    constructor (gasCap: u64)
      ensures Valid() && msgs == [] && this.gasCap == gasCap
    {
      this.gasCap, msgs, gasCost := gasCap, [], 0;
    }

    method PopAll() returns (r: Option<Batch>)
      modifies this
      ensures Valid() && msgs == []
      ensures r == if old(msgs) == [] then None else Some(old(msgs))
    {
      gasCost := 0;
      r := if msgs == [] then None else Some(msgs);
      msgs := [];
    }

    /** Checked 64-bit addition makes the same decisions as unbounded addition. */
    method PushOr(m: Msg) returns (batch: Option<Batch>, rejected: Option<Msg>)
      requires Valid()
      modifies this
      ensures Valid()
      ensures Pushed(msgs, batch, rejected) == Push(old(msgs), m, gasCap)
    {
      batch, rejected := None, None;
      if m.gas > gasCap {
        rejected := Some(m);
        return;
      }
      var sum := CheckedAdd(gasCost, m.gas);
      if sum.None? || sum.value > gasCap {
        batch := PopAll();
        gasCost := m.gas;
        msgs := msgs + [m];
        GasOne(m);
      } else if sum.value == gasCap {
        var popped := PopAll();
        batch := Some(Held(popped) + [m]);
      } else {
        GasAppend(msgs, [m]);
        GasOne(m);
        gasCost := sum.value;
        msgs := msgs + [m];
      }
    }
  }

  // ---------------------------------------------------------------------------------------
  // Batching without deadlines.

  function Accepted(ms: seq<Msg>, cap: u64): seq<Msg> {
    if ms == [] then []
    else Accepted(ms[..|ms| - 1], cap) + if ms[|ms| - 1].gas <= cap then [ms[|ms| - 1]] else []
  }

  function Rejected(ms: seq<Msg>, cap: u64): seq<Msg> {
    if ms == [] then []
    else Rejected(ms[..|ms| - 1], cap) + if ms[|ms| - 1].gas > cap then [ms[|ms| - 1]] else []
  }

  datatype Batching = Batching(batches: seq<Batch>, rest: seq<Msg>)

  function Extend(b: Batching, m: Msg, cap: u64): Batching {
    var p := Push(b.rest, m, cap);
    Batching(if p.batch.Some? then b.batches + [p.batch.value] else b.batches, p.queue)
  }

  /** What the queue makes of `ms` when no deadline fires. */
  function Greedy(ms: seq<Msg>, cap: u64): Batching {
    if ms == [] then Batching([], []) else Extend(Greedy(ms[..|ms| - 1], cap), ms[|ms| - 1], cap)
  }

  lemma GreedySnoc(ms: seq<Msg>, m: Msg, cap: u64)
    ensures Greedy(ms + [m], cap) == Extend(Greedy(ms, cap), m, cap)
  {
    assert (ms + [m])[..|ms|] == ms;
  }

  /** All batches, counting the final drain. */
  function AllBatches(b: Batching): seq<Batch> {
    if b.rest == [] then b.batches else b.batches + [b.rest]
  }

  /** `a` could not have taken the message that opened the batch after it, or was exactly full. */
  predicate Tight(a: Batch, b: Batch, cap: u64) {
    Gas(a) == cap || (b != [] && Gas(a) + b[0].gas > cap)
  }

  predicate Proper(b: Batch, cap: u64) {
    b != [] && Gas(b) <= cap && (cap > 0 ==> Gas(b) > 0)
  }

  ghost predicate Chained(bs: seq<Batch>, cap: u64) {
    && (forall i :: 0 <= i < |bs| ==> Proper(bs[i], cap))
    && (forall i :: 0 <= i < |bs| - 1 ==> Tight(bs[i], bs[i + 1], cap))
  }

  lemma ChainedSnoc(bs: seq<Batch>, b: Batch, cap: u64)
    requires Chained(bs, cap) && Proper(b, cap) && (bs != [] ==> Tight(bs[|bs| - 1], b, cap))
    ensures Chained(bs + [b], cap)
  {
  }

  ghost predicate GreedyShape(b: Batching, cap: u64) {
    && Gas(b.rest) <= cap
    && Chained(b.batches, cap)
    && (b.batches != [] ==> Tight(b.batches[|b.batches| - 1], b.rest, cap))
  }

  lemma PushKeepsTight(a: Batch, queue: seq<Msg>, m: Msg, cap: u64)
    requires Gas(queue) <= cap && m.gas <= cap && Tight(a, queue, cap)
    ensures var p := Push(queue, m, cap);
            if p.batch.Some? then Tight(a, p.batch.value, cap) else Tight(a, p.queue, cap)
  {
  }

  lemma PushIsTight(queue: seq<Msg>, m: Msg, cap: u64)
    requires Gas(queue) <= cap && m.gas <= cap
    ensures var p := Push(queue, m, cap);
            p.batch.Some? ==> Proper(p.batch.value, cap) && Tight(p.batch.value, p.queue, cap)
  {
    GasAppend(queue, [m]);
    assert [m][..0] == [];
  }

  lemma ExtendKeepsShape(b: Batching, m: Msg, cap: u64)
    requires GreedyShape(b, cap)
    ensures GreedyShape(Extend(b, m, cap), cap)
  {
    if m.gas <= cap {
      var p := Push(b.rest, m, cap);
      PushConserves(b.rest, m, cap);
      PushIsTight(b.rest, m, cap);
      if b.batches != [] {
        PushKeepsTight(b.batches[|b.batches| - 1], b.rest, m, cap);
      }
      if p.batch.Some? {
        ChainedSnoc(b.batches, p.batch.value, cap);
      }
    }
  }

  lemma {:induction false} GreedyHasShape(ms: seq<Msg>, cap: u64)
    ensures GreedyShape(Greedy(ms, cap), cap)
  {
    if ms != [] {
      GreedyHasShape(ms[..|ms| - 1], cap);
      ExtendKeepsShape(Greedy(ms[..|ms| - 1], cap), ms[|ms| - 1], cap);
    }
  }

  /** Released batches followed by the queued messages are the accepted messages, in order. */
  lemma {:induction false} GreedyConserves(ms: seq<Msg>, cap: u64)
    ensures Flatten(Greedy(ms, cap).batches) + Greedy(ms, cap).rest == Accepted(ms, cap)
  {
    if ms != [] {
      var b, m := Greedy(ms[..|ms| - 1], cap), ms[|ms| - 1];
      GreedyConserves(ms[..|ms| - 1], cap);
      GreedyHasShape(ms[..|ms| - 1], cap);
      ReleaseConserves(b.batches, b.rest, m, cap);
    }
  }

  lemma ReleaseConserves(released: seq<Batch>, queue: seq<Msg>, m: Msg, cap: u64)
    requires Gas(queue) <= cap
    ensures var b := Extend(Batching(released, queue), m, cap);
            Flatten(b.batches) + b.rest == Flatten(released) + queue + if m.gas <= cap then [m] else []
  {
    var p := Push(queue, m, cap);
    PushConserves(queue, m, cap);
    if p.batch.Some? {
      FlattenSnoc(released, p.batch.value);
    } else {
      assert Held(p.batch) + p.queue == p.queue;
    }
    Regroup(Flatten(released), Held(p.batch), p.queue);
    Regroup(Flatten(released), queue, [m]);
  }

  lemma Regroup(a: seq<Msg>, b: seq<Msg>, c: seq<Msg>)
    ensures a + b + c == a + (b + c) && a + [] == a
  {
  }

  /** The batches are the accepted messages, cut but not reordered. */
  lemma GreedyPartitions(ms: seq<Msg>, cap: u64)
    ensures Flatten(AllBatches(Greedy(ms, cap))) == Accepted(ms, cap)
  {
    var b := Greedy(ms, cap);
    GreedyConserves(ms, cap);
    FlattenSnoc(b.batches, b.rest);
    assert b.rest == [] ==> Flatten(b.batches) + b.rest == Flatten(b.batches);
  }

  ghost predicate Within(ps: seq<Batch>, cap: u64) {
    forall i :: 0 <= i < |ps| ==> Gas(ps[i]) <= cap
  }

  /** An order-preserving cut of `ms` into batches within the cap. */
  ghost predicate Feasible(ps: seq<Batch>, ms: seq<Msg>, cap: u64) {
    Flatten(ps) == ms && Within(ps, cap)
  }

  lemma ChainedTail(bs: seq<Batch>, cap: u64)
    requires Chained(bs, cap) && bs != []
    ensures Chained(bs[1..], cap)
  {
  }

  lemma SuffixGas(ms: seq<Msg>, a: nat, b: nat)
    requires a <= b <= |ms|
    ensures Gas(ms[a..]) >= Gas(ms[b..])
    ensures a < b ==> Gas(ms[a..]) >= ms[a].gas + Gas(ms[b..])
  {
    assert ms[a..] == ms[a..b] + ms[b..];
    GasAppend(ms[a..b], ms[b..]);
    if a < b {
      assert ms[a..b] == [ms[a]] + ms[a + 1..b];
      GasAppend([ms[a]], ms[a + 1..b]);
      assert [ms[a]][..0] == [];
    }
  }

  /** A full or overflowing batch leaves no more gas behind than any batch that started no later. */
  lemma StaysAheadStep(ms: seq<Msg>, i: nat, j: nat, tight: nat, other: nat, cap: u64)
    requires i < |ms| && j <= |ms| && other <= cap
    requires tight == cap || tight + ms[i].gas > cap
    requires tight + Gas(ms[i..]) <= other + Gas(ms[j..])
    ensures Gas(ms[i..]) <= Gas(ms[j..])
  {
    if i < j {
      SuffixGas(ms, i, j);
    } else {
      SuffixGas(ms, j, i);
    }
  }

  /** The other partition has at least as much gas left to place. */
  ghost predicate Ahead(ms: seq<Msg>, i: nat, j: nat, bs: seq<Batch>, ps: seq<Batch>) {
    && i <= |ms| && j <= |ms|
    && Flatten(bs) == ms[i..] && Flatten(ps) == ms[j..]
    && Gas(ms[i..]) <= Gas(ms[j..])
  }

  lemma AheadHasBatch(ms: seq<Msg>, i: nat, j: nat, bs: seq<Batch>, ps: seq<Batch>)
    requires Ahead(ms, i, j, bs, ps) && bs != [] && Gas(bs[0]) > 0
    ensures ps != []
  {
    DropFirst(ms, i, bs);
    SomethingLeft(ms, j, ps);
  }

  lemma GasAfterFirst(ms: seq<Msg>, i: nat, bs: seq<Batch>, before: nat, after: nat)
    requires i <= |ms| && Flatten(bs) == ms[i..] && bs != [] && i + |bs[0]| <= |ms|
    requires before == Gas(ms[i..]) && after == Gas(ms[i + |bs[0]|..])
    ensures before == Gas(bs[0]) + after
  {
    DropFirst(ms, i, bs);
  }

  lemma StaysAheadInGas(ms: seq<Msg>, i: nat, j: nat, bs: seq<Batch>, ps: seq<Batch>, cap: u64, rest: nat, other: nat)
    requires Ahead(ms, i, j, bs, ps) && |bs| > 1 && ps != []
    requires Tight(bs[0], bs[1], cap) && Gas(ps[0]) <= cap
    requires i + |bs[0]| < |ms| && j + |ps[0]| <= |ms| && bs[1] != [] && ms[i + |bs[0]|] == bs[1][0]
    requires rest == Gas(ms[i + |bs[0]|..]) && other == Gas(ms[j + |ps[0]|..])
    ensures rest <= other
  {
    GasAfterFirst(ms, i, bs, Gas(ms[i..]), rest);
    GasAfterFirst(ms, j, ps, Gas(ms[j..]), other);
    StaysAheadStep(ms, i + |bs[0]|, j + |ps[0]|, Gas(bs[0]), Gas(ps[0]), cap);
  }

  lemma StaysAhead(ms: seq<Msg>, i: nat, j: nat, bs: seq<Batch>, ps: seq<Batch>, cap: u64)
    requires Ahead(ms, i, j, bs, ps) && |bs| > 1 && ps != []
    requires Tight(bs[0], bs[1], cap) && bs[1] != [] && Gas(ps[0]) <= cap
    ensures Ahead(ms, i + |bs[0]|, j + |ps[0]|, bs[1..], ps[1..])
  {
    var i', j' := i + |bs[0]|, j + |ps[0]|;
    DropFirst(ms, i, bs);
    DropFirst(ms, j, ps);
    SecondOpens(ms, i', bs);
    StaysAheadInGas(ms, i, j, bs, ps, cap, Gas(ms[i'..]), Gas(ms[j'..]));
  }

  /**
   * Tight batches with positive gas stay ahead of every other partition: as long as the other
   * partition has at least as much gas left to place, it has at least as many batches left.
   */
  lemma {:induction false} TightStaysAhead(ms: seq<Msg>, i: nat, j: nat, bs: seq<Batch>, ps: seq<Batch>, cap: u64)
    requires cap > 0 && Chained(bs, cap) && Within(ps, cap) && Ahead(ms, i, j, bs, ps)
    ensures |bs| <= |ps|
    decreases |bs|
  {
    if bs != [] {
      assert Proper(bs[0], cap);
      AheadHasBatch(ms, i, j, bs, ps);
      if |bs| > 1 {
        assert Tight(bs[0], bs[1], cap) && Proper(bs[1], cap);
        StaysAhead(ms, i, j, bs, ps, cap);
        ChainedTail(bs, cap);
        TightStaysAhead(ms, i + |bs[0]|, j + |ps[0]|, bs[1..], ps[1..], cap);
      }
    }
  }

  lemma SomethingLeft(ms: seq<Msg>, j: nat, ps: seq<Batch>)
    requires j <= |ms| && Flatten(ps) == ms[j..] && Gas(ms[j..]) > 0
    ensures ps != []
  {
  }

  lemma SecondOpens(ms: seq<Msg>, i: nat, bs: seq<Batch>)
    requires |bs| > 1 && bs[1] != [] && i <= |ms| && Flatten(bs[1..]) == ms[i..]
    ensures i < |ms| && ms[i] == bs[1][0]
  {
    FlattenCons(bs[1..]);
    assert ms[i..][0] == bs[1][0];
  }

  lemma DropFirst(ms: seq<Msg>, i: nat, bs: seq<Batch>)
    requires i <= |ms| && Flatten(bs) == ms[i..] && bs != []
    ensures i + |bs[0]| <= |ms| && Flatten(bs[1..]) == ms[i + |bs[0]|..]
    ensures Gas(ms[i..]) == Gas(bs[0]) + Gas(ms[i + |bs[0]|..])
  {
    FlattenCons(bs);
    GasAppend(bs[0], Flatten(bs[1..]));
    assert ms[i + |bs[0]|..] == ms[i..][|bs[0]|..];
  }

  ghost predicate NonEmpty(bs: seq<Batch>) {
    forall i :: 0 <= i < |bs| ==> bs[i] != []
  }

  ghost predicate TightChain(bs: seq<Batch>, cap: u64) {
    forall i :: 0 <= i < |bs| - 1 ==> Tight(bs[i], bs[i + 1], cap)
  }

  lemma AllAreWithin(b: Batching, cap: u64)
    requires GreedyShape(b, cap)
    ensures Within(AllBatches(b), cap)
  {
    assert forall i :: 0 <= i < |b.batches| ==> Proper(b.batches[i], cap);
  }

  lemma AllAreNonEmpty(b: Batching, cap: u64)
    requires GreedyShape(b, cap)
    ensures NonEmpty(AllBatches(b))
  {
    assert forall i :: 0 <= i < |b.batches| ==> Proper(b.batches[i], cap);
  }

  lemma AllAreTight(b: Batching, cap: u64)
    requires GreedyShape(b, cap)
    ensures TightChain(AllBatches(b), cap)
  {
    assert TightChain(b.batches, cap);
    if b.rest != [] {
      TightSnoc(b.batches, b.rest, cap);
    }
  }

  lemma TightSnoc(bs: seq<Batch>, b: Batch, cap: u64)
    requires TightChain(bs, cap) && (bs != [] ==> Tight(bs[|bs| - 1], b, cap))
    ensures TightChain(bs + [b], cap)
  {
  }

  lemma AllAreChained(b: Batching, cap: u64)
    requires GreedyShape(b, cap) && (b.rest == [] || Gas(b.rest) > 0)
    ensures Chained(AllBatches(b), cap)
  {
    if b.rest != [] {
      ChainedSnoc(b.batches, b.rest, cap);
    }
  }

  /** Two neighbouring batches never fit into one, unless the second carries no gas at all. */
  lemma NeighboursExceedCap(ms: seq<Msg>, cap: u64, k: nat)
    requires k + 1 < |AllBatches(Greedy(ms, cap))|
    ensures var all := AllBatches(Greedy(ms, cap));
            Gas(all[k]) + Gas(all[k + 1]) > cap <==> Gas(all[k + 1]) > 0
  {
    var all := AllBatches(Greedy(ms, cap));
    GreedyHasShape(ms, cap);
    AllAreWithin(Greedy(ms, cap), cap);
    AllAreNonEmpty(Greedy(ms, cap), cap);
    AllAreTight(Greedy(ms, cap), cap);
    TightExceeds(all[k], all[k + 1], cap);
  }

  lemma TightExceeds(a: Batch, b: Batch, cap: u64)
    requires Tight(a, b, cap) && Gas(a) <= cap && b != []
    ensures Gas(a) + Gas(b) > cap <==> Gas(b) > 0
  {
    SuffixGas(b, 0, |b|);
    assert b[0..] == b;
  }

  ghost predicate Minimal(bs: seq<Batch>, ms: seq<Msg>, cap: u64) {
    forall ps :: Feasible(ps, ms, cap) ==> |bs| <= |ps|
  }

  lemma MergeLastTwo(bs: seq<Batch>, cap: u64) returns (ps: seq<Batch>)
    requires |bs| > 1 && Gas(bs[|bs| - 1]) == 0
    requires Within(bs, cap)
    ensures Feasible(ps, Flatten(bs), cap) && |ps| == |bs| - 1
  {
    var n := |bs|;
    var front, a, z := bs[..n - 2], bs[n - 2], bs[n - 1];
    assert bs == front + [a] + [z];
    FlattenSnoc(front, a);
    FlattenSnoc(front + [a], z);
    FlattenSnoc(front, a + z);
    GasAppend(a, z);
    ps := front + [a + z];
  }

  predicate LastPaid(all: seq<Batch>) {
    |all| <= 1 || Gas(all[|all| - 1]) > 0
  }

  /** Such batches are the fewest possible exactly when there is at most one or the last one carries gas. */
  lemma MinimalIffLastPaid(ms: seq<Msg>, cap: u64)
    ensures var all := AllBatches(Greedy(ms, cap));
            Minimal(all, Accepted(ms, cap), cap) <==> LastPaid(all)
  {
    var all, acc := AllBatches(Greedy(ms, cap)), Accepted(ms, cap);
    GreedyHasShape(ms, cap);
    GreedyPartitions(ms, cap);
    if LastPaid(all) {
      forall ps | Feasible(ps, acc, cap)
        ensures |all| <= |ps|
      {
        PaidIsFewest(Greedy(ms, cap), all, acc, ps, cap);
      }
    } else {
      AllAreWithin(Greedy(ms, cap), cap);
      var ps := MergeLastTwo(all, cap);
      assert Feasible(ps, acc, cap);
    }
  }

  lemma PaidIsFewest(b: Batching, all: seq<Batch>, acc: seq<Msg>, ps: seq<Batch>, cap: u64)
    requires GreedyShape(b, cap) && all == AllBatches(b) && LastPaid(all)
    requires Flatten(all) == acc && Feasible(ps, acc, cap)
    ensures |all| <= |ps|
  {
    if |all| == 1 {
      AllAreNonEmpty(b, cap);
      FlattenCons(all);
      assert ps != [];
    } else if |all| > 1 {
      AllAreWithin(b, cap);
      AllAreChained(b, cap);
      assert acc[0..] == acc;
      TightStaysAhead(acc, 0, 0, all, ps, cap);
    }
  }

  /** Where the maximal gas-free tail of `ms` starts. */
  function Paid(ms: seq<Msg>): (n: nat)
    ensures n <= |ms| && (n > 0 ==> ms[n - 1].gas > 0)
    ensures forall i :: n <= i < |ms| ==> ms[i].gas == 0
  {
    if ms == [] || ms[|ms| - 1].gas > 0 then |ms| else Paid(ms[..|ms| - 1])
  }

  /**
   * Whether the gas-free tail of the accepted messages finds a batch to join. With `queue` as it is when
   * the tail arrives: an empty queue (the batch before was released exactly full) offers none; a queue
   * that holds exactly the cap takes in one message and is released; any other queue takes them all.
   */
  predicate TailFits(accepted: seq<Msg>, cap: u64) {
    var n := Paid(accepted);
    var tail, queue := |accepted| - n, Greedy(accepted[..n], cap).rest;
    if cap == 0 then |accepted| <= 1
    else tail == 0 || n == 0 || (if Gas(queue) == cap then tail == 1 else queue != [])
  }

  predicate Fits(ms: seq<Msg>, cap: u64) {
    forall m <- ms :: m.gas <= cap
  }

  predicate GasFree(ms: seq<Msg>) {
    forall m <- ms :: m.gas == 0
  }

  lemma {:induction false} GasOfFree(ms: seq<Msg>)
    requires GasFree(ms)
    ensures Gas(ms) == 0
  {
    if ms != [] {
      GasOfFree(ms[..|ms| - 1]);
    }
  }

  lemma {:induction false} RejectedLeaveNoTrace(ms: seq<Msg>, cap: u64)
    ensures Greedy(ms, cap) == Greedy(Accepted(ms, cap), cap)
    ensures Fits(Accepted(ms, cap), cap)
  {
    if ms != [] {
      var m := ms[|ms| - 1];
      RejectedLeaveNoTrace(ms[..|ms| - 1], cap);
      if m.gas <= cap {
        GreedySnoc(Accepted(ms[..|ms| - 1], cap), m, cap);
      } else {
        assert Accepted(ms[..|ms| - 1], cap) + [] == Accepted(ms[..|ms| - 1], cap);
      }
    }
  }

  /** After a message with gas the queue carries gas, or is empty because a batch was released. */
  lemma QueueAfterExtend(b: Batching, m: Msg, cap: u64)
    requires 0 < m.gas <= cap
    ensures var b' := Extend(b, m, cap);
            if b'.rest == [] then b'.batches != [] else Gas(b'.rest) > 0
  {
    GasAppend(b.rest, [m]);
    GasOne(m);
  }

  /** What a gas-free message does to the queue. */
  lemma PushFree(b: Batching, m: Msg, cap: u64)
    requires m.gas == 0 < cap && Gas(b.rest) <= cap
    ensures Extend(b, m, cap) ==
            if Gas(b.rest) == cap then Batching(b.batches + [b.rest + [m]], []) else Batching(b.batches, b.rest + [m])
  {
  }

  /** What a gas-free tail `z` makes of the batches before it. */
  function AfterTail(b: Batching, z: seq<Msg>, cap: u64): Batching {
    if z == [] then b
    else if Gas(b.rest) == cap then Batching(b.batches + [b.rest + [z[0]]], z[1..])
    else Batching(b.batches, b.rest + z)
  }

  lemma AfterTailSnoc(b: Batching, z: seq<Msg>, m: Msg, cap: u64)
    requires GasFree(z) && m.gas == 0 < cap && Gas(b.rest) <= cap
    ensures Extend(AfterTail(b, z, cap), m, cap) == AfterTail(b, z + [m], cap)
  {
    if z == [] {
      PushFree(b, m, cap);
      assert z + [m] == [m] && [m][1..] == [];
    } else if Gas(b.rest) == cap {
      GasOfFree(z[1..]);
      PushFree(AfterTail(b, z, cap), m, cap);
      assert (z + [m])[1..] == z[1..] + [m] && (z + [m])[0] == z[0];
    } else {
      GasOfFree(z);
      GasAppend(b.rest, z);
      PushFree(AfterTail(b, z, cap), m, cap);
      assert b.rest + (z + [m]) == b.rest + z + [m];
    }
  }

  lemma GreedyOfTailStep(p: seq<Msg>, z: seq<Msg>, m: Msg, b: Batching, cap: u64)
    requires GasFree(z) && m.gas == 0 < cap && Gas(b.rest) <= cap && Greedy(p + z, cap) == AfterTail(b, z, cap)
    ensures Greedy(p + (z + [m]), cap) == AfterTail(b, z + [m], cap)
  {
    GreedySnoc(p + z, m, cap);
    assert p + z + [m] == p + (z + [m]);
    AfterTailSnoc(b, z, m, cap);
  }

  lemma {:induction false} GreedyOfTail(p: seq<Msg>, z: seq<Msg>, b: Batching, cap: u64)
    requires GasFree(z) && cap > 0 && b == Greedy(p, cap) && Gas(b.rest) <= cap
    ensures Greedy(p + z, cap) == AfterTail(b, z, cap)
  {
    if z == [] {
      assert p + z == p;
    } else {
      var z', m := z[..|z| - 1], z[|z| - 1];
      assert z' + [m] == z;
      GreedyOfTail(p, z', b, cap);
      GreedyOfTailStep(p, z', m, b, cap);
    }
  }

  /** The queue stays within the cap, and a released batch carries gas. */
  lemma GreedyInvariant(ms: seq<Msg>, cap: u64)
    requires cap > 0
    ensures var b := Greedy(ms, cap);
            Gas(b.rest) <= cap && (b.batches != [] ==> Gas(b.batches[|b.batches| - 1]) > 0)
  {
    GreedyHasShape(ms, cap);
    assert forall i :: 0 <= i < |Greedy(ms, cap).batches| ==> Proper(Greedy(ms, cap).batches[i], cap);
  }

  /** Without gas nothing is kept back: each message is a batch. */
  lemma {:induction false} GreedyOfNothing(ms: seq<Msg>)
    requires Fits(ms, 0)
    ensures Greedy(ms, 0).rest == [] && |Greedy(ms, 0).batches| == |ms|
    ensures forall b <- Greedy(ms, 0).batches :: Gas(b) == 0
  {
    if ms != [] {
      GreedyOfNothing(ms[..|ms| - 1]);
      GasOne(ms[|ms| - 1]);
      assert [] + [ms[|ms| - 1]] == [ms[|ms| - 1]];
    }
  }

  lemma TailAfterNothing(z: seq<Msg>, cap: u64)
    requires cap > 0
    ensures LastPaid(AllBatches(AfterTail(Batching([], []), z, cap)))
  {
  }

  lemma LastPaidSnoc(bs: seq<Batch>, b: Batch)
    ensures LastPaid(bs + [b]) <==> bs == [] || Gas(b) > 0
  {
  }

  /** A queue that already holds the cap is released with the first message of the tail. */
  lemma TailAfterFull(b: Batching, z: seq<Msg>, cap: u64)
    requires cap > 0 && GasFree(z) && z != [] && Gas(b.rest) == cap
    ensures LastPaid(AllBatches(AfterTail(b, z, cap))) <==> |z| == 1
  {
    var full := b.batches + [b.rest + [z[0]]];
    GasOfFree(z[1..]);
    GasAppend(b.rest, [z[0]]);
    if |z| == 1 {
      LastPaidSnoc(b.batches, b.rest + [z[0]]);
      assert AllBatches(Batching(full, z[1..])) == full;
    } else {
      LastPaidSnoc(full, z[1..]);
    }
  }

  /** Any other queue takes the tail in; it carries gas unless it was empty. */
  lemma TailAfterOther(b: Batching, z: seq<Msg>, cap: u64)
    requires GasFree(z) && z != [] && Gas(b.rest) != cap
    requires if b.rest == [] then b.batches != [] else Gas(b.rest) > 0
    ensures LastPaid(AllBatches(AfterTail(b, z, cap))) <==> b.rest != []
  {
    GasOfFree(z);
    GasAppend(b.rest, z);
    LastPaidSnoc(b.batches, b.rest + z);
    assert b.rest == [] ==> Gas(b.rest) == 0;
  }

  lemma WithoutTail(b: Batching)
    requires b.batches != [] ==> Gas(b.batches[|b.batches| - 1]) > 0
    requires b.rest != [] ==> Gas(b.rest) > 0
    ensures LastPaid(AllBatches(b))
  {
    LastPaidSnoc(b.batches, b.rest);
  }

  lemma TailAfterPaid(b: Batching, z: seq<Msg>, cap: u64)
    requires cap > 0 && GasFree(z) && (b.batches != [] ==> Gas(b.batches[|b.batches| - 1]) > 0)
    requires if b.rest == [] then b.batches != [] else Gas(b.rest) > 0
    ensures LastPaid(AllBatches(AfterTail(b, z, cap))) <==>
            (z == [] || (if Gas(b.rest) == cap then |z| == 1 else b.rest != []))
  {
    if z == [] {
      WithoutTail(b);
    } else if Gas(b.rest) == cap {
      TailAfterFull(b, z, cap);
    } else {
      TailAfterOther(b, z, cap);
    }
  }

  /** The last batch of accepted messages carries gas exactly if their gas-free tail fits. */
  lemma LastPaidIffTailFits(p: seq<Msg>, z: seq<Msg>, b: Batching, all: seq<Batch>, cap: u64)
    requires cap > 0 && Fits(p, cap) && GasFree(z) && (p != [] ==> p[|p| - 1].gas > 0)
    requires b == Greedy(p, cap) && all == AllBatches(Greedy(p + z, cap))
    ensures LastPaid(all) <==> (z == [] || p == [] || (if Gas(b.rest) == cap then |z| == 1 else b.rest != []))
  {
    GreedyInvariant(p, cap);
    GreedyOfTail(p, z, b, cap);
    if p == [] {
      TailAfterNothing(z, cap);
    } else {
      QueueAfterPaid(p, b, cap);
      TailAfterPaid(b, z, cap);
    }
  }

  lemma QueueAfterPaid(p: seq<Msg>, b: Batching, cap: u64)
    requires p != [] && 0 < p[|p| - 1].gas <= cap && b == Greedy(p, cap)
    ensures if b.rest == [] then b.batches != [] else Gas(b.rest) > 0
  {
    QueueAfterExtend(Greedy(p[..|p| - 1], cap), p[|p| - 1], cap);
  }

  lemma AcceptedLastPaid(acc: seq<Msg>, cap: u64)
    requires Fits(acc, cap)
    ensures LastPaid(AllBatches(Greedy(acc, cap))) <==> TailFits(acc, cap)
  {
    if cap == 0 {
      GreedyOfNothing(acc);
    } else {
      var n := Paid(acc);
      assert acc == acc[..n] + acc[n..];
      LastPaidIffTailFits(acc[..n], acc[n..], Greedy(acc[..n], cap), AllBatches(Greedy(acc, cap)), cap);
    }
  }

  /**
   * The number of batches, counting the final drain, is the least possible among all ways to cut the
   * accepted messages into batches within the cap, exactly when their gas-free tail fits.
   */
  lemma BatchCountMinimal(ms: seq<Msg>, cap: u64)
    ensures Minimal(AllBatches(Greedy(ms, cap)), Accepted(ms, cap), cap) <==> TailFits(Accepted(ms, cap), cap)
  {
    MinimalIffLastPaid(ms, cap);
    RejectedLeaveNoTrace(ms, cap);
    AcceptedLastPaid(Accepted(ms, cap), cap);
  }

  /** In particular the count is minimal whenever the last accepted message costs gas. */
  lemma LastPaidIsMinimal(ms: seq<Msg>, cap: u64)
    requires var acc := Accepted(ms, cap); acc == [] || acc[|acc| - 1].gas > 0
    ensures Minimal(AllBatches(Greedy(ms, cap)), Accepted(ms, cap), cap)
  {
    BatchCountMinimal(ms, cap);
    RejectedLeaveNoTrace(ms, cap);
  }

  /** So it is whenever every message costs gas. */
  lemma PositiveGasIsMinimal(ms: seq<Msg>, cap: u64)
    requires forall m <- ms :: m.gas > 0
    ensures Minimal(AllBatches(Greedy(ms, cap)), Accepted(ms, cap), cap)
  {
    AcceptedAreInputs(ms, cap);
    LastPaidIsMinimal(ms, cap);
  }

  lemma {:induction false} AcceptedAreInputs(ms: seq<Msg>, cap: u64)
    ensures forall m <- Accepted(ms, cap) :: m in ms && m.gas <= cap
  {
    if ms != [] {
      AcceptedAreInputs(ms[..|ms| - 1], cap);
    }
  }

  /** A cap-sized message followed by a gas-free one takes two batches where one would do. */
  lemma ZeroGasCostsABatch(id: nat, id': nat, cap: u64)
    requires cap > 0
    ensures var ms := [Msg(id, cap), Msg(id', 0)];
            !Minimal(AllBatches(Greedy(ms, cap)), Accepted(ms, cap), cap)
  {
    var a, z := Msg(id, cap), Msg(id', 0);
    GreedySnoc([], a, cap);
    PushFull(a, cap);
    assert [] + [a] == [a] && Greedy([a], cap) == Batching([[a]], []);
    GreedySnoc([a], z, cap);
    PushZero(z, cap);
    assert [a] + [z] == [a, z] && Greedy([a, z], cap) == Batching([[a]], [z]);
    GasOne(z);
    MinimalIffLastPaid([a, z], cap);
  }

  lemma OverflowFillsQueue(a: Msg, b: Msg, cap: u64)
    requires 0 < a.gas < cap && b.gas == cap
    ensures Greedy([a, b], cap) == Batching([[a]], [b])
  {
    GasOne(a);
    GreedySnoc([], a, cap);
    assert [] + [a] == [a] && Greedy([a], cap) == Batching([], [a]);
    GreedySnoc([a], b, cap);
    assert [a] + [b] == [a, b] && [] + [[a]] == [[a]];
  }

  /** A queue filled to the cap by an overflow takes in one gas-free message; a second one costs a batch. */
  lemma FullQueueTakesOne(a: Msg, b: Msg, z: seq<Msg>, cap: u64)
    requires 0 < a.gas < cap && b.gas == cap && GasFree(z)
    ensures Minimal(AllBatches(Greedy([a, b] + z, cap)), Accepted([a, b] + z, cap), cap) <==> |z| <= 1
  {
    GasOne(b);
    OverflowFillsQueue(a, b, cap);
    LastPaidIffTailFits([a, b], z, Batching([[a]], [b]), AllBatches(Greedy([a, b] + z, cap)), cap);
    MinimalIffLastPaid([a, b] + z, cap);
  }

  lemma PushFull(m: Msg, cap: u64)
    requires m.gas == cap
    ensures Push([], m, cap) == Pushed([], Some([m]), None)
  {
    assert [] + [m] == [m];
  }

  lemma PushZero(m: Msg, cap: u64)
    requires m.gas == 0 < cap
    ensures Push([], m, cap) == Pushed([m], None, None)
  {
    assert [] + [m] == [m];
  }

  // ---------------------------------------------------------------------------------------
  // The polled queue, with its deadline.

  /** What the message channel answers to one poll; `lag` passes before the deadline is looked at. */
  datatype Answer = Received(msg: Msg) | Closed | Pending(lag: nat)

  /** One poll of the channel, some time after the previous one. */
  datatype Tick = Tick(elapsed: nat, answer: Answer)

  /** The messages the channel will still deliver; nothing follows its end. */
  function Messages(script: seq<Tick>): seq<Msg> {
    if script == [] || script[0].answer.Closed? then []
    else (if script[0].answer.Received? then [script[0].answer.msg] else []) + Messages(script[1..])
  }

  /** Whether the script closes the channel. */
  predicate Closes(script: seq<Tick>) {
    script != [] && (script[0].answer.Closed? || Closes(script[1..]))
  }

  /** What is left of the script after its first tick. */
  function AfterFirst(script: seq<Tick>): seq<Tick>
    requires script != []
  {
    if script[0].answer.Closed? then [] else script[1..]
  }

  lemma FirstMessage(received: seq<Msg>, script: seq<Tick>)
    requires script != []
    ensures var a := script[0].answer;
            received + Messages(script) ==
            (if a.Received? then received + [a.msg] else received) + Messages(AfterFirst(script))
    ensures !script[0].answer.Closed? ==> Closes(AfterFirst(script)) == Closes(script)
  {
    match script[0].answer
    case Received(m) => Regroup(received, [m], Messages(script[1..]));
    case Pending(_) => assert [] + Messages(script[1..]) == Messages(script[1..]);
    case Closed =>
  }

  datatype Poll = NotReady | Ready(batch: Option<Batch>)

  function Released(r: Poll): seq<Batch> {
    if r.Ready? && r.batch.Some? then [r.batch.value] else []
  }

  /** The queue as a value, together with everything that happened to it so far. */
  datatype LedgerData = Ledger(
    cap: u64,
    duration: nat,
    queued: seq<Msg>,
    now: nat,
    deadline: nat,
    closed: bool,
    received: seq<Msg>,
    yielded: seq<Batch>,
    rejected: seq<Msg>,
    times: seq<nat>,   // when each queued message was inserted
    timedOut: bool)    // whether the deadline ever released a batch

  /** Nothing is lost, reordered or duplicated, and exactly the messages above the cap are rejected. */
  ghost predicate Balanced(l: LedgerData) {
    && Flatten(l.yielded) + l.queued == Accepted(l.received, l.cap)
    && l.rejected == Rejected(l.received, l.cap)
  }

  /** Every batch is non-empty and respects the cap, and so does the queue. */
  ghost predicate Capped(l: LedgerData) {
    && Gas(l.queued) <= l.cap
    && (forall b <- l.yielded :: b != [] && Gas(b) <= l.cap)
    && (l.closed ==> l.queued == [])
  }

  /** As long as no deadline fires, the batches are those of the deadline-free batching. */
  ghost predicate FollowsGreedy(l: LedgerData) {
    !l.timedOut ==>
      if l.closed then l.yielded == AllBatches(Greedy(l.received, l.cap))
      else Batching(l.yielded, l.queued) == Greedy(l.received, l.cap)
  }

  ghost predicate Accounts(l: LedgerData) {
    Balanced(l) && Capped(l) && FollowsGreedy(l)
  }

  /** Insertion times run from old to recent, and the deadline is early enough for the oldest message. */
  ghost predicate Timed(l: LedgerData) {
    && |l.times| == |l.queued|
    && (forall i, j :: 0 <= i <= j < |l.times| ==> l.times[i] <= l.times[j])
    && (forall i :: 0 <= i < |l.times| ==> l.times[i] <= l.now)
    && (l.times != [] ==> l.deadline <= l.times[0] + l.duration)
  }

  /** What can happen to the queue. */
  datatype Act = Waited(elapsed: nat) | Got(msg: Msg) | TimedOut | Closed

  function Fresh(cap: u64, duration: nat, now: nat): LedgerData {
    Ledger(cap, duration, [], now, now + duration, false, [], [], [], [], false)
  }

  function AfterPush(l: LedgerData, m: Msg): LedgerData {
    var p := Push(l.queued, m, l.cap);
    l.(queued := p.queue,
       deadline := if l.queued == [] then l.now + l.duration else l.deadline,
       received := l.received + [m],
       yielded := l.yielded + (if p.batch.Some? then [p.batch.value] else []),
       rejected := l.rejected + (if p.rejected.Some? then [m] else []),
       times := if p.rejected.Some? then l.times
                else if p.batch.None? then l.times + [l.now]
                else if p.queue == [] then []
                else [l.now])
  }

  function AfterFlush(l: LedgerData): LedgerData {
    l.(queued := [], times := [], yielded := l.yielded + if l.queued == [] then [] else [l.queued])
  }

  /** Acts that cannot happen (a message after the channel closed) change nothing. */
  function Perform(l: LedgerData, act: Act): LedgerData {
    match act
    case Waited(elapsed) => l.(now := l.now + elapsed)
    case Got(m) => if l.closed then l else AfterPush(l, m)
    case TimedOut => if l.queued == [] then l else AfterFlush(l).(timedOut := true)
    case Closed => AfterFlush(l).(closed := true)
  }

  function Replay(initial: LedgerData, acts: seq<Act>): LedgerData {
    if acts == [] then initial else Perform(Replay(initial, acts[..|acts| - 1]), acts[|acts| - 1])
  }

  lemma AcceptedSnoc(ms: seq<Msg>, m: Msg, cap: u64)
    ensures Accepted(ms + [m], cap) == Accepted(ms, cap) + if m.gas <= cap then [m] else []
    ensures Rejected(ms + [m], cap) == Rejected(ms, cap) + if m.gas > cap then [m] else []
  {
    assert (ms + [m])[..|ms|] == ms;
  }

  lemma AfterPushIsExtend(l: LedgerData, m: Msg)
    ensures Batching(AfterPush(l, m).yielded, AfterPush(l, m).queued) == Extend(Batching(l.yielded, l.queued), m, l.cap)
  {
    assert l.yielded + [] == l.yielded;
  }

  lemma PushKeepsBalance(l: LedgerData, m: Msg)
    requires Balanced(l) && Gas(l.queued) <= l.cap
    ensures Balanced(AfterPush(l, m))
  {
    AcceptedSnoc(l.received, m, l.cap);
    AfterPushIsExtend(l, m);
    ReleaseConserves(l.yielded, l.queued, m, l.cap);
    PushConserves(l.queued, m, l.cap);
  }

  lemma PushKeepsAccounts(l: LedgerData, m: Msg)
    requires Accounts(l) && !l.closed
    ensures Accounts(AfterPush(l, m))
  {
    PushKeepsBalance(l, m);
    assert Capped(AfterPush(l, m)) by {
      PushConserves(l.queued, m, l.cap);
    }
    assert FollowsGreedy(AfterPush(l, m)) by {
      AfterPushIsExtend(l, m);
      GreedySnoc(l.received, m, l.cap);
    }
  }

  /** An overflow flush keeps the old deadline, which only shortens the wait of the new message. */
  lemma PushKeepsTimes(l: LedgerData, m: Msg)
    requires Timed(l) && Gas(l.queued) <= l.cap
    ensures Timed(AfterPush(l, m))
  {
  }

  lemma FlushKeepsAccounts(l: LedgerData)
    requires Accounts(l)
    ensures l.queued != [] ==> Accounts(AfterFlush(l).(timedOut := true))
    ensures Accounts(AfterFlush(l).(closed := true))
  {
    if l.queued == [] {
      assert l.yielded + [] == l.yielded;
    } else {
      FlattenSnoc(l.yielded, l.queued);
      Regroup(Flatten(l.yielded), l.queued, []);
    }
  }

  /** After any history whatsoever the accounts balance and the deadline is early enough. */
  lemma {:induction false} ReplayIsSound(cap: u64, duration: nat, start: nat, acts: seq<Act>)
    ensures Accounts(Replay(Fresh(cap, duration, start), acts))
    ensures Timed(Replay(Fresh(cap, duration, start), acts))
  {
    if acts != [] {
      ReplayIsSound(cap, duration, start, acts[..|acts| - 1]);
      var l := Replay(Fresh(cap, duration, start), acts[..|acts| - 1]);
      match acts[|acts| - 1]
      case Waited(_) =>
      case Got(m) =>
        if !l.closed {
          PushKeepsAccounts(l, m);
          PushKeepsTimes(l, m);
        }
      case TimedOut => FlushKeepsAccounts(l);
      case Closed => FlushKeepsAccounts(l);
    }
  }

  lemma {:induction false} ReplayKeepsSettings(cap: u64, duration: nat, start: nat, acts: seq<Act>)
    ensures var l := Replay(Fresh(cap, duration, start), acts); l.cap == cap && l.duration == duration
  {
    if acts != [] {
      ReplayKeepsSettings(cap, duration, start, acts[..|acts| - 1]);
    }
  }

  /** A run without deadlines that was closed used as few batches as possible, in the cases stated. */
  lemma ClosedRunIsMinimal(cap: u64, duration: nat, start: nat, acts: seq<Act>)
    requires var l := Replay(Fresh(cap, duration, start), acts); l.closed && !l.timedOut
    ensures var l := Replay(Fresh(cap, duration, start), acts);
            Minimal(l.yielded, Accepted(l.received, cap), cap) <==> TailFits(Accepted(l.received, cap), cap)
  {
    var l := Replay(Fresh(cap, duration, start), acts);
    ReplayIsSound(cap, duration, start, acts);
    ReplayKeepsSettings(cap, duration, start, acts);
    assert l.yielded == AllBatches(Greedy(l.received, cap));
    BatchCountMinimal(l.received, cap);
  }

  /** Before the deadline, every queued message has waited less than the configured duration. */
  lemma WaitIsBounded(cap: u64, duration: nat, start: nat, acts: seq<Act>)
    requires var l := Replay(Fresh(cap, duration, start), acts); l.queued == [] || l.now < l.deadline
    ensures var l := Replay(Fresh(cap, duration, start), acts); forall t <- l.times :: l.now < t + l.duration
  {
    ReplayIsSound(cap, duration, start, acts);
    var l := Replay(Fresh(cap, duration, start), acts);
    assert forall i :: 0 <= i < |l.times| ==> l.times[0] <= l.times[i];
  }

  lemma ReplaySnoc(initial: LedgerData, acts: seq<Act>, act: Act)
    ensures Replay(initial, acts + [act]) == Perform(Replay(initial, acts), act)
  {
    assert (acts + [act])[..|acts|] == acts;
  }

  // The deadline, told from the history alone.

  /** The time after a history: the start plus everything waited. */
  function Clock(start: nat, acts: seq<Act>): nat {
    if acts == [] then start
    else
      var act := acts[|acts| - 1];
      Clock(start, acts[..|acts| - 1]) + if act.Waited? then act.elapsed else 0
  }

  /** When a message last arrived at an empty queue (the start, if none did). */
  function OpenedAt(cap: u64, duration: nat, start: nat, acts: seq<Act>): nat {
    if acts == [] then start
    else
      var before, act := acts[..|acts| - 1], acts[|acts| - 1];
      var l := Replay(Fresh(cap, duration, start), before);
      if act.Got? && !l.closed && l.queued == [] then Clock(start, before) else OpenedAt(cap, duration, start, before)
  }

  /** Whether a message has overflowed the queue since then. */
  predicate Overflowed(cap: u64, duration: nat, start: nat, acts: seq<Act>) {
    if acts == [] then false
    else
      var before, act := acts[..|acts| - 1], acts[|acts| - 1];
      var l := Replay(Fresh(cap, duration, start), before);
      if act.Got? && !l.closed && l.queued == [] then false
      else Overflowed(cap, duration, start, before) ||
           (act.Got? && !l.closed && act.msg.gas <= cap && Gas(l.queued) + act.msg.gas > cap)
  }

  lemma {:induction false} ReplayClock(cap: u64, duration: nat, start: nat, acts: seq<Act>)
    ensures Replay(Fresh(cap, duration, start), acts).now == Clock(start, acts)
  {
    if acts != [] {
      ReplayClock(cap, duration, start, acts[..|acts| - 1]);
    }
  }

  /** After any history the deadline is the last arrival at an empty queue plus the configured duration. */
  lemma {:induction false} DeadlineIsExact(cap: u64, duration: nat, start: nat, acts: seq<Act>)
    ensures Replay(Fresh(cap, duration, start), acts).deadline == OpenedAt(cap, duration, start, acts) + duration
  {
    if acts != [] {
      DeadlineIsExact(cap, duration, start, acts[..|acts| - 1]);
      ReplayClock(cap, duration, start, acts[..|acts| - 1]);
      ReplayKeepsSettings(cap, duration, start, acts[..|acts| - 1]);
    }
  }

  lemma PushKeepsOldest(l: LedgerData, m: Msg, since: nat)
    requires l.queued != [] && |l.times| == |l.queued| && l.times[0] == since && Gas(l.queued) + m.gas <= l.cap
    ensures var l' := AfterPush(l, m); l'.queued == [] || (l'.times != [] && l'.times[0] == since)
  {
  }

  lemma FirstIsOldest(l: LedgerData, m: Msg)
    requires l.queued == [] && l.times == []
    ensures var l' := AfterPush(l, m); l'.queued == [] || l'.times == [l.now]
  {
  }

  /** Without an overflow since then, that arrival is the oldest queued message. */
  lemma {:induction false} OldestOpened(cap: u64, duration: nat, start: nat, acts: seq<Act>)
    ensures var l := Replay(Fresh(cap, duration, start), acts);
            l.queued != [] && !Overflowed(cap, duration, start, acts) ==>
              l.times != [] && l.times[0] == OpenedAt(cap, duration, start, acts)
  {
    if acts != [] {
      var before, act := acts[..|acts| - 1], acts[|acts| - 1];
      OldestOpened(cap, duration, start, before);
      ReplayClock(cap, duration, start, before);
      ReplayIsSound(cap, duration, start, before);
      ReplayKeepsSettings(cap, duration, start, before);
      var l := Replay(Fresh(cap, duration, start), before);
      if act.Got? && !l.closed {
        OldestAfterPush(l, act.msg, OpenedAt(cap, duration, start, before), Overflowed(cap, duration, start, before));
      }
    }
  }

  lemma OldestAfterPush(l: LedgerData, m: Msg, since: nat, overflowed: bool)
    requires |l.times| == |l.queued|
    requires l.queued != [] && !overflowed ==> l.times[0] == since
    ensures var l' := AfterPush(l, m);
            if l.queued == [] then l'.queued != [] ==> l'.times == [l.now]
            else !overflowed && !(m.gas <= l.cap && Gas(l.queued) + m.gas > l.cap) && l'.queued != [] ==>
                   l'.times != [] && l'.times[0] == since
  {
    if l.queued == [] {
      FirstIsOldest(l, m);
    } else if m.gas <= l.cap && Gas(l.queued) + m.gas <= l.cap && !overflowed {
      PushKeepsOldest(l, m, since);
    }
  }

  /** No deadline fired on an empty queue or before its time. */
  ghost predicate Timely(cap: u64, duration: nat, start: nat, acts: seq<Act>) {
    acts != [] ==>
      var before := acts[..|acts| - 1];
      && Timely(cap, duration, start, before)
      && (acts[|acts| - 1].TimedOut? ==> MayTimeOut(cap, duration, start, before))
  }

  ghost predicate MayTimeOut(cap: u64, duration: nat, start: nat, acts: seq<Act>) {
    Replay(Fresh(cap, duration, start), acts).queued != [] &&
    Clock(start, acts) >= OpenedAt(cap, duration, start, acts) + duration
  }

  lemma TimelySnoc(cap: u64, duration: nat, start: nat, acts: seq<Act>, act: Act)
    requires Timely(cap, duration, start, acts) && (act.TimedOut? ==> MayTimeOut(cap, duration, start, acts))
    ensures Timely(cap, duration, start, acts + [act])
  {
    assert (acts + [act])[..|acts|] == acts;
  }

  /** What the deadline says, in terms of the history. */
  lemma DeadlineDecides(cap: u64, duration: nat, start: nat, acts: seq<Act>)
    ensures var l := Replay(Fresh(cap, duration, start), acts);
            MayTimeOut(cap, duration, start, acts) <==> l.queued != [] && l.now >= l.deadline
  {
    DeadlineIsExact(cap, duration, start, acts);
    ReplayClock(cap, duration, start, acts);
  }

  /** The polled queue: whatever the channel answers, it performs the acts it records. */
  class MsgQueue {
    const queue: Queue
    const duration: nat
    const start: nat
    var script: seq<Tick>
    var closed: bool
    var now: nat
    var deadline: nat
    var refused: seq<Msg>  // messages whose submitter was told they exceed the cap
    ghost var acts: seq<Act>
    ghost var ledger: LedgerData

    ghost predicate Valid()
      reads this, queue
    {
      && queue.Valid()
      && ledger == Replay(Fresh(queue.gasCap, duration, start), acts)
      && Timely(queue.gasCap, duration, start, acts)
      && (ledger.queued, ledger.cap, ledger.duration, ledger.closed) == (queue.msgs, queue.gasCap, duration, closed)
      && (ledger.now, ledger.deadline, ledger.rejected) == (now, deadline, refused)
      && (closed ==> queue.msgs == [] && script == [])
    }

    /** Every message received or still to come. */
    ghost function Outlook(): seq<Msg>
      reads this
    {
      ledger.received + Messages(script)
    }

    /** After `polls` polls of a channel that had `original` to say. */
    ghost predicate Reading(original: seq<Tick>, polls: nat)
      reads this
    {
      if closed then script == [] && Closes(original)
      else (script == [] || |script| + polls <= |original|) && Closes(script) == Closes(original)
    }

    constructor (gasCap: u64, duration: nat, start: nat, script: seq<Tick>)
      ensures Valid() && fresh(queue) && this.script == script && acts == [] && ledger == Fresh(gasCap, duration, start)
      ensures (queue.gasCap, this.duration, this.start) == (gasCap, duration, start) && Reading(script, 0) && Outlook() == Messages(script)
    {
      queue := new Queue(gasCap);
      this.duration, this.start, this.script, closed := duration, start, script, false;
      now, deadline, refused, acts := start, start + duration, [], [];
      ledger := Fresh(gasCap, duration, start);
      assert [] + Messages(script) == Messages(script);
    }

    ghost method Record(act: Act)
      modifies this`acts, this`ledger
      requires ledger == Replay(Fresh(queue.gasCap, duration, start), acts)
      requires Timely(queue.gasCap, duration, start, acts)
      requires act.TimedOut? ==> MayTimeOut(queue.gasCap, duration, start, acts)
      ensures ledger == Replay(Fresh(queue.gasCap, duration, start), acts)
      ensures Timely(queue.gasCap, duration, start, acts)
      ensures acts == old(acts) + [act] && ledger == Perform(old(ledger), act)
    {
      ReplaySnoc(Fresh(queue.gasCap, duration, start), acts, act);
      TimelySnoc(queue.gasCap, duration, start, acts, act);
      acts, ledger := acts + [act], Perform(ledger, act);
    }

    /** Lets time pass. */
    method Wait(elapsed: nat)
      requires Valid()
      modifies this`now, this`acts, this`ledger
      ensures Valid() && now == old(now) + elapsed
      ensures acts == old(acts) + [Waited(elapsed)] && ledger == old(ledger).(now := now)
    {
      now := now + elapsed;
      Record(Waited(elapsed));
    }

    /** Takes the next tick of an open channel. */
    method NextTick() returns (a: Answer, elapsed: nat)
      requires Valid() && !closed
      modifies this`script
      ensures Valid()
      ensures old(script) == [] ==> a == Pending(0) && elapsed == 0 && script == []
      ensures old(script) != [] ==> old(script)[0] == Tick(elapsed, a) && script == AfterFirst(old(script))
      ensures if a.Closed? then script == [] && Closes(old(script)) else Closes(script) == Closes(old(script))
      ensures old(Outlook()) == if a.Received? then ledger.received + [a.msg] + Messages(script) else Outlook()
    {
      if script == [] {
        return Pending(0), 0;
      }
      FirstMessage(ledger.received, script);
      a, elapsed := script[0].answer, script[0].elapsed;
      script := AfterFirst(script);
    }

    /** One poll of the fused channel: closed once, closed forever. */
    method PollChannel() returns (a: Answer)
      requires Valid()
      modifies this
      ensures Valid() && closed == old(closed) && now >= old(now)
      ensures acts == old(acts) + [Waited(now - old(now))] && ledger == old(ledger).(now := now)
      ensures closed ==> a == Answer.Closed && now == old(now)
      ensures !closed && old(script) == [] ==> a == Pending(0) && script == [] && now == old(now)
      ensures !closed && old(script) != [] ==> old(script)[0] == Tick(now - old(now), a) && script == AfterFirst(old(script))
      ensures a.Closed? ==> script == [] && (closed || Closes(old(script)))
      ensures !closed && !a.Closed? ==> Closes(script) == Closes(old(script))
      ensures old(Outlook()) == if a.Received? then ledger.received + [a.msg] + Messages(script) else Outlook()
    {
      var elapsed := 0;
      if closed {
        a := Answer.Closed;
      } else {
        a, elapsed := NextTick();
      }
      Wait(elapsed);
    }

    /** Hands one received message to the queue, restarting the deadline if the queue was empty. */
    method Enqueue(m: Msg) returns (batch: Option<Batch>)
      requires Valid() && !closed
      modifies this, queue
      ensures Valid() && script == old(script) && closed == old(closed) && now == old(now)
      ensures acts == old(acts) + [Got(m)] && ledger.received == old(ledger.received) + [m]
      ensures Outlook() == old(ledger.received) + [m] + Messages(script)
      ensures deadline == if old(queue.msgs) == [] then now + duration else old(deadline)
      ensures refused == old(refused) + if m.gas > queue.gasCap then [m] else []
      ensures ledger.yielded == old(ledger.yielded) + if batch.Some? then [batch.value] else []
    {
      Record(Got(m));
      if queue.msgs == [] {
        deadline := now + duration;
      }
      var rejected;
      batch, rejected := queue.PushOr(m);
      refused := refused + if rejected.Some? then [rejected.value] else [];
    }

    /** The channel is closed: drain what is left. */
    method Drain() returns (r: Poll)
      requires Valid() && script == []
      modifies this, queue
      ensures Valid() && script == old(script) && closed && now == old(now)
      ensures acts == old(acts) + [Act.Closed] && ledger.received == old(ledger.received) && Outlook() == old(Outlook())
      ensures r == Ready(if old(queue.msgs) == [] then None else Some(old(queue.msgs)))
      ensures ledger.yielded == old(ledger.yielded) + Released(r)
    {
      Record(Act.Closed);
      closed := true;
      var batch := queue.PopAll();
      r := Ready(batch);
    }

    /** Nothing arrived: release the queue if it is not empty and its deadline has passed. */
    method CheckDeadline(lag: nat) returns (r: Poll)
      requires Valid()
      modifies this, queue
      ensures Valid() && script == old(script) && closed == old(closed) && now == old(now) + lag
      ensures acts == if r.Ready? then old(acts) + [Waited(lag)] + [TimedOut] else old(acts) + [Waited(lag)]
      ensures r.NotReady? <==> old(queue.msgs) == [] || now < old(deadline)
      ensures r.Ready? <==> MayTimeOut(queue.gasCap, duration, start, old(acts) + [Waited(lag)])
      ensures r.Ready? ==> r.batch == Some(old(queue.msgs))
      ensures r.NotReady? ==> forall t <- ledger.times :: now < t + duration
      ensures ledger.received == old(ledger.received) && Outlook() == old(Outlook())
      ensures ledger.yielded == old(ledger.yielded) + Released(r)
    {
      Wait(lag);
      DeadlineDecides(queue.gasCap, duration, start, acts);
      if queue.msgs == [] || now < deadline {
        WaitIsBounded(queue.gasCap, duration, start, acts);
        return NotReady;
      }
      Record(TimedOut);
      var batch := queue.PopAll();
      r := Ready(batch);
    }

    /** One turn of the loop of `poll_next`; without a result it has received a message and goes on. */
    method Turn() returns (done: Option<Poll>)
      requires Valid()
      modifies this, queue
      ensures Valid() && now >= old(now) && old(acts) <= acts && Outlook() == old(Outlook())
      ensures |script| <= |old(script)| && (!old(closed) ==> |script| < |old(script)| || old(script) == [])
      ensures !old(closed) ==> if closed then Closes(old(script)) else Closes(script) == Closes(old(script))
      ensures done.None? ==> |script| < |old(script)| && closed == old(closed) && !closed
      ensures ledger.yielded == if done.Some? then old(ledger.yielded) + Released(done.value) else old(ledger.yielded)
      ensures done.Some? && done.value.NotReady? ==> forall t <- ledger.times :: now < t + duration
      ensures done.Some? && done.value.NotReady? ==> !MayTimeOut(queue.gasCap, duration, start, acts)
      ensures done == Some(Ready(None)) ==> closed
      ensures closed ==> done.Some? && done.value.Ready? && queue.msgs == []
      ensures old(closed) ==> closed && done == Some(Ready(None)) && ledger.received == old(ledger.received)
    {
      var a := PollChannel();
      match a
      case Received(m) =>
        var batch := Enqueue(m);
        done := if batch.Some? then Some(Ready(batch)) else None;
      case Closed =>
        var r := Drain();
        done := Some(r);
      case Pending(lag) =>
        var r := CheckDeadline(lag);
        done := Some(r);
    }

    /**
     * `poll_next`. Besides recording faithful acts: every poll reads the channel as long as it is open;
     * when the stream goes pending every queued message has waited less than `duration`; a deadline fires
     * (`Timely`, part of `Valid`) only when that much time has passed since a message last arrived at an
     * empty queue; and once the channel is closed at most one batch is left.
     */
    method PollNext() returns (r: Poll)
      requires Valid()
      modifies this, queue
      ensures Valid() && now >= old(now) && old(acts) <= acts
      ensures Outlook() == old(Outlook())
      ensures |script| <= |old(script)| && (!old(closed) ==> |script| < |old(script)| || old(script) == [])
      ensures !old(closed) ==> if closed then Closes(old(script)) else Closes(script) == Closes(old(script))
      ensures ledger.yielded == old(ledger.yielded) + Released(r)
      ensures r.NotReady? ==> forall t <- ledger.times :: now < t + duration
      ensures r.NotReady? ==> !MayTimeOut(queue.gasCap, duration, start, acts)
      ensures r == Ready(None) ==> closed
      ensures closed ==> r.Ready? && queue.msgs == []
      ensures old(closed) ==> closed && r == Ready(None) && ledger.received == old(ledger.received)
    {
      while true
        invariant Valid() && now >= old(now) && closed == old(closed) && old(acts) <= acts
        invariant ledger.yielded == old(ledger.yielded)
        invariant Outlook() == old(Outlook())
        invariant |script| <= |old(script)| && (!closed ==> Closes(script) == Closes(old(script)))
        invariant old(closed) ==> ledger.received == old(ledger.received)
        decreases |script|
      {
        var done := Turn();
        if done.Some? {
          return done.value;
        }
      }
    }
  }

  /** What the batches, the messages still queued and the refusals are, against the messages received. */
  ghost predicate Settled(out: seq<Batch>, rest: seq<Msg>, refused: seq<Msg>, received: seq<Msg>, cap: u64) {
    && Flatten(out) + rest == Accepted(received, cap)
    && refused == Rejected(received, cap)
    && forall b <- out :: b != [] && Gas(b) <= cap
  }

  lemma ReplayIsSettled(cap: u64, duration: nat, start: nat, acts: seq<Act>)
    ensures var l := Replay(Fresh(cap, duration, start), acts); Settled(l.yielded, l.queued, l.rejected, l.received, cap)
  {
    ReplayIsSound(cap, duration, start, acts);
    ReplayKeepsSettings(cap, duration, start, acts);
  }

  /**
   * Any number of polls of a fresh queue, on any script of its channel. Every poll of an open channel uses
   * up a tick, so with enough polls all messages have been received; and once the channel has closed,
   * the batches are the accepted messages, complete and in order.
   */
  method RunQueue(gasCap: u64, duration: nat, start: nat, script: seq<Tick>, polls: nat)
    returns (out: seq<Batch>, rest: seq<Msg>, refused: seq<Msg>, ghost received: seq<Msg>, ghost acts: seq<Act>)
    ensures Settled(out, rest, refused, received, gasCap)
    ensures var l := Replay(Fresh(gasCap, duration, start), acts);
            (l.yielded, l.queued, l.received) == (out, rest, received) && Timely(gasCap, duration, start, acts)
    ensures received <= Messages(script) && (polls >= |script| ==> received == Messages(script))
    ensures polls >= |script| && Closes(script) ==> rest == [] && Flatten(out) == Accepted(Messages(script), gasCap)
  {
    var q := new MsgQueue(gasCap, duration, start, script);
    out := [];
    for n := 0 to polls
      invariant q.Valid() && fresh(q) && fresh(q.queue) && q.ledger.yielded == out
      invariant (q.queue.gasCap, q.duration, q.start) == (gasCap, duration, start)
      invariant q.Outlook() == Messages(script)
      invariant q.Reading(script, n)
    {
      var r := q.PollNext();
      out := out + Released(r);
    }
    rest, refused, received, acts := q.queue.msgs, q.refused, q.ledger.received, q.acts;
    ReplayIsSettled(gasCap, duration, start, acts);
    assert received + [] == received && Flatten(out) + [] == Flatten(out);
  }
}
