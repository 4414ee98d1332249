/**
 * The block height stream of the event subscription: polls of the latest height, the
 * strictly increasing filter, the one-element delay buffer and the gap filler.
 */
module BlockHeights {
  import opened Common

  const MAX_HEIGHT: nat := 0x7FFF_FFFF_FFFF_FFFF

  type Height = nat

  /** The result of one height query; failures are told apart by a number. */
  datatype Item = Block(value: Height) | Failed(error: nat)

  datatype Poll = Pending | Ready(next: Option<Item>)

  // ---------------------------------------------------------------------------------------
  // What the pipeline is supposed to deliver, as functions of the query results alone.

  /** The largest height among the successful results. */
  function MaxHeight(xs: seq<Item>): Option<Height> {
    if xs == [] then None
    else
      var before := MaxHeight(xs[..|xs| - 1]);
      match xs[|xs| - 1]
      case Failed(_) => before
      case Block(h) => if before.Some? && before.value >= h then before else Some(h)
  }

  /** The first height among the successful results. */
  function FirstHeight(xs: seq<Item>): Option<Height> {
    if xs == [] then None
    else if xs[0].Block? then Some(xs[0].value)
    else FirstHeight(xs[1..])
  }

  /** Results whose height exceeds every earlier one, and all failures. */
  function Increasing(xs: seq<Item>): seq<Item> {
    if xs == [] then []
    else
      var p := xs[..|xs| - 1];
      var x := xs[|xs| - 1];
      if x.Block? && MaxHeight(p).Some? && MaxHeight(p).value >= x.value
      then Increasing(p)
      else Increasing(p) + [x]
  }

  /** The heights `lo`, `lo + 1`, ..., `hi - 1`. */
  function Span(lo: nat, hi: nat): (s: seq<Item>)
    ensures |s| == if hi <= lo then 0 else hi - lo
    ensures forall i :: 0 <= i < |s| ==> s[i] == Block(lo + i)
  {
    if hi <= lo then [] else Span(lo, hi - 1) + [Block(hi - 1)]
  }

  /** What one more result adds to the gap-free output when `seen` is the highest height so far. */
  function Contribution(seen: Option<Height>, x: Item): seq<Item> {
    match x
    case Failed(_) => [x]
    case Block(h) => if seen.None? then [x] else Span(seen.value + 1, h + 1)
  }

  /** The gap-free output for the results `xs`. */
  function GapFilled(xs: seq<Item>): seq<Item> {
    if xs == [] then []
    else
      var p := xs[..|xs| - 1];
      GapFilled(p) + Contribution(MaxHeight(p), xs[|xs| - 1])
  }

  /** The results that satisfy `p`, in order. */
  function Keep(p: Item -> bool, xs: seq<Item>): seq<Item> {
    if xs == [] then []
    else Keep(p, xs[..|xs| - 1]) + (if p(xs[|xs| - 1]) then [xs[|xs| - 1]] else [])
  }

  function Heights(xs: seq<Item>): seq<Item> {
    Keep((x: Item) => x.Block?, xs)
  }

  function Failures(xs: seq<Item>): seq<Item> {
    Keep((x: Item) => x.Failed?, xs)
  }

  function Between(first: Option<Height>, max: Option<Height>): seq<Item> {
    if first.None? || max.None? then [] else Span(first.value, max.value + 1)
  }

  /** From the first height to the highest one, nothing left out. */
  function FullRange(xs: seq<Item>): seq<Item> {
    Between(FirstHeight(xs), MaxHeight(xs))
  }

  function Raise(seen: Option<Height>, x: Item): Option<Height> {
    if x.Failed? || (seen.Some? && seen.value >= x.value) then seen else Some(x.value)
  }

  predicate Stale(seen: Option<Height>, x: Item) {
    x.Block? && seen.Some? && seen.value >= x.value
  }

  lemma MaxHeightSnoc(p: seq<Item>, x: Item)
    ensures MaxHeight(p + [x]) == Raise(MaxHeight(p), x)
  {
    assert (p + [x])[..|p|] == p;
  }

  lemma IncreasingSnoc(p: seq<Item>, x: Item)
    ensures Increasing(p + [x]) == if Stale(MaxHeight(p), x) then Increasing(p) else Increasing(p) + [x]
  {
    assert (p + [x])[..|p|] == p;
  }

  lemma GapFilledSnoc(p: seq<Item>, x: Item)
    ensures GapFilled(p + [x]) == GapFilled(p) + Contribution(MaxHeight(p), x)
  {
    assert (p + [x])[..|p|] == p;
  }

  lemma {:induction false} KeepAppend(p: Item -> bool, a: seq<Item>, b: seq<Item>)
    ensures Keep(p, a + b) == Keep(p, a) + Keep(p, b)
  {
    if b == [] {
      assert a + b == a;
    } else {
      assert (a + b)[..|a + b| - 1] == a + b[..|b| - 1];
      KeepAppend(p, a, b[..|b| - 1]);
    }
  }

  lemma {:induction false} KeepUniform(p: Item -> bool, xs: seq<Item>)
    ensures (forall x <- xs :: p(x)) ==> Keep(p, xs) == xs
    ensures (forall x <- xs :: !p(x)) ==> Keep(p, xs) == []
  {
    if xs != [] {
      KeepUniform(p, xs[..|xs| - 1]);
    }
  }

  lemma Unsnoc(xs: seq<Item>) returns (p: seq<Item>, x: Item)
    requires xs != []
    ensures xs == p + [x] && |p| == |xs| - 1
  {
    p, x := xs[..|xs| - 1], xs[|xs| - 1];
  }

  lemma {:induction false} FirstHeightOfPrefix(p: seq<Item>, x: Item)
    ensures FirstHeight(p + [x]) ==
            if FirstHeight(p).Some? then FirstHeight(p) else if x.Block? then Some(x.value) else None
  {
    if p != [] {
      assert (p + [x])[1..] == p[1..] + [x];
      FirstHeightOfPrefix(p[1..], x);
    }
  }

  lemma {:induction false} MaxHeightIsMaximum(xs: seq<Item>)
    ensures MaxHeight(xs).None? <==> FirstHeight(xs).None?
    ensures MaxHeight(xs).None? <==> forall i :: 0 <= i < |xs| ==> xs[i].Failed?
    ensures MaxHeight(xs).Some? ==> Block(MaxHeight(xs).value) in xs
    ensures MaxHeight(xs).Some? && FirstHeight(xs).Some? ==> MaxHeight(xs).value >= FirstHeight(xs).value
    ensures MaxHeight(xs).Some? ==> forall i :: 0 <= i < |xs| && xs[i].Block? ==> xs[i].value <= MaxHeight(xs).value
    decreases |xs|
  {
    if xs != [] {
      var p, x := Unsnoc(xs);
      MaxHeightIsMaximum(p);
      FirstHeightOfPrefix(p, x);
      MaxHeightSnoc(p, x);
    }
  }

  lemma {:induction false} MaxHeightAfterSpan(a: seq<Item>, m: Height, hi: nat)
    requires MaxHeight(a) == Some(m)
    ensures MaxHeight(a + Span(m + 1, hi)) == Some(if hi <= m + 1 then m else hi - 1)
  {
    if hi <= m + 1 {
      assert a + Span(m + 1, hi) == a;
    } else {
      calc {
        MaxHeight(a + Span(m + 1, hi));
        { assert a + (Span(m + 1, hi - 1) + [Block(hi - 1)]) == a + Span(m + 1, hi - 1) + [Block(hi - 1)]; }
        MaxHeight(a + Span(m + 1, hi - 1) + [Block(hi - 1)]);
        { MaxHeightSnoc(a + Span(m + 1, hi - 1), Block(hi - 1)); }
        Raise(MaxHeight(a + Span(m + 1, hi - 1)), Block(hi - 1));
        { MaxHeightAfterSpan(a, m, hi - 1); }
        Some(hi - 1);
      }
    }
  }

  /** The highest height delivered is the highest height queried. */
  lemma {:induction false} GapFilledReachesMax(xs: seq<Item>)
    ensures MaxHeight(GapFilled(xs)) == MaxHeight(xs)
    decreases |xs|
  {
    if xs != [] {
      var p, x := Unsnoc(xs);
      GapFilledReachesMax(p);
      GapFilledSnoc(p, x);
      MaxHeightSnoc(p, x);
      if x.Block? && MaxHeight(p).Some? {
        MaxHeightAfterSpan(GapFilled(p), MaxHeight(p).value, x.value + 1);
      } else {
        MaxHeightSnoc(GapFilled(p), x);
      }
    }
  }

  lemma AscendingAppend(a: seq<Item>, b: seq<Item>, m: Option<Height>)
    requires StrictlyAscending(a) && StrictlyAscending(b)
    requires forall x <- a :: x.Block? ==> m.Some? && x.value <= m.value
    requires forall x <- b :: x.Block? && m.Some? ==> x.value > m.value
    ensures StrictlyAscending(a + b)
  {
  }

  /** No height is delivered twice or after a higher one. */
  lemma {:induction false} GapFilledAscends(xs: seq<Item>)
    ensures StrictlyAscending(GapFilled(xs))
    decreases |xs|
  {
    if xs != [] {
      var p, x := Unsnoc(xs);
      GapFilledAscends(p);
      GapFilledSnoc(p, x);
      GapFilledReachesMax(p);
      MaxHeightIsMaximum(GapFilled(p));
      AscendingAppend(GapFilled(p), Contribution(MaxHeight(p), x), MaxHeight(p));
    }
  }

  lemma HeightsOfPrefix(xs: seq<Item>, n: nat)
    requires n <= |xs|
    ensures Heights(xs[..n]) <= Heights(xs)
  {
    HeightsAppend(xs[..n], xs[n..]);
    assert xs == xs[..n] + xs[n..];
  }

  lemma HeightsAppend(a: seq<Item>, b: seq<Item>)
    ensures Heights(a + b) == Heights(a) + Heights(b)
    ensures Failures(a + b) == Failures(a) + Failures(b)
  {
    KeepAppend((x: Item) => x.Block?, a, b);
    KeepAppend((x: Item) => x.Failed?, a, b);
  }

  predicate AllHeights(xs: seq<Item>) {
    forall x <- xs :: x.Block?
  }

  lemma HeightsOnly(xs: seq<Item>)
    requires AllHeights(xs)
    ensures Heights(xs) == xs && Failures(xs) == []
  {
    KeepUniform((x: Item) => x.Block?, xs);
    KeepUniform((x: Item) => x.Failed?, xs);
  }

  lemma FailureOnly(error: nat)
    ensures Heights([Failed(error)]) == [] && Failures([Failed(error)]) == [Failed(error)]
  {
    KeepUniform((x: Item) => x.Block?, [Failed(error)]);
    KeepUniform((x: Item) => x.Failed?, [Failed(error)]);
  }

  lemma ContributesHeights(seen: Option<Height>, h: Height)
    ensures AllHeights(Contribution(seen, Block(h)))
  {
  }

  /** A height contributes heights only, a failure itself only. */
  lemma HeightsOfContribution(seen: Option<Height>, x: Item)
    ensures Heights(Contribution(seen, x)) == if x.Block? then Contribution(seen, x) else []
    ensures Failures(Contribution(seen, x)) == if x.Block? then [] else [x]
  {
    match x
    case Failed(error) => FailureOnly(error);
    case Block(h) =>
      ContributesHeights(seen, h);
      HeightsOnly(Contribution(seen, x));
  }

  /** No omission, no duplicate, in order: the heights delivered are first, first + 1, ..., maximum. */
  lemma {:induction false} GapFilledIsContiguous(xs: seq<Item>)
    ensures Heights(GapFilled(xs)) == FullRange(xs)
    decreases |xs|
  {
    if xs != [] {
      var p, x := Unsnoc(xs);
      GapFilledIsContiguous(p);
      ContiguousStep(p, x);
    }
  }

  lemma ContiguousStep(p: seq<Item>, x: Item)
    requires Heights(GapFilled(p)) == FullRange(p)
    ensures Heights(GapFilled(p + [x])) == FullRange(p + [x])
  {
    GapFilledSnoc(p, x);
    HeightsAppend(GapFilled(p), Contribution(MaxHeight(p), x));
    HeightsOfContribution(MaxHeight(p), x);
    FullRangeSnoc(p, x);
  }

  /** The failures delivered are exactly the failures of the queries. */
  lemma {:induction false} GapFilledKeepsFailures(xs: seq<Item>)
    ensures Failures(GapFilled(xs)) == Failures(xs)
    decreases |xs|
  {
    if xs != [] {
      var p, x := Unsnoc(xs);
      GapFilledKeepsFailures(p);
      FailuresStep(p, x);
    }
  }

  lemma HeightsOfOne(x: Item)
    ensures Failures([x]) == if x.Block? then [] else [x]
    ensures Heights([x]) == if x.Block? then [x] else []
  {
    match x
    case Failed(error) => FailureOnly(error);
    case Block(_) => HeightsOnly([x]);
  }

  lemma HeightsSnoc(xs: seq<Item>, x: Item)
    ensures |Heights(xs + [x])| == |Heights(xs)| + if x.Block? then 1 else 0
  {
    HeightsAppend(xs, [x]);
    HeightsOfOne(x);
  }

  lemma FailuresStep(p: seq<Item>, x: Item)
    requires Failures(GapFilled(p)) == Failures(p)
    ensures Failures(GapFilled(p + [x])) == Failures(p + [x])
  {
    GapFilledSnoc(p, x);
    HeightsAppend(GapFilled(p), Contribution(MaxHeight(p), x));
    HeightsOfContribution(MaxHeight(p), x);
    HeightsAppend(p, [x]);
    HeightsOfOne(x);
  }

  lemma SpanJoin(lo: nat, mid: nat, hi: nat)
    requires lo <= mid <= hi
    ensures Span(lo, mid) + Span(mid, hi) == Span(lo, hi)
  {
  }

  lemma BetweenGrows(first: Option<Height>, max: Option<Height>, h: Height)
    requires first.None? <==> max.None?
    requires first.Some? ==> first.value <= max.value
    ensures Between(if first.Some? then first else Some(h), Raise(max, Block(h))) ==
            Between(first, max) + Contribution(max, Block(h))
  {
    if max.None? {
      assert Span(h, h) == [];
    } else if h > max.value {
      SpanJoin(first.value, max.value + 1, h + 1);
    }
  }

  lemma FullRangeSnoc(p: seq<Item>, x: Item)
    ensures FullRange(p + [x]) == FullRange(p) + if x.Block? then Contribution(MaxHeight(p), x) else []
  {
    MaxHeightIsMaximum(p);
    FirstHeightOfPrefix(p, x);
    MaxHeightSnoc(p, x);
    if x.Block? {
      BetweenGrows(FirstHeight(p), MaxHeight(p), x.value);
    }
  }

  lemma {:induction false} GapFilledGrows(a: seq<Item>, b: seq<Item>)
    ensures GapFilled(a) <= GapFilled(a + b)
    decreases |b|
  {
    if b == [] {
      assert a + b == a;
    } else {
      var p, x := Unsnoc(b);
      assert a + b == (a + p) + [x];
      GapFilledGrows(a, p);
      GapFilledSnoc(a + p, x);
    }
  }

  /** A failed query shows up exactly at its place: right after the output of all earlier results. */
  lemma FailureInPlace(before: seq<Item>, error: nat, after: seq<Item>)
    ensures GapFilled(before) + [Failed(error)] <= GapFilled(before + [Failed(error)] + after)
  {
    GapFilledSnoc(before, Failed(error));
    GapFilledGrows(before + [Failed(error)], after);
  }

  /** Filtering before filling changes nothing. */
  lemma {:induction false} FillingAbsorbsFiltering(xs: seq<Item>)
    ensures MaxHeight(Increasing(xs)) == MaxHeight(xs)
    ensures GapFilled(Increasing(xs)) == GapFilled(xs)
    decreases |xs|
  {
    if xs != [] {
      var p, x := Unsnoc(xs);
      FillingAbsorbsFiltering(p);
      IncreasingSnoc(p, x);
      MaxHeightSnoc(p, x);
      GapFilledSnoc(p, x);
      MaxHeightSnoc(Increasing(p), x);
      GapFilledSnoc(Increasing(p), x);
    }
  }

  predicate StrictlyAscending(xs: seq<Item>) {
    forall i, j :: 0 <= i < j < |xs| && xs[i].Block? && xs[j].Block? ==> xs[i].value < xs[j].value
  }

  lemma FilterKeepsContent(xs: seq<Item>)
    ensures Failures(Increasing(xs)) == Failures(xs)
    ensures FullRange(Increasing(xs)) == FullRange(xs)
  {
    FillingAbsorbsFiltering(xs);
    GapFilledIsContiguous(xs);
    GapFilledIsContiguous(Increasing(xs));
    GapFilledKeepsFailures(xs);
    GapFilledKeepsFailures(Increasing(xs));
  }

  /** What passes the filter ascends strictly, and only heights already reached are dropped. */
  lemma {:induction false} FilterIsStrict(xs: seq<Item>)
    ensures StrictlyAscending(Increasing(xs))
    ensures Failures(Increasing(xs)) == Failures(xs)
    ensures FullRange(Increasing(xs)) == FullRange(xs)
    decreases |xs|
  {
    FilterKeepsContent(xs);
    if xs != [] {
      var p, x := Unsnoc(xs);
      FilterIsStrict(p);
      FillingAbsorbsFiltering(p);
      MaxHeightIsMaximum(Increasing(p));
      IncreasingSnoc(p, x);
    }
  }

  // ---------------------------------------------------------------------------------------
  // The gap-filling state machine.

  datatype StreamState =
    | Start
    | First(first: Height, isStreamed: bool)
    | BlocksAvailable(streamed: Height, latest: Height)
    | CaughtUp(height: Height)
  {
    function UpdateLatest(newLatest: Height): StreamState {
      match this
      case Start => First(newLatest, false)
      case First(h, _) => if h >= newLatest then this else BlocksAvailable(h, newLatest)
      case BlocksAvailable(s, l) => if l >= newLatest then this else BlocksAvailable(s, newLatest)
      case CaughtUp(h) => if h >= newLatest then this else BlocksAvailable(h, newLatest)
    }

    /** The state after one call of `stream`, and the height it hands out. */
    function Stream(): (StreamState, Option<Height>)
      requires BlocksAvailable? ==> streamed < MAX_HEIGHT  // otherwise `increment` panics
    {
      match this
      case Start => (this, None)
      case CaughtUp(_) => (this, None)
      case First(h, done) => (First(h, true), if done then None else Some(h))
      case BlocksAvailable(s, l) =>
        ((if s + 1 < l then BlocksAvailable(s + 1, l) else CaughtUp(s + 1)), Some(s + 1))
    }

    predicate WellFormed() {
      BlocksAvailable? ==> streamed < latest
    }

    function Latest(): Option<Height> {
      match this
      case Start => None
      case First(h, _) => Some(h)
      case BlocksAvailable(_, l) => Some(l)
      case CaughtUp(h) => Some(h)
    }

    /** The heights this state still has to hand out. */
    function Owed(): seq<Item> {
      match this
      case Start => []
      case First(h, done) => if done then [] else [Block(h)]
      case BlocksAvailable(s, l) => Span(s + 1, l + 1)
      case CaughtUp(_) => []
    }
  }

  /** `stream` hands out precisely the owed heights, one per call, and stops exactly when none is owed. */
  lemma StreamPaysOwed(s: StreamState)
    requires s.WellFormed() && (s.BlocksAvailable? ==> s.streamed < MAX_HEIGHT)
    ensures s.Stream().0.WellFormed() && s.Stream().0.Latest() == s.Latest()
    ensures match s.Stream().1
            case None => s.Owed() == [] && s.Stream().0.Owed() == []
            case Some(h) => s.Owed() == [Block(h)] + s.Stream().0.Owed()
  {
    if s.BlocksAvailable? {
      assert Span(s.streamed + 1, s.latest + 1) == [Block(s.streamed + 1)] + Span(s.streamed + 2, s.latest + 1);
    }
  }

  /** `update_latest` adds the newly revealed heights to what is owed. */
  predicate Adds(s: StreamState, h: Height) {
    s.UpdateLatest(h).Owed() == s.Owed() + Contribution(s.Latest(), Block(h))
  }

  lemma StartAdds(h: Height)
    ensures Adds(Start, h)
  {
    assert [] + [Block(h)] == [Block(h)];
  }

  lemma FirstAdds(first: Height, isStreamed: bool, h: Height)
    requires isStreamed || h <= first
    ensures Adds(First(first, isStreamed), h)
  {
  }

  lemma SpanEmpty(xs: seq<Item>, lo: nat, hi: nat)
    requires hi <= lo
    ensures xs + Span(lo, hi) == xs
  {
  }

  lemma AvailableKeeps(streamed: Height, latest: Height, h: Height)
    requires streamed < latest && h <= latest
    ensures Adds(BlocksAvailable(streamed, latest), h)
  {
    SpanEmpty(Span(streamed + 1, latest + 1), latest + 1, h + 1);
  }

  lemma GrowthJoins(owed: seq<Item>, more: seq<Item>, after: seq<Item>, lo: nat, mid: nat, hi: nat)
    requires lo <= mid <= hi && owed == Span(lo, mid) && more == Span(mid, hi) && after == Span(lo, hi)
    ensures after == owed + more
  {
    SpanJoin(lo, mid, hi);
  }

  lemma AvailableGrows(streamed: Height, latest: Height, h: Height)
    requires streamed < latest < h
    ensures Adds(BlocksAvailable(streamed, latest), h)
  {
    var s := BlocksAvailable(streamed, latest);
    GrowthJoins(s.Owed(), Contribution(s.Latest(), Block(h)), s.UpdateLatest(h).Owed(), streamed + 1, latest + 1, h + 1);
  }

  lemma CaughtUpAdds(height: Height, h: Height)
    ensures Adds(CaughtUp(height), h)
  {
  }

  lemma UpdateLatestLoses(first: Height, h: Height)
    requires h > first
    ensures !Adds(First(first, false), h)
  {
    var s := First(first, false);
    assert |s.UpdateLatest(h).Owed()| + 1 == |s.Owed() + Contribution(s.Latest(), Block(h))|;
  }

  /**
   * This holds except in one family of calls: a first height that has not been handed out yet is lost
   * when a larger height arrives.
   */
  lemma UpdateLatestKeepsOwed(s: StreamState, h: Height)
    requires s.WellFormed()
    ensures s.UpdateLatest(h).WellFormed()
    ensures Adds(s, h) <==> !(s.First? && !s.isStreamed && h > s.first)
  {
    match s
    case Start => StartAdds(h);
    case First(first, isStreamed) =>
      if isStreamed || h <= first {
        FirstAdds(first, isStreamed, h);
      } else {
        UpdateLatestLoses(first, h);
      }
    case BlocksAvailable(streamed, latest) =>
      if h <= latest {
        AvailableKeeps(streamed, latest, h);
      } else {
        AvailableGrows(streamed, latest, h);
      }
    case CaughtUp(height) => CaughtUpAdds(height, h);
  }

  /** None of the states owes anything. */
  ghost predicate Drained(states: seq<StreamState>) {
    forall s <- states :: s.Owed() == []
  }

  lemma DrainedSnoc(states: seq<StreamState>, s: StreamState)
    requires Drained(states) && s.Owed() == []
    ensures Drained(states + [s])
  {
  }

  /** `emitted` plus what the state owes is the gap-free output for `released`. */
  ghost predicate Accounts(s: StreamState, released: seq<Item>, emitted: seq<Item>) {
    && s.WellFormed()
    && s.Latest() == MaxHeight(released)
    && (s.Latest().Some? ==> s.Latest().value <= MAX_HEIGHT)
    && emitted + s.Owed() == GapFilled(released)
  }

  lemma Regroup(a: seq<Item>, x: Item, b: seq<Item>)
    ensures a + ([x] + b) == a + [x] + b
  {
  }

  lemma StreamKeepsAccounts(s: StreamState, released: seq<Item>, emitted: seq<Item>)
    requires Accounts(s, released, emitted)
    ensures match s.Stream().1
            case None => s.Owed() == [] && s.Stream().0.Owed() == [] && Accounts(s.Stream().0, released, emitted)
            case Some(h) => Accounts(s.Stream().0, released, emitted + [Block(h)])
  {
    StreamPaysOwed(s);
    if s.Stream().1.Some? {
      Regroup(emitted, Block(s.Stream().1.value), s.Stream().0.Owed());
    }
  }

  lemma ResultKeepsAccounts(s: StreamState, released: seq<Item>, emitted: seq<Item>, x: Item)
    requires Accounts(s, released, emitted) && s.Owed() == []
    requires x.Block? ==> x.value <= MAX_HEIGHT
    ensures match x
            case Block(h) => Accounts(s.UpdateLatest(h), released + [x], emitted)
            case Failed(_) => Accounts(s, released + [x], emitted + [x])
  {
    MaxHeightSnoc(released, x);
    GapFilledSnoc(released, x);
    assert emitted + s.Owed() == emitted;
    if x.Block? {
      UpdateLatestKeepsOwed(s, x.value);
      assert s.Owed() + Contribution(s.Latest(), x) == Contribution(s.Latest(), x);
    }
  }

  /** Nothing queried so far is missing from the output, except what the delayed height reveals. */
  ghost predicate Delivered(seen: seq<Item>, slot: Option<Item>, emitted: seq<Item>) {
    match slot
    case None => emitted == GapFilled(seen) && MaxHeight(emitted) == MaxHeight(seen)
    case Some(x) => GapFilled(seen) == emitted + Contribution(MaxHeight(emitted), x)
  }

  lemma EmittedIsPrefix(s: StreamState, seen: seq<Item>, released: seq<Item>, slot: Option<Item>, emitted: seq<Item>)
    requires Accounts(s, released, emitted) && Increasing(seen) == released + Held(slot)
    ensures emitted <= GapFilled(seen)
    ensures s.Owed() == [] ==> Delivered(seen, slot, emitted)
  {
    FillingAbsorbsFiltering(seen);
    GapFilledGrows(released, Held(slot));
    if s.Owed() == [] {
      assert emitted + s.Owed() == emitted;
      GapFilledReachesMax(released);
      if slot.Some? {
        GapFilledSnoc(released, slot.value);
      } else {
        assert released + Held(slot) == released;
      }
    }
  }

  // ---------------------------------------------------------------------------------------
  // The running pipeline.

  /** Tendermint heights never exceed `i64::MAX`. */
  predicate InRange(a: Poll) {
    a.Ready? && a.next.Some? && a.next.value.Block? ==> a.next.value.value <= MAX_HEIGHT
  }

  function Held(slot: Option<Item>): seq<Item> {
    if slot.Some? then [slot.value] else []
  }

  /** The results contained in the answers still to come; nothing follows the end of the stream. */
  function Results(answers: seq<Poll>): seq<Item> {
    if answers == [] || answers[0] == Ready(None) then []
    else (if answers[0].Ready? then Held(answers[0].next) else []) + Results(answers[1..])
  }

  /** Whether a poll delivers a height, which then has to sit out a delay. */
  predicate IsHeight(r: Poll) {
    IsItem(r) && r.next.value.Block?
  }

  /** How many delays the answers still to come will ask for. */
  function Delays(answers: seq<Poll>): nat {
    if answers == [] || answers[0] == Ready(None) then 0
    else (if IsHeight(answers[0]) then 1 else 0) + Delays(answers[1..])
  }

  /** How many of the timer's answers end a delay. */
  function Wakes(timers: seq<bool>): nat {
    if timers == [] then 0 else (if timers[0] then 1 else 0) + Wakes(timers[1..])
  }

  predicate AllInRange(answers: seq<Poll>) {
    forall a <- answers :: InRange(a)
  }

  predicate IsItem(r: Poll) {
    r.Ready? && r.next.Some?
  }

  /**
   * `StrictlyIncreasing` over the polled height query. The environment is a script: `answers` is what
   * the query will answer on each poll, up to the end of its stream (pending once exhausted). Every
   * script is allowed.
   */
  class StrictlyIncreasing {
    var answers: seq<Poll>
    var lastStreamed: Option<Height>
    ghost var seen: seq<Item>    // results polled from the query
    ghost var passed: seq<Item>  // results that left the filter
    ghost var ended: bool        // the query's stream has ended

    ghost predicate Valid()
      reads this
    {
      && AllInRange(answers)
      && passed == Increasing(seen)
      && lastStreamed == MaxHeight(seen)
    }

    /** Every result of the whole script, polled or not. */
    ghost function Script(): seq<Item>
      reads this
    {
      seen + Results(answers)
    }

    constructor (answers: seq<Poll>)
      requires AllInRange(answers)
      ensures Valid() && this.answers == answers && seen == passed == [] && !ended && Script() == Results(answers)
    {
      this.answers, lastStreamed, seen, passed, ended := answers, None, [], [], false;
      assert [] + Results(answers) == Results(answers);
    }

    /** One poll of the height query. */
    method PollQuery() returns (r: Poll)
      requires AllInRange(answers)
      modifies this`answers, this`seen, this`ended
      ensures AllInRange(answers) && InRange(r)
      ensures if old(answers) == [] then r == Pending && answers == [] else r == old(answers)[0]
      ensures |answers| <= |old(answers)| && (answers == [] || |answers| < |old(answers)|)
      ensures r.Ready? ==> |answers| < |old(answers)|
      ensures r == Ready(None) ==> answers == []
      ensures ended == (old(ended) || r == Ready(None))
      ensures Delays(old(answers)) == Delays(answers) + if IsHeight(r) then 1 else 0
      ensures seen == if IsItem(r) then old(seen) + [r.next.value] else old(seen)
      ensures Script() == old(Script())
    {
      if answers == [] {
        return Pending;
      }
      r := answers[0];
      if r == Ready(None) {
        answers, ended := [], true;
        return;
      }
      answers := answers[1..];
      if IsItem(r) {
        assert seen + ([r.next.value] + Results(answers)) == seen + [r.next.value] + Results(answers);
        seen := seen + [r.next.value];
      }
    }

    /** Skips results that are not above everything streamed before. */
    method PollNext() returns (r: Poll)
      requires Valid()
      modifies this
      ensures Valid() && InRange(r) && Script() == old(Script()) && old(seen) <= seen
      ensures |answers| <= |old(answers)| && (r.Ready? || answers != [] ==> |answers| < |old(answers)|)
      ensures r == Ready(None) ==> answers == []
      ensures ended == (old(ended) || r == Ready(None))
      ensures Delays(answers) + (if IsHeight(r) then 1 else 0) <= Delays(old(answers))
      ensures passed == if IsItem(r) then old(passed) + [r.next.value] else old(passed)
    {
      while true
        invariant Valid() && Script() == old(Script()) && old(seen) <= seen
        invariant |answers| <= |old(answers)| && passed == old(passed)
        invariant Delays(answers) <= Delays(old(answers)) && ended == old(ended)
        decreases |answers|
      {
        ghost var before := seen;
        r := PollQuery();
        if !IsItem(r) {
          return;
        }
        MaxHeightSnoc(before, r.next.value);
        IncreasingSnoc(before, r.next.value);
        if r.next.value.Block? {
          var current := r.next.value.value;
          var previous := lastStreamed;
          lastStreamed := Some(current);
          if previous.Some? && previous.value >= current {
            lastStreamed := previous;
            continue;
          }
        }
        passed := passed + [r.next.value];
        return;
      }
    }
  }

  /**
   * `delay_blocks` under `buffered(1)`: holds one result; a height leaves when its sleep is over, a
   * failure at once. `timers` says, poll by poll, whether the sleep is over; every script is allowed.
   */
  class Delayed {
    const input: StrictlyIncreasing
    var timers: seq<bool>
    var slot: Option<Item>
    var inputClosed: bool
    ghost var released: seq<Item>  // results that left the buffer

    ghost predicate Valid()
      reads this, input
    {
      && input.Valid()
      && input.passed == released + Held(slot)
      && InRange(Ready(slot))
      && (inputClosed ==> input.answers == [])
      && inputClosed == input.ended
    }

    /** Answers still to come, from the query and the timer. */
    ghost function Left(): nat
      reads this, input
    {
      |input.answers| + |timers|
    }

    /** The timer will wake up for every height still to be delayed. */
    ghost predicate Fair()
      reads this, input
    {
      Wakes(timers) >= Owing()
    }

    /** Delays that have ended for a height already released, and delays that can still end. */
    ghost function Endings(): nat
      reads this
    {
      Wakes(timers) + |Heights(released)|
    }

    /** Nothing is left to poll, or a height waits for a timer that will not wake up any more. */
    ghost predicate Stuck()
      reads this, input
    {
      if slot.None? then input.answers == [] else slot.value.Block? && timers == []
    }

    constructor (input: StrictlyIncreasing, timers: seq<bool>)
      requires input.Valid() && input.passed == [] && !input.ended
      ensures Valid() && this.input == input && released == []
      ensures Endings() == Wakes(timers)
      ensures Left() == |input.answers| + |timers| && (Fair() <==> Wakes(timers) >= Delays(input.answers))
    {
      this.input, this.timers, slot, inputClosed, released := input, timers, None, false, [];
    }

    /** The delays still to come, counting the held height. */
    ghost function Owing(): nat
      reads this, input
    {
      Delays(input.answers) + if slot.Some? && slot.value.Block? then 1 else 0
    }

    /** Takes the next result if the slot is free. */
    method Refill()
      requires Valid()
      modifies this`slot, this`inputClosed, input
      ensures Valid() && input.Script() == old(input.Script()) && old(input.seen) <= input.seen
      ensures |input.answers| <= |old(input.answers)| && Owing() <= old(Owing())
      ensures old(slot).Some? ==> slot == old(slot)
      ensures old(slot).None? && (slot.Some? || input.answers != []) ==> |input.answers| < |old(input.answers)|
    {
      if slot.None? && !inputClosed {
        var p := input.PollNext();
        if IsItem(p) {
          slot := p.next;
        } else if p.Ready? {
          inputClosed := true;
        }
      }
    }

    method PollNext() returns (r: Poll)
      requires Valid()
      modifies this, input
      ensures Valid() && InRange(r) && input.Script() == old(input.Script()) && old(input.seen) <= input.seen
      ensures released == if IsItem(r) then old(released) + [r.next.value] else old(released)
      ensures |input.answers| <= |old(input.answers)|
      ensures IsItem(r) ==> slot.None? && (old(slot).Some? || |input.answers| < |old(input.answers)|)
      ensures Left() <= old(Left()) && (!IsItem(r) ==> Left() < old(Left()) || Stuck())
      ensures old(Fair()) ==> Fair()
      ensures Endings() == old(Endings())
      ensures r == Ready(None) ==> input.ended && slot.None?
      ensures !IsItem(r) && input.ended && slot.None? ==> r == Ready(None)
    {
      Refill();
      if slot.None? {
        return if inputClosed then Ready(None) else Pending;
      }
      r := Release();
    }

    /** Lets the held result go if it is a failure or its sleep is over. */
    method Release() returns (r: Poll)
      requires Valid() && slot.Some?
      modifies this`timers, this`slot, this`released
      ensures Valid() && InRange(r) && (r.Pending? || r == Ready(old(slot)))
      ensures released == if IsItem(r) then old(released) + [r.next.value] else old(released)
      ensures |timers| <= |old(timers)|
      ensures if r.Ready? then slot.None? else slot == old(slot) && (|timers| < |old(timers)| || Stuck())
      ensures old(slot).value.Failed? ==> r.Ready? && timers == old(timers)
      ensures old(slot).value.Block? ==> (r.Ready? <==> old(timers) != [] && old(timers)[0])
      ensures old(slot).value.Block? ==> timers == if old(timers) == [] then [] else old(timers)[1..]
      ensures old(Fair()) ==> Fair()
      ensures Endings() == old(Endings())
    {
      HeightsSnoc(released, slot.value);
      var awake := slot.value.Failed?;
      if !awake && timers != [] {
        awake, timers := timers[0], timers[1..];
      }
      if !awake {
        return Pending;
      }
      r := Ready(slot);
      released := input.passed;
      slot := None;
    }
  }

  /** The stream built by `blocks`: the gap filler over the delayed, filtered query. */
  class FillGaps {
    const input: Delayed
    var state: StreamState
    ghost var emitted: seq<Item>             // results that left the pipeline
    ghost var updatedFrom: seq<StreamState>  // the states `update_latest` was called in

    ghost predicate Valid()
      reads this, input, input.input
    {
      && input.Valid()
      && Accounts(state, input.released, emitted)
      && Drained(updatedFrom)
    }

    constructor (input: Delayed)
      requires input.Valid() && input.released == []
      ensures Valid() && this.input == input && emitted == [] && updatedFrom == []
    {
      this.input, state, emitted, updatedFrom := input, Start, [], [];
    }

    /** `stream` on the state in place: hands out the next owed height, if any. */
    method StreamNext() returns (h: Option<Height>)
      requires Valid()
      modifies this
      ensures Valid() && state == old(state).Stream().0 && h == old(state).Stream().1
      ensures emitted == if h.Some? then old(emitted) + [Block(h.value)] else old(emitted)
      ensures h.None? ==> state.Owed() == []
    {
      StreamKeepsAccounts(state, input.released, emitted);
      var next := state.Stream();
      state, h := next.0, next.1;
      if h.Some? {
        emitted := emitted + [Block(h.value)];
      }
    }

    /** Takes in a result that has just left the buffer: a height updates the state, a failure passes through. */
    method Absorb(x: Item, ghost before: seq<Item>)
      requires input.Valid() && input.released == before + [x] && (x.Block? ==> x.value <= MAX_HEIGHT)
      requires Accounts(state, before, emitted) && Drained(updatedFrom) && state.Owed() == []
      modifies this
      ensures Valid()
      ensures emitted == if x.Failed? then old(emitted) + [x] else old(emitted)
      ensures state == if x.Block? then old(state).UpdateLatest(x.value) else old(state)
      ensures updatedFrom == if x.Block? then old(updatedFrom) + [old(state)] else old(updatedFrom)
    {
      ResultKeepsAccounts(state, before, emitted, x);
      match x
      case Failed(_) =>
        emitted := emitted + [x];
      case Block(newLatest) =>
        DrainedSnoc(updatedFrom, state);
        updatedFrom := updatedFrom + [state];
        state := state.UpdateLatest(newLatest);
    }

    /** Polls the buffer with nothing owed. */
    method TakeResult() returns (r: Poll)
      requires Valid() && state.Owed() == []
      modifies this, input, input.input
      ensures Valid() && input.input.Script() == old(input.input.Script()) && old(input.input.seen) <= input.input.seen
      ensures |input.input.answers| <= |old(input.input.answers)|
      ensures IsItem(r) ==> input.slot.None? && (old(input.slot).Some? || |input.input.answers| < |old(input.input.answers)|)
      ensures emitted == if IsItem(r) && r.next.value.Failed? then old(emitted) + [r.next.value] else old(emitted)
      ensures state == if IsItem(r) && r.next.value.Block? then old(state).UpdateLatest(r.next.value.value) else old(state)
      ensures updatedFrom == if IsItem(r) && r.next.value.Block? then old(updatedFrom) + [old(state)] else old(updatedFrom)
      ensures input.Left() <= old(input.Left()) && (!IsItem(r) ==> input.Left() < old(input.Left()) || input.Stuck())
      ensures old(input.Fair()) ==> input.Fair()
      ensures input.Endings() == old(input.Endings())
      ensures r == Ready(None) ==> input.input.ended && input.slot.None?
      ensures !IsItem(r) && input.input.ended && input.slot.None? ==> r == Ready(None)
    {
      ghost var before := input.released;
      r := input.PollNext();
      if IsItem(r) {
        Absorb(r.next.value, before);
      }
    }

    /** One turn of the loop of `poll_next`; without a result it has taken in a height and goes on. */
    method Turn() returns (done: Option<Poll>)
      requires Valid()
      modifies this, input, input.input
      ensures Valid() && input.input.Script() == old(input.input.Script()) && old(input.input.seen) <= input.input.seen
      ensures input.Left() <= old(input.Left()) && (old(input.Fair()) ==> input.Fair())
      ensures input.Endings() == old(input.Endings())
      ensures |input.input.answers| <= |old(input.input.answers)|
      ensures done.None? ==> emitted == old(emitted) && input.slot.None?
      ensures done.None? ==> old(input.slot).Some? || |input.input.answers| < |old(input.input.answers)|
      ensures done.Some? ==> emitted == if IsItem(done.value) then old(emitted) + [done.value.next.value] else old(emitted)
      ensures done.Some? && !IsItem(done.value) ==>
                state.Owed() == [] && (input.Left() < old(input.Left()) || input.Stuck())
      ensures done == Some(Ready(None)) ==> input.input.ended && input.slot.None?
      ensures done.Some? && !IsItem(done.value) && input.input.ended && input.slot.None? ==> done == Some(Ready(None))
    {
      var next := StreamNext();
      if next.Some? {
        return Some(Ready(Some(Block(next.value))));
      }
      var r := TakeResult();
      done := if IsHeight(r) then None else Some(r);
    }

    /** The loop of `poll_next`: hands out what is owed, or takes results until something is. */
    method Pull() returns (r: Poll)
      requires Valid()
      modifies this, input, input.input
      ensures Valid() && input.input.Script() == old(input.input.Script()) && old(input.input.seen) <= input.input.seen
      ensures emitted == if IsItem(r) then old(emitted) + [r.next.value] else old(emitted)
      ensures !IsItem(r) ==> state.Owed() == []
      ensures input.Left() <= old(input.Left()) && (!IsItem(r) ==> input.Left() < old(input.Left()) || input.Stuck())
      ensures old(input.Fair()) ==> input.Fair()
      ensures input.Endings() == old(input.Endings())
      ensures r == Ready(None) ==> input.input.ended && input.slot.None?
      ensures !IsItem(r) && input.input.ended && input.slot.None? ==> r == Ready(None)
    {
      while true
        invariant Valid() && input.input.Script() == old(input.input.Script()) && old(input.input.seen) <= input.input.seen
        invariant emitted == old(emitted)
        invariant input.Left() <= old(input.Left()) && (old(input.Fair()) ==> input.Fair())
        invariant input.Endings() == old(input.Endings())
        decreases |input.input.answers|, input.slot.Some?
      {
        var done := Turn();
        if done.Some? {
          return done.value;
        }
      }
    }

    /**
     * What has been emitted is always a prefix of the gap-free output for the results polled so far;
     * whenever the stream is pending only what the delayed height reveals may be missing. A poll without
     * a result uses up an answer of the query or the timer, unless none is left to wait for.
     */
    method PollNext() returns (r: Poll)
      requires Valid()
      modifies this, input, input.input
      ensures Valid() && input.input.Script() == old(input.input.Script()) && old(input.input.seen) <= input.input.seen
      ensures emitted == if IsItem(r) then old(emitted) + [r.next.value] else old(emitted)
      ensures emitted <= GapFilled(input.input.seen)
      ensures !IsItem(r) ==> Delivered(input.input.seen, input.slot, emitted)
      ensures input.Left() <= old(input.Left()) && (!IsItem(r) ==> input.Left() < old(input.Left()) || input.Stuck())
      ensures old(input.Fair()) ==> input.Fair()
      ensures input.Endings() == old(input.Endings())
      ensures r == Ready(None) ==> input.input.ended && input.slot.None?
      ensures !IsItem(r) && input.input.ended && input.slot.None? ==> r == Ready(None)
    {
      r := Pull();
      EmittedIsPrefix(state, input.input.seen, input.released, input.slot, emitted);
    }

    /** One poll, seen against the output of the whole script and the polls made before it. */
    method PollOnce(ghost whole: seq<Item>, ghost total: nat, ghost polls: nat) returns (r: Poll)
      requires Valid() && whole == GapFilled(input.input.Script()) && emitted <= whole
      modifies this, input, input.input
      ensures Valid() && input.input.Script() == old(input.input.Script()) && emitted <= whole
      ensures emitted == if IsItem(r) then old(emitted) + [r.next.value] else old(emitted)
      ensures old(input.Fair()) ==> input.Fair()
      ensures input.Endings() == old(input.Endings())
      ensures old(input.Fair()) && Progress(old(emitted), whole, total - old(input.Left()), polls) ==>
                Progress(emitted, whole, total - input.Left(), polls + 1)
    {
      r := PollNext();
      GapFilledGrows(input.input.seen, Results(input.input.answers));
      if !IsItem(r) && input.Stuck() && input.Fair() {
        assert input.input.seen + [] == input.input.seen;
      }
    }

    /** Any number of polls from a fresh start. */
    method PollMany(polls: nat, ghost whole: seq<Item>, ghost total: nat) returns (out: seq<Item>)
      requires Valid() && emitted == [] && whole == GapFilled(input.input.Script()) && total == input.Left()
      modifies this, input, input.input
      ensures out <= whole
      ensures old(input.Fair()) ==> Progress(out, whole, total, polls)
      ensures DelaysKept(out, old(input.input.Script()), old(input.Endings()))
    {
      out := [];
      for i := 0 to polls
        invariant Valid() && emitted == out <= whole && input.input.Script() == old(input.input.Script())
        invariant old(input.Fair()) ==> input.Fair() && Progress(out, whole, total - input.Left(), i)
        invariant input.Endings() == old(input.Endings())
      {
        var r := PollOnce(whole, total, i);
        if IsItem(r) {
          out := out + [r.next.value];
        }
      }
      ReleasedIsKept(out, state.Owed(), input.released, Held(input.slot), input.input.seen, Results(input.input.answers), input.Endings());
    }
  }

  /**
   * The output fills the gaps of results for which a delay has ended: some first part of the increasing
   * results, with at most `endings` heights in it, accounts for all of it.
   */
  ghost predicate DelaysKept(out: seq<Item>, results: seq<Item>, endings: nat) {
    exists n: nat ::
      n <= |Increasing(results)| && |Heights(Increasing(results)[..n])| <= endings && out <= GapFilled(Increasing(results)[..n])
  }

  lemma {:induction false} IncreasingGrows(a: seq<Item>, b: seq<Item>)
    ensures Increasing(a) <= Increasing(a + b)
    decreases |b|
  {
    if b == [] {
      assert a + b == a;
    } else {
      var p, x := Unsnoc(b);
      assert a + b == (a + p) + [x];
      IncreasingGrows(a, p);
      IncreasingSnoc(a + p, x);
    }
  }

  lemma ReleasedIsKept(out: seq<Item>, owed: seq<Item>, released: seq<Item>, held: seq<Item>, seen: seq<Item>, rest: seq<Item>, endings: nat)
    requires out + owed == GapFilled(released) && Increasing(seen) == released + held && |Heights(released)| <= endings
    ensures DelaysKept(out, seen + rest, endings)
  {
    IncreasingGrows(seen, rest);
    var all := Increasing(seen + rest);
    assert released <= Increasing(seen) <= all;
    assert all[..|released|] == released;
    assert out <= GapFilled(released);
  }

  /** After `polls` polls: everything is out, or every poll made progress on the answers or the output. */
  ghost predicate Progress(out: seq<Item>, whole: seq<Item>, consumed: int, polls: nat) {
    out == whole || |out| + consumed >= polls
  }

  lemma EnoughPolls(out: seq<Item>, whole: seq<Item>, total: nat, polls: nat)
    requires out <= whole
    ensures Progress(out, whole, total, polls) && polls >= total + |whole| ==> out == whole
  {
  }

  /** Everything the script has to deliver. */
  ghost function Whole(answers: seq<Poll>): seq<Item> {
    GapFilled(Results(answers))
  }

  /** The timer wakes up for every height, and there are polls for every answer and every height. */
  ghost predicate Suffices(answers: seq<Poll>, timers: seq<bool>, polls: nat) {
    Wakes(timers) >= Delays(answers) && polls >= |answers| + |timers| + |Whole(answers)|
  }

  /** `blocks`: the pipeline on the scripted query and timer. */
  method Blocks(answers: seq<Poll>, timers: seq<bool>) returns (pipeline: FillGaps)
    requires AllInRange(answers)
    ensures fresh({pipeline, pipeline.input, pipeline.input.input})
    ensures pipeline.Valid() && pipeline.emitted == [] && pipeline.input.input.Script() == Results(answers)
    ensures pipeline.input.Left() == |answers| + |timers| && pipeline.input.Endings() == Wakes(timers)
    ensures pipeline.input.Fair() <==> Wakes(timers) >= Delays(answers)
  {
    var filter := new StrictlyIncreasing(answers);
    var buffer := new Delayed(filter, timers);
    pipeline := new FillGaps(buffer);
  }

  /**
   * Any number of polls of a fresh pipeline, on any script. The output is a prefix of the gap-free output
   * of the whole script, and of results whose delay has ended; if the timer wakes up for every height, then every poll brings the output
   * forward or uses up an answer, so with enough polls the output is complete.
   */
  method RunBlocks(answers: seq<Poll>, timers: seq<bool>, polls: nat) returns (out: seq<Item>)
    requires AllInRange(answers)
    ensures out <= Whole(answers) && DelaysKept(out, Results(answers), Wakes(timers))
    ensures Wakes(timers) >= Delays(answers) ==> Progress(out, Whole(answers), |answers| + |timers|, polls)
    ensures Suffices(answers, timers, polls) ==> out == Whole(answers)
  {
    var pipeline := Blocks(answers, timers);
    out := pipeline.PollMany(polls, Whole(answers), |answers| + |timers|);
    EnoughPolls(out, Whole(answers), |answers| + |timers|, polls);
  }
}
