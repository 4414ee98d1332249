/**
 * The account sequence shared by all clones of the broadcaster. `broadcast` takes the lock twice: once
 * to estimate the fee and once to sign and send. Each section under the lock is one atomic step here;
 * between the two sections of one client, the steps of the others interleave freely.
 */
module Broadcaster {
  import opened Common

  /** How the chain answers a simulation; errors are told apart by whether they name a sequence. */
  datatype Simulated = GasUsed(gas: u64) | Mismatch(expected: u64) | SimulationFailed

  /** How the chain answers a broadcast and, after a failed one, the account query. */
  datatype TxReply = Acknowledged | Refused(account: Option<u64>)

  /** `SequenceOverflow` is a panic of the sending task; the lock stays usable by the other clones. */
  datatype Error = EstimateGas | SignTx | BroadcastTx | AccountQuery | SequenceOverflow

  /** One estimation under the lock: the cached sequence after it, and its result. */
  function Estimated(acc: u64, first: Simulated, second: Simulated): (u64, Result<u64, Error>) {
    match first
    case GasUsed(gas) => (acc, Ok(gas))
    case SimulationFailed => (acc, Err(EstimateGas))
    case Mismatch(expected) => (expected, if second.GasUsed? then Ok(second.gas) else Err(EstimateGas))
  }

  /** Sign-and-send under the lock: the cached sequence after it, and its result. */
  function Sent(acc: u64, signed: bool, reply: TxReply): (u64, Result<(), Error>) {
    if !signed then (acc, Err(SignTx))
    else
      match reply
      case Acknowledged => if acc == U64_MAX then (acc, Err(SequenceOverflow)) else (acc + 1, Ok(()))
      case Refused(Some(sequence)) => (sequence, Err(BroadcastTx))
      case Refused(None) => (acc, Err(AccountQuery))
  }

  /** Whether the reply to a transaction lets the sender know what the chain expects next. */
  predicate Truthful(expected: u64, reply: TxReply, accepts: bool) {
    match reply
    case Acknowledged => accepts
    case Refused(Some(s)) => s == if accepts then expected + 1 else expected
    case Refused(None) => !accepts
  }

  /** No sequence but `expected` passes either simulation. */
  ghost predicate OnlyPasses(simulate: u64 -> Simulated, again: u64 -> Simulated, expected: u64) {
    forall s: u64 :: simulate(s).GasUsed? || again(s).GasUsed? ==> s == expected
  }

  /** The locked value, with the code that runs while the lock is held. */
  class AccountSequence {
    var value: u64

    constructor (sequence: u64)
      ensures value == sequence
    {
      value := sequence;
    }

    /**
     * Retries once with the sequence the chain asks for. `simulate` and `again` are the chain's replies.
     * The gas returned is that of the simulation that passed; a successful estimation leaves the one
     * sequence that passes simulation in the cache.
     */
    method EstimateGas(simulate: u64 -> Simulated, again: u64 -> Simulated) returns (r: Result<u64, Error>)
      modifies this
      ensures match simulate(old(value))
              case GasUsed(gas) => r == Ok(gas) && value == old(value)
              case SimulationFailed => r == Err(Error.EstimateGas) && value == old(value)
              case Mismatch(e) =>
                value == e && match again(e)
                              case GasUsed(gas) => r == Ok(gas)
                              case _ => r == Err(Error.EstimateGas)
      ensures var first := simulate(old(value));
              (value, r) == Estimated(old(value), first, if first.Mismatch? then again(first.expected) else first)
      ensures forall e: u64 :: OnlyPasses(simulate, again, e) && r.Ok? ==> value == e
    {
      var res := simulate(value);
      match res
      case GasUsed(gas) => r := Ok(gas);
      case SimulationFailed => r := Err(Error.EstimateGas);
      case Mismatch(expected) =>
        value := expected;
        res := again(value);
        r := if res.GasUsed? then Ok(res.gas) else Err(Error.EstimateGas);
    }

    /**
     * Returns the sequence the transaction was signed with, if one was handed to the chain. After a
     * truthful reply to the expected sequence, the cache holds the next expected one.
     */
    method SignAndSend(signed: bool, broadcast: u64 -> TxReply) returns (r: Result<(), Error>, tx: Option<u64>)
      modifies this
      ensures (value, r) == Sent(old(value), signed, broadcast(old(value)))
      ensures tx == if signed then Some(old(value)) else None
      ensures if !signed then r == Err(SignTx) && value == old(value)
              else match broadcast(old(value))
                   case Acknowledged =>
                     if old(value) < U64_MAX then r == Ok(()) && value == old(value) + 1
                     else r == Err(SequenceOverflow) && value == old(value)
                   case Refused(Some(s)) => r == Err(BroadcastTx) && value == s
                   case Refused(None) => r == Err(AccountQuery) && value == old(value)
      ensures signed && old(value) < U64_MAX ==>
                forall accepts :: Truthful(old(value), broadcast(old(value)), accepts) ==>
                  value == if accepts then old(value) + 1 else old(value)
    {
      tx := None;
      if !signed {
        return Err(SignTx), None;
      }
      tx := Some(value);
      match broadcast(value)
      case Acknowledged =>
        var next := CheckedAdd(value, 1);
        if next.None? {
          return Err(SequenceOverflow), tx;
        }
        value := next.value;
        r := Ok(());
      case Refused(account) =>
        r := ResetSequence(account);
    }

    method ResetSequence(account: Option<u64>) returns (r: Result<(), Error>)
      modifies this
      ensures value == if account.Some? then account.value else old(value)
      ensures r == Err(if account.Some? then BroadcastTx else AccountQuery)
    {
      if account.None? {
        return Err(AccountQuery);
      }
      value := account.value;
      r := Err(BroadcastTx);
    }
  }

  // ---------------------------------------------------------------------------------------
  // All clones against the chain.

  /** A transaction handed to the chain: its sequence and the one the chain expected at that moment. */
  datatype Handed = Handed(sequence: u64, expected: u64)

  /** How the cached value came about: by an acknowledged broadcast or by a resynchronisation. */
  datatype Origin = Used(sequence: u64) | Resynced(sequence: u64)

  datatype World = World(
    acc: u64,               // the shared cached sequence
    expected: u64,          // the sequence the chain expects next
    between: set<nat>,      // clients between the two locks of a broadcast
    panicked: set<nat>,     // clients whose task panicked
    handed: seq<Handed>,
    accepted: seq<u64>,     // sequences of the transactions the chain took, in order
    origins: seq<Origin>)

  function Built(sequence: u64, expected: u64): World {
    World(sequence, expected, {}, {}, [], [], [])
  }

  /**
   * `drift` is the sequence the chain expects at the second simulation of an estimation (there is one
   * only after a mismatch). A transaction may be accepted or not, whatever the reply says.
   */
  datatype Step =
    | Estimate(first: Simulated, drift: u64, second: Simulated)
    | Prepare(client: nat, first: Simulated, drift: u64, second: Simulated, feeOk: bool)
    | Send(client: nat, signed: bool, reply: TxReply, accepts: bool)
    | ChainMoves(expected: u64)

  function Estimating(w: World, first: Simulated, drift: u64, second: Simulated): World {
    w.(acc := Estimated(w.acc, first, second).0,
       expected := if first.Mismatch? then drift else w.expected,
       origins := w.origins + if first.Mismatch? then [Resynced(first.expected)] else [])
  }

  function Origins(acc: u64, reply: TxReply): seq<Origin> {
    match reply
    case Acknowledged => [Used(acc)]
    case Refused(account) => if account.Some? then [Resynced(account.value)] else []
  }

  function Sending(w: World, client: nat, signed: bool, reply: TxReply, accepts: bool): World {
    var v := w.(between := w.between - {client});
    if !signed then v
    else
      v.(acc := Sent(w.acc, signed, reply).0,
         expected := if accepts then SaturatingAdd(w.expected, 1) else w.expected,
         panicked := w.panicked + if reply.Acknowledged? && w.acc == U64_MAX then {client} else {},
         handed := w.handed + [Handed(w.acc, w.expected)],
         accepted := w.accepted + (if accepts then [w.acc] else []),
         origins := w.origins + Origins(w.acc, reply))
  }

  function Preparing(w: World, client: nat, first: Simulated, drift: u64, second: Simulated, feeOk: bool): World {
    var v := Estimating(w, first, drift, second);
    if Estimated(w.acc, first, second).1.Ok? && feeOk then v.(between := v.between + {client}) else v
  }

  function Next(w: World, step: Step): World {
    match step
    case Estimate(first, drift, second) => Estimating(w, first, drift, second)
    case Prepare(client, first, drift, second, feeOk) => Preparing(w, client, first, drift, second, feeOk)
    case Send(client, signed, reply, accepts) => Sending(w, client, signed, reply, accepts)
    case ChainMoves(e) => w.(expected := e)
  }

  /** What may be assumed about the surroundings. */
  datatype Assumption =
    | Nothing
    | FaithfulChain      // mismatches and account queries name the expected sequence, replies tell the truth
    | ExactSimulations   // only the expected sequence passes simulation, and mismatches name it
    | OneAtATime         // exact simulations, one broadcast at a time, a quiet account meanwhile

  predicate Exact(w: World, first: Simulated, drift: u64, second: Simulated) {
    && (first.GasUsed? ==> w.acc == w.expected)
    && (first.Mismatch? ==> first.expected == w.expected && (second.GasUsed? ==> first.expected == drift))
  }

  predicate Simulates(w: World, first: Simulated, drift: u64, second: Simulated, assumption: Assumption) {
    match assumption
    case Nothing => true
    case FaithfulChain => drift == w.expected && (first.Mismatch? ==> first.expected == w.expected)
    case ExactSimulations => Exact(w, first, drift, second)
    case OneAtATime => Exact(w, first, drift, second) && (w.between != {} ==> drift == w.expected)
  }

  predicate Faithful(w: World, reply: TxReply, accepts: bool) {
    && (reply.Acknowledged? <==> accepts)
    && (reply.Refused? && reply.account.Some? ==> reply.account.value == w.expected)
  }

  /** The chain counts in 64 bits too: it accepts nothing beyond its last sequence. */
  predicate Allowed(w: World, step: Step, assumption: Assumption) {
    match step
    case Estimate(first, drift, second) => Simulates(w, first, drift, second, assumption)
    case Prepare(client, first, drift, second, _) =>
      && client !in w.between + w.panicked
      && Simulates(w, first, drift, second, assumption)
      && (assumption.OneAtATime? ==> w.between == {})
    case Send(client, _, reply, accepts) =>
      && client in w.between
      && (accepts ==> w.expected < U64_MAX)
      && (assumption.FaithfulChain? ==> Faithful(w, reply, accepts))
    case ChainMoves(_) =>
      assumption.Nothing? || assumption.ExactSimulations? || (assumption.OneAtATime? && w.between == {})
  }

  function Attempted(w: World, step: Step, assumption: Assumption): World {
    if Allowed(w, step, assumption) then Next(w, step) else w
  }

  /** Any interleaving of any number of clients; steps the assumption rules out are skipped. */
  function Run(w: World, steps: seq<Step>, assumption: Assumption): World {
    if steps == [] then w
    else Attempted(Run(w, steps[..|steps| - 1], assumption), steps[|steps| - 1], assumption)
  }

  lemma RunSnoc(w: World, steps: seq<Step>, step: Step, assumption: Assumption)
    ensures Run(w, steps + [step], assumption) == Attempted(Run(w, steps, assumption), step, assumption)
  {
    assert (steps + [step])[..|steps|] == steps;
  }

  predicate CarriesExpected(handed: seq<Handed>) {
    forall h <- handed :: h.sequence == h.expected
  }

  /** The numbers `lo`, `lo + 1`, ..., `hi - 1`. */
  predicate Consecutive(ns: seq<u64>, lo: nat, hi: nat) {
    lo + |ns| == hi && forall i :: 0 <= i < |ns| ==> ns[i] == lo + i
  }

  ghost predicate Agrees(initial: u64, w: World) {
    w.acc == w.expected && Consecutive(w.accepted, initial, w.expected) && CarriesExpected(w.handed)
  }

  lemma EstimatingAgrees(initial: u64, w: World, first: Simulated, drift: u64, second: Simulated)
    requires Agrees(initial, w) && Simulates(w, first, drift, second, FaithfulChain)
    ensures Agrees(initial, Estimating(w, first, drift, second))
  {
  }

  lemma SendingAgrees(initial: u64, w: World, client: nat, signed: bool, reply: TxReply, accepts: bool)
    requires Agrees(initial, w) && Faithful(w, reply, accepts) && (accepts ==> w.expected < U64_MAX)
    ensures Agrees(initial, Sending(w, client, signed, reply, accepts))
  {
  }

  /** With a faithful chain the clones agree with it at every moment, in every interleaving. */
  lemma {:induction false} ClonesAgree(initial: u64, steps: seq<Step>)
    ensures Agrees(initial, Run(Built(initial, initial), steps, FaithfulChain))
  {
    if steps != [] {
      ClonesAgree(initial, steps[..|steps| - 1]);
      var w, step := Run(Built(initial, initial), steps[..|steps| - 1], FaithfulChain), steps[|steps| - 1];
      if Allowed(w, step, FaithfulChain) {
        match step
        case Estimate(first, drift, second) => EstimatingAgrees(initial, w, first, drift, second);
        case Prepare(_, first, drift, second, _) => EstimatingAgrees(initial, w, first, drift, second);
        case Send(client, signed, reply, accepts) => SendingAgrees(initial, w, client, signed, reply, accepts);
      }
    }
  }

  /** At most one client is between its locks, and while one is, the cached sequence is the expected one. */
  ghost predicate Stable(w: World) {
    && CarriesExpected(w.handed)
    && (forall a <- w.between, b <- w.between :: a == b)
    && (w.between != {} ==> w.acc == w.expected)
  }

  lemma EstimatingIsStable(w: World, first: Simulated, drift: u64, second: Simulated)
    requires Stable(w) && Simulates(w, first, drift, second, OneAtATime)
    ensures Stable(Estimating(w, first, drift, second))
  {
  }

  lemma PreparingIsStable(w: World, client: nat, first: Simulated, drift: u64, second: Simulated, feeOk: bool)
    requires Stable(w) && Simulates(w, first, drift, second, OneAtATime) && w.between == {}
    ensures Stable(Preparing(w, client, first, drift, second, feeOk))
  {
  }

  lemma SendingIsStable(w: World, client: nat, signed: bool, reply: TxReply, accepts: bool)
    requires Stable(w) && client in w.between
    ensures Stable(Sending(w, client, signed, reply, accepts))
  {
    assert w.between - {client} == {};
  }

  /**
   * Self-stabilisation: from any cached value, whatever is acknowledged, refused, reset to or accepted
   * along the way, every transaction handed to the chain carries the sequence the chain expects.
   */
  lemma {:induction false} SelfStabilises(cached: u64, expected: u64, steps: seq<Step>)
    ensures Stable(Run(Built(cached, expected), steps, OneAtATime))
  {
    if steps != [] {
      SelfStabilises(cached, expected, steps[..|steps| - 1]);
      var w, step := Run(Built(cached, expected), steps[..|steps| - 1], OneAtATime), steps[|steps| - 1];
      if Allowed(w, step, OneAtATime) {
        match step
        case Estimate(first, drift, second) => EstimatingIsStable(w, first, drift, second);
        case Prepare(client, first, drift, second, feeOk) => PreparingIsStable(w, client, first, drift, second, feeOk);
        case Send(client, signed, reply, accepts) => SendingIsStable(w, client, signed, reply, accepts);
        case ChainMoves(_) =>
      }
    }
  }

  /** The estimation that a chain expecting `expected` lets pass, after a mismatch if need be. */
  function Passing(w: World, client: nat, gas: u64): Step {
    Prepare(client, if w.acc == w.expected then GasUsed(gas) else Mismatch(w.expected), w.expected, GasUsed(gas), true)
  }

  /**
   * A mismatch does not keep a client from broadcasting: from any cached value, after any run with exact
   * simulations, an estimation whose second simulation passes puts the client between its locks with the
   * expected sequence in the cache.
   */
  lemma MismatchIsRepaired(cached: u64, expected: u64, steps: seq<Step>, client: nat, gas: u64)
    requires client !in Run(Built(cached, expected), steps, ExactSimulations).between
    requires client !in Run(Built(cached, expected), steps, ExactSimulations).panicked
    ensures var w := Run(Built(cached, expected), steps, ExactSimulations);
            var v := Run(Built(cached, expected), steps + [Passing(w, client, gas)], ExactSimulations);
            client in v.between && v.acc == v.expected == w.expected
  {
    var w := Run(Built(cached, expected), steps, ExactSimulations);
    RunSnoc(Built(cached, expected), steps, Passing(w, client, gas), ExactSimulations);
  }

  /** An estimation lets its client go on to the broadcast exactly if a simulation passed and the fee fits. */
  lemma PreparedExactly(w: World, client: nat, first: Simulated, drift: u64, second: Simulated, feeOk: bool)
    requires client !in w.between
    ensures client in Preparing(w, client, first, drift, second, feeOk).between <==>
            feeOk && (first.GasUsed? || (first.Mismatch? && second.GasUsed?))
    ensures Preparing(w, client, first, drift, second, feeOk).acc == if first.Mismatch? then first.expected else w.acc
  {
  }

  /** With one broadcast at a time, a client that passes its estimation sends exactly the expected sequence. */
  lemma BroadcastSucceeds(cached: u64, expected: u64, steps: seq<Step>, client: nat, gas: u64, reply: TxReply, accepts: bool)
    requires var w := Run(Built(cached, expected), steps, OneAtATime);
             w.between == {} && client !in w.panicked && (accepts ==> w.expected < U64_MAX)
    ensures var w := Run(Built(cached, expected), steps, OneAtATime);
            var v := Run(Built(cached, expected), steps + [Passing(w, client, gas)] + [Send(client, true, reply, accepts)], OneAtATime);
            v.handed == w.handed + [Handed(w.expected, w.expected)]
  {
    var w := Run(Built(cached, expected), steps, OneAtATime);
    RunSnoc(Built(cached, expected), steps, Passing(w, client, gas), OneAtATime);
    RunSnoc(Built(cached, expected), steps + [Passing(w, client, gas)], Send(client, true, reply, accepts), OneAtATime);
  }

  // ---------------------------------------------------------------------------------------
  // Overlapping broadcasts.

  /**
   * How far the cached sequence leads the chain, counted from what the surroundings did: broadcasts
   * acknowledged but not accepted, less those accepted but not acknowledged, less the chain's own moves.
   * A passed simulation shows there is no lead; a mismatch and an account query start a new count.
   */
  function Lead(cached: u64, expected: u64, steps: seq<Step>): int {
    if steps == [] then cached - expected
    else
      var before, step := steps[..|steps| - 1], steps[|steps| - 1];
      var w := Run(Built(cached, expected), before, ExactSimulations);
      var lead := Lead(cached, expected, before);
      if Allowed(w, step, ExactSimulations) then LeadAfter(lead, w, step) else lead
  }

  function LeadAfter(lead: int, w: World, step: Step): int {
    match step
    case Estimate(first, drift, _) => LeadAfterEstimate(lead, w.expected, first, drift)
    case Prepare(_, first, drift, _, _) => LeadAfterEstimate(lead, w.expected, first, drift)
    case Send(_, signed, reply, accepts) => if signed then LeadAfterReply(lead, w, reply, accepts) else lead
    case ChainMoves(e) => lead - (e - w.expected)
  }

  function LeadAfterEstimate(lead: int, expected: u64, first: Simulated, drift: u64): int {
    match first
    case GasUsed(_) => 0
    case Mismatch(_) => -(drift - expected)
    case SimulationFailed => lead
  }

  function LeadAfterReply(lead: int, w: World, reply: TxReply, accepts: bool): int {
    var counted := if accepts then 1 else 0;
    match reply
    case Acknowledged => if w.acc == U64_MAX then lead - counted else lead + 1 - counted
    case Refused(None) => lead - counted
    case Refused(Some(s)) => s - (w.expected + counted)
  }

  predicate OffBy(w: World, lead: int) {
    w.acc == w.expected + lead
  }

  lemma EstimatingIsOffByTheLead(w: World, lead: int, first: Simulated, drift: u64, second: Simulated)
    requires OffBy(w, lead) && Exact(w, first, drift, second)
    ensures OffBy(Estimating(w, first, drift, second), LeadAfterEstimate(lead, w.expected, first, drift))
  {
  }

  lemma SendingIsOffByTheLead(w: World, lead: int, client: nat, reply: TxReply, accepts: bool)
    requires OffBy(w, lead) && (accepts ==> w.expected < U64_MAX)
    ensures OffBy(Sending(w, client, true, reply, accepts), LeadAfterReply(lead, w, reply, accepts))
  {
  }

  /** With exact simulations and nothing else assumed, the cache is off by exactly the lead. */
  lemma {:induction false} OffByTheLead(cached: u64, expected: u64, steps: seq<Step>)
    ensures OffBy(Run(Built(cached, expected), steps, ExactSimulations), Lead(cached, expected, steps))
  {
    if steps != [] {
      var before, step := steps[..|steps| - 1], steps[|steps| - 1];
      OffByTheLead(cached, expected, before);
      var w, lead := Run(Built(cached, expected), before, ExactSimulations), Lead(cached, expected, before);
      if Allowed(w, step, ExactSimulations) {
        match step
        case Estimate(first, drift, second) => EstimatingIsOffByTheLead(w, lead, first, drift, second);
        case Prepare(_, first, drift, second, _) => EstimatingIsOffByTheLead(w, lead, first, drift, second);
        case Send(client, signed, reply, accepts) => SendingIsOffByTheLead(w, lead, client, reply, accepts);
        case ChainMoves(_) =>
      }
    }
  }

  /**
   * Any number of clients between their locks, arbitrary replies and an arbitrarily moving chain: the
   * next transaction carries the expected sequence exactly if there is no lead.
   */
  lemma OverlappingBroadcasts(cached: u64, expected: u64, steps: seq<Step>, send: Step)
    requires send.Send? && send.signed
    requires Allowed(Run(Built(cached, expected), steps, ExactSimulations), send, ExactSimulations)
    ensures var before := Run(Built(cached, expected), steps, ExactSimulations).handed;
            var handed := Run(Built(cached, expected), steps + [send], ExactSimulations).handed;
            && |handed| == |before| + 1 && before <= handed
            && (handed[|before|].sequence == handed[|before|].expected <==> Lead(cached, expected, steps) == 0)
  {
    OffByTheLead(cached, expected, steps);
    RunSnoc(Built(cached, expected), steps, send, ExactSimulations);
  }

  /** Since the last resynchronisation every reply was truthful and the chain did not move by itself. */
  predicate Settled(cached: u64, expected: u64, steps: seq<Step>) {
    if steps == [] then cached == expected
    else
      var before, step := steps[..|steps| - 1], steps[|steps| - 1];
      var w := Run(Built(cached, expected), before, ExactSimulations);
      var settled := Settled(cached, expected, before);
      if Allowed(w, step, ExactSimulations) then SettledAfter(settled, w, step) else settled
  }

  predicate SettledAfter(settled: bool, w: World, step: Step) {
    match step
    case Estimate(first, drift, _) => SettledByEstimate(settled, w.expected, first, drift)
    case Prepare(_, first, drift, _, _) => SettledByEstimate(settled, w.expected, first, drift)
    case Send(_, signed, reply, accepts) =>
      if !signed then settled
      else Truthful(w.expected, reply, accepts) && (settled || (reply.Refused? && reply.account.Some?))
    case ChainMoves(e) => settled && e == w.expected
  }

  predicate SettledByEstimate(settled: bool, expected: u64, first: Simulated, drift: u64) {
    match first
    case GasUsed(_) => true
    case Mismatch(_) => drift == expected
    case SimulationFailed => settled
  }

  lemma SettlingLeavesNoLead(w: World, lead: int, settled: bool, step: Step)
    requires OffBy(w, lead) && Allowed(w, step, ExactSimulations)
    requires (settled ==> lead == 0) && SettledAfter(settled, w, step)
    ensures LeadAfter(lead, w, step) == 0
  {
  }

  /** In that case there is no lead, so the next transaction carries the expected sequence. */
  lemma {:induction false} SettledHasNoLead(cached: u64, expected: u64, steps: seq<Step>)
    ensures Settled(cached, expected, steps) ==> Lead(cached, expected, steps) == 0
  {
    if steps != [] {
      var before, step := steps[..|steps| - 1], steps[|steps| - 1];
      SettledHasNoLead(cached, expected, before);
      OffByTheLead(cached, expected, before);
      var w := Run(Built(cached, expected), before, ExactSimulations);
      var settled := Settled(cached, expected, before);
      if Allowed(w, step, ExactSimulations) && SettledAfter(settled, w, step) {
        SettlingLeavesNoLead(w, Lead(cached, expected, before), settled, step);
      }
    }
  }

  /** Two clients pass their estimations; the first broadcast is acknowledged but never accepted. */
  function Lost(s: u64, gas: u64): seq<Step> {
    [Prepare(0, GasUsed(gas), s, GasUsed(gas), true), Prepare(1, GasUsed(gas), s, GasUsed(gas), true),
     Send(0, true, Acknowledged, false)]
  }

  lemma BothPrepared(s: u64, gas: u64)
    ensures Run(Built(s, s), Lost(s, gas)[..2], ExactSimulations) == World(s, s, {0, 1}, {}, [], [], [])
  {
    var w, steps := Built(s, s), Lost(s, gas);
    RunSnoc(w, [], steps[0], ExactSimulations);
    RunSnoc(w, [steps[0]], steps[1], ExactSimulations);
    assert [] + [steps[0]] == [steps[0]] && [steps[0]] + [steps[1]] == steps[..2];
    assert {} + {0} + {1} == {0, 1};
  }

  lemma LostBroadcast(s: u64, gas: u64)
    requires s < U64_MAX
    ensures Run(Built(s, s), Lost(s, gas), ExactSimulations) ==
            World(s + 1, s, {1}, {}, [Handed(s, s)], [], [Used(s)])
  {
    BothPrepared(s, gas);
    RunSnoc(Built(s, s), Lost(s, gas)[..2], Lost(s, gas)[2], ExactSimulations);
    assert Lost(s, gas)[..2] + [Lost(s, gas)[2]] == Lost(s, gas);
    assert {0, 1} - {0} == {1};
  }

  /**
   * The second broadcast then misses the expected sequence, contrary to the documentation; an estimation
   * by any clone in between puts it right.
   */
  lemma LostBroadcastMisleads(s: u64, gas: u64)
    requires s < U64_MAX
    ensures var send := Send(1, true, Acknowledged, false);
            && Run(Built(s, s), Lost(s, gas) + [send], ExactSimulations).handed == [Handed(s, s), Handed(s + 1, s)]
            && Run(Built(s, s), Lost(s, gas) + [Estimate(Mismatch(s), s, GasUsed(gas))] + [send], ExactSimulations).handed
               == [Handed(s, s), Handed(s, s)]
  {
    LostBroadcast(s, gas);
    var send, repair := Send(1, true, Acknowledged, false), Estimate(Mismatch(s), s, GasUsed(gas));
    RunSnoc(Built(s, s), Lost(s, gas), send, ExactSimulations);
    RunSnoc(Built(s, s), Lost(s, gas), repair, ExactSimulations);
    RunSnoc(Built(s, s), Lost(s, gas) + [repair], send, ExactSimulations);
  }

  // ---------------------------------------------------------------------------------------
  // Which sequences are used.

  /** The sequence the next broadcast will use, according to how the cached value came about. */
  function Upcoming(initial: u64, origins: seq<Origin>): u64 {
    if origins == [] then initial
    else
      match origins[|origins| - 1]
      case Used(s) => SaturatingAdd(s, 1)
      case Resynced(s) => s
  }

  /** Every used sequence continues the previous use or the last resynchronisation. */
  predicate Continuous(initial: u64, origins: seq<Origin>) {
    forall i :: 0 <= i < |origins| && origins[i].Used? ==> origins[i].sequence == Upcoming(initial, origins[..i])
  }

  lemma ContinuousSnoc(initial: u64, origins: seq<Origin>, o: Origin)
    requires Continuous(initial, origins) && (o.Used? ==> o.sequence == Upcoming(initial, origins))
    ensures Continuous(initial, origins + [o])
  {
    forall i | 0 <= i < |origins + [o]| && (origins + [o])[i].Used?
      ensures (origins + [o])[i].sequence == Upcoming(initial, (origins + [o])[..i])
    {
      assert (origins + [o])[..i] == origins[..i];
      assert i == |origins| ==> origins[..i] == origins;
    }
  }

  ghost predicate Traced(initial: u64, w: World) {
    Continuous(initial, w.origins) && w.acc == Upcoming(initial, w.origins)
  }

  lemma EstimatingIsContinuous(initial: u64, w: World, first: Simulated, drift: u64, second: Simulated)
    requires Traced(initial, w)
    ensures Traced(initial, Estimating(w, first, drift, second))
  {
    if first.Mismatch? {
      ContinuousSnoc(initial, w.origins, Resynced(first.expected));
    } else {
      assert w.origins + [] == w.origins;
    }
  }

  lemma ReplyIsContinuous(initial: u64, origins: seq<Origin>, acc: u64, reply: TxReply)
    requires Continuous(initial, origins) && acc == Upcoming(initial, origins)
    ensures var origins' := origins + Origins(acc, reply);
            Continuous(initial, origins') && Sent(acc, true, reply).0 == Upcoming(initial, origins')
  {
    match reply
    case Acknowledged => ContinuousSnoc(initial, origins, Used(acc));
    case Refused(Some(s)) => ContinuousSnoc(initial, origins, Resynced(s));
    case Refused(None) => assert origins + [] == origins;
  }

  lemma SendingIsContinuous(initial: u64, w: World, client: nat, signed: bool, reply: TxReply, accepts: bool)
    requires Traced(initial, w)
    ensures Traced(initial, Sending(w, client, signed, reply, accepts))
  {
    if signed {
      ReplyIsContinuous(initial, w.origins, w.acc, reply);
    }
  }

  /**
   * With no assumption about the chain at all: consecutive acknowledged broadcasts use consecutive
   * sequences unless the cached value was resynchronised in between.
   */
  lemma {:induction false} UsesAreContinuous(initial: u64, expected: u64, steps: seq<Step>)
    ensures Traced(initial, Run(Built(initial, expected), steps, Nothing))
  {
    if steps != [] {
      UsesAreContinuous(initial, expected, steps[..|steps| - 1]);
      var w, step := Run(Built(initial, expected), steps[..|steps| - 1], Nothing), steps[|steps| - 1];
      if Allowed(w, step, Nothing) {
        match step
        case Estimate(first, drift, second) => EstimatingIsContinuous(initial, w, first, drift, second);
        case Prepare(_, first, drift, second, _) => EstimatingIsContinuous(initial, w, first, drift, second);
        case Send(client, signed, reply, accepts) => SendingIsContinuous(initial, w, client, signed, reply, accepts);
        case ChainMoves(_) =>
      }
    }
  }

  /** So without a resynchronisation no sequence number but the very last one is ever used twice. */
  lemma {:induction false} UsesAreDistinct(initial: u64, origins: seq<Origin>, i: nat, j: nat)
    requires Continuous(initial, origins) && i < j < |origins|
    requires forall k :: i <= k <= j ==> origins[k].Used?
    ensures var n := origins[i].sequence + (j - i); origins[j].sequence == if n <= U64_MAX then n else U64_MAX
    ensures origins[j].sequence == origins[i].sequence ==> origins[i].sequence == U64_MAX
    decreases j
  {
    assert origins[..j][j - 1] == origins[j - 1];
    if i < j - 1 {
      UsesAreDistinct(initial, origins, i, j - 1);
    }
  }

  // ---------------------------------------------------------------------------------------
  // The code, driven by any schedule.

  /** The chain's answer to a simulation: `reply` for the sequence `asked`, a mismatch for any other. */
  function Simulation(asked: u64, reply: Simulated, expected: u64): u64 -> Simulated {
    (s: u64) => if s == asked then reply else Mismatch(expected)
  }

  /** With exact simulations, a successful estimation leaves the sequence the chain expects in the cache. */
  method PerformEstimate(account: AccountSequence, w: World, first: Simulated, drift: u64, second: Simulated)
    returns (r: Result<u64, Error>)
    requires account.value == w.acc
    modifies account
    ensures account.value == Estimating(w, first, drift, second).acc && r == Estimated(w.acc, first, second).1
    ensures Exact(w, first, drift, second) && r.Ok? ==> account.value == Estimating(w, first, drift, second).expected
  {
    var simulate := Simulation(w.acc, first, w.expected);
    var again := if first.Mismatch? then Simulation(first.expected, second, drift) else ((_: u64) => SimulationFailed);
    ghost var expected := Estimating(w, first, drift, second).expected;
    if Exact(w, first, drift, second) {
      assert OnlyPasses(simulate, again, expected);
    }
    r := account.EstimateGas(simulate, again);
  }

  /** Runs the locked section of a step; returns the sequence of the transaction it handed over, if any. */
  method Perform(account: AccountSequence, w: World, step: Step) returns (tx: Option<u64>)
    requires account.value == w.acc
    modifies account
    ensures account.value == Next(w, step).acc
    ensures Next(w, step).handed == w.handed + if tx.Some? then [Handed(tx.value, w.expected)] else []
  {
    tx := None;
    match step
    case Estimate(first, drift, second) =>
      var _ := PerformEstimate(account, w, first, drift, second);
    case Prepare(_, first, drift, second, _) =>
      var _ := PerformEstimate(account, w, first, drift, second);
    case Send(_, signed, reply, _) =>
      var _, sent := account.SignAndSend(signed, (s: u64) => if s == w.acc then reply else Refused(None));
      tx := sent;
    case ChainMoves(_) =>
  }

  /**
   * All clones share one `AccountSequence`; whatever the schedule, the transactions its methods hand
   * over are those of the run, so the promises about runs are promises about the code.
   */
  method BroadcastAll(cached: u64, expected: u64, steps: seq<Step>, assumption: Assumption)
    returns (handed: seq<Handed>, w: World)
    ensures w == Run(Built(cached, expected), steps, assumption) && handed == w.handed
    ensures assumption.OneAtATime? ==> CarriesExpected(handed)
    ensures assumption.FaithfulChain? && cached == expected ==>
              CarriesExpected(handed) && Consecutive(w.accepted, cached, w.expected)
  {
    var account := new AccountSequence(cached);
    handed, w := [], Built(cached, expected);
    for n := 0 to |steps|
      invariant w == Run(Built(cached, expected), steps[..n], assumption)
      invariant account.value == w.acc && handed == w.handed
    {
      RunSnoc(Built(cached, expected), steps[..n], steps[n], assumption);
      assert steps[..n] + [steps[n]] == steps[..n + 1];
      if Allowed(w, steps[n], assumption) {
        var tx := Perform(account, w, steps[n]);
        handed := handed + if tx.Some? then [Handed(tx.value, w.expected)] else [];
        w := Next(w, steps[n]);
      }
    }
    assert steps[..|steps|] == steps;
    if assumption.OneAtATime? {
      SelfStabilises(cached, expected, steps);
    } else if assumption.FaithfulChain? && cached == expected {
      ClonesAgree(cached, steps);
    }
  }
}
