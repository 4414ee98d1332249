/** Voting on polls about events of an EVM chain. */
module EvmVoting {
  import opened Common

  type Hash = nat
  type Address = nat
  type Bytes = seq<nat>

  datatype Log = Log(address: Address, topics: seq<nat>, data: Bytes)

  datatype Receipt = Receipt(transactionHash: Hash, blockNumber: Option<u64>, status: Option<u64>, logs: seq<Log>)

  datatype Transaction = Transaction(hash: Hash, from: Address, to: Option<Address>, value: nat, input: Bytes)

  datatype ExpectedEvent = ExpectedEvent(contract: Address, index: u64, topics: seq<nat>, data: Bytes)

  datatype Details = Details(from: Address, to: Option<Address>, value: nat, calldata: Bytes)

  datatype EvmEvent = EvmEvent(transactionHash: Hash, details: Option<Details>, events: seq<ExpectedEvent>)

  datatype Vote = SucceededOnChain | FailedOnChain | NotFound

  // ---------------------------------------------------------------------------------------
  // Verification of one event against one receipt.

  predicate HasFailed(r: Receipt) {
    r.status == Some(0)
  }

  predicate VerifyTransactionDetails(tx: Transaction, d: Details) {
    tx.from == d.from && tx.to == d.to && tx.value == d.value && tx.input == d.calldata
  }

  /** The pairwise test over two zipped lists: it stops at the end of the shorter one. */
  predicate AllPairsEqual(a: seq<nat>, b: seq<nat>) {
    a == [] || b == [] || (a[0] == b[0] && AllPairsEqual(a[1..], b[1..]))
  }

  predicate VerifyEventMatchesLog(log: Log, e: ExpectedEvent) {
    log.address == e.contract && |log.topics| == |e.topics| && AllPairsEqual(log.topics, e.topics) && log.data == e.data
  }

  predicate VerifyEventsMatchLogs(logs: seq<Log>, events: seq<ExpectedEvent>) {
    forall e <- events :: e.index < |logs| && VerifyEventMatchesLog(logs[e.index], e)
  }

  function VerifyEvents(r: Receipt, tx: Option<Transaction>, e: EvmEvent): Vote {
    if HasFailed(r) then FailedOnChain
    else if r.transactionHash != e.transactionHash then NotFound
    else if e.details.Some? && !(tx.Some? && VerifyTransactionDetails(tx.value, e.details.value)) then NotFound
    else if !VerifyEventsMatchLogs(r.logs, e.events) then NotFound
    else SucceededOnChain
  }

  lemma {:induction false} PairsEqualIsEqual(a: seq<nat>, b: seq<nat>)
    requires |a| == |b|
    ensures AllPairsEqual(a, b) <==> a == b
  {
    if a != [] {
      PairsEqualIsEqual(a[1..], b[1..]);
      assert a == [a[0]] + a[1..] && b == [b[0]] + b[1..];
    }
  }

  /** Every expected event is, in full, the log at its index. */
  ghost predicate LogsContain(logs: seq<Log>, events: seq<ExpectedEvent>) {
    forall e <- events :: e.index < |logs| && logs[e.index] == Log(e.contract, e.topics, e.data)
  }

  /** What a positive vote certifies about the receipt and transaction it was cast on. */
  ghost predicate Certified(r: Receipt, tx: Option<Transaction>, e: EvmEvent) {
    && r.status != Some(0)
    && r.transactionHash == e.transactionHash
    && LogsContain(r.logs, e.events)
    && (e.details.Some? ==>
          && tx.Some?
          && Details(tx.value.from, tx.value.to, tx.value.value, tx.value.input) == e.details.value)
  }

  lemma VerifyEventsCertifies(r: Receipt, tx: Option<Transaction>, e: EvmEvent)
    ensures VerifyEvents(r, tx, e) == SucceededOnChain <==> Certified(r, tx, e)
    ensures VerifyEvents(r, tx, e) == FailedOnChain <==> r.status == Some(0)
    ensures e.details.None? ==> VerifyEvents(r, tx, e) == VerifyEvents(r, None, e)
  {
    forall x <- e.events
      ensures x.index < |r.logs| ==>
                (VerifyEventMatchesLog(r.logs[x.index], x) <==> r.logs[x.index] == Log(x.contract, x.topics, x.data))
    {
      if x.index < |r.logs| && |r.logs[x.index].topics| == |x.topics| {
        PairsEqualIsEqual(r.logs[x.index].topics, x.topics);
      }
    }
  }

  // ---------------------------------------------------------------------------------------
  // Finality.

  datatype Finalization = RPCFinalizedBlock | ConfirmationHeight

  datatype FinalizerError = JsonRPC | MissBlockNumber

  /** The number of the latest finalized block, from the node's replies. */
  function LatestFinalized(kind: Finalization, latest: Option<u64>, finalized: Option<Option<u64>>, k: u64)
    : Result<u64, FinalizerError>
  {
    match kind
    case RPCFinalizedBlock =>
      if finalized.None? then Err(JsonRPC)
      else if finalized.value.None? then Err(MissBlockNumber)
      else Ok(finalized.value.value)
    case ConfirmationHeight =>
      if latest.None? then Err(JsonRPC) else Ok(SaturatingSub(SaturatingAdd(latest.value, 1), k))
  }

  /** What the finalizers answer, reply by reply. */
  lemma FinalizerAnswers(kind: Finalization, latest: Option<u64>, finalized: Option<Option<u64>>, k: u64)
    ensures kind.RPCFinalizedBlock? ==>
              match finalized
              case None => LatestFinalized(kind, latest, finalized, k) == Err(JsonRPC)
              case Some(None) => LatestFinalized(kind, latest, finalized, k) == Err(MissBlockNumber)
              case Some(Some(n)) => LatestFinalized(kind, latest, finalized, k) == Ok(n)
    ensures kind.ConfirmationHeight? ==>
              if latest.None? then LatestFinalized(kind, latest, finalized, k) == Err(JsonRPC)
              else LatestFinalized(kind, latest, finalized, k).Ok?
  {
  }

  predicate IsFinal(r: Receipt, finalized: u64) {
    (if r.blockNumber.Some? then r.blockNumber.value else U64_MAX) <= finalized
  }

  /**
   * What passing the filter means: the receipt is in a finalized block. The one exception is a node that
   * reports the largest representable number as finalized; then a receipt without a block passes too.
   */
  lemma FinalMeansMined(r: Receipt, finalized: u64)
    ensures IsFinal(r, finalized) <==> Mined(r, finalized)
  {
  }

  predicate Mined(r: Receipt, finalized: u64) {
    (r.blockNumber.Some? && r.blockNumber.value <= finalized) || finalized == U64_MAX
  }

  /**
   * With a confirmation height of at least one, a receipt passes the filter exactly if it is in a block
   * with enough blocks on top of it (or in the genesis block): at the largest representable latest
   * height saturation asks for one block more, never for less.
   */
  lemma ConfirmationDepth(r: Receipt, latest: u64, k: u64)
    requires k >= 1
    ensures var bound := LatestFinalized(ConfirmationHeight, Some(latest), None, k).value;
            && (IsFinal(r, bound) ==>
                  r.blockNumber.Some? && (r.blockNumber.value == 0 || r.blockNumber.value + k <= latest + 1))
            && (IsFinal(r, bound) <==>
                  && r.blockNumber.Some?
                  && (r.blockNumber.value == 0 || r.blockNumber.value + k <= if latest < U64_MAX then latest + 1 else latest))
            && bound <= (if latest >= k then latest - k else 0) + 1
            && (bound < (if latest >= k then latest - k else 0) + 1 <==> latest < k || latest == U64_MAX)
            && (forall later: u64 :: latest <= later ==>
                  bound <= LatestFinalized(ConfirmationHeight, Some(later), None, k).value)
  {
  }

  // ---------------------------------------------------------------------------------------
  // Fetching for a whole poll.

  datatype Reply<T> = RpcError | Unknown | Found(value: T)

  /** Errors count as absent answers. */
  function OrDefault<T>(r: Reply<T>): Option<T> {
    if r.Found? then Some(r.value) else None
  }

  datatype Rpc = Rpc(receipt: Hash -> Reply<Receipt>, tx: Hash -> Reply<Transaction>)

  type Fetched = map<Hash, (Receipt, Option<Transaction>)>

  ghost predicate Wanted(events: seq<Option<EvmEvent>>, h: Hash) {
    exists i :: 0 <= i < |events| && events[i].Some? && events[i].value.transactionHash == h
  }

  ghost predicate DetailsWanted(events: seq<Option<EvmEvent>>, h: Hash) {
    exists i :: 0 <= i < |events| && events[i].Some? && events[i].value.transactionHash == h && events[i].value.details.Some?
  }

  /** Each transaction is looked up once; its details too if any of its events needs them. */
  method CollectHashes(events: seq<Option<EvmEvent>>) returns (needs: map<Hash, bool>)
    ensures forall h :: h in needs <==> Wanted(events, h)
    ensures forall h :: h in needs ==> (needs[h] <==> DetailsWanted(events, h))
  {
    needs := map[];
    for i := 0 to |events|
      invariant forall h :: h in needs <==> Wanted(events[..i], h)
      invariant forall h :: h in needs ==> (needs[h] <==> DetailsWanted(events[..i], h))
    {
      assert forall j :: 0 <= j < i ==> events[..i + 1][j] == events[..i][j];
      assert events[..i + 1][i] == events[i];
      if events[i].Some? {
        var h, details := events[i].value.transactionHash, events[i].value.details.Some?;
        needs := needs[h := (h in needs && needs[h]) || details];
      }
    }
    assert events[..|events|] == events;
  }

  /** A transaction the node returned for one of the hashes whose details were needed. */
  ghost predicate ReturnedTx(rpc: Rpc, asked: set<Hash>, tx: Transaction) {
    exists q :: q in asked && rpc.tx(q) == Found(tx)
  }

  ghost predicate ReturnedReceipt(rpc: Rpc, asked: set<Hash>, r: Receipt) {
    exists q :: q in asked && rpc.receipt(q) == Found(r)
  }

  /** The node answers about the hash it was asked about. */
  ghost predicate Honest(rpc: Rpc) {
    && (forall q :: rpc.receipt(q).Found? ==> rpc.receipt(q).value.transactionHash == q)
    && (forall q :: rpc.tx(q).Found? ==> rpc.tx(q).value.hash == q)
  }

  /** The replies arrive in an arbitrary order; later ones replace earlier ones with the same hash. */
  method CollectTransactions(rpc: Rpc, asked: set<Hash>) returns (txs: map<Hash, Transaction>)
    ensures forall h :: h in txs ==> txs[h].hash == h && ReturnedTx(rpc, asked, txs[h])
    ensures Honest(rpc) ==> forall h :: h in txs <==> h in asked && rpc.tx(h).Found?
  {
    txs := map[];
    var todo := asked;
    while todo != {}
      invariant todo <= asked
      invariant forall h :: h in txs ==> txs[h].hash == h && ReturnedTx(rpc, asked, txs[h])
      invariant Honest(rpc) ==> forall h :: h in txs <==> h in asked - todo && rpc.tx(h).Found?
    {
      var q :| q in todo;
      var tx := OrDefault(rpc.tx(q));
      if tx.Some? {
        txs := txs[tx.value.hash := tx.value];
      }
      todo := todo - {q};
    }
  }

  /** Receipts are kept when final, together with the transaction of the same hash, if any. */
  method CollectReceipts(rpc: Rpc, asked: set<Hash>, txs: map<Hash, Transaction>, finalized: u64) returns (kept: Fetched)
    ensures forall h :: h in kept ==>
              && kept[h].0.transactionHash == h && IsFinal(kept[h].0, finalized)
              && ReturnedReceipt(rpc, asked, kept[h].0)
              && kept[h].1 == if h in txs then Some(txs[h]) else None
    ensures Honest(rpc) ==>
              forall h :: h in kept <==> h in asked && rpc.receipt(h).Found? && IsFinal(rpc.receipt(h).value, finalized)
  {
    kept := map[];
    var todo := asked;
    while todo != {}
      invariant todo <= asked
      invariant forall h :: h in kept ==>
                  && kept[h].0.transactionHash == h && IsFinal(kept[h].0, finalized)
                  && ReturnedReceipt(rpc, asked, kept[h].0)
                  && kept[h].1 == if h in txs then Some(txs[h]) else None
      invariant Honest(rpc) ==>
                  forall h :: h in kept <==> h in asked - todo && rpc.receipt(h).Found? && IsFinal(rpc.receipt(h).value, finalized)
    {
      var q :| q in todo;
      var r := OrDefault(rpc.receipt(q));
      if r.Some? && IsFinal(r.value, finalized) {
        var h := r.value.transactionHash;
        kept := kept[h := (r.value, if h in txs then Some(txs[h]) else None)];
      }
      todo := todo - {q};
    }
  }

  /** What the fetch guarantees without trusting the node. */
  ghost predicate Traceable(rpc: Rpc, finalized: u64, events: seq<Option<EvmEvent>>, kept: Fetched) {
    forall h :: h in kept ==>
      && kept[h].0.transactionHash == h
      && IsFinal(kept[h].0, finalized)
      && (exists q :: Wanted(events, q) && rpc.receipt(q) == Found(kept[h].0))
      && (kept[h].1.Some? ==>
            && kept[h].1.value.hash == h
            && exists q :: DetailsWanted(events, q) && rpc.tx(q) == Found(kept[h].1.value))
  }

  /** What it returns when the node answers about the hash it was asked about. */
  ghost predicate Exact(rpc: Rpc, finalized: u64, events: seq<Option<EvmEvent>>, kept: Fetched) {
    forall h ::
      && (h in kept <==> Wanted(events, h) && rpc.receipt(h).Found? && IsFinal(rpc.receipt(h).value, finalized))
      && (h in kept ==> kept[h].0 == rpc.receipt(h).value)
      && (h in kept && DetailsWanted(events, h) ==> kept[h].1 == OrDefault(rpc.tx(h)))
  }

  method FetchFinalizedTxReceipts(rpc: Rpc, finalizer: Result<u64, FinalizerError>, events: seq<Option<EvmEvent>>)
    returns (r: Result<Fetched, FinalizerError>)
    ensures r.Err? <==> finalizer.Err?
    ensures r.Err? ==> r.error == finalizer.error
    ensures r.Ok? ==> Traceable(rpc, finalizer.value, events, r.value)
    ensures r.Ok? && Honest(rpc) ==> Exact(rpc, finalizer.value, events, r.value)
  {
    if finalizer.Err? {
      return Err(finalizer.error);
    }
    var needs := CollectHashes(events);
    var txs := CollectTransactions(rpc, set h | h in needs && needs[h]);
    var kept := CollectReceipts(rpc, needs.Keys, txs, finalizer.value);
    r := Ok(kept);
  }

  // ---------------------------------------------------------------------------------------
  // Votes.

  function VoteOn(event: Option<EvmEvent>, kept: Fetched): Vote {
    if event.None? || event.value.transactionHash !in kept then NotFound
    else
      var entry := kept[event.value.transactionHash];
      VerifyEvents(entry.0, entry.1, event.value)
  }

  /** One vote per event, at the event's position. */
  function VerifyAndVoteOnEvents(events: seq<Option<EvmEvent>>, kept: Fetched): (votes: seq<Vote>)
    ensures |votes| == |events|
    ensures forall i :: 0 <= i < |events| ==> votes[i] == VoteOn(events[i], kept)
  {
    if events == [] then [] else [VoteOn(events[0], kept)] + VerifyAndVoteOnEvents(events[1..], kept)
  }

  /** The vote from checking one event on its own, with its own lookups. */
  function NaiveVote(rpc: Rpc, finalized: u64, event: Option<EvmEvent>): Vote {
    if event.None? then NotFound
    else
      var h := event.value.transactionHash;
      var r := OrDefault(rpc.receipt(h));
      if r.None? || !IsFinal(r.value, finalized) then NotFound
      else VerifyEvents(r.value, if event.value.details.Some? then OrDefault(rpc.tx(h)) else None, event.value)
  }

  /** The node has a receipt for the event's transaction that is in a finalized block. */
  ghost predicate HasFinalReceipt(rpc: Rpc, finalized: u64, h: Hash) {
    rpc.receipt(h).Found? && Mined(rpc.receipt(h).value, finalized)
  }

  /** The node has the transaction with the expected details, if any are expected. */
  ghost predicate HasDetails(rpc: Rpc, e: EvmEvent) {
    e.details.Some? ==>
      && rpc.tx(e.transactionHash).Found?
      && var tx := rpc.tx(e.transactionHash).value;
         Details(tx.from, tx.to, tx.value, tx.input) == e.details.value
  }

  /**
   * What a vote says about the chain as the node reports it: failed for a final receipt with status 0,
   * succeeded for a final receipt with another status that shows the events and details as expected, and
   * not found for everything else.
   */
  ghost predicate Reflects(vote: Vote, rpc: Rpc, finalized: u64, event: Option<EvmEvent>) {
    && (vote == FailedOnChain <==>
          && event.Some?
          && HasFinalReceipt(rpc, finalized, event.value.transactionHash)
          && rpc.receipt(event.value.transactionHash).value.status == Some(0))
    && (vote == SucceededOnChain <==>
          && event.Some?
          && HasFinalReceipt(rpc, finalized, event.value.transactionHash)
          && rpc.receipt(event.value.transactionHash).value.status != Some(0)
          && LogsContain(rpc.receipt(event.value.transactionHash).value.logs, event.value.events)
          && HasDetails(rpc, event.value))
  }

  lemma NaiveVoteReflects(rpc: Rpc, finalized: u64, event: Option<EvmEvent>)
    requires Honest(rpc)
    ensures Reflects(NaiveVote(rpc, finalized, event), rpc, finalized, event)
  {
    if event.Some? && rpc.receipt(event.value.transactionHash).Found? {
      var e := event.value;
      var r := rpc.receipt(e.transactionHash).value;
      FinalMeansMined(r, finalized);
      VerifyEventsCertifies(r, if e.details.Some? then OrDefault(rpc.tx(e.transactionHash)) else None, e);
    }
  }

  /** Deduplicated batch fetching changes no vote. */
  lemma BatchEqualsNaive(rpc: Rpc, finalized: u64, events: seq<Option<EvmEvent>>, kept: Fetched, i: nat)
    requires Exact(rpc, finalized, events, kept) && i < |events|
    ensures VerifyAndVoteOnEvents(events, kept)[i] == NaiveVote(rpc, finalized, events[i])
  {
    if events[i].Some? {
      var e := events[i].value;
      assert Wanted(events, e.transactionHash);
      if e.details.Some? {
        assert DetailsWanted(events, e.transactionHash);
      } else if e.transactionHash in kept {
        VerifyEventsCertifies(kept[e.transactionHash].0, kept[e.transactionHash].1, e);
      }
    }
  }

  /**
   * Without trusting the node at all: a positive vote means it returned, for hashes of this poll, a
   * final receipt and (if details were expected) a transaction that certify the event; and the vote is
   * positive exactly if the entry kept for the event's hash does.
   */
  lemma PositiveVoteIsBacked(rpc: Rpc, finalized: u64, events: seq<Option<EvmEvent>>, kept: Fetched, i: nat)
    requires Traceable(rpc, finalized, events, kept) && i < |events|
    ensures VerifyAndVoteOnEvents(events, kept)[i] == SucceededOnChain <==>
            && events[i].Some?
            && events[i].value.transactionHash in kept
            && var (r, tx) := kept[events[i].value.transactionHash]; Certified(r, tx, events[i].value)
    ensures VerifyAndVoteOnEvents(events, kept)[i] == SucceededOnChain ==>
              exists q, r :: Wanted(events, q) && rpc.receipt(q) == Found(r) && Mined(r, finalized) && r.status != Some(0)
                             && r.transactionHash == events[i].value.transactionHash && LogsContain(r.logs, events[i].value.events)
    ensures VerifyAndVoteOnEvents(events, kept)[i] == SucceededOnChain && events[i].value.details.Some? ==>
              exists q, tx :: DetailsWanted(events, q) && rpc.tx(q) == Found(tx) && tx.hash == events[i].value.transactionHash
                              && Details(tx.from, tx.to, tx.value, tx.input) == events[i].value.details.value
  {
    if events[i].Some? && events[i].value.transactionHash in kept {
      var e := events[i].value;
      var entry := kept[e.transactionHash];
      VerifyEventsCertifies(entry.0, entry.1, e);
      FinalMeansMined(entry.0, finalized);
      var q :| Wanted(events, q) && rpc.receipt(q) == Found(entry.0);
    }
  }

  // ---------------------------------------------------------------------------------------
  // The handler.

  predicate ShouldSkipPoll(handlerChain: nat, sourceChain: nat, verifier: nat, participants: seq<nat>, height: u64, expiresAt: u64) {
    handlerChain != sourceChain || verifier !in participants || height >= expiresAt
  }

  datatype Poll = Poll(id: nat, events: seq<Option<EvmEvent>>, sourceChain: nat, expiresAt: u64, participants: seq<nat>)

  /** What parsing a blockchain event as the start of a poll yields. */
  datatype Parsed = OtherType | Malformed | PollStarted(poll: Poll)

  /** A blockchain event: the contract that emitted it, if any, and its content. */
  datatype ChainEvent = ChainEvent(contract: Option<Address>, parsed: Parsed)

  datatype Handler = Handler(contract: Address, chain: nat, verifier: nat, finalization: Finalization, confirmationHeight: u64)

  datatype HandlerError = DeserializeEvent | Finalizer(error: FinalizerError)

  datatype Handled =
    | NoMessage
    | Error(error: HandlerError)
    | VoteMessage(sender: nat, contract: Address, pollId: nat, votes: seq<Vote>)

  /** The event starts a poll of this handler's contract that concerns this verifier and is still open. */
  predicate Concerns(h: Handler, event: ChainEvent, height: u64) {
    && event.contract == Some(h.contract)
    && event.parsed.PollStarted?
    && var poll := event.parsed.poll;
       h.chain == poll.sourceChain && h.verifier in poll.participants && height < poll.expiresAt
  }

  /** The node's replies about its blocks: the latest one, and the finalized one with its number, if any. */
  datatype Head = Head(latest: Option<u64>, finalized: Option<Option<u64>>)

  function FinalizedBy(h: Handler, head: Head): Result<u64, FinalizerError> {
    LatestFinalized(h.finalization, head.latest, head.finalized, h.confirmationHeight)
  }

  /** The receipt is in the genesis block or in a block with at least `k` blocks from it to `latest`. */
  predicate Deep(r: Receipt, latest: u64, k: u64) {
    r.blockNumber.Some? && (r.blockNumber.value == 0 || r.blockNumber.value + k <= latest + 1)
  }

  /** The node returned, for a hash of this poll, a receipt that certifies the event and is deep enough. */
  ghost predicate DeeplyBacked(rpc: Rpc, events: seq<Option<EvmEvent>>, e: EvmEvent, latest: u64, k: u64) {
    exists q, r :: Wanted(events, q) && rpc.receipt(q) == Found(r) && Deep(r, latest, k) && r.status != Some(0)
                   && r.transactionHash == e.transactionHash && LogsContain(r.logs, e.events)
  }

  /**
   * With a confirmation height, a positive vote means that the node returned a certifying receipt in a
   * block with that many confirmations (or in the genesis block).
   */
  lemma PositiveVoteIsDeep(rpc: Rpc, latest: u64, k: u64, events: seq<Option<EvmEvent>>, kept: Fetched, i: nat)
    requires k >= 1 && i < |events|
    requires Traceable(rpc, LatestFinalized(ConfirmationHeight, Some(latest), None, k).value, events, kept)
    requires VerifyAndVoteOnEvents(events, kept)[i] == SucceededOnChain
    ensures events[i].Some? && DeeplyBacked(rpc, events, events[i].value, latest, k)
  {
    var e := events[i].value;
    var r := kept[e.transactionHash].0;
    VerifyEventsCertifies(r, kept[e.transactionHash].1, e);
    ConfirmationDepth(r, latest, k);
    var q :| Wanted(events, q) && rpc.receipt(q) == Found(r);
    assert Deep(r, latest, k);
  }

  ghost predicate VotesAreDeep(rpc: Rpc, latest: u64, k: u64, events: seq<Option<EvmEvent>>, votes: seq<Vote>) {
    |votes| == |events| && forall i :: 0 <= i < |votes| && votes[i] == SucceededOnChain ==>
                             events[i].Some? && DeeplyBacked(rpc, events, events[i].value, latest, k)
  }

  lemma AllVotesAreDeep(rpc: Rpc, latest: u64, k: u64, events: seq<Option<EvmEvent>>, kept: Fetched)
    requires k >= 1
    requires Traceable(rpc, LatestFinalized(ConfirmationHeight, Some(latest), None, k).value, events, kept)
    ensures VotesAreDeep(rpc, latest, k, events, VerifyAndVoteOnEvents(events, kept))
  {
    var votes := VerifyAndVoteOnEvents(events, kept);
    forall i | 0 <= i < |votes| && votes[i] == SucceededOnChain
      ensures events[i].Some? && DeeplyBacked(rpc, events, events[i].value, latest, k)
    {
      PositiveVoteIsDeep(rpc, latest, k, events, kept, i);
    }
  }

  /** The node returned, for a hash of this poll, a certifying receipt in a block up to `finalized`. */
  ghost predicate FinallyBacked(rpc: Rpc, events: seq<Option<EvmEvent>>, e: EvmEvent, finalized: u64) {
    exists q, r :: Wanted(events, q) && rpc.receipt(q) == Found(r) && Mined(r, finalized) && r.status != Some(0)
                   && r.transactionHash == e.transactionHash && LogsContain(r.logs, e.events)
  }

  ghost predicate VotesAreFinal(rpc: Rpc, finalized: u64, events: seq<Option<EvmEvent>>, votes: seq<Vote>) {
    |votes| == |events| && forall i :: 0 <= i < |votes| && votes[i] == SucceededOnChain ==>
                             events[i].Some? && FinallyBacked(rpc, events, events[i].value, finalized)
  }

  lemma AllVotesAreFinal(rpc: Rpc, finalized: u64, events: seq<Option<EvmEvent>>, kept: Fetched)
    requires Traceable(rpc, finalized, events, kept)
    ensures VotesAreFinal(rpc, finalized, events, VerifyAndVoteOnEvents(events, kept))
  {
    var votes := VerifyAndVoteOnEvents(events, kept);
    forall i | 0 <= i < |votes| && votes[i] == SucceededOnChain
      ensures events[i].Some? && FinallyBacked(rpc, events, events[i].value, finalized)
    {
      PositiveVoteIsBacked(rpc, finalized, events, kept, i);
    }
  }

  /** The votes on a poll, for a finalizer that knows the latest finalized block. */
  method VoteOnPoll(rpc: Rpc, finalizer: Result<u64, FinalizerError>, poll: Poll) returns (r: Result<seq<Vote>, FinalizerError>)
    ensures r.Err? <==> finalizer.Err?
    ensures r.Err? ==> r.error == finalizer.error
    ensures r.Ok? ==>
              exists kept :: Traceable(rpc, finalizer.value, poll.events, kept) && r.value == VerifyAndVoteOnEvents(poll.events, kept)
    ensures r.Ok? ==> |r.value| == |poll.events|
    ensures r.Ok? && Honest(rpc) ==>
              forall i :: 0 <= i < |poll.events| ==>
                && r.value[i] == NaiveVote(rpc, finalizer.value, poll.events[i])
                && Reflects(r.value[i], rpc, finalizer.value, poll.events[i])
  {
    var fetched := FetchFinalizedTxReceipts(rpc, finalizer, poll.events);
    if fetched.Err? {
      return Err(fetched.error);
    }
    var votes := VerifyAndVoteOnEvents(poll.events, fetched.value);
    if Honest(rpc) {
      forall i | 0 <= i < |poll.events|
        ensures votes[i] == NaiveVote(rpc, finalizer.value, poll.events[i])
        ensures Reflects(votes[i], rpc, finalizer.value, poll.events[i])
      {
        BatchEqualsNaive(rpc, finalizer.value, poll.events, fetched.value, i);
        NaiveVoteReflects(rpc, finalizer.value, poll.events[i]);
      }
    }
    r := Ok(votes);
  }

  /**
   * A vote is cast, event by event, exactly on the polls that concern this handler and when the finalizer
   * answers; an unreadable event of the handler's contract is an error, every other event is ignored.
   */
  method Handle(h: Handler, rpc: Rpc, head: Head, event: ChainEvent, height: u64)
    returns (r: Handled)
    ensures r == Error(DeserializeEvent) <==> event.contract == Some(h.contract) && event.parsed.Malformed?
    ensures r.Error? && r.error.Finalizer? <==> Concerns(h, event, height) && FinalizedBy(h, head).Err?
    ensures r.VoteMessage? <==> Concerns(h, event, height) && FinalizedBy(h, head).Ok?
    ensures r.VoteMessage? ==> (r.sender, r.contract, r.pollId) == (h.verifier, h.contract, event.parsed.poll.id)
    ensures r.VoteMessage? ==> |r.votes| == |event.parsed.poll.events|
    ensures r.VoteMessage? ==>
              exists kept :: Traceable(rpc, FinalizedBy(h, head).value, event.parsed.poll.events, kept)
                             && r.votes == VerifyAndVoteOnEvents(event.parsed.poll.events, kept)
    ensures r.VoteMessage? && Honest(rpc) ==>
              forall i :: 0 <= i < |r.votes| ==>
                && r.votes[i] == NaiveVote(rpc, FinalizedBy(h, head).value, event.parsed.poll.events[i])
                && Reflects(r.votes[i], rpc, FinalizedBy(h, head).value, event.parsed.poll.events[i])
    ensures r.VoteMessage? && h.finalization.ConfirmationHeight? && h.confirmationHeight >= 1 ==>
              VotesAreDeep(rpc, head.latest.value, h.confirmationHeight, event.parsed.poll.events, r.votes)
    ensures r.VoteMessage? && h.finalization.RPCFinalizedBlock? ==>
              && head.finalized.Some? && head.finalized.value.Some?
              && VotesAreFinal(rpc, head.finalized.value.value, event.parsed.poll.events, r.votes)
  {
    if event.contract != Some(h.contract) {
      return NoMessage;
    }
    match event.parsed
    case OtherType => return NoMessage;
    case Malformed => return Error(DeserializeEvent);
    case PollStarted(poll) =>
      if ShouldSkipPoll(h.chain, poll.sourceChain, h.verifier, poll.participants, height, poll.expiresAt) {
        return NoMessage;
      }
      var finalizer := FinalizedBy(h, head);
      var votes := VoteOnPoll(rpc, finalizer, poll);
      if votes.Err? {
        return Error(Finalizer(votes.error));
      }
      r := VoteMessage(h.verifier, h.contract, poll.id, votes.value);
      if h.finalization.ConfirmationHeight? && h.confirmationHeight >= 1 {
        ghost var kept :| Traceable(rpc, finalizer.value, poll.events, kept)
                          && votes.value == VerifyAndVoteOnEvents(poll.events, kept);
        AllVotesAreDeep(rpc, head.latest.value, h.confirmationHeight, poll.events, kept);
      } else if h.finalization.RPCFinalizedBlock? {
        FinalizerAnswers(h.finalization, head.latest, head.finalized, h.confirmationHeight);
        ghost var kept :| Traceable(rpc, finalizer.value, poll.events, kept)
                          && votes.value == VerifyAndVoteOnEvents(poll.events, kept);
        AllVotesAreFinal(rpc, finalizer.value, poll.events, kept);
      }
  }
}
