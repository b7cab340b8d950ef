/** The base fee history of src/blockchain/deposit_strategy/gas_price_calculator.py, assembled
    from pages that overlap by the one extra fee each page carries. */
module GasHistory {
  import opened Wrappers

  datatype RpcError = RpcError

  const BLOCKS_IN_ONE_DAY := 24 * 60 * 60 / 12
  const REQUEST_SIZE := 1024

  /** One answer of `eth_feeHistory`. */
  datatype FeePage = FeePage(oldestBlock: nat, baseFeePerGas: seq<int>)

  /** The base fees of blocks lo, lo + 1, ... up to but not including hi. */
  function Fees(baseFee: nat -> int, lo: nat, hi: nat): (s: seq<int>)
    requires lo <= hi
    ensures |s| == hi - lo
    ensures forall i :: 0 <= i < hi - lo ==> s[i] == baseFee(lo + i)
  {
    seq(hi - lo, i requires 0 <= i < hi - lo => baseFee(lo + i))
  }

  /** The node's side: up to REQUEST_SIZE blocks ending at `newest`, cut at the first block of the chain,
      and the base fee of the block after `newest`. A negative block number is refused. */
  function FeeHistory(baseFee: nat -> int, newest: int): Result<FeePage, RpcError> {
    if newest < 0 then Err(RpcError.RpcError)
    else
      var oldest := Lowest(newest - REQUEST_SIZE + 1);
      Ok(FeePage(oldest, Fees(baseFee, oldest, newest + 2)))
  }

  function Lowest(block: int): nat {
    if block < 0 then 0 else block
  }

  /** `s[:n]`, where a negative n counts from the end. */
  function Prefix(s: seq<int>, n: int): seq<int> {
    if n >= |s| then s
    else if n >= 0 then s[..n]
    else if -n >= |s| then []
    else s[..|s| + n]
  }

  function RequestsCount(days: int): int {
    BLOCKS_IN_ONE_DAY * days / REQUEST_SIZE + 1
  }

  /** The first block covered after k requests, for a chain whose head was `head`. */
  function FirstBlock(head: nat, k: nat): nat {
    Lowest(head - (REQUEST_SIZE + 1) * k + 2)
  }

  /** `_fetch_gas_fee_history` while the head is `head`: it fails exactly when the last request would
      ask for a negative block, and otherwise returns the oldest part of one unbroken range of
      consecutive blocks, oldest first, that ends with the block after the head. */
  method FetchGasFeeHistory(baseFee: nat -> int, head: nat, days: int) returns (r: Result<seq<int>, RpcError>)
    ensures r.Ok? <==> head >= 1025 * (7200 * days / 1024)
    ensures r.Ok? && days < 0 ==> r.value == []
    ensures r.Ok? && days >= 0 ==>
              r.value == Prefix(Fees(baseFee, FirstBlock(head, RequestsCount(days)), head + 2), 7200 * days)
  {
    var totalBlocksToFetch := BLOCKS_IN_ONE_DAY * days;
    var requestsCount := totalBlocksToFetch / REQUEST_SIZE + 1;
    var gasFees: seq<int> := [];
    // no number stands for 'latest'
    var lastBlock: Option<int> := None;
    var k := 0;
    while k < requestsCount
      invariant 0 <= k && (k <= requestsCount || k == 0)
      invariant k == 0 ==> lastBlock.None? && gasFees == []
      invariant k > 0 ==> lastBlock == Some(FirstBlock(head, k) - 2)
      invariant k > 0 ==> head >= (REQUEST_SIZE + 1) * (k - 1)
      invariant k > 0 ==> gasFees == Fees(baseFee, FirstBlock(head, k), head + 2)
    {
      var newest := if lastBlock.None? then head else lastBlock.value;
      var stats := FeeHistory(baseFee, newest);
      if stats.Err? {
        assert head < (REQUEST_SIZE + 1) * k;
        return Err(RpcError.RpcError);
      }
      assert newest == head - (REQUEST_SIZE + 1) * k;
      assert stats.value.oldestBlock == FirstBlock(head, k + 1);
      lastBlock := Some(stats.value.oldestBlock - 2);
      gasFees := stats.value.baseFeePerGas + gasFees;
      k := k + 1;
    }
    r := Ok(Prefix(gasFees, days * BLOCKS_IN_ONE_DAY));
  }

  /** On a chain long enough for every page, the result is exactly 7200 fees a day of consecutive
      blocks, and the newest fees are cut off: between k + 1 and k + 1024 of them for k requests. */
  lemma FullHistory(baseFee: nat -> int, head: nat, days: nat)
    requires head + 2 >= 1025 * (7200 * days / 1024 + 1)
    ensures var k := 7200 * days / 1024 + 1;
            var lo := head - 1025 * k + 2;
            var hi := lo + 7200 * days;
            && Prefix(Fees(baseFee, FirstBlock(head, RequestsCount(days)), head + 2), 7200 * days)
               == Fees(baseFee, lo, hi)
            && k + 1 <= head + 2 - hi <= k + 1024
  {
  }

  /** On a chain that answers every request the history is complete exactly when the chain has that many blocks;
      on one too short for the last page it starts with the first block. */
  lemma CompleteIff(baseFee: nat -> int, head: nat, days: nat)
    requires head >= 1025 * (7200 * days / 1024)
    ensures var history := Prefix(Fees(baseFee, FirstBlock(head, RequestsCount(days)), head + 2), 7200 * days);
            && (|history| == 7200 * days <==> head + 2 >= 7200 * days)
            && (|history| < 7200 * days ==> |history| == head + 2)
            && (head + 2 < 1025 * (7200 * days / 1024 + 1) ==>
                  |history| <= head + 2 && history == Fees(baseFee, 0, |history|))
  {
  }
}
