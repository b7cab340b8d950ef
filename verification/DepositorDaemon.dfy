/** The depositor under the scheduler, as src/bots/depositor.py and src/blockchain/executor.py combine them. */
module DepositorDaemon {
  import opened Depositor
  import opened DepositSender
  import opened Executor
  import opened Wrappers

  /** One cycle of the daemon, unless it stops: wait for a block, run the bot once whatever the wait came to,
      and expect the next block. In a cycle without an exception the next run is asked for at the very next
      block exactly if a module was chosen, so a healthy one existed, and no attempt succeeded. */
  method RunCycle(e: Executor, bot: DepositorBot, chain: Chain, now: real, v: CycleView)
    returns (runs: bool, r: Result<bool, Depositor.BotError>, calls: seq<DepositCall>, ghost made: seq<Send>)
    requires e.Valid() && bot.Valid() && DigestsOfAllowed(v, bot.config.whitelist)
    modifies e, bot, bot.storage, bot.storage.messages
    ensures bot.Valid() && (runs ==> e.Valid())
    ensures var wait := Poll(chain, old(e.nextExpectedBlock), now, now + WaitLimit(e.blocksBetweenExecution) as real);
            && (runs <==> wait.Got? || wait.Failed?)
            && (runs ==> e.nextExpectedBlock ==
                         (if wait.Got? then wait.block else old(e.nextExpectedBlock))
                         + if r == Ok(true) then e.blocksBetweenExecution else 1)
    ensures if runs then Outcome(bot.State(), calls, r) == ExecutionOf(bot.config, old(bot.State()), v)
            else bot.State() == old(bot.State()) && calls == []
    ensures bot.sends == old(bot.sends) + made && OnlyLastSucceeds(made)
    ensures runs && r.Ok? ==>
              var tried := Preferred(bot.config, old(bot.State()), v);
              tried.Some? && (!r.value <==> tried.value != [] && !LastSucceeds(made))
  {
    r, calls, made := Ok(true), [], [];
    var wait := e.WaitUntilNextBlock(chain, now);
    if wait.TimedOut? || wait.NoProvider? {
      return false, r, calls, made;
    }
    made := ExecutionMeaning(bot.config, bot.State(), v);
    r, calls := bot.Execute(v);
    e.CompleteCycle(if wait.Got? then Some(wait.block) else None, r == Ok(true));
    runs := true;
  }
}
