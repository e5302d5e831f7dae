/** A bot's life: initialise a context, then call `ld_service` over and over. Whatever the surroundings do, the
    fields of the real context keep the promises proved about the state machine. */
module Bot {
  import opened Prelude
  import opened Json
  import opened Session
  import opened History
  import opened Bookkeeping
  import opened Queue
  import opened Runs
  import opened Protocol
  import C = Context

  method Live(load: Bytes -> Option<Json>, dumps: Json -> string, capacity: nat, identify: Option<Json>,
              start: Secs, ticks: seq<Tick>)
    returns (bot: C.Context)
    ensures fresh(bot) && bot.Valid() && bot.load == load && bot.cfg.capacity == capacity
    ensures bot.View() == Run(bot.cfg, Init(start), ticks)
    ensures bot.hbCount == BeatsAccepted(bot.log) + Misses(bot.log) - Acks(bot.cfg, bot.log)
    ensures (forall msg :: WellKeyed(load(msg))) ==>
      bot.hbCount == Beats(AcceptedIn(bot.log)) + Count(Codes(bot.cfg, Init(start), ticks), 220)
                     - Delivers(load, bot.log, 11)
    ensures AcceptedIn(bot.log) == ConsumedIn(bot.log) + bot.ring
    ensures bot.sessionId == SessionIn(bot.cfg, bot.log) && bot.lastSeq == SeqIn(bot.cfg, bot.log)
    ensures bot.heartbeatInterval == IntervalIn(bot.cfg, bot.log)
    ensures CallsIn(bot.log) == CallsOwed(bot.cfg, bot.log) && SeesSession(bot.cfg, bot.log)
    ensures HonestAcks(bot.cfg, bot.log) && Hellos(bot.cfg, bot.log) < capacity ==> NoRefusals(bot.log)
  {
    bot := new C.Context(load, dumps, capacity, identify, start);
    bot.ServiceAll(ticks);
    ReachableInv(bot.cfg, start, ticks);
    if forall msg :: WellKeyed(load(msg)) {
      LedgerByOpcode(bot.cfg, load, start, ticks);
    }
    DecoderUsesTable(bot.cfg, load);
  }
}
