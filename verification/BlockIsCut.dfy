/**
 Late EXPIREs do happen: with a strike window shorter than the block, some run
 from an empty server cuts a block short, whatever the limit and the threshold.
 */
module BlockIsCut {
  import opened Wrappers
  import opened Strings
  import opened RedisStore
  import opened RateLimit
  import opened CounterLives
  import opened MinuteBound
  import opened BoundIsTight
  import opened BlockDuration
  import opened StrikeSeries

  /** k strikes at time 0; the first striker still owes its EXPIRE. */
  lemma {:induction false} Series(r: Request, k: nat) returns (s: System)
    requires Strikes(r) && 1 <= k <= r.Block().threshold + 1
    ensures var g := r.GlobalLimit();
      && Struck(s, r, 0, g + k, k, g + k)
      && g in s.calls && s.calls[g].pc.StrikeExpire?
      && (k > 1 && k >= r.Block().threshold ==> g + k - 1 in s.calls && s.calls[g + k - 1].pc.StrikeSet?)
  {
    var g := r.GlobalLimit();
    if k == 1 {
      NothingYet(r);
      s := LimitIsUsed(Init(0), r, 0, g, 0, 0);
      s := OneStrike(s, r, 0, g, 0, g);
    } else {
      s := Series(r, k - 1);
      s := OneStrike(s, r, 0, g + k - 1, k - 1, g + k - 1);
    }
  }

  /** A block has just been set and the EXPIRE of its first strike is in flight. */
  lemma BlockWithLateExpire(r: Request) returns (s: System)
    requires Strikes(r)
    ensures Leads(Init(0), s)
    ensures JustSet(s, r.Key(Strike), r.Block().windowSeconds, r.Block().durationSeconds)
    ensures !NonePending(s, r.Key(Strike))
  {
    var k := if r.Block().threshold > 1 then r.Block().threshold else 2;
    var g := r.GlobalLimit();
    var s1 := Series(r, k);
    s := SetsBlock(s1, r, 0, g + k, k, g + k, g + k - 1);
    assert ExpirePending(s.calls[g], r.Key(Strike));
  }

  /** Every block of every run lasts its full duration. */
  ghost predicate AlwaysFull(key: string, window: int, duration: int) {
    forall now, events :: JustSet(Run(Init(now), events), key, window, duration) ==>
      StaysBlocked(Run(Init(now), events), key, window, duration, Run(Init(now), events).store.now + 1000 * duration)
  }

  /** Main result: the settings alone promise the full duration if and only if the
      strike window is no shorter than the block. */
  lemma AlwaysFullIff(r: Request)
    requires Strikes(r)
    ensures var b := r.Block();
      AlwaysFull(r.Key(Strike), b.windowSeconds, b.durationSeconds) <==> b.windowSeconds >= b.durationSeconds
  {
    var key, window, duration := r.Key(Strike), r.Block().windowSeconds, r.Block().durationSeconds;
    if window >= duration {
      forall now, events | JustSet(Run(Init(now), events), key, window, duration)
        ensures StaysBlocked(Run(Init(now), events), key, window, duration, Run(Init(now), events).store.now + 1000 * duration)
      {
        BlockLastsFullDurationIff(Run(Init(now), events), key, window, duration);
      }
    } else {
      var s := BlockWithLateExpire(r);
      var events :| Run(Init(0), events) == s;
      BlockLastsFullDurationIff(s, key, window, duration);
    }
  }

  /** The default settings, five strikes in 300 seconds and a block of 1800, do not
      promise the full duration. */
  lemma DefaultBlockMayBeCut(r: Request)
    requires r.perMinute == 120 && r.globalPerMinute <= 0 && r.ip != ""
    requires r.rawBlock == BlockConfig(true, 5, 300, 1800, [])
    ensures !AlwaysFull(r.Key(Strike), 300, 1800)
  {
    AlwaysFullIff(r);
  }
}
