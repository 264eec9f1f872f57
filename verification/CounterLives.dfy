/**
 What every Redis command of the rate limiter keeps true of the keys and of the
 record of executed INCRs: the counts of one key life are consecutive, and the
 lives of a counter key are at least a minute long.
 */
module CounterLives {
  import opened Wrappers
  import opened RedisStore
  import opened RateLimit

  /** The commands the middleware sends: counter keys only ever get the one
      expiry, and block keys are only ever set to BLOCKED. */
  predicate Allowed(cmd: Command) {
    match cmd
    case Incr(k) => IsCounterKey(k) || IsBlockKey(k)
    case Expire(k, ms) => ms > 0 && (IsCounterKey(k) ==> ms == COUNTER_TTL)
    case SetEx(k, text, ms) => IsBlockKey(k) && !IsCounterKey(k) && text == "BLOCKED" && ms > 0
    case SetNx(_, _, _) => false
    case Ttl(_) => true
    case Get(_) => true
  }

  lemma CommandsAreAllowed(r: Request, pc: Pc)
    requires !pc.Done?
    ensures Allowed(NextCommand(r, pc))
  {
    KeyKinds(r, Strike);
    if pc.HitIncr? || pc.HitExpire? || pc.HitTtl? || pc.HitRepair? {
      KeyKinds(r, pc.c);
    }
  }

  ghost predicate EntryOk(st: Store, k: string)
    requires k in st.keys
  {
    var e := st.keys[k];
    && e.born <= st.now
    && (e.expiry.Some? ==> e.born < e.expiry.value)
    && (e.value.Num? ==> 1 <= e.value.n)
    && (e.value.Text? ==> e.value.s == "BLOCKED")
    && (IsCounterKey(k) ==> e.value.Num?)
    && (IsCounterKey(k) && e.expiry.Some? ==>
          e.born + COUNTER_TTL <= e.expiry.value <= st.now + COUNTER_TTL)
  }

  /** An executed INCR belongs to the current or to an earlier life of its key. */
  ghost predicate RecordOk(st: Store, x: Incremented) {
    && x.key in st.keys
    && var e := st.keys[x.key];
    && 1 <= x.count
    && x.born <= x.at <= st.now
    && (x.count == 1 ==> x.at == x.born)
    && x.born <= e.born
    && (x.born == e.born && e.value.Num? ==> x.count <= e.value.n)
    && (x.born < e.born ==> x.at <= e.born)
    && (x.born < e.born && IsCounterKey(x.key) ==> x.born + COUNTER_TTL <= e.born)
  }

  /** Two INCRs of one key: same life and growing count, or a later life. */
  ghost predicate InOrder(x: Incremented, y: Incremented) {
    x.key == y.key ==>
      && x.born <= y.born
      && (x.born == y.born ==> x.count < y.count)
      && (x.born < y.born ==> x.at <= y.born)
      && (x.born < y.born && IsCounterKey(x.key) ==> x.born + COUNTER_TTL <= y.born)
  }

  /** The value `count` was produced by an INCR in the life of `key` that began at `born`. */
  ghost predicate Counted(log: seq<Incremented>, key: string, born: int, count: int) {
    exists i :: 0 <= i < |log| && log[i].key == key && log[i].born == born && log[i].count == count
  }

  ghost predicate KeysOk(st: Store) {
    forall k :: k in st.keys ==> EntryOk(st, k)
  }

  ghost predicate RecordsOk(st: Store) {
    forall i :: 0 <= i < |st.log| ==> RecordOk(st, st.log[i])
  }

  ghost predicate Ordered(log: seq<Incremented>) {
    forall i, j :: 0 <= i < j < |log| ==> InOrder(log[i], log[j])
  }

  /** Counts of one life have no gaps, and the last one is the stored value. */
  ghost predicate Consecutive(st: Store) {
    && (forall i :: 0 <= i < |st.log| && st.log[i].count > 1 ==>
          Counted(st.log, st.log[i].key, st.log[i].born, st.log[i].count - 1))
    && (forall k :: k in st.keys && st.keys[k].value.Num? ==>
          Counted(st.log, k, st.keys[k].born, st.keys[k].value.n))
  }

  ghost predicate StoreOk(st: Store) {
    KeysOk(st) && RecordsOk(st) && Ordered(st.log) && Consecutive(st)
  }

  lemma IncrKeepsStore(st: Store, k: string, client: nat)
    requires StoreOk(st) && Allowed(Incr(k))
    ensures StoreOk(Serve(st, Incr(k), client, 0).0)
  {
    if Serve(st, Incr(k), client, 0).1.Integer? {
      IncrKeepsKeys(st, k, client);
      IncrKeepsRecords(st, k, client);
      IncrKeepsCounts(st, k, client);
    }
  }

  lemma IncrKeepsKeys(st: Store, k: string, client: nat)
    requires KeysOk(st) && Allowed(Incr(k))
    ensures KeysOk(Serve(st, Incr(k), client, 0).0)
  {
    var st' := Serve(st, Incr(k), client, 0).0;
    forall key | key in st'.keys ensures EntryOk(st', key) {
      if key in st.keys { assert EntryOk(st, key); }
    }
  }

  /** The record an INCR adds comes last in the order, and is in the current life. */
  lemma IncrKeepsRecords(st: Store, k: string, client: nat)
    requires KeysOk(st) && RecordsOk(st) && Ordered(st.log)
    requires Serve(st, Incr(k), client, 0).1.Integer?
    ensures var st' := Serve(st, Incr(k), client, 0).0; RecordsOk(st') && Ordered(st'.log)
  {
    var st' := Serve(st, Incr(k), client, 0).0;
    var x := st'.log[|st.log|];
    assert st'.log == st.log + [x];
    if k in st.keys { assert EntryOk(st, k); }
    assert RecordOk(st', x);
    forall y | y in st.log ensures RecordOk(st', y) && InOrder(y, x) {
      assert RecordOk(st, y);
    }
    forall i, j | 0 <= i < j < |st'.log| ensures InOrder(st'.log[i], st'.log[j]) {
      assert st'.log[i] == st.log[i];
      if j < |st.log| { assert InOrder(st.log[i], st.log[j]); }
    }
  }

  lemma IncrKeepsCounts(st: Store, k: string, client: nat)
    requires Consecutive(st)
    requires Serve(st, Incr(k), client, 0).1.Integer?
    ensures Consecutive(Serve(st, Incr(k), client, 0).0)
  {
    var st' := Serve(st, Incr(k), client, 0).0;
    var x := st'.log[|st.log|];
    assert st'.log == st.log + [x];
    CountedGrows(st.log, x);
    assert Counted(st'.log, k, x.born, x.count);
    forall i | 0 <= i < |st'.log| && st'.log[i].count > 1
      ensures Counted(st'.log, st'.log[i].key, st'.log[i].born, st'.log[i].count - 1)
    {
      if i < |st.log| {
        assert Counted(st.log, st.log[i].key, st.log[i].born, st.log[i].count - 1);
      } else {
        assert Counted(st.log, k, x.born, x.count - 1);
      }
    }
  }

  lemma CountedGrows(log: seq<Incremented>, x: Incremented)
    ensures forall key, born, count :: Counted(log, key, born, count) ==> Counted(log + [x], key, born, count)
  {
    forall key, born, count | Counted(log, key, born, count) ensures Counted(log + [x], key, born, count) {
      var i :| 0 <= i < |log| && log[i].key == key && log[i].born == born && log[i].count == count;
      assert (log + [x])[i] == log[i];
    }
  }

  /** EXPIRE, SET EX, TTL and GET keep every key's value above what was counted. */
  lemma OtherCommandsKeepRecords(st: Store, cmd: Command, client: nat, round: nat)
    requires StoreOk(st) && Allowed(cmd) && !cmd.Incr?
    ensures var st' := Serve(st, cmd, client, round).0; RecordsOk(st') && Ordered(st'.log) && Consecutive(st')
  {
    var st' := Serve(st, cmd, client, round).0;
    assert st'.log == st.log;
    forall i | 0 <= i < |st.log| ensures RecordOk(st', st'.log[i]) {
      assert RecordOk(st, st.log[i]);
    }
  }

  lemma OtherCommandsKeepKeys(st: Store, cmd: Command, client: nat, round: nat)
    requires KeysOk(st) && Allowed(cmd) && !cmd.Incr?
    ensures KeysOk(Serve(st, cmd, client, round).0)
  {
    var st' := Serve(st, cmd, client, round).0;
    forall key | key in st'.keys ensures EntryOk(st', key) {
      if key in st.keys { assert EntryOk(st, key); }
    }
  }

  /** Every command the middleware sends, whatever the network does to it. */
  lemma IssueKeepsStore(st: Store, cmd: Command, client: nat, fault: Fault, round: nat)
    requires StoreOk(st) && Allowed(cmd)
    ensures StoreOk(Issue(st, cmd, client, fault, round).0)
  {
    if cmd.Incr? {
      IncrKeepsStore(st, cmd.key, client);
    } else {
      OtherCommandsKeepKeys(st, cmd, client, round);
      OtherCommandsKeepRecords(st, cmd, client, round);
    }
  }
}
