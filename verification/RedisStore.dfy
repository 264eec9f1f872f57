/**
 The Redis server as the gateways see it: a map from keys to a value with an
 optional expiry, and a clock that never goes back. Every command is one atomic
 step. Only the documented behaviour of INCR, EXPIRE, TTL, GET and SET with EX and NX is used.
 */
module RedisStore {
  import opened Wrappers

  const MAX_INT64: int := 0x7FFF_FFFF_FFFF_FFFF

  /** A stored string, split by whether it reads as an integer. */
  datatype Value = Num(n: int) | Text(s: string)

  /** `born` is auxiliary: the time of the command that started the key's
      current life. No reply depends on it. Times are in milliseconds. */
  datatype Entry = Entry(value: Value, expiry: Option<int>, born: int)

  /** Auxiliary record of one executed INCR. */
  datatype Incremented = Incremented(key: string, client: nat, at: int, born: int, count: int)

  datatype Store = Store(now: int, keys: map<string, Entry>, log: seq<Incremented>)

  datatype Command =
    | Incr(key: string)
    | Expire(key: string, ms: int)
    | Ttl(key: string)
    | Get(key: string)
    | SetEx(key: string, text: string, ms: int)
    | SetNx(key: string, text: string, ms: int)

  datatype Reply = Err | Nil | Integer(n: int) | Found(value: Value)

  /** What the network does to one command: it works, it is lost before the
      server sees it, or the server runs it and the reply is lost. */
  datatype Fault = Fine | NeverSent | ReplyLost

  /** An expired key stays in the map but counts as absent. */
  predicate Live(st: Store, key: string) {
    key in st.keys && (st.keys[key].expiry.None? || st.now < st.keys[key].expiry.value)
  }

  /** The server's reaction to one command. `round` settles how TTL rounds a
      remaining time to whole seconds: down (0), to nearest (500) or up (999). */
  function Serve(st: Store, cmd: Command, client: nat, round: nat): (Store, Reply) {
    match cmd
    case Incr(k) =>
      if Live(st, k) then
        var e := st.keys[k];
        if e.value.Num? && e.value.n < MAX_INT64 then
          var n := e.value.n + 1;
          (st.(keys := st.keys[k := e.(value := Num(n))],
               log := st.log + [Incremented(k, client, st.now, e.born, n)]), Integer(n))
        else (st, Err)
      else
        (st.(keys := st.keys[k := Entry(Num(1), None, st.now)],
             log := st.log + [Incremented(k, client, st.now, st.now, 1)]), Integer(1))
    case Expire(k, ms) =>
      if Live(st, k) then
        (st.(keys := st.keys[k := st.keys[k].(expiry := Some(st.now + ms))]), Integer(1))
      else (st, Integer(0))
    case Ttl(k) =>
      if !Live(st, k) then (st, Integer(-2))
      else if st.keys[k].expiry.None? then (st, Integer(-1))
      else (st, Integer((st.keys[k].expiry.value - st.now + round % 1000) / 1000))
    case Get(k) =>
      (st, if Live(st, k) then Found(st.keys[k].value) else Nil)
    case SetEx(k, text, ms) =>
      var born := if Live(st, k) then st.keys[k].born else st.now;
      (st.(keys := st.keys[k := Entry(Text(text), Some(st.now + ms), born)]), Found(Text("OK")))
    case SetNx(k, text, ms) =>
      if Live(st, k) then (st, Nil)
      else (st.(keys := st.keys[k := Entry(Text(text), Some(st.now + ms), st.now)]), Found(Text("OK")))
  }

  /** One command sent by a client over a faulty network. */
  function Issue(st: Store, cmd: Command, client: nat, fault: Fault, round: nat): (Store, Reply) {
    match fault
    case Fine => Serve(st, cmd, client, round)
    case NeverSent => (st, Err)
    case ReplyLost => (Serve(st, cmd, client, round).0, Err)
  }

  /** The server as a shared object, for clients that run command by command. */
  class Redis {
    var store: Store

    constructor (now: int)
      ensures store == Store(now, map[], [])
    {
      store := Store(now, map[], []);
    }

    method Do(cmd: Command, client: nat, fault: Fault, round: nat) returns (reply: Reply)
      modifies this
      ensures (store, reply) == Issue(old(store), cmd, client, fault, round)
    {
      var result := Issue(store, cmd, client, fault, round);
      store := result.0;
      reply := result.1;
    }
  }
}
