/**
 The pool of gRPC connections. Any number of callers run Load, dial, LoadOrStore
 and Close on one shared map, each of these one atomic step.
 */
module ConnPool {

  /** Connections are numbered in the order in which they are dialled. */
  type Conn = nat

  datatype Pc =
    | Loading
    | Dialling
    | Storing(conn: Conn)
    | Closing(conn: Conn, actual: Conn)
    | Returned(conn: Conn)
    | Failed

  datatype Caller = Caller(addr: string, pc: Pc)

  /** `dialled[c]` is the address of connection c. */
  datatype Pool = Pool(conns: map<string, Conn>, dialled: seq<string>, closed: set<Conn>, callers: map<nat, Caller>)

  datatype Event = Call(id: nat, addr: string) | Act(id: nat, dialFails: bool)

  /** The next atomic step of a caller. */
  function Advance(p: Pool, id: nat, dialFails: bool): Pool
    requires id in p.callers
  {
    var c := p.callers[id];
    match c.pc
    case Loading =>
      var pc := if c.addr in p.conns then Returned(p.conns[c.addr]) else Dialling;
      p.(callers := p.callers[id := c.(pc := pc)])
    case Dialling =>
      if dialFails then p.(callers := p.callers[id := c.(pc := Failed)])
      else p.(dialled := p.dialled + [c.addr], callers := p.callers[id := c.(pc := Storing(|p.dialled|))])
    case Storing(conn) =>
      if c.addr in p.conns then p.(callers := p.callers[id := c.(pc := Closing(conn, p.conns[c.addr]))])
      else p.(conns := p.conns[c.addr := conn], callers := p.callers[id := c.(pc := Returned(conn))])
    case Closing(conn, actual) =>
      p.(closed := p.closed + {conn}, callers := p.callers[id := c.(pc := Returned(actual))])
    case Returned(_) => p
    case Failed => p
  }

  function Step(p: Pool, ev: Event): Pool {
    match ev
    case Call(id, addr) => if id in p.callers then p else p.(callers := p.callers[id := Caller(addr, Loading)])
    case Act(id, dialFails) => if id in p.callers then Advance(p, id, dialFails) else p
  }

  function Run(p: Pool, events: seq<Event>): Pool {
    if events == [] then p else Step(Run(p, events[..|events| - 1]), events[|events| - 1])
  }

  const EMPTY: Pool := Pool(map[], [], {}, map[])

  predicate Held(caller: Caller, conn: Conn) {
    (caller.pc.Storing? || caller.pc.Closing?) && caller.pc.conn == conn
  }

  predicate Pooled(p: Pool, conn: Conn)
    requires conn < |p.dialled|
  {
    p.dialled[conn] in p.conns && p.conns[p.dialled[conn]] == conn
  }

  ghost predicate CallerOk(p: Pool, c: Caller) {
    match c.pc
    case Storing(conn) => conn < |p.dialled| && p.dialled[conn] == c.addr && conn !in p.closed && !Pooled(p, conn)
    case Closing(conn, actual) =>
      && conn < |p.dialled| && p.dialled[conn] == c.addr && conn !in p.closed && !Pooled(p, conn)
      && c.addr in p.conns && p.conns[c.addr] == actual
    case Returned(conn) => c.addr in p.conns && p.conns[c.addr] == conn
    case _ => true
  }

  ghost predicate HasHolder(p: Pool, conn: Conn) {
    exists id :: id in p.callers && Held(p.callers[id], conn)
  }

  /** Each dialled connection is in exactly one place: the pool, the closed ones,
      or the hands of exactly one caller. */
  ghost predicate ConnOk(p: Pool, conn: Conn)
    requires conn < |p.dialled|
  {
    && !(Pooled(p, conn) && conn in p.closed)
    && (conn in p.closed ==> p.dialled[conn] in p.conns)
    && (Pooled(p, conn) || conn in p.closed || HasHolder(p, conn))
  }

  ghost predicate OneHolder(p: Pool) {
    forall a, b :: a in p.callers && b in p.callers && a != b
                   && Held(p.callers[a], HeldConn(p.callers[a])) && Held(p.callers[b], HeldConn(p.callers[b])) ==>
      HeldConn(p.callers[a]) != HeldConn(p.callers[b])
  }

  function HeldConn(c: Caller): Conn {
    if c.pc.Storing? || c.pc.Closing? then c.pc.conn else 0
  }

  ghost predicate PoolOk(p: Pool) {
    && OneHolder(p)
    && (forall conn :: conn in p.closed ==> conn < |p.dialled|)
    && (forall id :: id in p.callers ==> CallerOk(p, p.callers[id]))
    && (forall conn :: 0 <= conn < |p.dialled| ==> ConnOk(p, conn))
    && (forall addr :: addr in p.conns ==> p.conns[addr] < |p.dialled| && p.dialled[p.conns[addr]] == addr)
  }

  lemma AdvanceKeepsCallers(p: Pool, id: nat, dialFails: bool)
    requires PoolOk(p) && id in p.callers
    ensures forall other :: other in p.callers ==> CallerOk(Advance(p, id, dialFails), Advance(p, id, dialFails).callers[other])
  {
    var p' := Advance(p, id, dialFails);
    assert CallerOk(p, p.callers[id]);
    forall other | other in p.callers ensures CallerOk(p', p'.callers[other]) {
      assert CallerOk(p, p.callers[other]);
      if other != id && (p.callers[other].pc.Storing? || p.callers[other].pc.Closing?) {
        assert Held(p.callers[other], HeldConn(p.callers[other]));
      }
    }
  }

  lemma AdvanceKeepsConns(p: Pool, id: nat, dialFails: bool)
    requires PoolOk(p) && id in p.callers
    ensures var p' := Advance(p, id, dialFails); forall conn :: 0 <= conn < |p'.dialled| ==> ConnOk(p', conn)
  {
    var p' := Advance(p, id, dialFails);
    assert CallerOk(p, p.callers[id]);
    forall conn | 0 <= conn < |p'.dialled| ensures ConnOk(p', conn) {
      if conn < |p.dialled| {
        assert ConnOk(p, conn);
        if HasHolder(p, conn) {
          var other :| other in p.callers && Held(p.callers[other], conn);
          if other != id { assert Held(p'.callers[other], conn); }
          else if p.callers[id].pc.Storing? && p.callers[id].addr in p.conns { assert Held(p'.callers[id], conn); }
        }
      } else {
        assert Held(p'.callers[id], conn);
      }
    }
  }

  lemma AdvanceKeepsHolders(p: Pool, id: nat, dialFails: bool)
    requires PoolOk(p) && id in p.callers
    ensures OneHolder(Advance(p, id, dialFails))
  {
    var p' := Advance(p, id, dialFails);
    forall other | other in p.callers ensures Held(p.callers[other], HeldConn(p.callers[other])) ==> HeldConn(p.callers[other]) < |p.dialled| {
      assert CallerOk(p, p.callers[other]);
    }
  }

  lemma CallKeepsPool(p: Pool, id: nat, addr: string)
    requires PoolOk(p) && id !in p.callers
    ensures PoolOk(Step(p, Call(id, addr)))
  {
    var p' := Step(p, Call(id, addr));
    forall other | other in p'.callers ensures CallerOk(p', p'.callers[other]) {
      if other in p.callers { assert CallerOk(p, p.callers[other]); }
    }
    forall conn | 0 <= conn < |p'.dialled| ensures ConnOk(p', conn) {
      assert ConnOk(p, conn);
      if HasHolder(p, conn) {
        var other :| other in p.callers && Held(p.callers[other], conn);
        assert Held(p'.callers[other], conn);
      }
    }
  }

  lemma StepKeepsPool(p: Pool, ev: Event)
    requires PoolOk(p)
    ensures PoolOk(Step(p, ev))
  {
    if ev.Act? && ev.id in p.callers {
      AdvanceKeepsCallers(p, ev.id, ev.dialFails);
      AdvanceKeepsConns(p, ev.id, ev.dialFails);
      AdvanceKeepsHolders(p, ev.id, ev.dialFails);
      assert CallerOk(p, p.callers[ev.id]);
    } else if ev.Call? && ev.id !in p.callers {
      CallKeepsPool(p, ev.id, ev.addr);
    }
  }

  lemma {:induction false} RunKeepsPool(events: seq<Event>)
    ensures PoolOk(Run(EMPTY, events))
  {
    if events != [] {
      RunKeepsPool(events[..|events| - 1]);
      StepKeepsPool(Run(EMPTY, events[..|events| - 1]), events[|events| - 1]);
    }
  }

  /** Main result: in every interleaving all successful callers of one address
      get the same connection, it was dialled to that address, and it is open. */
  lemma SameOpenConnection(events: seq<Event>, a: nat, b: nat)
    requires var p := Run(EMPTY, events);
      && a in p.callers && b in p.callers && p.callers[a].addr == p.callers[b].addr
      && p.callers[a].pc.Returned? && p.callers[b].pc.Returned?
    ensures var p := Run(EMPTY, events);
      var conn := p.callers[a].pc.conn;
      && conn == p.callers[b].pc.conn
      && conn < |p.dialled| && p.dialled[conn] == p.callers[a].addr && conn !in p.closed
  {
    RunKeepsPool(events);
    var p := Run(EMPTY, events);
    assert CallerOk(p, p.callers[a]) && CallerOk(p, p.callers[b]);
    assert ConnOk(p, p.callers[a].pc.conn);
  }

  ghost predicate AllBack(p: Pool) {
    forall id :: id in p.callers ==> p.callers[id].pc.Returned? || p.callers[id].pc.Failed?
  }

  /** Main result: once every caller is back, each dialled connection is either
      pooled or closed, never both, and the pool holds exactly one connection for
      every address that was ever dialled. */
  lemma NothingLeaks(events: seq<Event>)
    requires AllBack(Run(EMPTY, events))
    ensures var p := Run(EMPTY, events);
      && (forall conn :: 0 <= conn < |p.dialled| ==> (Pooled(p, conn) <==> conn !in p.closed))
      && (forall addr :: addr in p.conns <==> addr in p.dialled)
      && |p.conns| + |p.closed| == |p.dialled|
  {
    RunKeepsPool(events);
    var p := Run(EMPTY, events);
    forall conn | 0 <= conn < |p.dialled|
      ensures (Pooled(p, conn) <==> conn !in p.closed) && p.dialled[conn] in p.conns
    {
      assert ConnOk(p, conn);
      FinishedHoldNothing(p, conn);
    }
    PooledOrClosedCount(p);
  }

  lemma FinishedHoldNothing(p: Pool, conn: Conn)
    requires AllBack(p)
    ensures !HasHolder(p, conn)
  {
    forall id | id in p.callers ensures !Held(p.callers[id], conn) {}
  }

  lemma PooledOrClosedCount(p: Pool)
    requires PoolOk(p)
    requires forall conn :: 0 <= conn < |p.dialled| ==> (Pooled(p, conn) <==> conn !in p.closed)
    ensures |p.conns| + |p.closed| == |p.dialled|
  {
    var pooled := p.conns.Values;
    var all := FirstNumbers(|p.dialled|);
    forall conn ensures conn in all <==> conn in pooled || conn in p.closed {
      if 0 <= conn < |p.dialled| && conn !in p.closed { assert p.conns[p.dialled[conn]] == conn; }
    }
    assert all == pooled + p.closed;
    assert pooled !! p.closed;
    ImageSize(p.conns);
  }

  lemma {:induction false} ImageSize(m: map<string, Conn>)
    requires forall a, b :: a in m && b in m && m[a] == m[b] ==> a == b
    ensures |m.Values| == |m|
  {
    if k :| k in m {
      var rest := m - {k};
      ImageSize(rest);
      assert m == rest[k := m[k]];
      assert m.Values == rest.Values + {m[k]};
    } else {
      assert m == map[];
      assert m.Values == {};
    }
  }

  function FirstNumbers(n: nat): (r: set<nat>)
    ensures forall i: nat :: i in r <==> i < n
    ensures |r| == n
  {
    if n == 0 then {} else FirstNumbers(n - 1) + {n - 1}
  }

  // ---------- the code, with other callers in between ----------

  lemma {:induction false} RunTwice(p: Pool, first: seq<Event>, second: seq<Event>)
    ensures Run(p, first + second) == Run(Run(p, first), second)
  {
    if second == [] {
      assert first + second == first;
    } else {
      var shorter := second[..|second| - 1];
      assert (first + second)[..|first + second| - 1] == first + shorter;
      RunTwice(p, first, shorter);
    }
  }

  lemma {:induction false} OthersKeepCaller(p: Pool, events: seq<Event>, id: nat)
    requires PoolOk(p) && id in p.callers && OfOthers(events, id)
    ensures PoolOk(Run(p, events))
    ensures id in Run(p, events).callers && Run(p, events).callers[id] == p.callers[id]
  {
    if events != [] {
      OthersKeepCaller(p, events[..|events| - 1], id);
      StepKeepsPool(Run(p, events[..|events| - 1]), events[|events| - 1]);
    }
  }

  /** A pooled connection stays pooled, whatever any caller does. */
  lemma {:induction false} PooledStays(p: Pool, events: seq<Event>, addr: string)
    requires addr in p.conns
    ensures addr in Run(p, events).conns && Run(p, events).conns[addr] == p.conns[addr]
  {
    if events != [] {
      PooledStays(p, events[..|events| - 1], addr);
    }
  }

  /** Once an address has a pooled connection and nobody is about to dial it, no run
      dials it again. */
  lemma {:induction false} PooledIsNotDialled(p: Pool, events: seq<Event>, addr: string)
    requires addr in p.conns
    requires forall id :: id in p.callers && p.callers[id].addr == addr ==> !p.callers[id].pc.Dialling?
    ensures var p' := Run(p, events);
      && p.dialled <= p'.dialled && addr in p'.conns
      && (forall id :: id in p'.callers && p'.callers[id].addr == addr ==> !p'.callers[id].pc.Dialling?)
      && (forall conn :: |p.dialled| <= conn < |p'.dialled| ==> p'.dialled[conn] != addr)
  {
    if events != [] {
      PooledIsNotDialled(p, events[..|events| - 1], addr);
    }
  }

  predicate OfOthers(events: seq<Event>, id: nat) {
    forall i :: 0 <= i < |events| && events[i].Act? ==> events[i].id != id
  }

  /** The steps of caller `id`, each after what the others do before it. */
  function Schedule(id: nat, dialFails: bool, others: seq<seq<Event>>): seq<Event> {
    if others == [] then [] else others[0] + [Act(id, dialFails)] + Schedule(id, dialFails, others[1..])
  }

  lemma ScheduleStarts(p: Pool, id: nat, dialFails: bool, others: seq<seq<Event>>)
    requires others != []
    ensures Run(p, Schedule(id, dialFails, others))
         == Run(Step(Run(p, others[0]), Act(id, dialFails)), Schedule(id, dialFails, others[1..]))
  {
    var first, act := others[0], Act(id, dialFails);
    RunTwice(p, first + [act], Schedule(id, dialFails, others[1..]));
    assert (first + [act])[..|first|] == first;
  }

  lemma ReturnedIsOpen(p: Pool, id: nat)
    requires PoolOk(p) && id in p.callers && p.callers[id].pc.Returned?
    ensures var c := p.callers[id];
      c.addr in p.conns && p.conns[c.addr] == c.pc.conn && c.pc.conn < |p.dialled| && c.pc.conn !in p.closed
  {
    assert CallerOk(p, p.callers[id]);
    assert ConnOk(p, p.callers[id].pc.conn);
  }

  /** The shared map and the connections; the callers' control states are auxiliary. */
  class SharedPool {
    var conns: map<string, Conn>
    var dialled: seq<string>
    var closed: set<Conn>
    var callers: map<nat, Caller>

    function State(): Pool
      reads this
    {
      Pool(conns, dialled, closed, callers)
    }

    /** The pool is in order, and the caller is at `pc`. */
    ghost predicate At(id: nat, addr: string, pc: Pc)
      reads this
    {
      PoolOk(State()) && id in callers && callers[id] == Caller(addr, pc)
    }

    /** What other callers do between two steps of this one. */
    method Others(events: seq<Event>, ghost id: nat)
      requires PoolOk(State()) && id in callers && OfOthers(events, id)
      modifies this
      ensures State() == Run(old(State()), events) && PoolOk(State())
      ensures id in callers && callers[id] == old(callers)[id]
    {
      OthersKeepCaller(State(), events, id);
      var p := Run(State(), events);
      conns, dialled, closed, callers := p.conns, p.dialled, p.closed, p.callers;
    }

    /** Load, dial, LoadOrStore and Close as the caller runs them, with any steps of
        others before each. The pool goes through the machine's run of exactly the
        steps taken; the caller ends up Returned with the connection it hands out,
        or Failed. */
    method GetGRPCConn(id: nat, addr: string, dialFails: bool, others: seq<seq<Event>>)
      returns (ok: bool, conn: Conn, ghost steps: nat)
      requires PoolOk(State()) && id !in callers && |others| == 4
      requires forall j :: 0 <= j < |others| ==> OfOthers(others[j], id)
      modifies this
      ensures At(id, addr, if ok then Returned(conn) else Failed)
      ensures 1 <= steps <= 4
      ensures State() == Run(Step(old(State()), Call(id, addr)), Schedule(id, dialFails, others[..steps]))
      ensures ok ==> addr in conns && conns[addr] == conn && conn < |dialled| && conn !in closed
      ensures !ok ==> dialFails
      ensures forall a :: a in old(conns) ==> a in conns && conns[a] == old(conns)[a]
    {
      ghost var start := State();
      StepKeepsPool(start, Call(id, addr));
      callers := callers[id := Caller(addr, Loading)];
      assert State() == Step(start, Call(id, addr));
      ghost var called := State();
      var found;
      found, conn := Load(id, addr, dialFails, others[0]);
      ok, steps := true, 1;
      if !found {
        ok, conn, steps := Dial(id, addr, dialFails, others[1..]);
        steps := steps + 1;
        assert others[..steps][1..] == others[1..][..steps - 1];
      } else {
        assert Schedule(id, dialFails, others[..steps][1..]) == [];
      }
      ScheduleStarts(called, id, dialFails, others[..steps]);
      if ok { ReturnedIsOpen(State(), id); }
      forall a | a in old(conns) ensures a in conns && conns[a] == old(conns)[a] {
        PooledStays(called, Schedule(id, dialFails, others[..steps]), a);
      }
    }

    method Load(id: nat, addr: string, ghost dialFails: bool, others: seq<Event>) returns (found: bool, conn: Conn)
      requires At(id, addr, Loading) && OfOthers(others, id)
      modifies this
      ensures At(id, addr, if found then Returned(conn) else Dialling)
      ensures State() == Step(Run(old(State()), others), Act(id, dialFails))
    {
      Others(others, id);
      ghost var p := State();
      StepKeepsPool(p, Act(id, dialFails));
      found, conn := addr in conns, 0;
      if found {
        conn := conns[addr];
      }
      callers := callers[id := Caller(addr, if found then Returned(conn) else Dialling)];
      assert State() == Step(p, Act(id, dialFails));
    }

    method Dial(id: nat, addr: string, dialFails: bool, others: seq<seq<Event>>)
      returns (ok: bool, conn: Conn, ghost steps: nat)
      requires At(id, addr, Dialling) && |others| == 3
      requires forall j :: 0 <= j < |others| ==> OfOthers(others[j], id)
      modifies this
      ensures At(id, addr, if ok then Returned(conn) else Failed)
      ensures 1 <= steps <= 3
      ensures State() == Run(old(State()), Schedule(id, dialFails, others[..steps]))
      ensures !ok ==> dialFails
    {
      ghost var start := State();
      var own;
      ok, own := NewClient(id, addr, dialFails, others[0]);
      conn, steps := 0, 1;
      if ok {
        conn, steps := LoadOrStore(id, addr, own, dialFails, others[1..]);
        steps := steps + 1;
        assert others[..steps][1..] == others[1..][..steps - 1];
      } else {
        assert Schedule(id, dialFails, others[..steps][1..]) == [];
      }
      ScheduleStarts(start, id, dialFails, others[..steps]);
    }

    method NewClient(id: nat, addr: string, dialFails: bool, others: seq<Event>) returns (ok: bool, own: Conn)
      requires At(id, addr, Dialling) && OfOthers(others, id)
      modifies this
      ensures ok == !dialFails && At(id, addr, if ok then Storing(own) else Failed)
      ensures State() == Step(Run(old(State()), others), Act(id, dialFails))
    {
      Others(others, id);
      ghost var p := State();
      StepKeepsPool(p, Act(id, dialFails));
      ok, own := !dialFails, |dialled|;
      if ok {
        dialled := dialled + [addr];
      }
      callers := callers[id := Caller(addr, if ok then Storing(own) else Failed)];
      assert State() == Step(p, Act(id, dialFails));
    }

    /** The caller's own connection is pooled if the address has none when it gets
        there; otherwise it is closed and the one found is returned. */
    method LoadOrStore(id: nat, addr: string, own: Conn, ghost dialFails: bool, others: seq<seq<Event>>)
      returns (conn: Conn, ghost steps: nat)
      requires At(id, addr, Storing(own)) && |others| == 2
      requires forall j :: 0 <= j < |others| ==> OfOthers(others[j], id)
      modifies this
      ensures At(id, addr, Returned(conn))
      ensures 1 <= steps <= 2
      ensures State() == Run(old(State()), Schedule(id, dialFails, others[..steps]))
      ensures var found := Run(old(State()), others[0]).conns;
        if addr in found then conn == found[addr] && conn != own && own in closed else conn == own && own !in closed
    {
      ghost var start := State();
      Others(others[0], id);
      ghost var p := State();
      StepKeepsPool(p, Act(id, dialFails));
      steps := 1;
      if addr in conns {
        conn := conns[addr];
        callers := callers[id := Caller(addr, Closing(own, conn))];
        assert State() == Step(p, Act(id, dialFails));
        Close(id, addr, own, conn, dialFails, others[1]);
        steps := 2;
        assert others[..2][1..] == [others[1]];
      } else {
        conn := own;
        conns := conns[addr := own];
        callers := callers[id := Caller(addr, Returned(conn))];
        assert State() == Step(p, Act(id, dialFails));
        assert Schedule(id, dialFails, others[..steps][1..]) == [];
        ReturnedIsOpen(State(), id);
      }
      ScheduleStarts(start, id, dialFails, others[..steps]);
    }

    method Close(id: nat, addr: string, own: Conn, actual: Conn, ghost dialFails: bool, others: seq<Event>)
      requires At(id, addr, Closing(own, actual)) && OfOthers(others, id)
      modifies this
      ensures At(id, addr, Returned(actual)) && own in closed && actual != own
      ensures State() == Run(old(State()), Schedule(id, dialFails, [others]))
    {
      ghost var start := State();
      Others(others, id);
      ghost var p := State();
      StepKeepsPool(p, Act(id, dialFails));
      assert CallerOk(p, p.callers[id]);
      closed := closed + {own};
      callers := callers[id := Caller(addr, Returned(actual))];
      assert State() == Step(p, Act(id, dialFails));
      ScheduleStarts(start, id, dialFails, [others]);
    }
  }
}
