/**
 Round-robin choice of a service instance, with one shared counter per service.
 */
module RoundRobin {
  import opened Wrappers

  const MAX_INT64: int := 0x7FFF_FFFF_FFFF_FFFF

  /** "no healthy instance", an address, or an index out of range at run time. */
  datatype Choice = NoInstance | Chosen(index: nat) | OutOfRange

  /** x++ on 64 bits. */
  function Increment(x: int): int {
    if x == MAX_INT64 then -MAX_INT64 - 1 else x + 1
  }

  /** The remainder of Go, which has the sign of the dividend. */
  function Remainder(x: int, n: int): int
    requires n > 0
  {
    if x >= 0 then x % n else -((-x) % n)
  }

  /** How often `j` occurs in a series of choices. */
  function Occurrences(s: seq<nat>, j: nat): nat {
    if s == [] then 0 else Occurrences(s[..|s| - 1], j) + (if s[|s| - 1] == j then 1 else 0)
  }

  class Balancer {
    var counters: map<string, int>

    constructor ()
      ensures counters == map[]
    {
      counters := map[];
    }

    function Counter(service: string): int
      reads this
    {
      if service in counters then counters[service] else 0
    }

    /** A choice among `n` healthy instances. A single instance is taken without
        counting; other services' counters never change. */
    method GetServiceAddr(service: string, n: nat) returns (choice: Choice)
      modifies this
      ensures n == 0 ==> choice == NoInstance
      ensures n == 1 ==> choice == Chosen(0)
      ensures n <= 1 ==> counters == old(counters)
      ensures n > 1 ==> counters == old(counters)[service := Increment(old(Counter(service)))]
      ensures n > 1 && old(Counter(service)) >= 0 ==>
        choice.Chosen? && choice.index < n && choice.index == old(Counter(service)) % n
      ensures choice.OutOfRange? <==> n > 1 && old(Counter(service)) < 0 && (-old(Counter(service))) % n != 0
    {
      if n == 0 {
        return NoInstance;
      }
      if n == 1 {
        return Chosen(0);
      }
      if service !in counters {
        counters := counters[service := 0];
      }
      var counter := counters[service];
      var index := Remainder(counter, n);
      counters := counters[service := Increment(counter)];
      if index < 0 {
        return OutOfRange;
      }
      return Chosen(index);
    }

    /** A series of choices with changing list sizes, all services mixed. Every
        index is in range while the counters have not passed 2^63; the l-th choice
        of a service among several instances is its counter's start plus l, modulo
        its list size; and a service whose list keeps its size is served fairly. */
    method ServeAll(requests: seq<(string, nat)>) returns (choices: seq<Choice>)
      requires CanServe(|requests|)
      modifies this
      ensures |choices| == |requests|
      ensures forall i :: 0 <= i < |requests| ==> Served(requests[i].1, choices[i])
      ensures forall s :: Turned(requests, choices, s, old(Counter(s)), Counter(s))
      ensures forall s, n :: n > 1 && KeepsSize(requests, s, n) ==> Fair(Indices(Picks(requests, choices, s)), n)
    {
      choices := [];
      ghost var start := counters;
      for i := 0 to |requests|
        invariant |choices| == i
        invariant CanServe(|requests| - i) && Progress(requests[..i], choices, start)
      {
        choices := ServeNext(requests, choices, start);
      }
      assert requests[..|requests|] == requests;
      forall s, n | n > 1 && KeepsSize(requests, s, n) ensures Fair(Indices(Picks(requests, choices, s)), n) {
        SeriesIsFair(requests, choices, s, old(Counter(s)), n);
      }
    }

    /** The next k choices cannot pass 2^63. */
    predicate CanServe(k: nat)
      reads this
    {
      k <= MAX_INT64 && forall s :: s in counters ==> 0 <= counters[s] && counters[s] + k <= MAX_INT64
    }

    ghost predicate Progress(requests: seq<(string, nat)>, choices: seq<Choice>, start: map<string, int>)
      requires |requests| == |choices|
      reads this
    {
      && (forall i :: 0 <= i < |requests| ==> Served(requests[i].1, choices[i]))
      && (forall s :: Turned(requests, choices, s, if s in start then start[s] else 0, Counter(s)))
    }

    method ServeNext(requests: seq<(string, nat)>, choices: seq<Choice>, ghost start: map<string, int>)
      returns (choices': seq<Choice>)
      requires |choices| < |requests| && CanServe(|requests| - |choices|)
      requires Progress(requests[..|choices|], choices, start)
      modifies this
      ensures |choices'| == |choices| + 1 && CanServe(|requests| - |choices'|)
      ensures Progress(requests[..|choices'|], choices', start)
    {
      var request := requests[|choices|];
      var choice := GetServiceAddr(request.0, request.1);
      choices' := choices + [choice];
      forall s ensures Turned(requests[..|choices'|], choices', s, if s in start then start[s] else 0, Counter(s)) {
        OneMorePick(requests, choices, choice, s, if s in start then start[s] else 0);
      }
    }
  }

  // ---------- a mixed series ----------

  predicate Served(n: nat, choice: Choice) {
    if n == 0 then choice == NoInstance else choice.Chosen? && choice.index < n
  }

  /** A choice among several instances, and their number. */
  datatype Pick = Pick(index: nat, size: nat)

  /** The choices of one service among several instances, picked out of a series. */
  function Picks(requests: seq<(string, nat)>, choices: seq<Choice>, service: string): seq<Pick>
    requires |requests| == |choices|
  {
    if requests == [] then []
    else
      var last := |requests| - 1;
      Picks(requests[..last], choices[..last], service)
      + (if requests[last].0 == service && requests[last].1 > 1 && choices[last].Chosen?
         then [Pick(choices[last].index, requests[last].1)] else [])
  }

  predicate Rotates(picks: seq<Pick>, start: int) {
    forall l :: 0 <= l < |picks| ==> picks[l].size > 1 && picks[l].index == (start + l) % picks[l].size
  }

  /** The choices of a service took its counter from `start` to `counter`, and each
      is the counter of its time modulo the list size. */
  predicate Turned(requests: seq<(string, nat)>, choices: seq<Choice>, service: string, start: int, counter: int)
    requires |requests| == |choices|
  {
    var picks := Picks(requests, choices, service);
    Rotates(picks, start) && counter == start + |picks|
  }

  lemma OneMorePick(requests: seq<(string, nat)>, choices: seq<Choice>, choice: Choice, service: string, start: int)
    requires |choices| < |requests| && Rotates(Picks(requests[..|choices|], choices, service), start)
    requires var i, k := |choices|, |Picks(requests[..|choices|], choices, service)|;
      requests[i].0 == service && requests[i].1 > 1 ==> choice.Chosen? && choice.index == (start + k) % requests[i].1
    ensures var i, k := |choices|, |Picks(requests[..|choices|], choices, service)|;
      Turned(requests[..i + 1], choices + [choice], service, start,
             start + k + if requests[i].0 == service && requests[i].1 > 1 then 1 else 0)
  {
    var i := |choices|;
    assert requests[..i + 1][..i] == requests[..i] && (choices + [choice])[..i] == choices;
  }

  predicate KeepsSize(requests: seq<(string, nat)>, service: string, n: nat) {
    forall i :: 0 <= i < |requests| && requests[i].0 == service && requests[i].1 > 1 ==> requests[i].1 == n
  }

  function Indices(picks: seq<Pick>): seq<nat> {
    seq(|picks|, l requires 0 <= l < |picks| => picks[l].index)
  }

  /** Each of n instances is chosen k / n times, rounded down or up. */
  predicate Fair(indices: seq<nat>, n: nat)
    requires n > 0
  {
    forall j: nat :: j < n ==> |indices| / n <= Occurrences(indices, j) <= (|indices| + n - 1) / n
  }

  lemma {:induction false} PicksKeepSize(requests: seq<(string, nat)>, choices: seq<Choice>, service: string, n: nat)
    requires |requests| == |choices| && KeepsSize(requests, service, n)
    ensures forall l :: 0 <= l < |Picks(requests, choices, service)| ==> Picks(requests, choices, service)[l].size == n
  {
    if requests != [] {
      PicksKeepSize(requests[..|requests| - 1], choices[..|requests| - 1], service, n);
    }
  }

  lemma SeriesIsFair(requests: seq<(string, nat)>, choices: seq<Choice>, service: string, start: nat, n: nat)
    requires |requests| == |choices| && n > 1 && KeepsSize(requests, service, n)
    requires Rotates(Picks(requests, choices, service), start)
    ensures Fair(Indices(Picks(requests, choices, service)), n)
  {
    var picks := Picks(requests, choices, service);
    PicksKeepSize(requests, choices, service, n);
    forall j: nat | j < n ensures |picks| / n <= Occurrences(Indices(picks), j) <= (|picks| + n - 1) / n {
      FairWindow(Indices(picks), start, n, j);
    }
  }

  // ---------- fairness ----------

  lemma MulMonotone(a: int, b: int, n: nat)
    requires a <= b
    ensures a * n <= b * n
  {
    assert (b - a) * n >= 0;
  }

  lemma DivMod(x: int, n: int)
    requires n > 0
    ensures x == (x / n) * n + x % n
  {}

  /** The quotient is the one number whose multiple is the next one below x. */
  lemma Quotient(x: int, n: int, q: int)
    requires n > 0 && q * n <= x < q * n + n
    ensures x / n == q
  {
    var d := x / n;
    DivMod(x, n);
    assert (d + 1) * n == d * n + n && (q + 1) * n == q * n + n;
    if d < q {
      MulMonotone(d + 1, q, n);
    } else if d > q {
      MulMonotone(q + 1, d, n);
    }
  }

  /** The numbers below m with remainder j modulo n. */
  function Below(m: nat, j: nat, n: nat): int
    requires j < n
  {
    (m + n - 1 - j) / n
  }

  lemma OneMoreNumber(m: nat, j: nat, n: nat)
    requires j < n
    ensures Below(m + 1, j, n) == Below(m, j, n) + (if m % n == j then 1 else 0)
  {
    var q, r := m / n, m % n;
    assert m == q * n + r;
    assert (q + 1) * n == q * n + n;
    Quotient(m + n - 1 - j, n, if r <= j then q else q + 1);
    Quotient(m + 1 + n - 1 - j, n, if r < j then q else q + 1);
  }

  lemma {:induction false} OccurrencesInWindow(picks: seq<nat>, start: nat, n: nat, j: nat)
    requires j < n && forall i :: 0 <= i < |picks| ==> picks[i] == (start + i) % n
    ensures Occurrences(picks, j) == Below(start + |picks|, j, n) - Below(start, j, n)
  {
    if picks != [] {
      OccurrencesInWindow(picks[..|picks| - 1], start, n, j);
      OneMoreNumber(start + |picks| - 1, j, n);
    }
  }

  lemma AddQuotients(kq: int, kr: int, xq: int, xr: int, n: int)
    requires n > 0 && 0 <= kr < n && 0 <= xr < n
    ensures (xq * n + xr + (kq * n + kr)) / n == if kr + xr < n then kq + xq else kq + xq + 1
  {
    var q := if kr + xr < n then kq + xq else kq + xq + 1;
    assert (kq + xq) * n == kq * n + xq * n;
    assert (kq + xq + 1) * n == (kq + xq) * n + n;
    Quotient(xq * n + xr + (kq * n + kr), n, q);
  }

  lemma SumQuotient(x: nat, k: nat, n: nat)
    requires n > 0
    ensures k / n <= (x + k) / n - x / n <= (k + n - 1) / n
  {
    var kq, kr, xq, xr := k / n, k % n, x / n, x % n;
    DivMod(k, n);
    DivMod(x, n);
    AddQuotients(kq, kr, xq, xr, n);
    AddQuotients(0, n - 1, kq, kr, n);
  }

  /** Main result: any window of consecutive choices is fair. */
  lemma FairWindow(picks: seq<nat>, start: nat, n: nat, j: nat)
    requires j < n && forall i :: 0 <= i < |picks| ==> picks[i] == (start + i) % n
    ensures |picks| / n <= Occurrences(picks, j) <= (|picks| + n - 1) / n
  {
    OccurrencesInWindow(picks, start, n, j);
    SumQuotient(start + n - 1 - j, |picks|, n);
  }
}
