/**
 The route registry: handlers by path suffix and method, looked up by iterating
 over a map in an order that is not specified.
 */
module RouteRegistry {
  import opened Wrappers
  import opened Strings

  datatype Verb = GET | POST | Other(name: string)

  datatype RouteKey = RouteKey(pathSuffix: string, verb: Verb)

  /** Handlers are numbered in the order of their registration. */
  type Routes = map<RouteKey, nat>

  predicate Fits(key: RouteKey, path: string, verb: Verb) {
    HasSuffix(path, key.pathSuffix) && verb == key.verb
  }

  ghost predicate IsOrderOf(order: seq<RouteKey>, routes: Routes) {
    (forall k :: k in order <==> k in routes) && Distinct(order)
  }

  /** A range loop visits no key twice. */
  predicate Distinct(order: seq<RouteKey>) {
    forall i, j :: 0 <= i < j < |order| ==> order[i] != order[j]
  }

  /** The handler found when the keys are visited in this order. */
  function Find(routes: Routes, order: seq<RouteKey>, path: string, verb: Verb): Option<nat>
    requires forall k :: k in order ==> k in routes
  {
    if order == [] then None
    else if Fits(order[0], path, verb) then Some(routes[order[0]])
    else Find(routes, order[1..], path, verb)
  }

  class Registry {
    var routes: Routes

    constructor ()
      ensures routes == map[]
    {
      routes := map[];
    }

    method Register(pathSuffix: string, verb: Verb, handler: nat)
      modifies this
      ensures routes == old(routes)[RouteKey(pathSuffix, verb) := handler]
    {
      routes := routes[RouteKey(pathSuffix, verb) := handler];
    }

    /** None stands for the "unsupported path" error. When the registered suffixes
        are free of one another the answer is the one route that fits. */
    method Handle(path: string, verb: Verb, order: seq<RouteKey>) returns (handler: Option<nat>)
      requires IsOrderOf(order, routes)
      ensures handler == Find(routes, order, path, verb)
      ensures SuffixFree(routes) ==> forall k :: k in routes && Fits(k, path, verb) ==> handler == Some(routes[k])
    {
      handler := None;
      for i := 0 to |order|
        invariant Find(routes, order, path, verb) == Find(routes, order[i..], path, verb)
        invariant forall j :: 0 <= j < i ==> !Fits(order[j], path, verb)
      {
        if Fits(order[i], path, verb) {
          forall k | k in routes && Fits(k, path, verb) && SuffixFree(routes) ensures k == order[i] {
            AtMostOneFits(routes, k, order[i], path, verb);
          }
          return Some(routes[order[i]]);
        }
      }
    }

    /** An init function: a fresh registry filled row by row. */
    constructor FromTable(table: Table)
      ensures routes == Build(table, 0)
    {
      routes := map[];
      new;
      var rest, row := table, 0;
      while rest.Row?
        invariant Build(table, 0) == routes + Build(rest, row)
        decreases rest
      {
        ghost var before := routes;
        Register(Suffix(rest.path), rest.verb, row);
        assert before + Build(rest, row) == routes + Build(rest.rest, row + 1);
        rest, row := rest.rest, row + 1;
      }
    }
  }

  // ---------- order independence ----------

  /** Two different routes of one method never have one suffix ending in the other. */
  ghost predicate SuffixFree(routes: Routes) {
    forall k, l :: k in routes && l in routes && k.verb == l.verb && HasSuffix(k.pathSuffix, l.pathSuffix) ==> k == l
  }

  lemma CommonPathComparable(k: RouteKey, l: RouteKey, path: string, verb: Verb)
    requires Fits(k, path, verb) && Fits(l, path, verb)
    ensures HasSuffix(k.pathSuffix, l.pathSuffix) || HasSuffix(l.pathSuffix, k.pathSuffix)
  {
    var m, n := |k.pathSuffix|, |l.pathSuffix|;
    if n <= m {
      assert k.pathSuffix[m - n..] == path[|path| - n..] == l.pathSuffix;
    } else {
      assert l.pathSuffix[n - m..] == path[|path| - m..] == k.pathSuffix;
    }
  }

  /** In a suffix-free registry at most one route fits any path. */
  lemma AtMostOneFits(routes: Routes, k: RouteKey, l: RouteKey, path: string, verb: Verb)
    requires SuffixFree(routes) && k in routes && l in routes && Fits(k, path, verb) && Fits(l, path, verb)
    ensures k == l
  {
    CommonPathComparable(k, l, path, verb);
  }

  /** Main result: in a suffix-free registry a request is handled by a route if and
      only if the method is the route's and the path is anything followed by the
      route's suffix. */
  lemma HandledIff(routes: Routes, order: seq<RouteKey>, path: string, verb: Verb, handler: nat)
    requires SuffixFree(routes) && IsOrderOf(order, routes)
    ensures Find(routes, order, path, verb) == Some(handler) <==>
      exists k, front :: k in routes && verb == k.verb && path == front + k.pathSuffix && routes[k] == handler
  {
    FoundFits(routes, order, path, verb);
    if Find(routes, order, path, verb) == Some(handler) {
      var k :| k in order && Fits(k, path, verb) && Find(routes, order, path, verb) == Some(routes[k]);
      assert path == path[..|path| - |k.pathSuffix|] + k.pathSuffix;
    }
    if exists k, front :: k in routes && verb == k.verb && path == front + k.pathSuffix && routes[k] == handler {
      var k, front :| k in routes && verb == k.verb && path == front + k.pathSuffix && routes[k] == handler;
      assert Fits(k, path, verb);
      var l :| l in order && Fits(l, path, verb) && Find(routes, order, path, verb) == Some(routes[l]);
      AtMostOneFits(routes, k, l, path, verb);
    }
  }

  /** Routes of one method with comparable suffixes have the same handler. */
  ghost predicate Unambiguous(routes: Routes) {
    forall k, l :: k in routes && l in routes && k.verb == l.verb && HasSuffix(k.pathSuffix, l.pathSuffix) ==>
      routes[k] == routes[l]
  }

  ghost predicate OrderIndependent(routes: Routes) {
    forall path, verb, order1, order2 :: IsOrderOf(order1, routes) && IsOrderOf(order2, routes) ==>
      Find(routes, order1, path, verb) == Find(routes, order2, path, verb)
  }

  lemma {:induction false} FoundFits(routes: Routes, order: seq<RouteKey>, path: string, verb: Verb)
    requires forall k :: k in order ==> k in routes
    ensures Find(routes, order, path, verb).Some? ==>
      exists k :: k in order && Fits(k, path, verb) && Find(routes, order, path, verb) == Some(routes[k])
    ensures Find(routes, order, path, verb).None? ==> forall k :: k in order ==> !Fits(k, path, verb)
  {
    if order != [] && !Fits(order[0], path, verb) {
      FoundFits(routes, order[1..], path, verb);
    }
  }

  lemma {:induction false} SomeOrder(keys: set<RouteKey>) returns (order: seq<RouteKey>)
    ensures (forall k :: k in order <==> k in keys) && Distinct(order)
  {
    if k :| k in keys {
      order := SomeOrder(keys - {k});
      order := [k] + order;
    } else {
      order := [];
    }
  }

  /** Main result: dispatch does not depend on the map's iteration order if and
      only if comparable suffixes of one method share their handler. */
  lemma OrderIndependentIff(routes: Routes)
    ensures OrderIndependent(routes) <==> Unambiguous(routes)
  {
    if Unambiguous(routes) {
      forall path, verb, order1, order2 | IsOrderOf(order1, routes) && IsOrderOf(order2, routes)
        ensures Find(routes, order1, path, verb) == Find(routes, order2, path, verb)
      {
        SameAnswer(routes, path, verb, order1, order2);
      }
    } else {
      var k, l :| k in routes && l in routes && k.verb == l.verb && HasSuffix(k.pathSuffix, l.pathSuffix) && routes[k] != routes[l];
      var rest1 := SomeOrder(routes.Keys - {k});
      var rest2 := SomeOrder(routes.Keys - {l});
      var order1, order2 := [k] + rest1, [l] + rest2;
      assert HasSuffix(k.pathSuffix, k.pathSuffix);
      assert Find(routes, order1, k.pathSuffix, k.verb) == Some(routes[k]);
      assert Find(routes, order2, k.pathSuffix, k.verb) == Some(routes[l]);
    }
  }

  lemma SameAnswer(routes: Routes, path: string, verb: Verb, order1: seq<RouteKey>, order2: seq<RouteKey>)
    requires Unambiguous(routes) && IsOrderOf(order1, routes) && IsOrderOf(order2, routes)
    ensures Find(routes, order1, path, verb) == Find(routes, order2, path, verb)
  {
    FoundFits(routes, order1, path, verb);
    FoundFits(routes, order2, path, verb);
    if Find(routes, order1, path, verb).Some? && Find(routes, order2, path, verb).Some? {
      var k :| k in order1 && Fits(k, path, verb) && Find(routes, order1, path, verb) == Some(routes[k]);
      var l :| l in order2 && Fits(l, path, verb) && Find(routes, order2, path, verb) == Some(routes[l]);
      CommonPathComparable(k, l, path, verb);
    }
  }

  // ---------- tables of routes with one or two segments ----------

  datatype Path = One(last: string) | Two(first: string, last: string)

  datatype Table = End | Row(path: Path, verb: Verb, rest: Table)

  function Suffix(p: Path): string {
    match p
    case One(a) => "/" + a
    case Two(a, b) => "/" + a + "/" + b
  }

  /** The registry after all rows from number `row` on: a later row wins. */
  function Build(table: Table, row: nat): Routes {
    match table
    case End => map[]
    case Row(path, verb, rest) => map[RouteKey(Suffix(path), verb) := row] + Build(rest, row + 1)
  }

  predicate NoSlash(s: string) {
    forall i :: 0 <= i < |s| ==> s[i] != '/'
  }

  predicate Plain(p: Path) {
    NoSlash(p.last) && (p.Two? ==> NoSlash(p.first))
  }

  predicate AllPlain(table: Table) {
    table.Row? ==> Plain(table.path) && AllPlain(table.rest)
  }

  predicate HasRow(table: Table, path: Path, verb: Verb) {
    table.Row? && ((table.path == path && table.verb == verb) || HasRow(table.rest, path, verb))
  }

  /** No one-segment route repeats the last segment of a two-segment route. */
  ghost predicate NoClash(table: Table) {
    forall a, b, verb :: HasRow(table, Two(a, b), verb) ==> !HasRow(table, One(b), verb)
  }

  lemma {:induction false} BuildKeys(table: Table, row: nat, k: RouteKey) returns (p: Path)
    requires AllPlain(table) && k in Build(table, row)
    ensures HasRow(table, p, k.verb) && k.pathSuffix == Suffix(p) && Plain(p)
  {
    if k in Build(table.rest, row + 1) {
      p := BuildKeys(table.rest, row + 1, k);
    } else {
      p := table.path;
    }
  }

  /** The number of the last row with this path and method. */
  function LastRow(table: Table, row: nat, path: Path, verb: Verb): Option<nat> {
    if table.End? then None
    else
      var later := LastRow(table.rest, row + 1, path, verb);
      if later.Some? then later
      else if table.path == path && table.verb == verb then Some(row) else None
  }

  lemma {:induction false} BuildRow(table: Table, row: nat, path: Path, verb: Verb)
    requires AllPlain(table) && Plain(path)
    ensures var k := RouteKey(Suffix(path), verb);
      match LastRow(table, row, path, verb)
      case None => k !in Build(table, row) && !HasRow(table, path, verb)
      case Some(n) => k in Build(table, row) && Build(table, row)[k] == n && HasRow(table, path, verb)
  {
    if table.Row? {
      BuildRow(table.rest, row + 1, path, verb);
      if Suffix(table.path) == Suffix(path) { SuffixSegments(table.path, path); }
    }
  }

  /** Main result: a table without a clash serves each of its rows, under any front
      part of the path, with the handler of the last such row. */
  lemma RowIsServed(table: Table, path: Path, verb: Verb, front: string, order: seq<RouteKey>)
    requires AllPlain(table) && NoClash(table) && HasRow(table, path, verb) && IsOrderOf(order, Build(table, 0))
    ensures var suffix := if path.One? then "/" + path.last else "/" + path.first + "/" + path.last;
      Find(Build(table, 0), order, front + suffix, verb) == LastRow(table, 0, path, verb) != None
  {
    HasRowIsPlain(table, path, verb);
    BuildRow(table, 0, path, verb);
    TableIsSuffixFree(table);
    var k := RouteKey(Suffix(path), verb);
    assert k in Build(table, 0) && front + Suffix(path) == front + k.pathSuffix;
    HandledIff(Build(table, 0), order, front + Suffix(path), verb, LastRow(table, 0, path, verb).value);
  }

  lemma {:induction false} HasRowIsPlain(table: Table, path: Path, verb: Verb)
    requires AllPlain(table) && HasRow(table, path, verb)
    ensures Plain(path)
  {
    if !(table.path == path && table.verb == verb) { HasRowIsPlain(table.rest, path, verb); }
  }

  /** Counting slashes from the right: a suffix has the same last segment, and if
      it has as many segments it is the whole path. */
  lemma SuffixSegments(p: Path, q: Path)
    requires Plain(p) && Plain(q) && HasSuffix(Suffix(p), Suffix(q))
    ensures p == q || (p.Two? && q.One? && p.last == q.last)
  {
    var s, t := Suffix(p), Suffix(q);
    var m, n := |s|, |t|;
    assert s[m - n..] == t;
    LastSegment(p);
    LastSegment(q);
    var i, j := m - |p.last| - 1, n - |q.last| - 1;
    assert t[j] == s[m - n + j] == '/';
    SameLastSlash(s, t, i, j);
    assert p.last == s[i + 1..] == t[j + 1..] == q.last;
    if q.Two? {
      assert t[0] == '/' && s[m - n] == '/';
      TwoSlashes(p, m - n);
      if p.Two? { assert p.first == s[1..i] == t[1..j] == q.first; }
    }
  }

  /** The last slash of a suffix is the last slash of the whole. */
  lemma SameLastSlash(s: string, t: string, i: nat, j: nat)
    requires HasSuffix(s, t) && i < |s| && j < |t| && s[i] == '/' && t[j] == '/'
    requires NoSlash(s[i + 1..]) && NoSlash(t[j + 1..])
    ensures i == |s| - |t| + j
  {
    var d := |s| - |t|;
    assert s[d..] == t;
  }

  lemma LastSegment(p: Path)
    requires Plain(p)
    ensures var s := Suffix(p); var i := |s| - |p.last| - 1;
      i >= 0 && s[i] == '/' && s[i + 1..] == p.last
  {}

  lemma TwoSlashes(p: Path, i: nat)
    requires Plain(p) && i < |Suffix(p)| - |p.last| - 1 && Suffix(p)[i] == '/'
    ensures i == 0 && p.Two?
  {}

  /** Main result: a table of plain one- and two-segment routes without a clash
      builds a registry in which at most one route fits any path. */
  lemma TableIsSuffixFree(table: Table)
    requires AllPlain(table) && NoClash(table)
    ensures SuffixFree(Build(table, 0))
  {
    forall k, l | k in Build(table, 0) && l in Build(table, 0) && k.verb == l.verb && HasSuffix(k.pathSuffix, l.pathSuffix)
      ensures k == l
    {
      var p := BuildKeys(table, 0, k);
      var q := BuildKeys(table, 0, l);
      SuffixSegments(p, q);
    }
  }
}
