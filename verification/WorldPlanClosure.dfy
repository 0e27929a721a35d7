// The worklist that spreads requiredness over the asset graph.

module WorldPlanClosure {
  import opened OrdinalOrder
  import opened WorldPlanGraph

  ghost predicate Reachable(g: Graph, roots: set<string>, k: string) {
    exists p :: Path(g, p) && p[0] in roots && p[|p| - 1] == k
  }

  ghost function ReachableSet(g: Graph, roots: set<string>): set<string> { set k | k in g && Reachable(g, roots, k) }

  ghost predicate Holds(g: Graph, roots: set<string>, critical: set<string>, pending: set<string>) {
    && critical + pending <= ReachableSet(g, roots)
    && roots <= critical + pending
    && (forall k :: k in critical ==> k in g && g[k] <= critical + pending)
  }

  /** The optional members of critical, each once. */
  ghost predicate Reported(reported: seq<string>, critical: set<string>, optional: set<string>) {
    Elements(reported) == critical * optional && NoRepeats(reported)
  }

  lemma NoneReported(optional: set<string>)
    ensures Reported([], {}, optional)
  {
    NoElements([]);
  }

  lemma ReportNext(reported: seq<string>, critical: set<string>, optional: set<string>, id: string)
    requires Reported(reported, critical, optional) && id !in critical
    ensures Reported(if id in optional then reported + [id] else reported, critical + {id}, optional)
  {
    ElementsLast(reported, id);
    hide Elements, NoRepeats;
  }

  /** The loop over the queue: on return critical is exactly what the roots reach, and the
      reported ids are its optional members, each once. */
  method Close(roots: seq<string>, g: Graph, optional: set<string>)
      returns (critical: set<string>, reported: seq<string>)
    requires Closed(g) && Elements(roots) <= g.Keys
    ensures critical == ReachableSet(g, Elements(roots))
    ensures Reported(reported, critical, optional)
  {
    critical := {};
    reported := [];
    var pending := roots;
    RootsReach(g, Elements(roots));
    NoneReported(optional);
    hide *;
    while |pending| > 0
      invariant Holds(g, Elements(roots), critical, Elements(pending))
      invariant Reported(reported, critical, optional)
      decreases |g.Keys - critical|, |pending|
    {
      var id := pending[0];
      ElementsHead(pending);
      ghost var was := Elements(pending);
      pending := pending[1..];
      if id in critical {
        Skipped(g, Elements(roots), critical, was, Elements(pending), id);
        continue;
      }
      PendingIsKey(g, Elements(roots), critical, was);
      Smaller(g.Keys, critical, id);
      Expand(g, Elements(roots), critical, was, Elements(pending), id);
      ReportNext(reported, critical, optional, id);
      critical := critical + {id};
      if id in optional { reported := reported + [id]; }
      pending := Enqueue(pending, g[id]);
    }
    NoElements(pending);
    ClosedIsAll(g, Elements(roots), critical);
  }

  /** The dependencies join the queue in some order. */
  method Enqueue(before: seq<string>, dependencies: set<string>) returns (pending: seq<string>)
    ensures Elements(pending) == Elements(before) + dependencies
  {
    pending := before;
    var rest := dependencies;
    while rest != {}
      invariant rest <= dependencies && Elements(pending) == Elements(before) + (dependencies - rest)
      decreases rest
    {
      var dependency :| dependency in rest;
      ElementsLast(pending, dependency);
      pending := pending + [dependency];
      rest := rest - {dependency};
    }
  }

  lemma Skipped(g: Graph, roots: set<string>, critical: set<string>, was: set<string>, pending: set<string>, id: string)
    requires Holds(g, roots, critical, was) && id in critical && was == {id} + pending
    ensures Holds(g, roots, critical, pending)
  {
    assert critical + was == critical + pending;
  }

  lemma PendingIsKey(g: Graph, roots: set<string>, critical: set<string>, pending: set<string>)
    requires Holds(g, roots, critical, pending)
    ensures critical + pending <= g.Keys
  {}

  lemma ElementsHead(s: seq<string>)
    requires s != []
    ensures Elements(s) == {s[0]} + Elements(s[1..])
  {
    assert s == [s[0]] + s[1..];
  }

  lemma ElementsLast(s: seq<string>, x: string)
    ensures Elements(s + [x]) == Elements(s) + {x}
    ensures NoRepeats(s) && x !in Elements(s) ==> NoRepeats(s + [x])
  {
    assert forall y :: y in s + [x] <==> y in s || y == x;
  }

  lemma Smaller(keys: set<string>, c: set<string>, id: string)
    requires id in keys && id !in c
    ensures |keys - (c + {id})| < |keys - c|
  {
    assert keys - c == keys - (c + {id}) + {id};
  }

  lemma RootsReach(g: Graph, roots: set<string>)
    requires roots <= g.Keys
    ensures Holds(g, roots, {}, roots)
  {
    forall k | k in roots ensures Reachable(g, roots, k) {
      assert Path(g, [k]) && [k][0] in roots;
    }
  }

  lemma ReachStep(g: Graph, roots: set<string>, k: string, d: string)
    requires Closed(g) && k in g && Reachable(g, roots, k) && d in g[k]
    ensures d in g && Reachable(g, roots, d)
  {
    var p :| Path(g, p) && p[0] in roots && p[|p| - 1] == k;
    var q := p + [d];
    assert Path(g, q) && q[0] in roots && q[|q| - 1] == d;
  }

  /** Adding a key and queueing its dependencies keeps the invariant. */
  lemma Expand(g: Graph, roots: set<string>, c: set<string>, was: set<string>, pending: set<string>, id: string)
    requires Closed(g) && id in g && was == {id} + pending && Holds(g, roots, c, was)
    ensures Holds(g, roots, c + {id}, pending + g[id])
  {
    forall d | d in g[id] ensures d in ReachableSet(g, roots) {
      ReachStep(g, roots, id, d);
    }
    hide ReachableSet, Closed;
    assert c + was <= c + {id} + (pending + g[id]);
  }

  /** A closed set that holds the roots and is reached from them is the reachable set. */
  lemma ClosedIsAll(g: Graph, roots: set<string>, critical: set<string>)
    requires Holds(g, roots, critical, {})
    ensures critical == ReachableSet(g, roots)
  {
    forall k | k in g && Reachable(g, roots, k) ensures k in critical {
      var p :| Path(g, p) && p[0] in roots && p[|p| - 1] == k;
      AlongPath(g, critical, p, |p| - 1);
    }
  }

  lemma {:induction false} AlongPath(g: Graph, critical: set<string>, p: seq<string>, n: nat)
    requires Path(g, p) && n < |p| && p[0] in critical
    requires forall k :: k in critical ==> k in g && g[k] <= critical
    ensures p[n] in critical
  {
    if n > 0 { AlongPath(g, critical, p, n - 1); }
  }
}
