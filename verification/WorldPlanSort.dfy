// The layered topological sort of a world plan's graphs, proved to depend on
// the graph alone, to fail exactly on cycles, and to leave out exactly the
// nodes that can reach one.

module WorldPlanGraph {
  import opened OrdinalOrder

  /** Each key with the keys it depends on. */
  type Graph = map<string, set<string>>

  ghost predicate Closed(g: Graph) { forall k, d :: k in g && d in g[k] ==> d in g }

  ghost predicate Path(g: Graph, p: seq<string>) {
    && p != []
    && (forall i :: 0 <= i < |p| ==> p[i] in g)
    && (forall i :: 0 <= i < |p| - 1 ==> p[i + 1] in g[p[i]])
  }

  ghost predicate HasCycle(g: Graph) { exists p :: Path(g, p) && |p| >= 2 && p[0] == p[|p| - 1] }

  /** A path from k that comes back to a node it has visited. */
  ghost predicate ReachesCycle(g: Graph, k: string) { exists p :: Path(g, p) && p[0] == k && !NoRepeats(p) }

  lemma Stretch(g: Graph, p: seq<string>, i: nat, j: nat)
    requires Path(g, p) && i <= j < |p|
    ensures Path(g, p[i..j + 1])
  {
    var q := p[i..j + 1];
    forall k | 0 <= k < |q| - 1 ensures q[k] in g && q[k + 1] in g[q[k]] {
      assert q[k] == p[i + k] && q[k + 1] == p[i + k + 1];
    }
  }

  lemma CycleReached(g: Graph)
    requires HasCycle(g)
    ensures exists k :: ReachesCycle(g, k)
  {
    var p :| Path(g, p) && |p| >= 2 && p[0] == p[|p| - 1];
    assert !NoRepeats(p);
    assert ReachesCycle(g, p[0]);
  }

  lemma ReachedCycle(g: Graph, k: string)
    requires ReachesCycle(g, k)
    ensures HasCycle(g)
  {
    var p :| Path(g, p) && p[0] == k && !NoRepeats(p);
    hide Path;
    var i, j :| 0 <= i < j < |p| && p[i] == p[j];
    var q := p[i..j + 1];
    Stretch(g, p, i, j);
    assert |q| >= 2 && q[0] == q[|q| - 1];
  }

  lemma CycleIsReached(g: Graph)
    ensures HasCycle(g) <==> exists k :: ReachesCycle(g, k)
  {
    hide HasCycle, ReachesCycle;
    if HasCycle(g) { CycleReached(g); }
    if k :| ReachesCycle(g, k) { ReachedCycle(g, k); }
  }

  /** Every node of u has a dependency in u. */
  ghost predicate SelfFeeding(g: Graph, u: set<string>) {
    forall k :: k in u ==> k in g && Feeds(g, u, k)
  }

  ghost predicate Feeds(g: Graph, u: set<string>, k: string)
    requires k in g
  {
    exists d :: d in g[k] && d in u
  }

  ghost function CycleReachers(g: Graph): set<string> { set k | k in g && ReachesCycle(g, k) }

  lemma ReachersFeed(g: Graph)
    ensures SelfFeeding(g, CycleReachers(g))
  {
    forall k | k in CycleReachers(g) ensures Feeds(g, CycleReachers(g), k) {
      var p :| Path(g, p) && p[0] == k && !NoRepeats(p);
      var q := StepOn(g, p);
      assert ReachesCycle(g, q[0]);
    }
  }

  /** After one step the cycle is still ahead. */
  lemma StepOn(g: Graph, p: seq<string>) returns (q: seq<string>)
    requires Path(g, p) && !NoRepeats(p)
    ensures Path(g, q) && q[0] in g[p[0]] && !NoRepeats(q)
  {
    var i, j :| 0 <= i < j < |p| && p[i] == p[j];
    if i > 0 {
      q := p[1..];
      assert q[i - 1] == q[j - 1];
    } else {
      q := p[1..j + 1] + [p[1]];
      assert q[0] == q[j];
    }
  }

  /** A walk of any length inside a self-feeding set. */
  lemma {:induction false} Walk(g: Graph, u: set<string>, k: string, n: nat) returns (p: seq<string>)
    requires SelfFeeding(g, u) && k in u
    ensures Path(g, p) && p[0] == k && |p| == n + 1 && Elements(p) <= u
    decreases n
  {
    if n == 0 {
      p := [k];
    } else {
      assert Feeds(g, u, k);
      var d :| d in g[k] && d in u;
      var q := Walk(g, u, d, n - 1);
      p := [k] + q;
      assert forall x :: x in p <==> x == k || x in q;
      assert Elements(q) <= u;
    }
  }

  lemma {:induction false} CountDistinct(p: seq<string>)
    requires NoRepeats(p)
    ensures |Elements(p)| == |p|
  {
    if p != [] {
      CountDistinct(p[1..]);
      assert p == [p[0]] + p[1..];
      assert Elements(p) == Elements(p[1..]) + {p[0]};
      assert p[0] !in p[1..];
    }
  }

  lemma SubsetCount(a: set<string>, b: set<string>)
    requires a <= b
    ensures |a| <= |b|
  {
    assert b == a + (b - a);
  }

  /** Every node of a self-feeding set can reach a cycle: walk on until a node repeats. */
  lemma FeedersReach(g: Graph, u: set<string>, k: string)
    requires SelfFeeding(g, u) && k in u
    ensures ReachesCycle(g, k)
  {
    var p := Walk(g, u, k, |u|);
    if NoRepeats(p) {
      CountDistinct(p);
      SubsetCount(Elements(p), u);
      assert false;
    }
  }
}

module WorldPlanSort {
  import opened Words
  import opened OrdinalOrder
  import opened WorldPlanGraph

  ghost function Ready(g: Graph, done: set<string>): set<string> { set k | k in g && k !in done && g[k] <= done }

  /** The layers from done on, each listed in ordinal order: a function of the graph. */
  ghost function Order(g: Graph, done: set<string>): seq<string>
    decreases g.Keys - done
  {
    var ready := Ready(g, done);
    if ready == {} then [] else
      assert g.Keys - (done + ready) < g.Keys - done by {
        var k :| k in ready;
        assert k in g.Keys - done;
      }
      Listing(ready) + Order(g, done + ready)
  }

  function Where(keys: seq<string>, g: Graph, done: set<string>): seq<string>
    requires forall k :: k in keys ==> k in g
  {
    if keys == [] then []
    else (if keys[0] !in done && g[keys[0]] <= done then [keys[0]] else []) + Where(keys[1..], g, done)
  }

  function Without(keys: seq<string>, done: set<string>): seq<string> {
    if keys == [] then [] else (if keys[0] !in done then [keys[0]] else []) + Without(keys[1..], done)
  }

  lemma {:induction false} WhereIs(keys: seq<string>, g: Graph, done: set<string>)
    requires NoRepeats(keys) && forall k :: k in keys ==> k in g
    ensures NoRepeats(Where(keys, g, done))
    ensures forall k :: k in Where(keys, g, done) <==> k in keys && k !in done && g[k] <= done
  {
    if keys != [] {
      WhereIs(keys[1..], g, done);
      assert keys == [keys[0]] + keys[1..];
    }
  }

  lemma {:induction false} WithoutIs(keys: seq<string>, done: set<string>)
    requires NoRepeats(keys)
    ensures NoRepeats(Without(keys, done))
    ensures forall k :: k in Without(keys, done) <==> k in keys && k !in done
  {
    if keys != [] {
      WithoutIs(keys[1..], done);
      assert keys == [keys[0]] + keys[1..];
    }
  }

  /** What the sort reports: the order, and the omitted keys if there are any. */
  ghost predicate Reports(g: Graph, result: seq<string>, cycle: Option<seq<string>>) {
    && result == Order(g, {})
    && (cycle.None? <==> Elements(result) == g.Keys)
    && (cycle.Some? ==> cycle.value == Listing(g.Keys - Elements(result)))
  }

  /** Between two layers: what is placed, and what is still to come. */
  ghost predicate At(g: Graph, result: seq<string>, done: set<string>) {
    && Order(g, {}) == result + Order(g, done)
    && done == Elements(result) && |done| == |result| && done <= g.Keys
  }

  /** Sort, over any enumeration of the graph's keys. */
  method Sort(keys: seq<string>, g: Graph) returns (result: seq<string>, cycle: Option<seq<string>>)
    requires NoRepeats(keys) && Elements(keys) == g.Keys
    ensures Reports(g, result, cycle)
  {
    Members(keys, g.Keys);
    StartsAt(g);
    hide *;
    result := [];
    var done: set<string> := {};
    while |result| < |g|
      invariant At(g, result, done)
      decreases |g| - |result|
    {
      var ready := Sorted(Where(keys, g, done));
      ReadyListed(keys, g, done);
      if |ready| == 0 {
        var rest := Sorted(Without(keys, done));
        RestListed(keys, g, done);
        StopsHere(g, result, done);
        return result, Some(rest);
      }
      LayerPlaced(g, result, done);
      result, done := PlaceLayer(ready, result, done);
    }
    NothingLeft(g, result, done);
    return result, None;
  }

  method PlaceLayer(ready: seq<string>, before: seq<string>, was: set<string>)
      returns (result: seq<string>, done: set<string>)
    ensures result == before + ready && done == was + Elements(ready)
  {
    result, done := before, was;
    for i := 0 to |ready|
      invariant result == before + ready[..i] && done == was + Elements(ready[..i])
    {
      ElementsNext(ready, i);
      done := done + {ready[i]};
      result := result + [ready[i]];
    }
    assert ready[..|ready|] == ready;
  }

  lemma StartsAt(g: Graph)
    ensures At(g, [], {})
  {
    hide Order;
    assert [] + Order(g, {}) == Order(g, {});
  }

  lemma LayerPlaced(g: Graph, result: seq<string>, done: set<string>)
    requires At(g, result, done) && |Listing(Ready(g, done))| > 0
    ensures var ready := Listing(Ready(g, done)); At(g, result + ready, done + Elements(ready))
  {
    OrderStep(g, done);
    hide Order, Listing, Ready, Elements;
    Regroup(result, done, Listing(Ready(g, done)), g);
  }

  lemma ElementsNext(s: seq<string>, i: nat)
    requires i < |s|
    ensures s[..i + 1] == s[..i] + [s[i]] && Elements(s[..i + 1]) == Elements(s[..i]) + {s[i]}
  {
    assert s[..i + 1] == s[..i] + [s[i]];
  }

  lemma Regroup(before: seq<string>, was: set<string>, ready: seq<string>, g: Graph)
    requires was == Elements(before) && Elements(ready) !! was && |was| == |before| && |Elements(ready)| == |ready|
    ensures Elements(before + ready) == was + Elements(ready)
    ensures |was + Elements(ready)| == |before + ready|
    ensures before + (ready + Order(g, was + Elements(ready))) == before + ready + Order(g, was + Elements(ready))
  {
    ElementsAppend(before, ready);
  }

  lemma StopsHere(g: Graph, result: seq<string>, done: set<string>)
    requires At(g, result, done) && |Listing(Ready(g, done))| == 0 && |result| < |g|
    ensures Reports(g, result, Some(Listing(g.Keys - done)))
  {
    OrderStep(g, done);
    hide Order, Elements, Listing;
    assert result + [] == result;
  }

  lemma Members(keys: seq<string>, s: set<string>)
    requires Elements(keys) == s
    ensures forall k :: k in keys <==> k in s
  {
    forall k ensures k in keys <==> k in s { assert k in Elements(keys) <==> k in keys; }
  }

  lemma ElementsAppend(a: seq<string>, b: seq<string>)
    ensures Elements(a + b) == Elements(a) + Elements(b)
  {
    assert forall x :: x in a + b <==> x in a || x in b;
  }

  lemma FullCount(done: set<string>, g: Graph)
    requires done <= g.Keys && |done| >= |g|
    ensures done == g.Keys
  {
    if k :| k in g.Keys && k !in done {
      SubsetCount(done + {k}, g.Keys);
      assert false;
    }
  }

  lemma NothingLeft(g: Graph, result: seq<string>, done: set<string>)
    requires At(g, result, done) && |result| >= |g|
    ensures Reports(g, result, None)
  {
    FullCount(done, g);
    assert Order(g, g.Keys) == [];
    hide Order, Elements;
    assert result + [] == result;
  }

  lemma ReadyListed(keys: seq<string>, g: Graph, done: set<string>)
    requires NoRepeats(keys) && Elements(keys) == g.Keys
    requires forall k :: k in keys ==> k in g
    ensures Sorted(Where(keys, g, done)) == Listing(Ready(g, done))
  {
    WhereIs(keys, g, done);
    Members(keys, g.Keys);
    SortedIsListing(Where(keys, g, done));
    hide Where, NoRepeats, Listing, Sorted;
    Members(Where(keys, g, done), Elements(Where(keys, g, done)));
    assert Elements(Where(keys, g, done)) == Ready(g, done);
  }

  lemma RestListed(keys: seq<string>, g: Graph, done: set<string>)
    requires NoRepeats(keys) && Elements(keys) == g.Keys
    ensures Sorted(Without(keys, done)) == Listing(g.Keys - done)
  {
    WithoutIs(keys, done);
    Members(keys, g.Keys);
    SortedIsListing(Without(keys, done));
    hide Without, NoRepeats, Listing, Sorted;
    Members(Without(keys, done), Elements(Without(keys, done)));
    assert Elements(Without(keys, done)) == g.Keys - done;
  }

  lemma OrderStep(g: Graph, done: set<string>)
    ensures |Listing(Ready(g, done))| == 0 <==> Ready(g, done) == {}
    ensures Ready(g, done) == {} ==> Order(g, done) == []
    ensures Ready(g, done) != {} ==> Order(g, done) == Listing(Ready(g, done)) + Order(g, done + Ready(g, done))
    ensures |Listing(Ready(g, done))| == |Ready(g, done)| && Elements(Listing(Ready(g, done))) == Ready(g, done)
    ensures Ready(g, done) !! done && Ready(g, done) <= g.Keys
  {}
}
