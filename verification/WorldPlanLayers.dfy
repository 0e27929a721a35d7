// What the layered order is worth: dependencies first, nothing twice, nothing
// foreign, exactly the nodes behind a cycle omitted, and depth as the first key.

module WorldPlanLayers {
  import opened Words
  import opened OrdinalOrder
  import opened WorldPlanGraph
  import opened WorldPlanSort

  ghost predicate Fresh(g: Graph, done: set<string>, o: seq<string>) {
    NoRepeats(o) && Elements(o) !! done && Elements(o) <= g.Keys
  }

  /** A repetition-free list of keys, none of them placed before. */
  lemma {:induction false} OrderFresh(g: Graph, done: set<string>)
    ensures Fresh(g, done, Order(g, done))
    decreases g.Keys - done
  {
    var ready := Ready(g, done);
    if ready != {} {
      Progress(g, done);
      OrderFresh(g, done + ready);
      OrderStep(g, done);
      var a, b := Listing(ready), Order(g, done + ready);
      AscendingDistinct(a);
      hide Order, Listing, Ready, Ascending;
      ElementsAppend(a, b);
      ConcatDistinct(a, b);
    } else {
      assert Order(g, done) == [];
    }
  }

  lemma Progress(g: Graph, done: set<string>)
    requires Ready(g, done) != {}
    ensures g.Keys - (done + Ready(g, done)) < g.Keys - done
  {
    var k :| k in Ready(g, done);
    assert k in g.Keys - done && k !in g.Keys - (done + Ready(g, done));
  }

  lemma AscendingDistinct(s: seq<string>)
    requires Ascending(s)
    ensures NoRepeats(s)
  {
    forall i, j | 0 <= i < j < |s| ensures s[i] != s[j] { LessIrreflexive(s[i]); }
  }

  lemma ConcatDistinct(a: seq<string>, b: seq<string>)
    requires NoRepeats(a) && NoRepeats(b) && Elements(a) !! Elements(b)
    ensures NoRepeats(a + b)
  {
    var s := a + b;
    forall i, j | 0 <= i < j < |s| ensures s[i] != s[j] {
      if i < |a| <= j {
        assert s[i] in Elements(a) && s[j] in Elements(b);
      }
    }
  }

  /** Every dependency of the i-th key was placed before it. */
  ghost predicate DependenciesFirst(g: Graph, done: set<string>, o: seq<string>) {
    forall i :: 0 <= i < |o| ==> o[i] in g && g[o[i]] <= done + Elements(o[..i])
  }

  lemma {:induction false} OrderRespects(g: Graph, done: set<string>)
    ensures DependenciesFirst(g, done, Order(g, done))
    decreases g.Keys - done
  {
    var ready := Ready(g, done);
    if ready != {} {
      Progress(g, done);
      OrderRespects(g, done + ready);
      OrderStep(g, done);
      var a, b := Listing(ready), Order(g, done + ready);
      forall i | 0 <= i < |a| ensures a[i] in g && g[a[i]] <= done { assert a[i] in Elements(a); }
      hide Order, Listing, Ready, Elements;
      RespectConcat(g, done, a, b);
    } else {
      assert Order(g, done) == [];
    }
  }

  lemma RespectConcat(g: Graph, done: set<string>, a: seq<string>, b: seq<string>)
    requires forall i :: 0 <= i < |a| ==> a[i] in g && g[a[i]] <= done
    requires DependenciesFirst(g, done + Elements(a), b)
    ensures DependenciesFirst(g, done, a + b)
  {
    hide Elements;
    var o := a + b;
    forall i | 0 <= i < |o| ensures o[i] in g && g[o[i]] <= done + Elements(o[..i]) {
      if i >= |a| {
        assert o[..i] == a + b[..i - |a|];
        ElementsAppend(a, b[..i - |a|]);
        assert g[b[i - |a|]] <= done + Elements(a) + Elements(b[..i - |a|]);
      }
    }
  }

  // ---- The omitted keys --------------------------------------------------------

  ghost function Omitted(g: Graph): set<string> { g.Keys - Elements(Order(g, {})) }

  /** A self-feeding set clear of what is placed never gets placed. */
  lemma {:induction false} FeedersStayOut(g: Graph, done: set<string>, u: set<string>)
    requires SelfFeeding(g, u) && u !! done
    ensures u !! Elements(Order(g, done))
    decreases g.Keys - done
  {
    var ready := Ready(g, done);
    if ready != {} {
      Progress(g, done);
      forall k | k in u ensures k !in ready {
        assert Feeds(g, u, k);
      }
      FeedersStayOut(g, done + ready, u);
      OrderStep(g, done);
      hide Order, Listing, Ready, SelfFeeding;
      ElementsAppend(Listing(ready), Order(g, done + ready));
    } else {
      assert Order(g, done) == [];
    }
  }

  /** What is left when the sort stops feeds itself. */
  lemma {:induction false} LeftoversFeed(g: Graph, done: set<string>)
    requires Closed(g) && done <= g.Keys
    ensures SelfFeeding(g, g.Keys - done - Elements(Order(g, done)))
    decreases g.Keys - done
  {
    var ready := Ready(g, done);
    if ready != {} {
      Progress(g, done);
      LeftoversFeed(g, done + ready);
      OrderStep(g, done);
      hide Order, Listing, Ready, SelfFeeding, Closed;
      ElementsAppend(Listing(ready), Order(g, done + ready));
      assert g.Keys - done - Elements(Order(g, done)) == g.Keys - (done + ready) - Elements(Order(g, done + ready));
    } else {
      assert Order(g, done) == [];
      var u := g.Keys - done - Elements(Order(g, done));
      forall k | k in u ensures Feeds(g, u, k) {
        assert k !in Ready(g, done);
        var d :| d in g[k] && d !in done;
        assert d in u;
      }
    }
  }

  /** The omitted keys are exactly those that can reach a cycle. */
  lemma OmittedReachCycle(g: Graph, k: string)
    requires Closed(g) && k in g
    ensures k in Omitted(g) <==> ReachesCycle(g, k)
  {
    hide Order, Listing, Ready, ReachesCycle, Closed;
    if k in Omitted(g) {
      LeftoversFeed(g, {});
      assert g.Keys - {} - Elements(Order(g, {})) == Omitted(g);
      FeedersReach(g, Omitted(g), k);
    }
    if ReachesCycle(g, k) {
      ReachersFeed(g);
      FeedersStayOut(g, {}, CycleReachers(g));
      assert k in CycleReachers(g);
    }
  }

  /** The sort reports a cycle exactly when the graph has one; then it names exactly the keys
      that can reach a cycle, in ordinal order. */
  lemma CycleReportedIffCycle(g: Graph, result: seq<string>, cycle: Option<seq<string>>)
    requires Closed(g) && Reports(g, result, cycle)
    ensures cycle.Some? <==> HasCycle(g)
    ensures cycle.Some? ==> cycle.value == Listing(CycleReachers(g))
  {
    hide Order, Listing, ReachesCycle, HasCycle, Closed;
    OrderFresh(g, {});
    CycleIsReached(g);
    forall k | k in g ensures k in Omitted(g) <==> ReachesCycle(g, k) { OmittedReachCycle(g, k); }
    assert Omitted(g) == CycleReachers(g);
    if HasCycle(g) {
      var k :| ReachesCycle(g, k);
      assert k in g by { PathStarts(g, k); }
      assert k in Omitted(g);
    }
    if cycle.Some? {
      assert Elements(result) <= g.Keys;
      var k :| k in g.Keys && k !in Elements(result);
      assert k in Omitted(g);
    }
  }

  lemma PathStarts(g: Graph, k: string)
    requires ReachesCycle(g, k)
    ensures k in g
  {}

  /** Without a cycle every key is placed once, behind all its dependencies. */
  lemma AcyclicIsPermutation(g: Graph, result: seq<string>, cycle: Option<seq<string>>)
    requires Closed(g) && Reports(g, result, cycle) && !HasCycle(g)
    ensures multiset(result) == multiset(g.Keys) && NoRepeats(result)
    ensures forall i, d :: 0 <= i < |result| && result[i] in g && d in g[result[i]] ==> d in result[..i]
  {
    CycleReportedIffCycle(g, result, cycle);
    hide Order, Listing, HasCycle, Closed;
    OrderFresh(g, {});
    OrderRespects(g, {});
    assert Elements(result) == g.Keys;
    hide Reports;
    DistinctBag(result);
    assert forall i :: 0 <= i < |result| ==> g[result[i]] <= {} + Elements(result[..i]);
  }

  lemma {:induction false} DistinctBag(s: seq<string>)
    requires NoRepeats(s)
    ensures multiset(s) == multiset(Elements(s))
  {
    if s != [] {
      DistinctBag(s[1..]);
      assert s == [s[0]] + s[1..];
      assert s[0] !in s[1..];
      assert Elements(s) == Elements(s[1..]) + {s[0]};
    }
  }

  // ---- Depth --------------------------------------------------------------------

  /** The layer a placed key falls in. */
  ghost function Layer(g: Graph, done: set<string>, k: string): nat
    decreases g.Keys - done
  {
    var ready := Ready(g, done);
    if ready == {} || k in ready then 0
    else
      Progress(g, done);
      1 + Layer(g, done + ready, k)
  }

  /** A placed key lies one layer above its deepest dependency. */
  ghost predicate Deepest(g: Graph, done: set<string>, k: string)
    requires k in g
  {
    && (forall d :: d in g[k] && d !in done ==> Layer(g, done, d) < Layer(g, done, k))
    && (Layer(g, done, k) > 0 ==> exists d :: d in g[k] && d !in done && Layer(g, done, d) + 1 == Layer(g, done, k))
  }

  lemma {:induction false} LayerIsDepth(g: Graph, done: set<string>, k: string)
    requires k in Elements(Order(g, done)) && k in g
    ensures Deepest(g, done, k)
    decreases g.Keys - done
  {
    var ready := Ready(g, done);
    PlacedLater(g, done, k);
    if k in ready {
      LayerOfReady(g, done, k);
    } else {
      Progress(g, done);
      LayerIsDepth(g, done + ready, k);
      hide Deepest, Order, Listing, Layer;
      if Layer(g, done + ready, k) == 0 {
        SecondLayer(g, done, k);
      } else {
        DeeperLayer(g, done, k);
      }
    }
  }

  /** A key of the second layer. */
  lemma SecondLayer(g: Graph, done: set<string>, k: string)
    requires k in g && k !in Ready(g, done) && k in Elements(Order(g, done + Ready(g, done)))
    requires Ready(g, done) != {} && Layer(g, done + Ready(g, done), k) == 0 && Deepest(g, done + Ready(g, done), k)
    ensures Deepest(g, done, k)
  {
    FirstOfRest(g, done, k);
    LayerShifts(g, done);
    hide Layer, Order, Listing, Ready;
  }

  /** A key above the second layer. */
  lemma DeeperLayer(g: Graph, done: set<string>, k: string)
    requires k in g && k !in Ready(g, done) && Ready(g, done) != {}
    requires Layer(g, done + Ready(g, done), k) > 0 && Deepest(g, done + Ready(g, done), k)
    ensures Deepest(g, done, k)
  {
    LayerShifts(g, done);
    hide Layer, Ready;
    var next := done + Ready(g, done);
    var d :| d in g[k] && d !in next && Layer(g, next, d) + 1 == Layer(g, next, k);
    assert Layer(g, done, d) + 1 == Layer(g, done, k);
  }

  lemma PlacedLater(g: Graph, done: set<string>, k: string)
    requires k in Elements(Order(g, done))
    ensures k in Ready(g, done) || (Ready(g, done) != {} && k in Elements(Order(g, done + Ready(g, done))))
  {
    OrderStep(g, done);
    NoElements([]);
    hide Order, Listing;
    ElementsAppend(Listing(Ready(g, done)), Order(g, done + Ready(g, done)));
  }

  lemma LayerOfReady(g: Graph, done: set<string>, k: string)
    requires k in Ready(g, done)
    ensures Deepest(g, done, k)
  {}

  lemma LayerShifts(g: Graph, done: set<string>)
    requires Ready(g, done) != {}
    ensures forall d :: Layer(g, done, d) == if d in Ready(g, done) then 0 else 1 + Layer(g, done + Ready(g, done), d)
  {}

  /** A key of the second layer needs something of the first. */
  lemma FirstOfRest(g: Graph, done: set<string>, k: string)
    requires k in g && k !in Ready(g, done) && k in Elements(Order(g, done + Ready(g, done)))
    requires Ready(g, done) != {} && Layer(g, done + Ready(g, done), k) == 0
    ensures exists d :: d in g[k] && d !in done && Layer(g, done, d) == 0
  {
    var ready := Ready(g, done);
    OrderFresh(g, done + ready);
    NoElements([]);
    assert k in Ready(g, done + ready);
    assert k !in done;
    var d :| d in g[k] && d !in done;
    assert d in ready;
  }

  ghost predicate Before(g: Graph, done: set<string>, a: string, b: string) {
    Layer(g, done, a) < Layer(g, done, b) || (Layer(g, done, a) == Layer(g, done, b) && Less(a, b))
  }

  /** The order is by depth, then by identifier. */
  ghost predicate ByDepth(g: Graph, done: set<string>, o: seq<string>) {
    forall i, j :: 0 <= i < j < |o| ==> Before(g, done, o[i], o[j])
  }

  lemma LayersJoin(g: Graph, done: set<string>, a: seq<string>, b: seq<string>)
    requires Ready(g, done) != {} && a == Listing(Ready(g, done)) && ByDepth(g, done + Ready(g, done), b)
    requires Elements(b) !! done + Ready(g, done)
    ensures ByDepth(g, done, a + b)
  {
    var ready := Ready(g, done);
    LayerShifts(g, done);
    hide Order, Listing, Ready, Less, Layer;
    forall i | 0 <= i < |a| ensures Layer(g, done, a[i]) == 0 { assert a[i] in Elements(a); }
    forall i | 0 <= i < |b| ensures Layer(g, done, b[i]) == 1 + Layer(g, done + ready, b[i]) {
      assert b[i] in Elements(b);
    }
    var o := a + b;
    forall i, j | 0 <= i < j < |o| ensures Before(g, done, o[i], o[j]) {
      if i >= |a| {
        assert o[i] == b[i - |a|] && o[j] == b[j - |a|];
        assert Before(g, done + ready, b[i - |a|], b[j - |a|]);
      } else if j >= |a| {
        assert o[j] == b[j - |a|];
      }
    }
  }

  lemma {:induction false} OrderIsByDepth(g: Graph, done: set<string>)
    ensures ByDepth(g, done, Order(g, done))
    decreases g.Keys - done
  {
    hide ByDepth, Listing;
    OrderStep(g, done);
    if Ready(g, done) != {} {
      Progress(g, done);
      OrderIsByDepth(g, done + Ready(g, done));
      OrderFresh(g, done + Ready(g, done));
      LayersJoin(g, done, Listing(Ready(g, done)), Order(g, done + Ready(g, done)));
    } else {
      NothingByDepth(g, done);
    }
  }

  lemma NothingByDepth(g: Graph, done: set<string>)
    ensures ByDepth(g, done, [])
  {}
}
