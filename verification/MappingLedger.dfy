// The loader's mapping ledger: a bounded history of mappings in event order,
// and the map from base addresses to live identities that it stands for.

module LedgerSpec {
  import opened Words

  const MAX_MAPPINGS: int := 64

  datatype Mapping = Mapping(base: u64, id: u32, load: u32, unload: u32)

  datatype LedgerError = InvalidLimit | InvalidBase | EventOrder | BaseActive | LimitReached | NotActive

  datatype Transition = Moved(id: u32) | Rejected(error: LedgerError)

  /** The limit the ledger was built with, its history, and the last event it recorded. */
  datatype Ledger = Ledger(limit: u32, history: seq<Mapping>, lastEvent: u32)

  datatype Call = Admit(base: u64, event: u32) | Retire(base: u64, event: u32)

  function Validate(l: Ledger, base: u64, event: u32): Option<LedgerError> {
    if l.limit == 0 || l.limit > MAX_MAPPINGS then Some(InvalidLimit)
    else if base == 0 then Some(InvalidBase)
    else if event == 0 || event <= l.lastEvent then Some(EventOrder)
    else None
  }

  predicate IsOpen(m: Mapping, base: u64) { m.base == base && m.unload == 0 }

  /** The first open entry of a base, or the length of the history. */
  function FirstOpen(h: seq<Mapping>, base: u64, from: nat): (i: nat)
    requires from <= |h|
    ensures from <= i <= |h| && (i < |h| ==> IsOpen(h[i], base))
    ensures forall k :: from <= k < i ==> !IsOpen(h[k], base)
    decreases |h| - from
  {
    if from == |h| || IsOpen(h[from], base) then from else FirstOpen(h, base, from + 1)
  }

  function OnAdmit(l: Ledger, base: u64, event: u32): (Ledger, Transition) {
    match Validate(l, base, event)
    case Some(e) => (l, Rejected(e))
    case None =>
      if FirstOpen(l.history, base, 0) < |l.history| then (l, Rejected(BaseActive))
      else if |l.history| >= l.limit then (l, Rejected(LimitReached))
      else
        var id: u32 := |l.history| + 1;
        (Ledger(l.limit, l.history + [Mapping(base, id, event, 0)], event), Moved(id))
  }

  function OnRetire(l: Ledger, base: u64, event: u32): (Ledger, Transition) {
    match Validate(l, base, event)
    case Some(e) => (l, Rejected(e))
    case None =>
      var i := FirstOpen(l.history, base, 0);
      if i == |l.history| then (l, Rejected(NotActive))
      else (Ledger(l.limit, l.history[i := l.history[i].(unload := event)], event), Moved(l.history[i].id))
  }

  function Step(l: Ledger, c: Call): (Ledger, Transition) {
    match c
    case Admit(base, event) => OnAdmit(l, base, event)
    case Retire(base, event) => OnRetire(l, base, event)
  }

  predicate IsActive(l: Ledger, id: u32, base: u64) {
    id != 0 && id <= |l.history| && base != 0 && IsOpen(l.history[id - 1], base)
  }

  function Opens(h: seq<Mapping>): (n: nat)
    ensures n <= |h|
  {
    if h == [] then 0 else Opens(h[..|h| - 1]) + if h[|h| - 1].unload == 0 then 1 else 0
  }

  /** Closing an open entry takes one from the number of open entries. */
  lemma {:induction false} ClosesOne(h: seq<Mapping>, i: nat, event: u32)
    requires i < |h| && h[i].unload == 0 && event != 0
    ensures Opens(h[i := h[i].(unload := event)]) == Opens(h) - 1
    decreases |h|
  {
    var h' := h[i := h[i].(unload := event)];
    if i == |h| - 1 {
      assert h'[..|h| - 1] == h[..|h| - 1];
    } else {
      assert h'[..|h| - 1] == h[..|h| - 1][i := h[i].(unload := event)];
      ClosesOne(h[..|h| - 1], i, event);
    }
  }
}

module MappingLedger {
  import opened Words
  import opened LedgerSpec

  class LoaderMappingLedger {
    const limit: u32
    const slots: array<Mapping>
    var count: nat
    var active: nat
    var lastEvent: u32

    ghost predicate Valid()
      reads this, slots
    {
      slots.Length == MAX_MAPPINGS && count <= MAX_MAPPINGS && active == Opens(slots[..count])
      && (limit <= MAX_MAPPINGS ==> count <= limit)
    }

    ghost function View(): Ledger
      reads this, slots
      requires Valid()
    {
      Ledger(limit, slots[..count], lastEvent)
    }

    constructor (limit: u32)
      ensures Valid() && View() == Ledger(limit, [], 0) && fresh(slots)
    {
      this.limit := limit;
      slots := new Mapping[MAX_MAPPINGS](_ => Mapping(0, 0, 0, 0));
      count, active, lastEvent := 0, 0, 0;
    }

    method Admit(base: u64, event: u32) returns (r: Transition)
      requires Valid()
      modifies this, slots
      ensures Valid() && (View(), r) == OnAdmit(old(View()), base, event)
      ensures r.Rejected? ==> count == old(count) && active == old(active)
    {
      var error := Validate(Ledger(limit, slots[..count], lastEvent), base, event);
      if error.Some? {
        return Rejected(error.value);
      }
      for i := 0 to count
        invariant forall k :: 0 <= k < i ==> !IsOpen(slots[..count][k], base)
      {
        if slots[i].base == base && slots[i].unload == 0 {
          assert IsOpen(slots[..count][i], base);
          return Rejected(BaseActive);
        }
      }
      if count == limit {
        return Rejected(LimitReached);
      }
      var id: u32 := count + 1;
      ghost var before := slots[..count];
      slots[count] := Mapping(base, id, event, 0);
      count := count + 1;
      active := active + 1;
      lastEvent := event;
      assert slots[..count] == before + [Mapping(base, id, event, 0)];
      assert slots[..count][..count - 1] == before;
      return Moved(id);
    }

    method Retire(base: u64, event: u32) returns (r: Transition)
      requires Valid()
      modifies this, slots
      ensures Valid() && (View(), r) == OnRetire(old(View()), base, event)
      ensures r.Rejected? ==> count == old(count) && active == old(active)
    {
      var error := Validate(Ledger(limit, slots[..count], lastEvent), base, event);
      if error.Some? {
        return Rejected(error.value);
      }
      for i := 0 to count
        invariant slots[..count] == old(slots[..count])
        invariant forall k :: 0 <= k < i ==> !IsOpen(slots[..count][k], base)
      {
        if slots[i].base == base && slots[i].unload == 0 {
          ghost var before := slots[..count];
          ClosesOne(before, i, event);
          slots[i] := slots[i].(unload := event);
          assert slots[..count] == before[i := before[i].(unload := event)];
          active := active - 1;
          lastEvent := event;
          assert FirstOpen(before, base, 0) == i;
          return Moved(slots[i].id);
        }
      }
      return Rejected(NotActive);
    }

    method Active(id: u32, base: u64) returns (r: bool)
      requires Valid()
      ensures r == IsActive(View(), id, base)
    {
      return id != 0 && id <= count && base != 0 && slots[id - 1].base == base && slots[id - 1].unload == 0;
    }

    method UnloadCount() returns (n: nat)
      requires Valid()
      ensures n == |View().history| - Opens(View().history)
    {
      return count - active;
    }
  }
}

module LedgerRuns {
  import opened Words
  import opened LedgerSpec

  function StateAt(limit: u32, cs: seq<Call>, n: nat): Ledger
    requires n <= |cs|
  {
    if n == 0 then Ledger(limit, [], 0) else Step(StateAt(limit, cs, n - 1), cs[n - 1]).0
  }

  function OutcomeAt(limit: u32, cs: seq<Call>, i: nat): Transition
    requires i < |cs|
  {
    Step(StateAt(limit, cs, i), cs[i]).1
  }

  // ---- The history is a record of lifetimes --------------------------------

  /** Ids count from one, lifetimes of one base follow each other, events only grow. */
  ghost predicate Chronicle(l: Ledger) {
    && (forall i :: 0 <= i < |l.history| ==>
          l.history[i].id == i + 1 && l.history[i].base != 0 && 0 < l.history[i].load <= l.lastEvent &&
          (l.history[i].unload != 0 ==> l.history[i].load < l.history[i].unload <= l.lastEvent))
    && (forall i, j :: 0 <= i < j < |l.history| ==> l.history[i].load < l.history[j].load)
    && (forall i, j :: 0 <= i < j < |l.history| && l.history[i].base == l.history[j].base ==>
          0 < l.history[i].unload < l.history[j].load)
    && |l.history| <= MAX_MAPPINGS && (l.history != [] ==> |l.history| <= l.limit)
  }

  lemma AdmitKeepsChronicle(l: Ledger, base: u64, event: u32)
    requires Chronicle(l)
    ensures Chronicle(OnAdmit(l, base, event).0)
  {
    hide FirstOpen;
    var h := l.history;
    if OnAdmit(l, base, event).1.Moved? {
      var h' := OnAdmit(l, base, event).0.history;
      assert h' == h + [Mapping(base, |h| + 1, event, 0)];
      forall i | 0 <= i < |h|
        ensures h'[i] == h[i] && h[i].load < event && (h[i].base == base ==> 0 < h[i].unload < event)
      {
        assert h[i].base == base ==> !IsOpen(h[i], base);
      }
    }
  }

  lemma RetireKeepsChronicle(l: Ledger, base: u64, event: u32)
    requires Chronicle(l)
    ensures Chronicle(OnRetire(l, base, event).0)
  {
    hide FirstOpen;
    var h, i := l.history, FirstOpen(l.history, base, 0);
    if OnRetire(l, base, event).1.Moved? {
      assert IsOpen(h[i], base);
      assert forall j :: i < j < |h| ==> h[j].base != base;
    }
  }

  lemma StepKeepsChronicle(l: Ledger, c: Call)
    requires Chronicle(l)
    ensures Chronicle(Step(l, c).0)
  {
    hide Chronicle, OnAdmit, OnRetire;
    match c
    case Admit(base, event) => AdmitKeepsChronicle(l, base, event);
    case Retire(base, event) => RetireKeepsChronicle(l, base, event);
  }

  lemma {:induction false} EveryRunIsChronicle(limit: u32, cs: seq<Call>, n: nat)
    requires n <= |cs|
    ensures Chronicle(StateAt(limit, cs, n)) && StateAt(limit, cs, n).limit == limit
  {
    if n > 0 {
      EveryRunIsChronicle(limit, cs, n - 1);
      StepKeepsChronicle(StateAt(limit, cs, n - 1), cs[n - 1]);
    }
  }

  // ---- The ledger refines a map from bases to ids --------------------------

  /** The live mappings. */
  function Live(h: seq<Mapping>): map<u64, u32> {
    if h == [] then map[]
    else
      var before := Live(h[..|h| - 1]);
      var last := h[|h| - 1];
      if last.unload == 0 then before[last.base := last.id] else before
  }

  /** A base is live exactly when its last entry is open. */
  lemma {:induction false} LiveIsOpen(l: Ledger, n: nat, base: u64)
    requires Chronicle(l) && n <= |l.history|
    ensures base in Live(l.history[..n]) <==> exists i :: 0 <= i < n && IsOpen(l.history[i], base)
    ensures forall i :: 0 <= i < n && IsOpen(l.history[i], base) ==>
              base in Live(l.history[..n]) && Live(l.history[..n])[base] == i + 1
    decreases n
  {
    if n > 0 {
      assert l.history[..n][..n - 1] == l.history[..n - 1];
      LiveIsOpen(l, n - 1, base);
      if IsOpen(l.history[n - 1], base) {
        assert base in Live(l.history[..n]);
      }
    }
  }

  lemma LiveOf(l: Ledger, base: u64)
    requires Chronicle(l)
    ensures base in Live(l.history) <==> FirstOpen(l.history, base, 0) < |l.history|
    ensures base in Live(l.history) ==> Live(l.history)[base] == FirstOpen(l.history, base, 0) + 1
    ensures forall i :: 0 <= i < |l.history| && IsOpen(l.history[i], base) ==> i == FirstOpen(l.history, base, 0)
  {
    assert l.history[..|l.history|] == l.history;
    LiveIsOpen(l, |l.history|, base);
  }

  /** Admission succeeds exactly for a base that is not live, in event order, below the
      limit; a refusal leaves the ledger as it is. */
  lemma AdmitsWhen(l: Ledger, base: u64, event: u32)
    requires Chronicle(l)
    ensures OnAdmit(l, base, event).1.Moved? <==>
              0 < l.limit <= 64 && base != 0 && event > l.lastEvent &&
              base !in Live(l.history) && |l.history| < l.limit
    ensures OnAdmit(l, base, event).1.Rejected? ==> OnAdmit(l, base, event).0 == l
  {
    LiveOf(l, base);
    hide Live, FirstOpen;
  }

  /** Every refusal names the first thing wrong. */
  lemma RefusalTellsWhy(l: Ledger, c: Call)
    requires Chronicle(l) && Step(l, c).1.Rejected?
    ensures Step(l, c).0 == l
    ensures Step(l, c).1.error ==
              if l.limit == 0 || l.limit > 64 then InvalidLimit
              else if c.base == 0 then InvalidBase
              else if c.event <= l.lastEvent then EventOrder
              else if c.Retire? then NotActive
              else if c.base in Live(l.history) then BaseActive
              else LimitReached
  {
    LiveOf(l, c.base);
    hide Live, FirstOpen;
  }

  lemma LiveAppend(h: seq<Mapping>, m: Mapping)
    requires m.unload == 0
    ensures Live(h + [m]) == Live(h)[m.base := m.id]
  {
    assert (h + [m])[..|h|] == h;
  }

  /** A successful admission binds a fresh id, and nothing else changes the map. */
  lemma AdmitRefines(l: Ledger, base: u64, event: u32)
    requires Chronicle(l) && OnAdmit(l, base, event).1.Moved?
    ensures var (l', t) := OnAdmit(l, base, event);
            && t.id == |l.history| + 1 && Live(l'.history) == Live(l.history)[base := t.id]
            && base !in Live(l.history) && l'.lastEvent == event
  {
    AdmitsWhen(l, base, event);
    var (l', t) := OnAdmit(l, base, event);
    hide Live, FirstOpen;
    LiveAppend(l.history, l'.history[|l.history|]);
  }

  lemma {:induction false} LiveWithout(h: seq<Mapping>, i: nat, event: u32)
    requires i < |h| && h[i].unload == 0 && event != 0
    requires forall k :: i < k < |h| ==> h[k].base != h[i].base
    requires forall k :: 0 <= k < i ==> !IsOpen(h[k], h[i].base)
    ensures Live(h[i := h[i].(unload := event)]) == Live(h) - {h[i].base}
    decreases |h|
  {
    var h' := h[i := h[i].(unload := event)];
    if i == |h| - 1 {
      assert h'[..|h| - 1] == h[..|h| - 1];
      NotLive(h[..|h| - 1], h[i].base);
    } else {
      assert h'[..|h| - 1] == h[..|h| - 1][i := h[i].(unload := event)];
      LiveWithout(h[..|h| - 1], i, event);
    }
  }

  lemma {:induction false} NotLive(h: seq<Mapping>, base: u64)
    requires forall k :: 0 <= k < |h| ==> !IsOpen(h[k], base)
    ensures base !in Live(h)
  {
    if h != [] {
      assert !IsOpen(h[|h| - 1], base);
      NotLive(h[..|h| - 1], base);
    }
  }

  /** Retirement succeeds exactly for a live base, in event order; then it removes the
      binding and names its id. */
  lemma RetireRefines(l: Ledger, base: u64, event: u32)
    requires Chronicle(l)
    ensures OnRetire(l, base, event).1.Moved? <==>
              0 < l.limit <= 64 && base != 0 && event > l.lastEvent && base in Live(l.history)
    ensures OnRetire(l, base, event).1.Moved? ==>
              var (l', t) := OnRetire(l, base, event);
              t.id == Live(l.history)[base] && Live(l'.history) == Live(l.history) - {base} && l'.lastEvent == event
    ensures OnRetire(l, base, event).1.Rejected? ==> OnRetire(l, base, event).0 == l
  {
    LiveOf(l, base);
    if OnRetire(l, base, event).1.Moved? {
      LiveWithout(l.history, FirstOpen(l.history, base, 0), event);
    }
  }

  /** active(id, base) reads the map. */
  lemma ActiveReadsMap(l: Ledger, id: u32, base: u64)
    requires Chronicle(l)
    ensures IsActive(l, id, base) <==> base in Live(l.history) && Live(l.history)[base] == id
  {
    LiveOf(l, base);
    if base in Live(l.history) {
      assert IsOpen(l.history[FirstOpen(l.history, base, 0)], base);
    }
  }

  // ---- Over whole runs ----------------------------------------------------

  predicate MovesBase(limit: u32, cs: seq<Call>, k: nat, base: u64)
    requires k < |cs|
  {
    OutcomeAt(limit, cs, k).Moved? && cs[k].base == base
  }

  /** Call k admitted this base under this id, and no later call moved the base. */
  predicate LastMoveAdmits(limit: u32, cs: seq<Call>, n: nat, k: nat, id: u32, base: u64)
    requires n <= |cs|
  {
    && k < n && cs[k].Admit? && MovesBase(limit, cs, k, base) && OutcomeAt(limit, cs, k).id == id
    && forall m :: k < m < n ==> !MovesBase(limit, cs, m, base)
  }

  ghost predicate AdmittedLast(limit: u32, cs: seq<Call>, n: nat, id: u32, base: u64)
    requires n <= |cs|
  {
    exists k :: LastMoveAdmits(limit, cs, n, k, id, base)
  }

  /** active(id, base) holds exactly when that admission is the base's last successful
      transition. */
  lemma {:induction false} ActiveIsLastMove(limit: u32, cs: seq<Call>, n: nat, id: u32, base: u64)
    requires n <= |cs|
    ensures IsActive(StateAt(limit, cs, n), id, base) <==> AdmittedLast(limit, cs, n, id, base)
    decreases n
  {
    hide Live, Step;
    EveryRunIsChronicle(limit, cs, n);
    ActiveReadsMap(StateAt(limit, cs, n), id, base);
    if n == 0 {
      NothingLive(limit, base);
    } else {
      EveryRunIsChronicle(limit, cs, n - 1);
      ActiveIsLastMove(limit, cs, n - 1, id, base);
      ActiveReadsMap(StateAt(limit, cs, n - 1), id, base);
      LiveStep(StateAt(limit, cs, n - 1), cs[n - 1], base);
      if MovesBase(limit, cs, n - 1, base) {
        if cs[n - 1].Admit? && OutcomeAt(limit, cs, n - 1).id == id {
          assert LastMoveAdmits(limit, cs, n, n - 1, id, base);
        }
      } else {
        Prolong(limit, cs, n, id, base);
      }
    }
  }

  lemma NothingLive(limit: u32, base: u64)
    ensures base !in Live(Ledger(limit, [], 0).history)
  {}

  lemma Prolong(limit: u32, cs: seq<Call>, n: nat, id: u32, base: u64)
    requires 0 < n <= |cs| && !MovesBase(limit, cs, n - 1, base)
    ensures AdmittedLast(limit, cs, n - 1, id, base) <==> AdmittedLast(limit, cs, n, id, base)
  {
    var n' := n - 1;
    if AdmittedLast(limit, cs, n', id, base) {
      var k :| LastMoveAdmits(limit, cs, n', k, id, base);
      assert LastMoveAdmits(limit, cs, n, k, id, base);
    }
    if AdmittedLast(limit, cs, n, id, base) {
      var k :| LastMoveAdmits(limit, cs, n, k, id, base);
      assert LastMoveAdmits(limit, cs, n', k, id, base);
    }
  }

  /** What one call does to the binding of one base. */
  lemma LiveStep(l: Ledger, c: Call, base: u64)
    requires Chronicle(l)
    ensures var (l', t) := Step(l, c);
            if t.Moved? && c.base == base then
              if c.Admit? then base in Live(l'.history) && Live(l'.history)[base] == t.id else base !in Live(l'.history)
            else
              (base in Live(l'.history) <==> base in Live(l.history)) &&
              (base in Live(l.history) ==> Live(l'.history)[base] == Live(l.history)[base])
  {
    hide Live, OnAdmit, OnRetire;
    match c
    case Admit(b, event) =>
      AdmitsWhen(l, b, event);
      if OnAdmit(l, b, event).1.Moved? { AdmitRefines(l, b, event); }
    case Retire(b, event) => RetireRefines(l, b, event);
  }

  // ---- The history records the calls ------------------------------------------

  /** One call appends its own base and event, or closes the entry it names, or changes
      nothing. */
  lemma StepRecords(l: Ledger, c: Call)
    requires Chronicle(l)
    ensures var (l', t) := Step(l, c);
            match t
            case Rejected(_) => l' == l
            case Moved(id) =>
              if c.Admit? then
                id == |l.history| + 1 && l'.history == l.history + [Mapping(c.base, id, c.event, 0)]
              else
                0 < id <= |l.history| && IsOpen(l.history[id - 1], c.base) &&
                l'.history == l.history[id - 1 := Mapping(c.base, id, l.history[id - 1].load, c.event)]
  {
    hide FirstOpen;
  }

  /** A successful admission stays on record with its base, its event and its id. */
  lemma {:induction false} AdmissionRecorded(limit: u32, cs: seq<Call>, k: nat, n: nat)
    requires k < n <= |cs| && cs[k].Admit? && OutcomeAt(limit, cs, k).Moved?
    ensures var (h, id) := (StateAt(limit, cs, n).history, OutcomeAt(limit, cs, k).id);
            && 0 < id <= |h| && h[id - 1].base == cs[k].base && h[id - 1].load == cs[k].event && h[id - 1].id == id
    decreases n
  {
    hide Step, Chronicle;
    EveryRunIsChronicle(limit, cs, n - 1);
    StepRecords(StateAt(limit, cs, n - 1), cs[n - 1]);
    if k < n - 1 { AdmissionRecorded(limit, cs, k, n - 1); }
  }

  /** So does a successful retirement, in the entry of the id it returned. */
  lemma {:induction false} RetirementRecorded(limit: u32, cs: seq<Call>, k: nat, n: nat)
    requires k < n <= |cs| && cs[k].Retire? && OutcomeAt(limit, cs, k).Moved?
    ensures var (h, id) := (StateAt(limit, cs, n).history, OutcomeAt(limit, cs, k).id);
            && 0 < id <= |h| && h[id - 1].base == cs[k].base && h[id - 1].unload == cs[k].event > 0
    decreases n
  {
    hide Step, Chronicle;
    EveryRunIsChronicle(limit, cs, n - 1);
    StepRecords(StateAt(limit, cs, n - 1), cs[n - 1]);
    if k < n - 1 { RetirementRecorded(limit, cs, k, n - 1); } else { MovesInOrder(StateAt(limit, cs, k), cs[k]); }
  }

  lemma MovesInOrder(l: Ledger, c: Call)
    requires Step(l, c).1.Moved?
    ensures c.event > l.lastEvent
  {}

  predicate MovesId(limit: u32, cs: seq<Call>, k: nat, id: int)
    requires k < |cs|
  {
    OutcomeAt(limit, cs, k).Moved? && OutcomeAt(limit, cs, k).id == id
  }

  /** And nothing else is on record: an entry has an admission behind it, and an unload
      event only from a retirement of its own. */
  lemma {:induction false} RecordsAreCalls(limit: u32, cs: seq<Call>, n: nat, i: nat)
    requires n <= |cs| && i < |StateAt(limit, cs, n).history|
    ensures exists k :: 0 <= k < n && cs[k].Admit? && MovesId(limit, cs, k, i + 1)
    ensures StateAt(limit, cs, n).history[i].unload != 0 ==>
              exists k :: 0 <= k < n && cs[k].Retire? && MovesId(limit, cs, k, i + 1)
    decreases n
  {
    hide Step, Chronicle;
    if n > 0 {
      EveryRunIsChronicle(limit, cs, n - 1);
      StepRecords(StateAt(limit, cs, n - 1), cs[n - 1]);
      if i < |StateAt(limit, cs, n - 1).history| {
        RecordsAreCalls(limit, cs, n - 1, i);
      }
    }
  }

  /** The event of the last successful call, zero before the first. */
  function LastSuccess(limit: u32, cs: seq<Call>, n: nat): u32
    requires n <= |cs|
  {
    if n == 0 then 0
    else if OutcomeAt(limit, cs, n - 1).Moved? then cs[n - 1].event
    else LastSuccess(limit, cs, n - 1)
  }

  lemma {:induction false} LastEventIs(limit: u32, cs: seq<Call>, n: nat)
    requires n <= |cs|
    ensures StateAt(limit, cs, n).lastEvent == LastSuccess(limit, cs, n)
  {
    if n > 0 {
      LastEventIs(limit, cs, n - 1);
      hide FirstOpen;
    }
  }

  /** Ids are never reused: two admissions of a run have different ids. */
  lemma {:induction false} IdsAreFresh(limit: u32, cs: seq<Call>, i: nat, j: nat)
    requires i < j < |cs| && cs[i].Admit? && cs[j].Admit?
    requires OutcomeAt(limit, cs, i).Moved? && OutcomeAt(limit, cs, j).Moved?
    ensures OutcomeAt(limit, cs, i).id < OutcomeAt(limit, cs, j).id
  {
    hide Step;
    HistoryGrows(limit, cs, i + 1, j);
    AdmitExtends(StateAt(limit, cs, i), cs[i].base, cs[i].event);
    AdmitExtends(StateAt(limit, cs, j), cs[j].base, cs[j].event);
  }

  /** An admission appends one entry and returns its position, counted from one. */
  lemma AdmitExtends(l: Ledger, base: u64, event: u32)
    requires Step(l, Admit(base, event)).1.Moved?
    ensures var (l', t) := Step(l, Admit(base, event)); |l'.history| == |l.history| + 1 == t.id
  {
    hide FirstOpen;
  }

  lemma StepExtends(l: Ledger, c: Call)
    ensures |l.history| <= |Step(l, c).0.history|
  {
    hide FirstOpen;
  }

  lemma {:induction false} HistoryGrows(limit: u32, cs: seq<Call>, i: nat, j: nat)
    requires i <= j <= |cs|
    ensures |StateAt(limit, cs, i).history| <= |StateAt(limit, cs, j).history|
    decreases j
  {
    hide Step;
    if i < j {
      HistoryGrows(limit, cs, i, j - 1);
      StepExtends(StateAt(limit, cs, j - 1), cs[j - 1]);
    }
  }

  function Successes(limit: u32, cs: seq<Call>, n: nat, admits: bool): nat
    requires n <= |cs|
  {
    if n == 0 then 0
    else Successes(limit, cs, n - 1, admits) +
         if cs[n - 1].Admit? == admits && OutcomeAt(limit, cs, n - 1).Moved? then 1 else 0
  }

  lemma AddsOne(h: seq<Mapping>, m: Mapping)
    ensures Opens(h + [m]) == Opens(h) + if m.unload == 0 then 1 else 0
  {
    assert (h + [m])[..|h|] == h;
  }

  lemma AdmitCounts(l: Ledger, base: u64, event: u32)
    requires l.limit <= MAX_MAPPINGS ==> |l.history| <= MAX_MAPPINGS
    ensures var (l', t) := OnAdmit(l, base, event);
            |l'.history| == |l.history| + (if t.Moved? then 1 else 0) &&
            |l'.history| - Opens(l'.history) == |l.history| - Opens(l.history)
  {
    hide FirstOpen;
    if OnAdmit(l, base, event).1.Moved? {
      AddsOne(l.history, Mapping(base, |l.history| + 1, event, 0));
    }
  }

  lemma RetireCounts(l: Ledger, base: u64, event: u32)
    ensures var (l', t) := OnRetire(l, base, event);
            |l'.history| == |l.history| &&
            |l'.history| - Opens(l'.history) == |l.history| - Opens(l.history) + (if t.Moved? then 1 else 0)
  {
    hide Opens;
    if OnRetire(l, base, event).1.Moved? {
      ClosesOne(l.history, FirstOpen(l.history, base, 0), event);
    }
  }

  /** History and unload count are the numbers of successful admissions and retirements. */
  lemma {:induction false} CountsAreSuccesses(limit: u32, cs: seq<Call>, n: nat)
    requires n <= |cs|
    ensures |StateAt(limit, cs, n).history| == Successes(limit, cs, n, true)
    ensures |StateAt(limit, cs, n).history| - Opens(StateAt(limit, cs, n).history) == Successes(limit, cs, n, false)
  {
    hide Opens, OnAdmit, OnRetire;
    if n == 0 {
      NothingOpen();
    } else {
      CountsAreSuccesses(limit, cs, n - 1);
      EveryRunIsChronicle(limit, cs, n - 1);
      var l := StateAt(limit, cs, n - 1);
      match cs[n - 1]
      case Admit(base, event) => AdmitCounts(l, base, event);
      case Retire(base, event) => RetireCounts(l, base, event);
    }
  }

  lemma NothingOpen()
    ensures Opens([]) == 0
  {}
}
