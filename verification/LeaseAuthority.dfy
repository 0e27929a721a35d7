// The lease authority: one owner at a time, fenced by a clock it does not control.
// The class follows the source's methods; LeaseSpec is the state machine they
// implement, and LeaseRuns proves what holds over every run of it.

module LeaseSpec {
  import opened Words

  const LEASE_MICROSECONDS: u64 := 2_000_000
  const U64_MAX: int := 0xffff_ffff_ffff_ffff

  datatype EntityRef = EntityRef(worldId: u64, worldEpoch: u64, entityId: u64, generation: u64) {
    predicate Valid() { worldId != 0 && worldEpoch != 0 && entityId != 0 && generation != 0 }
  }

  datatype Stamp = Stamp(domain: u64, microseconds: u64)

  datatype LeaseResult =
    | Accepted | NoGrant | Expired | StaleEntity | StaleOwner | StaleRevision
    | StaleSequence | FieldDenied | ClockDiscontinuity | RecoveryRequired

  datatype Grant = Grant(entity: EntityRef, session: u64, owner: u64, catalog: u64, state: u64,
                         fieldMask: bv64, deadline: Stamp)

  datatype Proposal = Proposal(entity: EntityRef, session: u64, owner: u64, catalog: u64, state: u64,
                               sequence: u64, fieldMask: bv64)

  datatype State = State(entity: EntityRef, lastStamp: Stamp, lastOwner: u64, lastMotion: u64, lastRenewal: u64,
                         fenced: bool, grant: Option<Grant>)

  /** One call, with the stamp the clock shows during it. */
  datatype Event =
    | Issue(now: Stamp, session: u64, catalog: u64, state: u64, fieldMask: bv64, applied: bool)
    | Accept(now: Stamp, proposal: Proposal)
    | Renew(now: Stamp, session: u64, owner: u64, renewal: u64)
    | Revoke
    | Suspend
    | Recover(now: Stamp)

  datatype Outcome = Granted(g: Grant) | Refused | Result(r: LeaseResult) | Recovered(ok: bool) | Done

  function Initial(entity: EntityRef, now: Stamp): State {
    State(entity, now, 0, 0, 0, false, None)
  }

  predicate Contains(mask: bv64, fields: bv64) { fields & !mask == 0 }

  function Fence(st: State): State { st.(fenced := true, grant := None) }

  predicate Continuous(st: State, now: Stamp) {
    now.domain == st.lastStamp.domain && now.microseconds >= st.lastStamp.microseconds
  }

  function OnIssue(st: State, e: Event): (State, Outcome)
    requires e.Issue?
  {
    if st.fenced then (st, Refused)
    else if !Continuous(st, e.now) then (Fence(st), Refused)
    else
      var s := st.(lastStamp := e.now);
      if !e.applied || e.session == 0 || e.catalog == 0 || e.state == 0 || e.fieldMask == 0 then (s, Refused)
      else if s.lastOwner == U64_MAX || e.now.microseconds > U64_MAX - LEASE_MICROSECONDS then (Fence(s), Refused)
      else
        var g := Grant(s.entity, e.session, s.lastOwner + 1, e.catalog, e.state, e.fieldMask,
                       Stamp(e.now.domain, e.now.microseconds + LEASE_MICROSECONDS));
        (s.(lastOwner := s.lastOwner + 1, lastMotion := 0, lastRenewal := 0, grant := Some(g)), Granted(g))
  }

  function OnAccept(st: State, now: Stamp, p: Proposal): (State, LeaseResult) {
    if st.fenced then (st, RecoveryRequired)
    else if !Continuous(st, now) then (Fence(st), ClockDiscontinuity)
    else
      var s := st.(lastStamp := now);
      if s.grant.None? then (s, NoGrant)
      else
        var g := s.grant.value;
        if now.microseconds >= g.deadline.microseconds then (s.(grant := None), Expired)
        else if p.entity != s.entity then (s, StaleEntity)
        else if p.session != g.session || p.owner != g.owner then (s, StaleOwner)
        else if p.catalog != g.catalog || p.state != g.state then (s, StaleRevision)
        else if p.sequence <= s.lastMotion then (s, StaleSequence)
        else if p.fieldMask == 0 || !Contains(g.fieldMask, p.fieldMask) then (s, FieldDenied)
        else (s.(lastMotion := p.sequence), Accepted)
  }

  function OnRenew(st: State, now: Stamp, session: u64, owner: u64, renewal: u64): (State, LeaseResult) {
    if st.fenced then (st, RecoveryRequired)
    else if !Continuous(st, now) then (Fence(st), ClockDiscontinuity)
    else
      var s := st.(lastStamp := now);
      if s.grant.None? then (s, NoGrant)
      else
        var g := s.grant.value;
        if now.microseconds >= g.deadline.microseconds then (s.(grant := None), Expired)
        else if session != g.session || owner != g.owner then (s, StaleOwner)
        else if renewal <= s.lastRenewal then (s, StaleSequence)
        else if now.microseconds > U64_MAX - LEASE_MICROSECONDS then (Fence(s), RecoveryRequired)
        else
          var until := Stamp(g.deadline.domain, now.microseconds + LEASE_MICROSECONDS);
          (s.(lastRenewal := renewal, grant := Some(g.(deadline := until))), Accepted)
  }

  function OnRecover(st: State, now: Stamp): (State, bool) {
    if now.domain == 0 then (st, false)
    else (st.(lastStamp := now, grant := None, fenced := false), true)
  }

  function Step(st: State, e: Event): (State, Outcome) {
    match e
    case Issue(_, _, _, _, _, _) => OnIssue(st, e)
    case Accept(now, p) => var (s, r) := OnAccept(st, now, p); (s, Result(r))
    case Renew(now, session, owner, renewal) => var (s, r) := OnRenew(st, now, session, owner, renewal); (s, Result(r))
    case Revoke => (st.(grant := None), Done)
    case Suspend => (Fence(st), Done)
    case Recover(now) => var (s, ok) := OnRecover(st, now); (s, Recovered(ok))
  }
}

module Lease {
  import opened Words
  import opened LeaseSpec

  class LeaseAuthority {
    const entity: EntityRef
    var lastStamp: Stamp
    var lastOwner: u64
    var lastMotion: u64
    var lastRenewal: u64
    var fenced: bool
    var grant: Option<Grant>

    ghost function View(): State
      reads this
    {
      State(entity, lastStamp, lastOwner, lastMotion, lastRenewal, fenced, grant)
    }

    constructor (entity: EntityRef, now: Stamp)
      ensures View() == Initial(entity, now)
      ensures this.entity == entity && lastStamp == now && lastOwner == lastMotion == lastRenewal == 0
      ensures !fenced && grant.None?
    {
      this.entity := entity;
      lastStamp := now;
      lastOwner, lastMotion, lastRenewal := 0, 0, 0;
      fenced := false;
      grant := None;
    }

    /** The throwing constructor of the source: null stands for invalid_argument. */
    static method Open(entity: EntityRef, now: Stamp) returns (lease: LeaseAuthority?)
      ensures lease == null <==> entity.worldId == 0 || entity.worldEpoch == 0 || entity.entityId == 0
                                 || entity.generation == 0 || now.domain == 0
      ensures lease != null ==> fresh(lease) && lease.View() == Initial(entity, now)
    {
      if !entity.Valid() || now.domain == 0 {
        return null;
      }
      lease := new LeaseAuthority(entity, now);
    }

    method Sample(now: Stamp) returns (current: Option<Stamp>)
      modifies this
      ensures old(fenced) ==> current == None && View() == old(View())
      ensures !old(fenced) && Continuous(old(View()), now) ==>
                current == Some(now) && View() == old(View()).(lastStamp := now)
      ensures !old(fenced) && !Continuous(old(View()), now) ==> current == None && View() == Fence(old(View()))
    {
      if fenced {
        return None;
      }
      if now.domain != lastStamp.domain || now.microseconds < lastStamp.microseconds {
        SuspendOrResume();
        return None;
      }
      lastStamp := now;
      return Some(now);
    }

    method Issue(now: Stamp, session: u64, catalog: u64, state: u64, fieldMask: bv64, applied: bool)
      returns (r: Option<Grant>)
      modifies this
      ensures var e := Event.Issue(now, session, catalog, state, fieldMask, applied);
              (View(), match r case Some(g) => Granted(g) case None => Refused) == OnIssue(old(View()), e)
    {
      var current := Sample(now);
      if current.None? || !applied || session == 0 || catalog == 0 || state == 0 || fieldMask == 0 {
        return None;
      }
      if lastOwner == U64_MAX || current.value.microseconds > U64_MAX - LEASE_MICROSECONDS {
        SuspendOrResume();
        return None;
      }
      lastOwner := lastOwner + 1;
      lastMotion := 0;
      lastRenewal := 0;
      grant := Some(Grant(entity, session, lastOwner, catalog, state, fieldMask,
                          Stamp(current.value.domain, current.value.microseconds + LEASE_MICROSECONDS)));
      return grant;
    }

    method Accept(now: Stamp, proposal: Proposal) returns (r: LeaseResult)
      modifies this
      ensures (View(), r) == OnAccept(old(View()), now, proposal)
    {
      hide Contains;
      if fenced {
        return RecoveryRequired;
      }
      var current := Sample(now);
      if current.None? {
        return ClockDiscontinuity;
      }
      if grant.None? {
        return NoGrant;
      }
      if current.value.microseconds >= grant.value.deadline.microseconds {
        Revoke();
        return Expired;
      }
      if proposal.entity != entity {
        return StaleEntity;
      }
      if proposal.session != grant.value.session || proposal.owner != grant.value.owner {
        return StaleOwner;
      }
      if proposal.catalog != grant.value.catalog || proposal.state != grant.value.state {
        return StaleRevision;
      }
      if proposal.sequence <= lastMotion {
        return StaleSequence;
      }
      if proposal.fieldMask == 0 || !Contains(grant.value.fieldMask, proposal.fieldMask) {
        return FieldDenied;
      }
      lastMotion := proposal.sequence;
      return Accepted;
    }

    method Renew(now: Stamp, session: u64, owner: u64, renewal: u64) returns (r: LeaseResult)
      modifies this
      ensures (View(), r) == OnRenew(old(View()), now, session, owner, renewal)
    {
      if fenced {
        return RecoveryRequired;
      }
      var current := Sample(now);
      if current.None? {
        return ClockDiscontinuity;
      }
      if grant.None? {
        return NoGrant;
      }
      if current.value.microseconds >= grant.value.deadline.microseconds {
        Revoke();
        return Expired;
      }
      if session != grant.value.session || owner != grant.value.owner {
        return StaleOwner;
      }
      if renewal <= lastRenewal {
        return StaleSequence;
      }
      if current.value.microseconds > U64_MAX - LEASE_MICROSECONDS {
        SuspendOrResume();
        return RecoveryRequired;
      }
      lastRenewal := renewal;
      var until := Stamp(grant.value.deadline.domain, current.value.microseconds + LEASE_MICROSECONDS);
      grant := Some(grant.value.(deadline := until));
      return Accepted;
    }

    method Revoke()
      modifies this
      ensures (View(), Done) == Step(old(View()), Event.Revoke)
    {
      grant := None;
    }

    method SuspendOrResume()
      modifies this
      ensures (View(), Done) == Step(old(View()), Suspend)
    {
      fenced := true;
      Revoke();
    }

    method RecoverAfterReadiness(now: Stamp) returns (ok: bool)
      modifies this
      ensures (View(), ok) == OnRecover(old(View()), now)
    {
      if now.domain == 0 {
        return false;
      }
      lastStamp := now;
      grant := None;
      fenced := false;
      return true;
    }
  }
}

module LeaseRuns {
  import opened Words
  import opened LeaseSpec

  /** The state after the first n events of a run. */
  function StateAt(init: State, es: seq<Event>, n: nat): State
    requires n <= |es|
  {
    if n == 0 then init else Step(StateAt(init, es, n - 1), es[n - 1]).0
  }

  function OutcomeAt(init: State, es: seq<Event>, i: nat): Outcome
    requires i < |es|
  {
    Step(StateAt(init, es, i), es[i]).1
  }

  predicate AcceptedAt(init: State, es: seq<Event>, i: nat)
    requires i < |es|
  {
    es[i].Accept? && OutcomeAt(init, es, i) == Result(Accepted)
  }

  predicate GrantedAt(init: State, es: seq<Event>, i: nat)
    requires i < |es|
  {
    OutcomeAt(init, es, i).Granted?
  }

  predicate RenewedAt(init: State, es: seq<Event>, i: nat)
    requires i < |es|
  {
    es[i].Renew? && OutcomeAt(init, es, i) == Result(Accepted)
  }

  // ---- Every reachable state ------------------------------------------

  /** A live grant is unfenced, in the clock domain of the last stamp, owned by the
      newest owner, and ends at most one lease length behind the last stamp. */
  predicate Sound(st: State) {
    st.grant.Some? ==>
      var g := st.grant.value;
      && !st.fenced && g.entity == st.entity && g.owner == st.lastOwner
      && g.deadline.domain == st.lastStamp.domain
      && g.deadline.microseconds <= st.lastStamp.microseconds + LEASE_MICROSECONDS
      && g.session != 0 && g.catalog != 0 && g.state != 0 && g.fieldMask != 0 && g.owner > 0
  }

  lemma StepIsSound(st: State, e: Event)
    requires Sound(st)
    ensures Sound(Step(st, e).0) && Step(st, e).0.entity == st.entity
  {}

  lemma {:induction false} ReachableIsSound(init: State, es: seq<Event>, n: nat)
    requires Sound(init) && n <= |es|
    ensures Sound(StateAt(init, es, n)) && StateAt(init, es, n).entity == init.entity
  {
    hide Sound, Step;
    if n > 0 {
      ReachableIsSound(init, es, n - 1);
      StepIsSound(StateAt(init, es, n - 1), es[n - 1]);
    }
  }

  // ---- Accepted proposals never go back ---------------------------------

  predicate LexLess(a: u64, b: u64, c: u64, d: u64) { a < c || (a == c && b < d) }

  predicate LexAtMost(a: u64, b: u64, c: u64, d: u64) { a < c || (a == c && b <= d) }

  lemma StepGrows(st: State, e: Event)
    ensures LexAtMost(st.lastOwner, st.lastMotion, Step(st, e).0.lastOwner, Step(st, e).0.lastMotion)
  {
    hide Contains;
  }

  /** (last owner, last motion) only grows, whatever happens. */
  lemma {:induction false} FenceGrows(init: State, es: seq<Event>, i: nat, j: nat)
    requires i <= j <= |es|
    ensures LexAtMost(StateAt(init, es, i).lastOwner, StateAt(init, es, i).lastMotion,
                      StateAt(init, es, j).lastOwner, StateAt(init, es, j).lastMotion)
    decreases j
  {
    hide Step;
    if i < j {
      FenceGrows(init, es, i, j - 1);
      StepGrows(StateAt(init, es, j - 1), es[j - 1]);
    }
  }

  /** An accepted proposal carries the newest owner and a sequence above the last one. */
  lemma AcceptedMoves(st: State, now: Stamp, p: Proposal)
    requires Sound(st) && Step(st, Accept(now, p)).1 == Result(Accepted)
    ensures p.owner == st.lastOwner && st.lastMotion < p.sequence
    ensures Step(st, Accept(now, p)).0.lastOwner == p.owner && Step(st, Accept(now, p)).0.lastMotion == p.sequence
  {}

  /** Over any run with any clock, accepted (owner, sequence) pairs strictly increase:
      nothing is accepted twice and no superseded owner is accepted again. */
  lemma AcceptedIncrease(init: State, es: seq<Event>, i: nat, j: nat)
    requires Sound(init) && i < j < |es| && AcceptedAt(init, es, i) && AcceptedAt(init, es, j)
    ensures LexLess(es[i].proposal.owner, es[i].proposal.sequence, es[j].proposal.owner, es[j].proposal.sequence)
    ensures es[i].proposal != es[j].proposal
  {
    ReachableIsSound(init, es, i);
    ReachableIsSound(init, es, j);
    AcceptedMoves(StateAt(init, es, i), es[i].now, es[i].proposal);
    AcceptedMoves(StateAt(init, es, j), es[j].now, es[j].proposal);
    FenceGrows(init, es, i + 1, j);
  }

  /** Every grant has a fresh owner. */
  lemma GrantsIncrease(init: State, es: seq<Event>, i: nat, j: nat)
    requires i < j < |es| && GrantedAt(init, es, i) && GrantedAt(init, es, j)
    ensures OutcomeAt(init, es, i).g.owner < OutcomeAt(init, es, j).g.owner
  {
    FenceGrows(init, es, i + 1, j);
  }

  // ---- Every acceptance is justified -------------------------------------

  predicate Samples(e: Event) { e.Issue? || e.Accept? || e.Renew? }

  /** What ends a lease. */
  predicate Ends(e: Event, o: Outcome) {
    || e.Revoke? || e.Suspend? || o == Recovered(true) || o.Granted?
    || o == Result(ClockDiscontinuity) || o == Result(Expired) || o == Result(RecoveryRequired)
  }

  /** Nothing between events i and n ended the lease. */
  ghost predicate Undisturbed(init: State, es: seq<Event>, i: nat, n: nat) requires n <= |es| {
    forall k :: i < k < n ==> !Ends(es[k], OutcomeAt(init, es, k))
  }

  /** r is the issue i itself or the last accepted renewal behind it. */
  ghost predicate LastLease(init: State, es: seq<Event>, i: nat, r: nat, n: nat) requires n <= |es| {
    && i <= r < n && (r == i || RenewedAt(init, es, r))
    && forall k :: r < k < n ==> !RenewedAt(init, es, k)
  }

  /** The clock never steps back between i and n, nor behind the stamp of the state. */
  ghost predicate Ordered(init: State, es: seq<Event>, i: nat, n: nat) requires n <= |es| {
    && (forall k :: i <= k < n && Samples(es[k]) ==>
          es[k].now.domain == StateAt(init, es, n).lastStamp.domain &&
          es[k].now.microseconds <= StateAt(init, es, n).lastStamp.microseconds)
    && (forall k, m :: i <= k < m < n && Samples(es[k]) && Samples(es[m]) ==>
          es[k].now.microseconds <= es[m].now.microseconds)
  }

  /** The live grant is that of event i with the deadline of event r. */
  ghost predicate GrantFrom(init: State, es: seq<Event>, i: nat, r: nat, n: nat) requires n <= |es| {
    && i < n && r < n && GrantedAt(init, es, i) && !es[r].Revoke? && !es[r].Suspend?
    && es[r].now.microseconds + LEASE_MICROSECONDS <= U64_MAX
    && StateAt(init, es, n).grant ==
         Some(OutcomeAt(init, es, i).g.(
              deadline := Stamp(es[r].now.domain, es[r].now.microseconds + LEASE_MICROSECONDS)))
  }

  ghost predicate LiveSince(init: State, es: seq<Event>, i: nat, r: nat, n: nat)
    requires n <= |es|
  {
    && Undisturbed(init, es, i, n) && LastLease(init, es, i, r, n)
    && Ordered(init, es, i, n) && GrantFrom(init, es, i, r, n)
  }

  /** An event behind which a grant is live, but which did not issue it, kept or renewed it. */
  lemma KeepsOrRenews(st: State, e: Event)
    requires Sound(st) && Step(st, e).0.grant.Some? && !Step(st, e).1.Granted?
    ensures st.grant.Some? && !Ends(e, Step(st, e).1)
    ensures Samples(e) ==> e.now.domain == st.lastStamp.domain &&
                           st.lastStamp.microseconds <= e.now.microseconds && Step(st, e).0.lastStamp == e.now
    ensures !Samples(e) ==> Step(st, e).0.lastStamp == st.lastStamp
    ensures if e.Renew? && Step(st, e).1 == Result(Accepted) then
              e.now.microseconds + LEASE_MICROSECONDS <= U64_MAX &&
              Step(st, e).0.grant ==
              Some(st.grant.value.(deadline := Stamp(e.now.domain, e.now.microseconds + LEASE_MICROSECONDS)))
            else Step(st, e).0.grant == st.grant
  {}

  lemma StaysOrdered(init: State, es: seq<Event>, i: nat, n: nat)
    requires i < n < |es| && Sound(StateAt(init, es, n)) && Ordered(init, es, i, n)
    requires StateAt(init, es, n + 1).grant.Some? && !GrantedAt(init, es, n)
    ensures Ordered(init, es, i, n + 1)
  {
    hide Sound, Step, Ends;
    KeepsOrRenews(StateAt(init, es, n), es[n]);
  }

  /** One event either keeps the lease as it is or renews it. */
  lemma Extends(init: State, es: seq<Event>, i: nat, r: nat, n: nat) returns (r': nat)
    requires Sound(init) && n < |es| && LiveSince(init, es, i, r, n)
    requires StateAt(init, es, n + 1).grant.Some? && !GrantedAt(init, es, n)
    ensures LiveSince(init, es, i, r', n + 1)
  {
    hide Sound, Step, Ends, Ordered;
    ReachableIsSound(init, es, n);
    KeepsOrRenews(StateAt(init, es, n), es[n]);
    StaysOrdered(init, es, i, n);
    r' := if RenewedAt(init, es, n) then n else r;
  }

  /** A grant is what its own issue asked for: applied, with the session, revisions and
      mask of the call, the next owner, and a deadline two seconds behind its stamp. */
  lemma GrantIsItsIssues(init: State, es: seq<Event>, i: nat)
    requires Sound(init) && i < |es| && GrantedAt(init, es, i)
    ensures es[i].Issue? && es[i].applied && es[i].now.microseconds + 2_000_000 <= U64_MAX
    ensures init.lastOwner + Grants(init, es, i) + 1 <= U64_MAX
    ensures OutcomeAt(init, es, i).g ==
            Grant(init.entity, es[i].session, init.lastOwner + Grants(init, es, i) + 1, es[i].catalog, es[i].state,
                  es[i].fieldMask, Stamp(es[i].now.domain, es[i].now.microseconds + 2_000_000))
  {
    ReachableIsSound(init, es, i);
    OwnersCount(init, es, i);
    GrantNames(StateAt(init, es, i), es[i]);
    hide Step, StateAt, Grants, Sound;
  }

  lemma GrantNames(st: State, e: Event)
    requires Step(st, e).1.Granted?
    ensures e.Issue? && e.applied && st.lastOwner < U64_MAX && e.now.microseconds + 2_000_000 <= U64_MAX
    ensures Step(st, e).1.g == Grant(st.entity, e.session, st.lastOwner + 1, e.catalog, e.state, e.fieldMask,
                                     Stamp(e.now.domain, e.now.microseconds + 2_000_000))
  {
    hide Contains;
  }

  /** The number of grants among the first n events. */
  ghost function Grants(init: State, es: seq<Event>, n: nat): nat requires n <= |es| {
    if n == 0 then 0 else Grants(init, es, n - 1) + if GrantedAt(init, es, n - 1) then 1 else 0
  }

  /** Owners are handed out by counting. */
  lemma {:induction false} OwnersCount(init: State, es: seq<Event>, n: nat)
    requires n <= |es|
    ensures StateAt(init, es, n).lastOwner == init.lastOwner + Grants(init, es, n)
  {
    if n > 0 {
      OwnersCount(init, es, n - 1);
      OwnerStep(StateAt(init, es, n - 1), es[n - 1]);
      hide Step;
    }
  }

  lemma OwnerStep(st: State, e: Event)
    ensures Step(st, e).0.lastOwner == st.lastOwner + if Step(st, e).1.Granted? then 1 else 0
  {
    hide Contains;
  }

  /** One mask within another, bit by bit. */
  predicate Within(fields: bv64, mask: bv64) { fields & mask == fields }

  lemma ContainsIsWithin(mask: bv64, fields: bv64)
    ensures Contains(mask, fields) <==> Within(fields, mask)
  {
    if Contains(mask, fields) { NothingOutside(mask, fields); }
    if Within(fields, mask) { NothingLeft(mask, fields); }
  }

  lemma NothingOutside(mask: bv64, fields: bv64)
    requires fields & !mask == 0
    ensures fields & mask == fields
  {}

  lemma NothingLeft(mask: bv64, fields: bv64)
    requires fields & mask == fields
    ensures fields & !mask == 0
  {}

  lemma GrantStarts(st: State, e: Event)
    requires Step(st, e).1.Granted?
    ensures e.Issue? && e.now.microseconds + LEASE_MICROSECONDS <= U64_MAX
    ensures Step(st, e).0.lastStamp == e.now && Step(st, e).0.grant == Some(Step(st, e).1.g)
    ensures Step(st, e).1.g.deadline == Stamp(e.now.domain, e.now.microseconds + LEASE_MICROSECONDS)
  {}

  lemma {:induction false} GrantHasOrigin(init: State, es: seq<Event>, n: nat) returns (i: nat, r: nat)
    requires Sound(init) && init.grant.None? && n <= |es| && StateAt(init, es, n).grant.Some?
    ensures LiveSince(init, es, i, r, n)
  {
    hide Sound, Step, Ends;
    ReachableIsSound(init, es, n - 1);
    if GrantedAt(init, es, n - 1) {
      i, r := n - 1, n - 1;
      GrantStarts(StateAt(init, es, n - 1), es[n - 1]);
    } else {
      KeepsOrRenews(StateAt(init, es, n - 1), es[n - 1]);
      i, r := GrantHasOrigin(init, es, n - 1);
      r := Extends(init, es, i, r, n - 1);
    }
  }

  /** Every accepted proposal has exactly one issue behind it, an applied one that asked
      for the proposal's session, catalog and state and for a mask with all its fields;
      the owner is the number of that grant, nothing in between ended the lease, the
      clock never stepped back, and the stamp lies less than two seconds behind that of
      the last issue or renewal. */
  lemma AcceptanceIsJustified(init: State, es: seq<Event>, j: nat) returns (i: nat, r: nat)
    requires Sound(init) && init.grant.None? && j < |es| && AcceptedAt(init, es, j)
    ensures i <= r < j && LiveSince(init, es, i, r, j)
    ensures es[i].Issue? && es[i].applied
    ensures var e, p := es[i], es[j].proposal;
            && p.entity == init.entity && p.session == e.session && p.catalog == e.catalog && p.state == e.state
            && p.owner == init.lastOwner + Grants(init, es, i) + 1
            && Within(p.fieldMask, e.fieldMask) && p.fieldMask != 0
    ensures es[j].now.domain == es[r].now.domain
    ensures es[r].now.microseconds <= es[j].now.microseconds < es[r].now.microseconds + 2_000_000
    ensures forall k ::
              (0 <= k < |es| && GrantedAt(init, es, k) && OutcomeAt(init, es, k).g.owner == es[j].proposal.owner) ==>
              k == i
  {
    i, r := GrantHasOrigin(init, es, j);
    ReachableIsSound(init, es, j);
    GrantIsItsIssues(init, es, i);
    ContainsIsWithin(es[i].fieldMask, es[j].proposal.fieldMask);
    hide Contains, Within;
    forall k | 0 <= k < |es| && GrantedAt(init, es, k) && OutcomeAt(init, es, k).g.owner == es[j].proposal.owner
      ensures k == i
    {
      if k < i { GrantsIncrease(init, es, k, i); }
      if i < k { GrantsIncrease(init, es, i, k); }
    }
  }

  // ---- Every justified proposal is accepted -------------------------------

  /** An issue that passes its argument checks: it either grants or fences. */
  predicate IssuesAnew(e: Event) {
    e.Issue? && e.applied && e.session != 0 && e.catalog != 0 && e.state != 0 && e.fieldMask != 0
  }

  /** From event i on every stamp is in the domain of i, none before an earlier one. */
  ghost predicate InOrder(es: seq<Event>, i: nat, n: nat) requires i < n <= |es| && Samples(es[i]) {
    && (forall k :: i <= k < n && Samples(es[k]) ==> es[k].now.domain == es[i].now.domain)
    && (forall k, m :: i <= k < m < n && Samples(es[k]) && Samples(es[m]) ==>
          es[k].now.microseconds <= es[m].now.microseconds)
  }

  /** Behind event i up to n: nothing ended the lease and nothing issued anew. */
  ghost predicate Quiet(init: State, es: seq<Event>, i: nat, n: nat) requires n <= |es| {
    Undisturbed(init, es, i, n) && forall k :: i < k < n ==> !IssuesAnew(es[k])
  }

  /** The state at n carries the grant of i, with the deadline of r, the stamp of sample k
      and the sequence of the accepted proposal m, or none if m is i. */
  ghost predicate Carries(init: State, es: seq<Event>, i: nat, r: nat, k: nat, m: nat, n: nat)
    requires i < n <= |es| && GrantedAt(init, es, i)
  {
    && i <= r < n && i <= k < n && i <= m < n
    && var st := StateAt(init, es, n);
       && !st.fenced && LastLease(init, es, i, r, n) && (es[r].Issue? || es[r].Renew?)
       && st.grant == Some(OutcomeAt(init, es, i).g.(deadline :=
            Stamp(es[i].now.domain, es[r].now.microseconds + LEASE_MICROSECONDS)))
       && Samples(es[k]) && st.lastStamp == es[k].now
       && (if m == i then st.lastMotion == 0 else AcceptedAt(init, es, m) && st.lastMotion == es[m].proposal.sequence)
  }

  /** What one undisturbing event in order does to a granted state. */
  lemma QuietStep(st: State, e: Event)
    requires !st.fenced && st.grant.Some? && !Ends(e, Step(st, e).1) && !IssuesAnew(e)
    requires Samples(e) ==> Continuous(st, e.now)
    ensures var t := Step(st, e).0;
            && !t.fenced && t.lastStamp == (if Samples(e) then e.now else st.lastStamp)
            && t.lastMotion ==
               (if e.Accept? && Step(st, e).1 == Result(Accepted) then e.proposal.sequence else st.lastMotion)
            && t.grant == if e.Renew? && Step(st, e).1 == Result(Accepted)
                          then Some(st.grant.value.(deadline := Stamp(st.grant.value.deadline.domain,
                                                                      e.now.microseconds + LEASE_MICROSECONDS)))
                          else st.grant
  {
    hide Contains;
  }

  lemma CarryStep(init: State, es: seq<Event>, i: nat, r: nat, k: nat, m: nat, n: nat)
    returns (r': nat, k': nat, m': nat)
    requires i < n < |es| && GrantedAt(init, es, i) && Samples(es[i]) && Carries(init, es, i, r, k, m, n)
    requires InOrder(es, i, n + 1) && Quiet(init, es, i, n + 1)
    ensures Carries(init, es, i, r', k', m', n + 1)
  {
    hide Step;
    var st := StateAt(init, es, n);
    assert !Ends(es[n], OutcomeAt(init, es, n));
    QuietStep(st, es[n]);
    r' := if RenewedAt(init, es, n) then n else r;
    k' := if Samples(es[n]) then n else k;
    m' := if AcceptedAt(init, es, n) then n else m;
  }

  lemma {:induction false} CarriesOn(init: State, es: seq<Event>, i: nat, n: nat) returns (r: nat, k: nat, m: nat)
    requires i < n <= |es| && GrantedAt(init, es, i) && Samples(es[i])
    requires InOrder(es, i, n) && Quiet(init, es, i, n)
    ensures Carries(init, es, i, r, k, m, n)
    decreases n
  {
    hide Step, Carries;
    if n == i + 1 {
      r, k, m := i, i, i;
      GrantStarts(StateAt(init, es, i), es[i]);
      CarryStarts(init, es, i);
    } else {
      r, k, m := CarriesOn(init, es, i, n - 1);
      r, k, m := CarryStep(init, es, i, r, k, m, n - 1);
    }
  }

  lemma CarryStarts(init: State, es: seq<Event>, i: nat)
    requires i < |es| && GrantedAt(init, es, i)
    ensures Carries(init, es, i, i, i, i, i + 1)
  {
    GrantStarts(StateAt(init, es, i), es[i]);
  }

  /** The converse over runs: a proposal that repeats the fields of an undisturbed issue,
      with a nonzero mask inside the granted one, stamped in order before the deadline of
      the last issue or renewal, and with a sequence above zero and above all accepted
      since that issue, is accepted. */
  lemma JustifiedIsAccepted(init: State, es: seq<Event>, i: nat, r: nat, j: nat)
    requires Sound(init) && i < j < |es| && GrantedAt(init, es, i) && es[i].Issue? && es[j].Accept?
    requires Quiet(init, es, i, j) && LastLease(init, es, i, r, j) && (es[r].Issue? || es[r].Renew?)
    requires InOrder(es, i, j + 1) && es[j].now.microseconds < es[r].now.microseconds + 2_000_000
    requires var e, p := es[i], es[j].proposal;
             && p.entity == init.entity && p.session == e.session && p.catalog == e.catalog && p.state == e.state
             && p.owner == init.lastOwner + Grants(init, es, i) + 1 && Within(p.fieldMask, e.fieldMask)
             && p.fieldMask != 0 && p.sequence > 0
    requires forall k :: i < k < j && AcceptedAt(init, es, k) ==> es[k].proposal.sequence < es[j].proposal.sequence
    ensures AcceptedAt(init, es, j)
  {
    hide Contains, Step, Ends;
    var r', k, m := CarriesOn(init, es, i, j);
    LastLeaseUnique(init, es, i, r, r', j);
    ReachableIsSound(init, es, j);
    GrantIsItsIssues(init, es, i);
    ContainsIsWithin(es[i].fieldMask, es[j].proposal.fieldMask);
    hide Within;
    AcceptsThis(StateAt(init, es, j), es[j].now, es[j].proposal);
  }

  lemma LastLeaseUnique(init: State, es: seq<Event>, i: nat, r: nat, q: nat, n: nat)
    requires n <= |es| && LastLease(init, es, i, r, n) && LastLease(init, es, i, q, n)
    ensures r == q
  {
    hide Step;
  }

  lemma AcceptsThis(st: State, now: Stamp, p: Proposal)
    requires !st.fenced && st.grant.Some? && Continuous(st, now)
             && now.microseconds < st.grant.value.deadline.microseconds
    requires var g := st.grant.value;
             && p.entity == st.entity && p.session == g.session && p.owner == g.owner && p.catalog == g.catalog
             && p.state == g.state && Contains(g.fieldMask, p.fieldMask) && p.fieldMask != 0
             && st.lastMotion < p.sequence
    ensures Step(st, Accept(now, p)).1 == Result(Accepted)
  {
    hide Contains;
  }

  /** A fence holds until a recovery: nothing is issued, renewed or accepted behind it. */
  lemma {:induction false} FencedUntilRecovered(init: State, es: seq<Event>, i: nat, j: nat)
    requires i <= j < |es| && StateAt(init, es, i).fenced
    requires forall k :: i <= k < j ==> OutcomeAt(init, es, k) != Recovered(true)
    ensures StateAt(init, es, j).fenced
    ensures !GrantedAt(init, es, j) && OutcomeAt(init, es, j) != Result(Accepted)
    decreases j
  {
    hide Step;
    if i < j {
      FencedUntilRecovered(init, es, i, j - 1);
      FencedStep(StateAt(init, es, j - 1), es[j - 1]);
    }
    FencedStep(StateAt(init, es, j), es[j]);
  }

  lemma FencedStep(st: State, e: Event)
    requires st.fenced
    ensures Step(st, e).1 != Recovered(true) ==> Step(st, e).0.fenced
    ensures !Step(st, e).1.Granted? && Step(st, e).1 != Result(Accepted)
  {}
}
