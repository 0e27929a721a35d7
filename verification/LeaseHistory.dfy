// What every answer of the lease authority means in terms of the calls before it: the
// issue behind the live lease, the last renewal, and the last sequences taken since.

module LeaseHistory {
  import opened Words
  import opened LeaseSpec
  import opened LeaseRuns

  /** The sequence of the last proposal accepted between i and n, zero when there is none. */
  ghost function LastAccepted(init: State, es: seq<Event>, i: nat, n: nat): u64
    requires i < n <= |es|
  {
    if n == i + 1 then 0
    else if AcceptedAt(init, es, n - 1) then es[n - 1].proposal.sequence
    else LastAccepted(init, es, i, n - 1)
  }

  /** The same for renewals. */
  ghost function LastRenewed(init: State, es: seq<Event>, i: nat, n: nat): u64
    requires i < n <= |es|
  {
    if n == i + 1 then 0
    else if RenewedAt(init, es, n - 1) then es[n - 1].renewal
    else LastRenewed(init, es, i, n - 1)
  }

  lemma CounterStep(st: State, e: Event)
    requires !Ends(e, Step(st, e).1)
    ensures Step(st, e).0.lastMotion ==
            if e.Accept? && Step(st, e).1 == Result(Accepted) then e.proposal.sequence else st.lastMotion
    ensures Step(st, e).0.lastRenewal ==
            if e.Renew? && Step(st, e).1 == Result(Accepted) then e.renewal else st.lastRenewal
  {
    hide Contains;
  }

  lemma GrantResets(st: State, e: Event)
    requires Step(st, e).1.Granted?
    ensures Step(st, e).0.lastMotion == 0 && Step(st, e).0.lastRenewal == 0
  {}

  /** A grant starts both counters at zero, and only accepted calls move them. */
  lemma {:induction false} CountersAre(init: State, es: seq<Event>, i: nat, n: nat)
    requires i < n <= |es| && GrantedAt(init, es, i) && Undisturbed(init, es, i, n)
    ensures StateAt(init, es, n).lastMotion == LastAccepted(init, es, i, n)
    ensures StateAt(init, es, n).lastRenewal == LastRenewed(init, es, i, n)
    decreases n
  {
    hide Step, Ends;
    if n == i + 1 {
      GrantResets(StateAt(init, es, i), es[i]);
    } else {
      assert !Ends(es[n - 1], OutcomeAt(init, es, n - 1));
      CountersAre(init, es, i, n - 1);
      CounterStep(StateAt(init, es, n - 1), es[n - 1]);
    }
  }

  /** A lease is live exactly when some issue with its last renewal stands undisturbed. */
  lemma LiveMeans(init: State, es: seq<Event>, n: nat)
    requires Sound(init) && init.grant.None? && n <= |es|
    ensures StateAt(init, es, n).grant.Some? <==> exists i: nat, r: nat :: LiveSince(init, es, i, r, n)
  {
    hide Step, Ends, Undisturbed, LastLease, Ordered;
    if StateAt(init, es, n).grant.Some? {
      var i, r := GrantHasOrigin(init, es, n);
    }
  }

  /** The answer to a proposal under the lease of one issue: until when the lease runs and
      which sequence was taken last decide with the fields of the issue. */
  function ProposalAnswer(entity: EntityRef, issue: Event, owner: nat, until: nat, last: u64, now: Stamp,
                          p: Proposal): LeaseResult
    requires issue.Issue?
  {
    if now.microseconds >= until then Expired
    else if p.entity != entity then StaleEntity
    else if p.session != issue.session || p.owner != owner then StaleOwner
    else if p.catalog != issue.catalog || p.state != issue.state then StaleRevision
    else if p.sequence <= last then StaleSequence
    else if p.fieldMask == 0 || !Within(p.fieldMask, issue.fieldMask) then FieldDenied
    else Accepted
  }

  /** Every proposal is answered from the history alone. */
  lemma ProposalAnswered(init: State, es: seq<Event>, j: nat) returns (i: nat, r: nat)
    requires Sound(init) && init.grant.None? && j < |es| && es[j].Accept?
    ensures StateAt(init, es, j).fenced ==> OutcomeAt(init, es, j) == Result(RecoveryRequired)
    ensures var st := StateAt(init, es, j);
            !st.fenced && !InStep(st.lastStamp, es[j].now) ==> OutcomeAt(init, es, j) == Result(ClockDiscontinuity)
    ensures var st := StateAt(init, es, j);
            !st.fenced && InStep(st.lastStamp, es[j].now) && st.grant.None? ==>
              OutcomeAt(init, es, j) == Result(NoGrant)
    ensures var st := StateAt(init, es, j);
            !st.fenced && InStep(st.lastStamp, es[j].now) && st.grant.Some? ==>
              && i <= r < j && LiveSince(init, es, i, r, j) && es[i].Issue? && !es[r].Revoke? && !es[r].Suspend?
              && OutcomeAt(init, es, j) ==
                 Result(ProposalAnswer(init.entity, es[i], init.lastOwner + Grants(init, es, i) + 1,
                                       es[r].now.microseconds + 2_000_000, LastAccepted(init, es, i, j), es[j].now,
                                       es[j].proposal))
  {
    hide Step, Ends, Undisturbed, Ordered, Contains, Within;
    var st := StateAt(init, es, j);
    if st.grant.Some? {
      i, r := GrantHasOrigin(init, es, j);
      GrantIsItsIssues(init, es, i);
      CountersAre(init, es, i, j);
      ReachableIsSound(init, es, j);
      ContainsIsWithin(es[i].fieldMask, es[j].proposal.fieldMask);
    } else {
      i, r := 0, 0;
    }
    AnswersProposal(st, es[j].now, es[j].proposal);
  }

  /** A stamp in the same domain, not behind the last one. */
  predicate InStep(last: Stamp, now: Stamp) { now.domain == last.domain && last.microseconds <= now.microseconds }

  /** One step, with the grant's own fields. */
  lemma AnswersProposal(st: State, now: Stamp, p: Proposal)
    ensures Step(st, Accept(now, p)).1 == Result(
              if st.fenced then RecoveryRequired
              else if !InStep(st.lastStamp, now) then ClockDiscontinuity
              else if st.grant.None? then NoGrant
              else if now.microseconds >= st.grant.value.deadline.microseconds then Expired
              else if p.entity != st.entity then StaleEntity
              else if p.session != st.grant.value.session || p.owner != st.grant.value.owner then StaleOwner
              else if p.catalog != st.grant.value.catalog || p.state != st.grant.value.state then StaleRevision
              else if p.sequence <= st.lastMotion then StaleSequence
              else if p.fieldMask == 0 || !Contains(st.grant.value.fieldMask, p.fieldMask) then FieldDenied
              else Accepted)
  {
    hide Contains;
  }

  /** The answer to a renewal, likewise. */
  function RenewalAnswer(issue: Event, owner: nat, until: nat, last: u64, e: Event): LeaseResult
    requires issue.Issue? && e.Renew?
  {
    if e.now.microseconds >= until then Expired
    else if e.session != issue.session || e.owner != owner then StaleOwner
    else if e.renewal <= last then StaleSequence
    else if e.now.microseconds + 2_000_000 > U64_MAX then RecoveryRequired
    else Accepted
  }

  lemma RenewalAnswered(init: State, es: seq<Event>, j: nat) returns (i: nat, r: nat)
    requires Sound(init) && init.grant.None? && j < |es| && es[j].Renew?
    ensures StateAt(init, es, j).fenced ==> OutcomeAt(init, es, j) == Result(RecoveryRequired)
    ensures var st := StateAt(init, es, j);
            !st.fenced && !InStep(st.lastStamp, es[j].now) ==> OutcomeAt(init, es, j) == Result(ClockDiscontinuity)
    ensures var st := StateAt(init, es, j);
            !st.fenced && InStep(st.lastStamp, es[j].now) && st.grant.None? ==>
              OutcomeAt(init, es, j) == Result(NoGrant)
    ensures var st := StateAt(init, es, j);
            !st.fenced && InStep(st.lastStamp, es[j].now) && st.grant.Some? ==>
              && i <= r < j && LiveSince(init, es, i, r, j) && es[i].Issue? && !es[r].Revoke? && !es[r].Suspend?
              && OutcomeAt(init, es, j) ==
                 Result(RenewalAnswer(es[i], init.lastOwner + Grants(init, es, i) + 1,
                                      es[r].now.microseconds + 2_000_000, LastRenewed(init, es, i, j), es[j]))
  {
    hide Step, Ends, Undisturbed, Ordered, Sound;
    var st := StateAt(init, es, j);
    if st.grant.Some? {
      i, r := GrantHasOrigin(init, es, j);
      GrantIsItsIssues(init, es, i);
      CountersAre(init, es, i, j);
    } else {
      i, r := 0, 0;
    }
    AnswersRenewal(st, es[j]);
  }

  lemma AnswersRenewal(st: State, e: Event)
    requires e.Renew?
    ensures Step(st, e).1 == Result(
              if st.fenced then RecoveryRequired
              else if !InStep(st.lastStamp, e.now) then ClockDiscontinuity
              else if st.grant.None? then NoGrant
              else if e.now.microseconds >= st.grant.value.deadline.microseconds then Expired
              else if e.session != st.grant.value.session || e.owner != st.grant.value.owner then StaleOwner
              else if e.renewal <= st.lastRenewal then StaleSequence
              else if e.now.microseconds + 2_000_000 > U64_MAX then RecoveryRequired
              else Accepted)
  {}

  /** Accepted renewals never go back: under one owner their numbers strictly increase. */
  lemma RenewalsIncrease(init: State, es: seq<Event>, i: nat, j: nat)
    requires Sound(init) && i < j < |es| && RenewedAt(init, es, i) && RenewedAt(init, es, j)
    ensures LexLess(es[i].owner, es[i].renewal, es[j].owner, es[j].renewal)
  {
    hide Step, Sound;
    ReachableIsSound(init, es, i);
    ReachableIsSound(init, es, j);
    RenewalMoves(StateAt(init, es, i), es[i]);
    RenewalMoves(StateAt(init, es, j), es[j]);
    RenewalsGrow(init, es, i + 1, j);
  }

  lemma RenewalMoves(st: State, e: Event)
    requires Sound(st) && e.Renew? && Step(st, e).1 == Result(Accepted)
    ensures e.owner == st.lastOwner && st.lastRenewal < e.renewal
    ensures Step(st, e).0.lastOwner == e.owner && Step(st, e).0.lastRenewal == e.renewal
  {}

  lemma RenewalStepGrows(st: State, e: Event)
    ensures LexAtMost(st.lastOwner, st.lastRenewal, Step(st, e).0.lastOwner, Step(st, e).0.lastRenewal)
  {
    hide Contains;
  }

  lemma {:induction false} RenewalsGrow(init: State, es: seq<Event>, i: nat, j: nat)
    requires i <= j <= |es|
    ensures LexAtMost(StateAt(init, es, i).lastOwner, StateAt(init, es, i).lastRenewal,
                      StateAt(init, es, j).lastOwner, StateAt(init, es, j).lastRenewal)
    decreases j
  {
    hide Step;
    if i < j {
      RenewalsGrow(init, es, i, j - 1);
      RenewalStepGrows(StateAt(init, es, j - 1), es[j - 1]);
    }
  }

  // ---- Issues, fences and recoveries ------------------------------------------

  /** An issue is granted exactly to an applied participant with nonzero session, revisions
      and mask, on a clock in step, while there are owners and microseconds left. */
  lemma IssueAnswered(st: State, e: Event)
    requires e.Issue?
    ensures Step(st, e).1.Granted? <==>
              && !st.fenced && InStep(st.lastStamp, e.now)
              && e.applied && e.session > 0 && e.catalog > 0 && e.state > 0 && e.fieldMask != 0
              && st.lastOwner + 1 <= U64_MAX && e.now.microseconds + 2_000_000 <= U64_MAX
    ensures !Step(st, e).1.Granted? ==> Step(st, e).1 == Refused
  {}

  /** The first grant of a new authority is to owner 1, and the proposals of its holder start
      with sequence 1, its renewals with number 1. */
  lemma FirstGrant(entity: EntityRef, now: Stamp, e: Event)
    requires e.Issue? && Step(Initial(entity, now), e).1.Granted?
    ensures Step(Initial(entity, now), e).1.g.owner == 1 && Step(Initial(entity, now), e).1.g.entity == entity
    ensures var st := Step(Initial(entity, now), e).0;
            && InStep(now, e.now) && !st.fenced && st.lastStamp == e.now
            && st.entity == entity && st.lastMotion == 0 && st.lastRenewal == 0
  {}

  /** What trips the fence of an unfenced authority. */
  predicate Trips(st: State, e: Event) {
    || e.Suspend?
    || (Samples(e) && !InStep(st.lastStamp, e.now))
    || (e.Issue? && e.applied && e.session > 0 && e.catalog > 0 && e.state > 0 && e.fieldMask != 0
        && (st.lastOwner == U64_MAX || e.now.microseconds + 2_000_000 > U64_MAX))
    || (e.Renew? && st.grant.Some? && e.now.microseconds < st.grant.value.deadline.microseconds
        && e.session == st.grant.value.session && e.owner == st.grant.value.owner && st.lastRenewal < e.renewal
        && e.now.microseconds + 2_000_000 > U64_MAX)
  }

  /** The fence after one event. */
  lemma FenceStep(st: State, e: Event)
    ensures Step(st, e).0.fenced <==> (st.fenced || Trips(st, e)) && !(e.Recover? && e.now.domain != 0)
    ensures Step(st, e).1 == Recovered(true) <==> e.Recover? && e.now.domain != 0
  {
    hide Contains;
  }

  predicate TrippedAt(init: State, es: seq<Event>, k: nat) requires k < |es| { Trips(StateAt(init, es, k), es[k]) }

  /** The authority is fenced exactly when something tripped it and no recovery followed. */
  lemma {:induction false} FencedExactly(init: State, es: seq<Event>, n: nat)
    requires !init.fenced && n <= |es|
    ensures StateAt(init, es, n).fenced <==>
              exists k :: 0 <= k < n && TrippedAt(init, es, k) && Unrecovered(es, k, n)
  {
    if n > 0 {
      FencedExactly(init, es, n - 1);
      FencedNext(init, es, n);
      hide TrippedAt, Unrecovered, StateAt;
      forall k | 0 <= k < n - 1 && TrippedAt(init, es, k)
        ensures Unrecovered(es, k, n) <==> Unrecovered(es, k, n - 1) && !RecoveredAt(es, n - 1)
      {
        UnrecoveredNext(es, k, n);
      }
      UnrecoveredNext(es, n - 1, n);
    }
  }

  predicate RecoveredAt(es: seq<Event>, m: nat) requires m < |es| { es[m].Recover? && es[m].now.domain != 0 }

  lemma FencedNext(init: State, es: seq<Event>, n: nat)
    requires 0 < n <= |es|
    ensures StateAt(init, es, n).fenced <==>
              (StateAt(init, es, n - 1).fenced || TrippedAt(init, es, n - 1)) && !RecoveredAt(es, n - 1)
    ensures TrippedAt(init, es, n - 1) ==> !RecoveredAt(es, n - 1)
  {
    FenceStep(StateAt(init, es, n - 1), es[n - 1]);
    TripIsNoRecovery(StateAt(init, es, n - 1), es[n - 1]);
    hide Step, Trips;
  }

  lemma UnrecoveredNext(es: seq<Event>, k: nat, n: nat)
    requires k < n <= |es|
    ensures Unrecovered(es, k, n) <==> k == n - 1 || (Unrecovered(es, k, n - 1) && !RecoveredAt(es, n - 1))
  {}

  lemma TripIsNoRecovery(st: State, e: Event)
    ensures Trips(st, e) ==> !e.Recover?
  {}

  predicate Unrecovered(es: seq<Event>, k: nat, n: nat) requires n <= |es| {
    forall m :: k < m < n ==> !RecoveredAt(es, m)
  }

  /** The stamp follows the clock while unfenced, and every recovery takes it anew. */
  lemma StampStep(st: State, e: Event)
    ensures Step(st, e).0.lastStamp ==
              if (Samples(e) && !st.fenced && InStep(st.lastStamp, e.now)) || (e.Recover? && e.now.domain != 0)
              then e.now else st.lastStamp
  {
    hide Contains;
  }
}
