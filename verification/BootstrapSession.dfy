// The bootstrap session: one status behind a try-lock.  SessionSpec is what a
// call does when it is alone, BootstrapSession the object itself, and
// SessionProtocol every interleaving of concurrent calls, one memory access
// of the source at a time.

module SessionSpec {
  import opened Words

  const ABI_MAJOR: u32 := 1
  const STATUS_BYTES: u32 := 192

  // Results
  const OK: u32 := 0
  const INVALID_ARGUMENT: u32 := 1
  const ABI_MISMATCH: u32 := 2
  const BUSY: u32 := 3

  // States
  const DISCOVERED: u32 := 0
  const REJECTED: u32 := 1
  const OBSERVED_UNVERIFIED: u32 := 2
  const STOPPED: u32 := 3

  // Reasons
  const HOST_PATH: u32 := 1
  const RUNTIME_UNVERIFIED: u32 := 5
  const INTERNAL_ERROR: u32 := 6

  function Zeros(n: nat): (s: string)
    ensures |s| == n
  {
    if n == 0 then [] else Zeros(n - 1) + ['\0']
  }

  type Id = s: string | |s| == 96 witness Zeros(96)
  type Digest = s: string | |s| == 64 witness Zeros(64)

  /** SaexBootstrapStatus; four-byte packed, so equal fields are equal bytes. */
  datatype Status = Status(abi_major: u32, struct_bytes: u32, state: u32, reason: u32, observation_attempts: u32,
                           can_attach: u32, bindings_loaded: u32, reserved: u32,
                           observed_profile_id: Id, profile_source_digest: Digest)

  const EMPTY_ID: Id := Zeros(96)
  const EMPTY_DIGEST: Digest := Zeros(64)

  const INITIAL: Status := Status(ABI_MAJOR, STATUS_BYTES, DISCOVERED, 0, 0, 0, 0, 0, EMPTY_ID, EMPTY_DIGEST)

  /** The generated profile: its identifier fits the field with a terminator. */
  datatype Profile = Profile(id: string, digest: Digest) {
    predicate Valid() { |id| < 96 }
  }

  datatype Operation = Initialize | Query | Stop

  /** std::copy of the identifier into the zeroed field. */
  function Padded(id: string): Id
    requires |id| < 96
  {
    id + Zeros(96 - |id|)
  }

  function Clamped(v: u32): u32 { if HOST_PATH <= v <= INTERNAL_ERROR then v else INTERNAL_ERROR }

  predicate Inspects(s: Status, op: Operation) { op == Initialize && s.state == DISCOVERED }

  function AfterReason(s: Status, v: u32): Status { s.(observation_attempts := 1, reason := Clamped(v)) }

  function AfterState(s: Status, v: u32): Status {
    AfterReason(s, v).(state := if Clamped(v) == RUNTIME_UNVERIFIED then OBSERVED_UNVERIFIED else REJECTED)
  }

  function AfterProfile(p: Profile, s: Status, v: u32): Status
    requires p.Valid()
  {
    if Clamped(v) == RUNTIME_UNVERIFIED then AfterState(s, v).(observed_profile_id := Padded(p.id))
    else AfterState(s, v)
  }

  /** The status a lone call leaves and returns; v is what inspect returns if it runs. */
  function Serve(p: Profile, s: Status, op: Operation, v: u32): Status
    requires p.Valid()
  {
    (if Inspects(s, op) then AfterProfile(p, s, v)
     else if op == Stop then s.(state := STOPPED)
     else s).(profile_source_digest := p.digest)
  }

  // ---- What a status says ----------------------------------------------------

  /** A zero-terminated field that reads as id. */
  predicate ReadsAs(field: Id, id: string) {
    && |id| < 96 && field[..|id|] == id
    && forall i :: |id| <= i < 96 ==> field[i] == '\0'
  }

  lemma {:induction false} ZerosAre(n: nat, i: nat)
    requires i < n
    ensures Zeros(n)[i] == '\0'
  {
    if i < n - 1 { ZerosAre(n - 1, i); }
  }

  lemma PaddedReads(id: string)
    requires |id| < 96
    ensures ReadsAs(Padded(id), id)
  {
    forall i | |id| <= i < 96 ensures Padded(id)[i] == '\0' { ZerosAre(96 - |id|, i - |id|); }
  }

  lemma InitialIs()
    ensures INITIAL == Status(1, 192, 0, 0, 0, 0, 0, 0, INITIAL.observed_profile_id, INITIAL.profile_source_digest)
    ensures ReadsAs(INITIAL.observed_profile_id, "")
    ensures forall i :: 0 <= i < 64 ==> INITIAL.profile_source_digest[i] == '\0'
  {
    forall i | 0 <= i < 96 ensures INITIAL.observed_profile_id[i] == '\0' { ZerosAre(96, i); }
    forall i | 0 <= i < 64 ensures INITIAL.profile_source_digest[i] == '\0' { ZerosAre(64, i); }
  }

  /** The reason recorded for what inspect returned: 1 to 6 as they are, anything else 6. */
  function Reason(v: u32): u32 { if v == 0 || v > 6 then 6 else v }

  /** The whole effect of a call: only the first initialization observes; it records one
      attempt and the reason, and with reason 5, and no other, the profile's identifier;
      a stop moves to state 3; every call reports the profile's digest. */
  lemma ServeMeans(p: Profile, s: Status, op: Operation, v: u32)
    requires p.Valid()
    ensures var r := Serve(p, s, op, v);
            && r == s.(state := r.state, reason := r.reason, observation_attempts := r.observation_attempts,
                       observed_profile_id := r.observed_profile_id, profile_source_digest := p.digest)
            && if op == Initialize && s.state == 0 then
                 && r.observation_attempts == 1 && r.reason == Reason(v)
                 && (Reason(v) == 5 ==> r.state == 2 && ReadsAs(r.observed_profile_id, p.id))
                 && (Reason(v) != 5 ==> r.state == 1 && r.observed_profile_id == s.observed_profile_id)
               else
                 && r.observation_attempts == s.observation_attempts && r.reason == s.reason
                 && r.observed_profile_id == s.observed_profile_id && r.state == if op == Stop then 3 else s.state
  {
    PaddedReads(p.id);
    hide Padded, ReadsAs;
  }
}

module BootstrapSession {
  import opened Words
  import opened SessionSpec

  class StatusBuffer {
    var status: Status

    constructor (s: Status)
      ensures status == s
    {
      status := s;
    }
  }

  class Session {
    const profile: Profile
    var busy: bool
    var status: Status

    constructor (profile: Profile)
      ensures this.profile == profile && !busy && status == INITIAL
    {
      this.profile := profile;
      busy := false;
      status := INITIAL;
    }

    /** One call; a null buffer is the source's null pointer, inspected the value the
        observation would return. */
    method Invoke(op: Operation, inspected: u32, abi: u32, output: StatusBuffer?, bytes: u32) returns (code: u32)
      requires profile.Valid()
      modifies this, output
      ensures busy == old(busy)
      ensures output == null || bytes != 192 ==> code == 1
      ensures output != null && bytes == 192 && abi != 1 ==> code == 2
      ensures output != null && bytes == 192 && abi == 1 ==> code == if old(busy) then 3 else 0
      ensures code == 0 ==>
                output != null && status == Serve(profile, old(status), op, inspected) && output.status == status
      ensures code != 0 ==> status == old(status) && (output != null ==> output.status == old(output.status))
    {
      if output == null || bytes != STATUS_BYTES {
        return INVALID_ARGUMENT;
      }
      if abi != ABI_MAJOR {
        return ABI_MISMATCH;
      }
      if busy {
        return BUSY;
      }
      busy := true;
      if op == Initialize && status.state == DISCOVERED {
        status := status.(observation_attempts := 1);
        var reason := inspected;
        status := status.(reason := if HOST_PATH <= reason && reason <= INTERNAL_ERROR then reason else INTERNAL_ERROR);
        status := status.(state := if status.reason == RUNTIME_UNVERIFIED then OBSERVED_UNVERIFIED else REJECTED);
        if status.state == OBSERVED_UNVERIFIED {
          status := status.(observed_profile_id := Padded(profile.id));
        }
      } else if op == Stop {
        status := status.(state := STOPPED);
      }
      status := status.(profile_source_digest := profile.digest);
      output.status := status;
      busy := false;
      return OK;
    }
  }
}

module SessionProtocol {
  import opened Words
  import opened SessionSpec

  datatype Args = Args(op: Operation, abi: u32, hasOutput: bool, bytes: u32)

  /** Where a thread stands inside invoke; v is the value inspect returned. */
  datatype Pc =
    | Outside                          // no call, or the last one returned
    | Entered(a: Args)                 // before the argument checks
    | Locking(a: Args)                 // before test_and_set
    | Holding(a: Args)                 // the flag taken, nothing written
    | Inspecting(a: Args)              // attempts written, inspect running
    | Reasoned(a: Args, v: u32)        // reason written
    | Stated(a: Args, v: u32)          // state written
    | Judged(a: Args, v: u32)          // operation done, digest missing
    | Complete(a: Args, v: u32)        // status complete, output not written
    | Copied(a: Args, v: u32)          // output written, flag still set

  datatype Thread = Thread(pc: Pc, output: Status, code: u32)

  datatype Served = Served(thread: nat, op: Operation, v: u32, output: Status)

  /** busy, the shared status, how often inspect ran, the threads, and the log of
      completed calls in the order of their releases. */
  datatype System = System(busy: bool, status: Status, inspections: nat, threads: map<nat, Thread>, log: seq<Served>)

  /** What the scheduler picks: a thread, the arguments of its next call, and the value
      inspect returns if this step is its return. */
  datatype Pick = Pick(thread: nat, args: Args, v: u32)

  predicate InSection(pc: Pc) {
    pc.Holding? || pc.Inspecting? || pc.Reasoned? || pc.Stated? || pc.Judged? || pc.Complete? || pc.Copied?
  }

  function With(s: System, t: nat, th: Thread): System { s.(threads := s.threads[t := th]) }

  function Next(p: Profile, s: System, k: Pick): System
    requires p.Valid()
  {
    if k.thread !in s.threads then s
    else
      var th := s.threads[k.thread];
      match th.pc
      case Outside => With(s, k.thread, th.(pc := Entered(k.args)))
      case Entered(a) =>
        if !a.hasOutput || a.bytes != STATUS_BYTES then With(s, k.thread, th.(pc := Outside, code := INVALID_ARGUMENT))
        else if a.abi != ABI_MAJOR then With(s, k.thread, th.(pc := Outside, code := ABI_MISMATCH))
        else With(s, k.thread, th.(pc := Locking(a)))
      case Locking(a) =>
        if s.busy then With(s, k.thread, th.(pc := Outside, code := BUSY))
        else With(s.(busy := true), k.thread, th.(pc := Holding(a)))
      case Holding(a) =>
        if Inspects(s.status, a.op) then
          With(s.(status := s.status.(observation_attempts := 1)), k.thread, th.(pc := Inspecting(a)))
        else if a.op == Stop then
          With(s.(status := s.status.(state := STOPPED)), k.thread, th.(pc := Judged(a, k.v)))
        else With(s, k.thread, th.(pc := Judged(a, k.v)))
      case Inspecting(a) =>
        With(s.(status := s.status.(reason := Clamped(k.v)), inspections := s.inspections + 1),
             k.thread, th.(pc := Reasoned(a, k.v)))
      case Reasoned(a, v) =>
        var state := if s.status.reason == RUNTIME_UNVERIFIED then OBSERVED_UNVERIFIED else REJECTED;
        With(s.(status := s.status.(state := state)), k.thread, th.(pc := Stated(a, v)))
      case Stated(a, v) =>
        var id := if s.status.state == OBSERVED_UNVERIFIED then Padded(p.id) else s.status.observed_profile_id;
        With(s.(status := s.status.(observed_profile_id := id)), k.thread, th.(pc := Judged(a, v)))
      case Judged(a, v) =>
        With(s.(status := s.status.(profile_source_digest := p.digest)), k.thread, th.(pc := Complete(a, v)))
      case Complete(a, v) => With(s, k.thread, th.(pc := Copied(a, v), output := s.status))
      case Copied(a, v) =>
        With(s.(busy := false, log := s.log + [Served(k.thread, a.op, v, th.output)]),
             k.thread, th.(pc := Outside, code := OK))
  }

  /** The status after the logged calls, one after the other. */
  function Replay(p: Profile, log: seq<Served>): Status
    requires p.Valid()
  {
    if log == [] then INITIAL
    else Serve(p, Replay(p, log[..|log| - 1]), log[|log| - 1].op, log[|log| - 1].v)
  }

  /** What the holder has made of the status it found. */
  predicate Partial(p: Profile, before: Status, now: Status, th: Thread)
    requires p.Valid() && InSection(th.pc)
  {
    match th.pc
    case Holding(a) => now == before
    case Inspecting(a) => Inspects(before, a.op) && now == before.(observation_attempts := 1)
    case Reasoned(a, v) => Inspects(before, a.op) && now == AfterReason(before, v)
    case Stated(a, v) => Inspects(before, a.op) && now == AfterState(before, v)
    case Judged(a, v) => now.(profile_source_digest := p.digest) == Serve(p, before, a.op, v)
    case Complete(a, v) => now == Serve(p, before, a.op, v)
    case Copied(a, v) => now == Serve(p, before, a.op, v) && th.output == now
    case _ => false
  }

  /** Inspections and attempts agree except while inspect runs. */
  predicate Counted(s: System) {
    && s.status.observation_attempts <= 1
    && (s.status.observation_attempts == 0 ==> s.inspections == 0)
    && s.inspections <= 1
    && (s.inspections == 1 ==> s.status.observation_attempts == 1)
  }

  ghost predicate Inv(p: Profile, s: System)
    requires p.Valid()
  {
    && Counted(s)
    && (forall t, u ::
          t in s.threads && u in s.threads && InSection(s.threads[t].pc) && InSection(s.threads[u].pc) ==> t == u)
    && (forall t :: t in s.threads && InSection(s.threads[t].pc) ==>
          s.busy && Partial(p, Replay(p, s.log), s.status, s.threads[t]))
    && (s.busy ==> exists t :: t in s.threads && InSection(s.threads[t].pc))
    && (!s.busy ==> s.status == Replay(p, s.log))
    && (forall k :: 0 <= k < |s.log| ==> s.log[k].output == Replay(p, s.log[..k + 1]))
    && Quiet(p, s)
  }

  /** A replayed status that is still discovered has made no attempt; while inspect runs
      it has not been counted. */
  ghost predicate Quiet(p: Profile, s: System)
    requires p.Valid()
  {
    && (Replay(p, s.log).state == DISCOVERED ==> Replay(p, s.log).observation_attempts == 0)
    && (forall t :: t in s.threads && s.threads[t].pc.Inspecting? ==> s.inspections == 0)
  }

  ghost predicate Start(s: System) {
    && !s.busy && s.status == INITIAL && s.inspections == 0 && s.log == []
    && forall t :: t in s.threads ==> s.threads[t].pc == Outside
  }

  function After(p: Profile, s: System, ks: seq<Pick>): System
    requires p.Valid()
  {
    if ks == [] then s else Next(p, After(p, s, ks[..|ks| - 1]), ks[|ks| - 1])
  }

  lemma ReplayAppend(p: Profile, log: seq<Served>, e: Served)
    requires p.Valid()
    ensures Replay(p, log + [e]) == Serve(p, Replay(p, log), e.op, e.v)
  {
    assert (log + [e])[..|log|] == log;
  }

  lemma ServeQuiet(p: Profile, s: Status, op: Operation, v: u32)
    requires p.Valid() && (s.state == DISCOVERED ==> s.observation_attempts == 0)
    ensures Serve(p, s, op, v).state == DISCOVERED ==> Serve(p, s, op, v).observation_attempts == 0
  {}

  /** A step outside the section touches its own thread, and at most takes a free flag. */
  lemma OutsideStep(p: Profile, s: System, k: Pick) returns (th: Thread)
    requires p.Valid() && k.thread in s.threads && !InSection(s.threads[k.thread].pc)
    ensures Next(p, s, k) == With(s, k.thread, th) || Next(p, s, k) == With(s.(busy := true), k.thread, th)
    ensures InSection(th.pc) ==> th.pc.Holding? && !s.busy && Next(p, s, k) == With(s.(busy := true), k.thread, th)
    ensures !InSection(th.pc) ==> Next(p, s, k) == With(s, k.thread, th)
  {
    th := Next(p, s, k).threads[k.thread];
  }

  lemma WaitKeeps(p: Profile, s: System, t: nat, th: Thread)
    requires p.Valid() && Inv(p, s) && t in s.threads && !InSection(s.threads[t].pc) && !InSection(th.pc)
    ensures Inv(p, With(s, t, th))
  {
    hide Replay, Serve, Partial;
    var s' := With(s, t, th);
    if s.busy {
      var u :| u in s.threads && InSection(s.threads[u].pc);
      assert s'.threads[u] == s.threads[u];
    }
  }

  lemma TakeKeeps(p: Profile, s: System, t: nat, th: Thread)
    requires p.Valid() && Inv(p, s) && !s.busy && t in s.threads && th.pc.Holding?
    ensures Inv(p, With(s.(busy := true), t, th))
  {
    hide Replay, Serve;
    var s' := With(s.(busy := true), t, th);
    assert InSection(s'.threads[t].pc);
  }

  /** A step that is not inside the section. */
  lemma OutsideKeeps(p: Profile, s: System, k: Pick)
    requires p.Valid() && Inv(p, s) && k.thread in s.threads && !InSection(s.threads[k.thread].pc)
    ensures Inv(p, Next(p, s, k))
  {
    hide Inv, Next;
    var th := OutsideStep(p, s, k);
    if InSection(th.pc) { TakeKeeps(p, s, k.thread, th); } else { WaitKeeps(p, s, k.thread, th); }
  }

  /** A step inside the section changes its own thread, the status and the count. */
  lemma InsideFrame(p: Profile, s: System, k: Pick)
    requires p.Valid() && k.thread in s.threads
    requires InSection(s.threads[k.thread].pc) && !s.threads[k.thread].pc.Copied?
    ensures var s' := Next(p, s, k);
            && s'.busy == s.busy && s'.log == s.log && k.thread in s'.threads
            && s'.threads == s.threads[k.thread := s'.threads[k.thread]] && InSection(s'.threads[k.thread].pc)
  {
    hide Padded, Clamped, Inspects;
  }

  /** A step inside the section, before the release. */
  lemma InsideKeeps(p: Profile, s: System, k: Pick)
    requires p.Valid() && Inv(p, s) && k.thread in s.threads
    requires InSection(s.threads[k.thread].pc) && !s.threads[k.thread].pc.Copied?
    ensures Inv(p, Next(p, s, k))
  {
    hide Replay, Next, Partial, Counted;
    InsideFrame(p, s, k);
    InsideStep(p, Replay(p, s.log), s, k);
    InsideCounts(p, Replay(p, s.log), s, k);
  }

  lemma InsideStep(p: Profile, before: Status, s: System, k: Pick)
    requires p.Valid() && k.thread in s.threads && InSection(s.threads[k.thread].pc) && !s.threads[k.thread].pc.Copied?
    requires Partial(p, before, s.status, s.threads[k.thread])
    ensures var s' := Next(p, s, k);
            InSection(s'.threads[k.thread].pc) && Partial(p, before, s'.status, s'.threads[k.thread])
  {
    hide Padded;
  }

  lemma InsideCounts(p: Profile, before: Status, s: System, k: Pick)
    requires p.Valid() && k.thread in s.threads && InSection(s.threads[k.thread].pc) && !s.threads[k.thread].pc.Copied?
    requires Partial(p, before, s.status, s.threads[k.thread])
    requires Counted(s) && (before.state == DISCOVERED ==> before.observation_attempts == 0)
    requires s.threads[k.thread].pc.Inspecting? ==> s.inspections == 0
    ensures var s' := Next(p, s, k);
            Counted(s') && (s'.threads[k.thread].pc.Inspecting? ==> s'.inspections == 0)
  {
    hide Padded, Clamped;
  }

  lemma ReleaseKeeps(p: Profile, s: System, k: Pick)
    requires p.Valid() && Inv(p, s) && k.thread in s.threads && s.threads[k.thread].pc.Copied?
    ensures Inv(p, Next(p, s, k))
  {
    hide Replay, Serve, Padded, ReadsAs;
    var th := s.threads[k.thread];
    var e := Served(k.thread, th.pc.a.op, th.pc.v, th.output);
    ReplayAppend(p, s.log, e);
    ServeQuiet(p, Replay(p, s.log), e.op, e.v);
    var s' := Next(p, s, k);
    assert s'.log == s.log + [e];
    forall j | 0 <= j < |s'.log| ensures s'.log[j].output == Replay(p, s'.log[..j + 1]) {
      if j < |s.log| {
        assert s'.log[..j + 1] == s.log[..j + 1];
      } else {
        assert s'.log[..j + 1] == s'.log;
      }
    }
  }

  lemma {:induction false} EveryInterleaving(p: Profile, s: System, ks: seq<Pick>)
    requires p.Valid() && Start(s)
    ensures Inv(p, After(p, s, ks))
  {
    if ks != [] {
      EveryInterleaving(p, s, ks[..|ks| - 1]);
      hide Inv, Replay;
      var s', k := After(p, s, ks[..|ks| - 1]), ks[|ks| - 1];
      if k.thread in s'.threads {
        if !InSection(s'.threads[k.thread].pc) {
          OutsideKeeps(p, s', k);
        } else if s'.threads[k.thread].pc.Copied? {
          ReleaseKeeps(p, s', k);
        } else {
          InsideKeeps(p, s', k);
        }
      }
    }
  }

  // ---- What holds under every interleaving ---------------------------------

  /** What a status may say after any calls: no permission is ever granted, the observed
      state, and no earlier one, carries the profile's identifier and the reason 5. */
  predicate Honest(p: Profile, s: Status) {
    && s.abi_major == 1 && s.struct_bytes == 192 && s.can_attach == 0 && s.bindings_loaded == 0 && s.reserved == 0
    && s.state <= 3 && s.observation_attempts <= 1
    && (s.state == 0 ==> s.observation_attempts == 0 && s.reason == 0 && ReadsAs(s.observed_profile_id, ""))
    && (s.state == 1 ==> s.observation_attempts == 1 && 1 <= s.reason <= 6 && s.reason != 5
                         && ReadsAs(s.observed_profile_id, ""))
    && (s.state == 2 ==> s.observation_attempts == 1 && s.reason == 5 && ReadsAs(s.observed_profile_id, p.id))
  }

  lemma ServeIsHonest(p: Profile, s: Status, op: Operation, v: u32)
    requires p.Valid() && Honest(p, s)
    ensures Honest(p, Serve(p, s, op, v)) && Serve(p, s, op, v).profile_source_digest == p.digest
  {
    ServeMeans(p, s, op, v);
    hide Serve, ReadsAs;
  }

  lemma {:induction false} ReplayIsHonest(p: Profile, log: seq<Served>)
    requires p.Valid()
    ensures Honest(p, Replay(p, log)) && (log != [] ==> Replay(p, log).profile_source_digest == p.digest)
  {
    hide Honest, Serve;
    if log == [] {
      InitialIsHonest(p);
    } else {
      var e := log[|log| - 1];
      ReplayIsHonest(p, log[..|log| - 1]);
      ServeIsHonest(p, Replay(p, log[..|log| - 1]), e.op, e.v);
    }
  }

  lemma InitialIsHonest(p: Profile)
    ensures Honest(p, INITIAL)
  {
    InitialIs();
    hide ReadsAs;
  }

  /** Every output handed out, by any thread under any interleaving, is honest and carries
      the profile's digest. */
  lemma OutputsAreHonest(p: Profile, s: System, ks: seq<Pick>, k: nat)
    requires p.Valid() && Start(s) && k < |After(p, s, ks).log|
    ensures Honest(p, After(p, s, ks).log[k].output)
    ensures After(p, s, ks).log[k].output.profile_source_digest == p.digest
  {
    hide After, Honest;
    Linearizable(p, s, ks, k);
    ReplayIsHonest(p, After(p, s, ks).log[..k + 1]);
  }

  /** The thread scheduled n times in a row with the same pick. */
  function Alone(p: Profile, s: System, k: Pick, n: nat): System
    requires p.Valid()
  {
    if n == 0 then s else Next(p, Alone(p, s, k, n - 1), k)
  }

  /** How many steps a call takes when it is left alone. */
  function Length(s: System, a: Args): nat {
    if !a.hasOutput || a.bytes != 192 || a.abi != 1 then 2
    else if s.busy then 3
    else if a.op == Initialize && s.status.state == 0 then 10
    else 7
  }

  /** Left alone, a call from outside returns with the code of the sequential session, and
      with code 0 it leaves and hands out exactly the sequential status; the observation
      ran once more exactly if it was the first initialization. */
  lemma LoneCall(p: Profile, s: System, t: nat, a: Args, v: u32)
    requires p.Valid() && t in s.threads && s.threads[t].pc == Outside
    ensures var e := Alone(p, s, Pick(t, a, v), Length(s, a));
            var served := Serve(p, s.status, a.op, v);
            && t in e.threads && e.threads == s.threads[t := e.threads[t]]
            && e.threads[t].pc == Outside && e.busy == s.busy
            && e.threads[t].code == (if !a.hasOutput || a.bytes != 192 then 1 else if a.abi != 1 then 2
                                     else if s.busy then 3 else 0)
            && (e.threads[t].code == 0 ==>
                  && e.status == served && e.threads[t].output == served && |e.log| == |s.log| + 1
                  && e.log[..|s.log|] == s.log && e.log[|s.log|].output == served
                  && e.inspections == s.inspections + if a.op == Initialize && s.status.state == 0 then 1 else 0)
            && (e.threads[t].code != 0 ==> e == s.(threads := e.threads) && e.threads[t].output == s.threads[t].output)
  {
    hide Padded, Alone, Next, Serve;
    if !a.hasOutput || a.bytes != 192 || a.abi != 1 || s.busy {
      LoneRefused(p, s, t, a, v);
    } else {
      var m := ToJudged(p, s, t, a, v);
      FromJudged(p, s, t, a, v, m);
    }
  }

  lemma LoneRefused(p: Profile, s: System, t: nat, a: Args, v: u32)
    requires p.Valid() && t in s.threads && s.threads[t].pc == Outside
    requires !a.hasOutput || a.bytes != 192 || a.abi != 1 || s.busy
    ensures Alone(p, s, Pick(t, a, v), Length(s, a)) ==
            With(s, t, s.threads[t].(pc := Outside, code := if !a.hasOutput || a.bytes != 192 then 1
                                                            else if a.abi != 1 then 2 else 3))
  {
    hide Alone;
    var k := Pick(t, a, v);
    AloneNext(p, s, k, 0); AloneNext(p, s, k, 1); AloneNext(p, s, k, 2);
  }

  lemma AloneNext(p: Profile, s: System, k: Pick, n: nat)
    requires p.Valid()
    ensures Alone(p, s, k, 0) == s && Alone(p, s, k, n + 1) == Next(p, Alone(p, s, k, n), k)
  {
    hide Next;
  }

  /** From outside to the end of the operation. */
  lemma ToJudged(p: Profile, s: System, t: nat, a: Args, v: u32) returns (m: nat)
    requires p.Valid() && t in s.threads && s.threads[t].pc == Outside && !s.busy
    requires a.hasOutput && a.bytes == 192 && a.abi == 1
    ensures m + 3 == Length(s, a)
    ensures var e := Alone(p, s, Pick(t, a, v), m);
            && t in e.threads && e.threads == s.threads[t := s.threads[t].(pc := Judged(a, v))]
            && e.busy && e.log == s.log && e.status.(profile_source_digest := p.digest) == Serve(p, s.status, a.op, v)
            && e.inspections == s.inspections + if a.op == Initialize && s.status.state == 0 then 1 else 0
  {
    hide Padded, Alone;
    var k := Pick(t, a, v);
    AloneNext(p, s, k, 0); AloneNext(p, s, k, 1); AloneNext(p, s, k, 2); AloneNext(p, s, k, 3);
    m := 4;
    if a.op == Initialize && s.status.state == 0 {
      AloneNext(p, s, k, 4); AloneNext(p, s, k, 5); AloneNext(p, s, k, 6);
      m := 7;
    }
  }

  lemma FromJudged(p: Profile, s: System, t: nat, a: Args, v: u32, m: nat)
    requires p.Valid() && t in s.threads
    requires var e := Alone(p, s, Pick(t, a, v), m); t in e.threads && e.threads[t].pc == Judged(a, v)
    ensures var e, l := Alone(p, s, Pick(t, a, v), m), Alone(p, s, Pick(t, a, v), m + 3);
            var now := e.status.(profile_source_digest := p.digest);
            && l == System(false, now, e.inspections, e.threads[t := Thread(Outside, now, 0)],
                           e.log + [Served(t, a.op, v, now)])
  {
    hide Alone;
    var k := Pick(t, a, v);
    AloneNext(p, s, k, m); AloneNext(p, s, k, m + 1); AloneNext(p, s, k, m + 2);
  }

  /** At most one thread is inside. */
  lemma MutualExclusion(p: Profile, s: System, ks: seq<Pick>, t: nat, u: nat)
    requires p.Valid() && Start(s)
    requires t in After(p, s, ks).threads && u in After(p, s, ks).threads
    requires InSection(After(p, s, ks).threads[t].pc) && InSection(After(p, s, ks).threads[u].pc)
    ensures t == u
  {
    hide After;
    EveryInterleaving(p, s, ks);
  }

  /** inspect runs at most once per session. */
  lemma InspectsAtMostOnce(p: Profile, s: System, ks: seq<Pick>)
    requires p.Valid() && Start(s)
    ensures After(p, s, ks).inspections <= 1
  {
    hide After;
    EveryInterleaving(p, s, ks);
  }

  /** Every completed call returned the status of the sequential session at its release. */
  lemma Linearizable(p: Profile, s: System, ks: seq<Pick>, k: nat)
    requires p.Valid() && Start(s) && k < |After(p, s, ks).log|
    ensures After(p, s, ks).log[k].output == Replay(p, After(p, s, ks).log[..k + 1])
    ensures !After(p, s, ks).busy ==> After(p, s, ks).status == Replay(p, After(p, s, ks).log)
  {
    hide After;
    EveryInterleaving(p, s, ks);
  }

  /** The OK return is the release, and the caller's buffer holds the logged output. */
  lemma ReleaseReturnsOutput(p: Profile, s: System, k: Pick)
    requires p.Valid() && Inv(p, s) && k.thread in s.threads && s.threads[k.thread].pc.Copied?
    ensures var s' := Next(p, s, k);
            s'.threads[k.thread].code == OK && !s'.busy && |s'.log| == |s.log| + 1 &&
            s'.log[|s.log|].output == s'.threads[k.thread].output == s'.status == Replay(p, s'.log)
  {
    ReleaseKeeps(p, s, k);
    hide Replay;
    assert Next(p, s, k).log[..|s.log| + 1] == Next(p, s, k).log;
  }

  /** A call that returns BUSY, or fails its checks, has written nothing shared and not
      the caller's buffer: between its start and its return only its own program counter
      and code move. */
  lemma RefusedWritesNothing(p: Profile, s: System, k: Pick)
    requires p.Valid() && k.thread in s.threads && !InSection(s.threads[k.thread].pc)
    requires !InSection(Next(p, s, k).threads[k.thread].pc)
    ensures var s' := Next(p, s, k);
            s'.busy == s.busy && s'.status == s.status && s'.log == s.log && s'.inspections == s.inspections &&
            s'.threads[k.thread].output == s.threads[k.thread].output &&
            forall t :: t in s.threads && t != k.thread ==> s'.threads[t] == s.threads[t]
  {}

  predicate Moves(a: u32, b: u32) {
    || a == b
    || (a == DISCOVERED && (b == OBSERVED_UNVERIFIED || b == REJECTED || b == STOPPED))
    || ((a == OBSERVED_UNVERIFIED || a == REJECTED) && b == STOPPED)
  }

  /** The shared state only moves forward, at every single step; Stopped is absorbing. */
  lemma StateMovesForward(p: Profile, s: System, k: Pick)
    requires p.Valid() && Inv(p, s) && s.status.state <= STOPPED
    ensures Moves(s.status.state, Next(p, s, k).status.state) && Next(p, s, k).status.state <= STOPPED
    ensures s.status.state == STOPPED ==> Next(p, s, k).status.state == STOPPED
  {
    hide Replay, Serve;
    if k.thread in s.threads && InSection(s.threads[k.thread].pc) {
      assert Partial(p, Replay(p, s.log), s.status, s.threads[k.thread]);
    }
  }

  lemma AfterOne(p: Profile, s: System, ks: seq<Pick>, n: nat)
    requires p.Valid() && 0 < n <= |ks|
    ensures After(p, s, ks[..n]) == Next(p, After(p, s, ks[..n - 1]), ks[n - 1])
  {
    hide Next;
    assert ks[..n][..n - 1] == ks[..n - 1];
  }

  lemma {:induction false} StateInRange(p: Profile, s: System, ks: seq<Pick>, n: nat)
    requires p.Valid() && Start(s) && n <= |ks|
    ensures After(p, s, ks[..n]).status.state <= STOPPED
    decreases n
  {
    if n > 0 {
      hide Inv, Next, After, Start;
      StateInRange(p, s, ks, n - 1);
      EveryInterleaving(p, s, ks[..n - 1]);
      StateMovesForward(p, After(p, s, ks[..n - 1]), ks[n - 1]);
      AfterOne(p, s, ks, n);
    }
  }

  /** Over any interleaving, from any moment i to any later moment j. */
  lemma {:induction false} RunMovesForward(p: Profile, s: System, ks: seq<Pick>, i: nat, j: nat)
    requires p.Valid() && Start(s) && i <= j <= |ks|
    ensures After(p, s, ks[..i]).status.state <= STOPPED
    ensures Moves(After(p, s, ks[..i]).status.state, After(p, s, ks[..j]).status.state)
    ensures After(p, s, ks[..i]).status.state == STOPPED ==> After(p, s, ks[..j]).status.state == STOPPED
    decreases j
  {
    hide Inv, Next, After, Start;
    StateInRange(p, s, ks, i);
    if i < j {
      RunMovesForward(p, s, ks, i, j - 1);
      StateInRange(p, s, ks, j - 1);
      EveryInterleaving(p, s, ks[..j - 1]);
      StateMovesForward(p, After(p, s, ks[..j - 1]), ks[j - 1]);
      AfterOne(p, s, ks, j);
    }
  }
}
