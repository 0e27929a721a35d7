// The independent validator of the eight-call transcript, and the session run
// through those eight calls: the validator accepts exactly what the session says.

module BootstrapLifecycle {
  import opened Words
  import opened SessionSpec

  /** bootstrap_call_sequence: Query, Initialize, Query, Initialize, Stop, Query, Initialize, Stop. */
  const SEQUENCE: seq<Operation> := [Query, Initialize, Query, Initialize, Stop, Query, Initialize, Stop]

  /** The status the validator builds for a call, given what it was handed; None is a
      refusal before the comparison. */
  function Expected(p: Profile, index: nat, status: Status, initialized: Option<Status>): Option<Status>
    requires p.Valid()
  {
    var blank := Status(ABI_MAJOR, STATUS_BYTES, DISCOVERED, 0, 0, 0, 0, 0, EMPTY_ID, p.digest);
    if index == 1 then
      var tried := blank.(observation_attempts := 1);
      if status.state == OBSERVED_UNVERIFIED && status.reason == RUNTIME_UNVERIFIED then
        Some(tried.(state := status.state, reason := status.reason, observed_profile_id := Padded(p.id)))
      else if status.state == REJECTED && HOST_PATH <= status.reason <= INTERNAL_ERROR &&
              status.reason != RUNTIME_UNVERIFIED then
        Some(tried.(state := status.state, reason := status.reason))
      else None
    else if index > 1 then
      match initialized
      case None => None
      case Some(i) => Some(if index >= 4 then i.(state := STOPPED) else i)
    else Some(blank)
  }

  predicate ValidStatus(p: Profile, index: nat, status: Status, initialized: Option<Status>)
    requires p.Valid()
  {
    && index < |SEQUENCE| && status.abi_major == ABI_MAJOR && status.struct_bytes == STATUS_BYTES
    && status.can_attach == 0 && status.bindings_loaded == 0 && status.reserved == 0
    && status.profile_source_digest == p.digest
    && Expected(p, index, status, initialized) == Some(status)
  }

  /** What the session reports at call k when its one inspection returns v. */
  function Transcript(p: Profile, v: u32, k: nat): Status
    requires p.Valid() && k < |SEQUENCE|
  {
    Serve(p, if k == 0 then INITIAL else Transcript(p, v, k - 1), SEQUENCE[k], v)
  }

  /** The status behind the first initialization. */
  function Initialized(p: Profile, v: u32): Status
    requires p.Valid()
  {
    AfterProfile(p, INITIAL.(profile_source_digest := p.digest), v)
  }

  lemma TranscriptIs(p: Profile, v: u32)
    requires p.Valid()
    ensures Transcript(p, v, 0) == INITIAL.(profile_source_digest := p.digest)
    ensures forall k :: 1 <= k < 4 ==> Transcript(p, v, k) == Initialized(p, v)
    ensures forall k :: 4 <= k < 8 ==> Transcript(p, v, k) == Initialized(p, v).(state := STOPPED)
  {
    hide Transcript;
    Unfold(p, v, 0); Unfold(p, v, 1); Unfold(p, v, 2); Unfold(p, v, 3);
    Unfold(p, v, 4); Unfold(p, v, 5); Unfold(p, v, 6); Unfold(p, v, 7);
  }

  lemma Unfold(p: Profile, v: u32, k: nat)
    requires p.Valid() && k < 8
    ensures Transcript(p, v, k) == Serve(p, if k == 0 then INITIAL else Transcript(p, v, k - 1), SEQUENCE[k], v)
  {}

  /** Sound: for every value inspect may return, all eight statuses are accepted. */
  lemma TranscriptAccepted(p: Profile, v: u32, k: nat)
    requires p.Valid() && k < 8
    ensures ValidStatus(p, k, Transcript(p, v, k), Some(Transcript(p, v, 1)))
  {
    hide Transcript, Padded;
    TranscriptIs(p, v);
  }

  /** Complete: eight statuses accepted against their own second one are the transcript
      of some inspection. */
  lemma AcceptedIsTranscript(p: Profile, ss: seq<Status>) returns (v: u32)
    requires p.Valid() && |ss| == 8
    requires forall k :: 0 <= k < 8 ==> ValidStatus(p, k, ss[k], Some(ss[1]))
    ensures forall k :: 0 <= k < 8 ==> ss[k] == Transcript(p, v, k)
  {
    hide Transcript, Padded;
    v := ss[1].reason;
    TranscriptIs(p, v);
    assert ValidStatus(p, 0, ss[0], Some(ss[1])) && ValidStatus(p, 1, ss[1], Some(ss[1]));
  }
}
