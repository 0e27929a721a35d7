// The one-shot context suppression: a write to a stopped thread that is read
// back, and its restoration, through a port that may fail at any call.

module SuppressionSpec {
  import opened Words

  /** The context groups a write covers; DR6 holds its event bits only. */
  datatype Context = Context(eip: u32, esp: u32, eax: u32, ebx: u32, ecx: u32, edx: u32, esi: u32, edi: u32,
                             ebp: u32, flags: u32, segments: seq<u32>,
                             dr0: u32, dr1: u32, dr2: u32, dr3: u32, dr6: u32, dr7: u32)

  datatype Failure =
    NoFailure | Precondition | InitialRead | StaleContext | WriteFailed | ReadbackFailed | ReadbackMismatch

  datatype Txn = Txn(original: Option<Context>, replacement: Option<Context>, failure: Failure,
                     writeAttempted: bool, applied: bool, restoreAttempted: bool, restored: bool)

  const FRESH: Txn := Txn(None, None, NoFailure, false, false, false, false)

  /** What the port does at its n-th call: whether the call reports success and, for a
      write, in which context it really leaves the thread.  Nothing is promised of a
      write; a read that succeeds shows the thread as it is.  The world keeps every
      context a write was asked for, oldest first. */
  datatype Reply = Reply(ok: bool, thread: Context)

  type Oracle = nat -> Reply

  datatype World = World(txn: Txn, thread: Context, tick: nat, asked: seq<Context>)

  function ReadPort(o: Oracle, w: World): (World, Option<Context>) {
    (w.(tick := w.tick + 1), if o(w.tick).ok then Some(w.thread) else None)
  }

  function WritePort(o: Oracle, w: World, c: Context): (World, bool) {
    (w.(tick := w.tick + 1, asked := w.asked + [c], thread := o(w.tick).thread), o(w.tick).ok)
  }

  predicate AtCall(expected: Context, call: u32) {
    && call != 0 && call <= U32_MAX - 6
    && expected.eip == call && expected.esp >= 4096 && expected.esp % 4 == 0 && expected.esp <= U32_MAX - 16
    && And(expected.flags, 0x500) == 0 && expected.dr0 == call && expected.dr6 == 1
    && And(expected.dr7, 0xffff_20ff) == 0x00d0_0015
  }

  lemma AtCallBounds(c: Context, call: u32)
    ensures AtCall(c, call) ==> call <= U32_MAX - 6 && c.esp <= U32_MAX - 16
  {}

  /** The suppressed call: past its six bytes, its four arguments popped, EAX zero. */
  function Replacement(c: Context, call: u32): Context
    requires call <= U32_MAX - 6 && c.esp <= U32_MAX - 16
  {
    c.(eip := call + 6, esp := c.esp + 16, eax := 0, flags := And(c.flags, Not(0x1_0000)),
       dr0 := call + 6, dr6 := 0)
  }

  function OnRestore(o: Oracle, w: World): (World, bool) {
    if !w.txn.writeAttempted || w.txn.restoreAttempted || w.txn.original.None? then (w, false)
    else
      var w0 := w.(txn := w.txn.(restoreAttempted := true, restored := false));
      var target := w.txn.original.value.(dr6 := 0);
      var (w1, ok) := WritePort(o, w0, target);
      if !ok then (w1, false)
      else
        var (w2, r) := ReadPort(o, w1);
        if r == Some(target) then (w2.(txn := w2.txn.(restored := true)), true) else (w2, false)
  }

  function OnApply(o: Oracle, w: World, expected: Context, call: u32): (World, bool) {
    if w.txn.writeAttempted || w.txn.restoreAttempted || w.txn.failure != NoFailure then (w, false)
    else if !AtCall(expected, call) then (w.(txn := w.txn.(failure := Precondition)), false)
    else
      var (w1, current) := ReadPort(o, w);
      if current.None? then (w1.(txn := w1.txn.(failure := InitialRead)), false)
      else if current.value != expected then (w1.(txn := w1.txn.(failure := StaleContext)), false)
      else
        var r := Replacement(expected, call);
        var w2 := w1.(txn := w1.txn.(original := Some(expected), replacement := Some(r), writeAttempted := true));
        var (w3, f) := WriteAndVerify(o, w2, r);
        if f != NoFailure then (OnRestore(o, w3.(txn := w3.txn.(failure := f))).0, false)
        else (w3.(txn := w3.txn.(applied := true)), true)
  }

  /** The write and its read-back, with the failure they end in. */
  function WriteAndVerify(o: Oracle, w: World, r: Context): (World, Failure) {
    var (w1, ok) := WritePort(o, w, r);
    if !ok then (w1, WriteFailed)
    else
      var (w2, back) := ReadPort(o, w1);
      if back.None? then (w2, ReadbackFailed)
      else if back.value != r then (w2, ReadbackMismatch)
      else (w2, NoFailure)
  }

  datatype Call = Apply(expected: Context, address: u32) | Restore

  function Step(o: Oracle, w: World, c: Call): (World, bool) {
    match c
    case Apply(expected, address) => OnApply(o, w, expected, address)
    case Restore => OnRestore(o, w)
  }
}

module PlatformSuppression {
  import opened Words
  import opened SuppressionSpec

  /** The port to the stopped thread, as unreliable as its oracle. */
  class ContextPort {
    const oracle: Oracle
    var thread: Context
    var tick: nat
    var asked: seq<Context>

    constructor (oracle: Oracle, thread: Context)
      ensures this.oracle == oracle && this.thread == thread && tick == 0 && asked == []
    {
      this.oracle := oracle;
      this.thread := thread;
      tick, asked := 0, [];
    }

    method Read() returns (r: Option<Context>)
      modifies this`tick
      ensures tick == old(tick) + 1 && r == if oracle(old(tick)).ok then Some(thread) else None
    {
      r := if oracle(tick).ok then Some(thread) else None;
      tick := tick + 1;
    }

    method Write(c: Context) returns (ok: bool)
      modifies this
      ensures tick == old(tick) + 1 && asked == old(asked) + [c]
      ensures ok == oracle(old(tick)).ok && thread == oracle(old(tick)).thread
    {
      ok := oracle(tick).ok;
      thread := oracle(tick).thread;
      asked := asked + [c];
      tick := tick + 1;
    }
  }

  class SuppressionTransaction {
    var original: Option<Context>
    var replacement: Option<Context>
    var failure: Failure
    var writeAttempted: bool
    var applied: bool
    var restoreAttempted: bool
    var restored: bool

    ghost function View(port: ContextPort): World
      reads this, port
    {
      World(Txn(original, replacement, failure, writeAttempted, applied, restoreAttempted, restored),
            port.thread, port.tick, port.asked)
    }

    constructor ()
      ensures original == None && replacement == None && failure == NoFailure
      ensures !writeAttempted && !applied && !restoreAttempted && !restored
    {
      original, replacement, failure := None, None, NoFailure;
      writeAttempted, applied, restoreAttempted, restored := false, false, false, false;
    }

    method Apply(port: ContextPort, expected: Context, call: u32) returns (ok: bool)
      modifies this, port
      ensures (View(port), ok) == OnApply(port.oracle, old(View(port)), expected, call)
    {
      AtCallBounds(expected, call);
      hide AtCall, Replacement, OnRestore, WriteAndVerify;
      if writeAttempted || restoreAttempted || failure != NoFailure {
        return false;
      }
      if !AtCall(expected, call) {
        failure := Precondition;
        return false;
      }
      var current := port.Read();
      if current.None? {
        failure := InitialRead;
        return false;
      }
      if current.value != expected {
        failure := StaleContext;
        return false;
      }
      original := current;
      replacement := Some(Replacement(expected, call));
      writeAttempted := true;
      WriteReplacement(port);
      if failure != NoFailure {
        var _ := Restore(port);
        return false;
      }
      applied := true;
      return true;
    }

    /** The write of the replacement and its read-back. */
    method WriteReplacement(port: ContextPort)
      requires replacement.Some? && failure == NoFailure
      modifies this`failure, port
      ensures var r := WriteAndVerify(port.oracle, old(View(port)), replacement.value);
              failure == r.1 && View(port) == r.0.(txn := r.0.txn.(failure := failure)) &&
              r.0.txn == old(View(port)).txn
    {
      var written := port.Write(replacement.value);
      if !written {
        failure := WriteFailed;
      } else {
        var readback := port.Read();
        if readback.None? {
          failure := ReadbackFailed;
        } else if readback != replacement {
          failure := ReadbackMismatch;
        }
      }
    }

    method Restore(port: ContextPort) returns (ok: bool)
      modifies this, port
      ensures (View(port), ok) == OnRestore(port.oracle, old(View(port)))
    {
      if !writeAttempted || restoreAttempted || original.None? {
        return false;
      }
      restoreAttempted := true;
      restored := false;
      var target := original.value.(dr6 := 0);
      var written := port.Write(target);
      if !written {
        return false;
      }
      var readback := port.Read();
      restored := readback == Some(target);
      return restored;
    }
  }
}

module SuppressionRuns {
  import opened Words
  import opened SuppressionSpec

  function WorldAt(o: Oracle, thread: Context, cs: seq<Call>, n: nat): World
    requires n <= |cs|
  {
    if n == 0 then World(FRESH, thread, 0, []) else Step(o, WorldAt(o, thread, cs, n - 1), cs[n - 1]).0
  }

  function ResultAt(o: Oracle, thread: Context, cs: seq<Call>, i: nat): bool
    requires i < |cs|
  {
    Step(o, WorldAt(o, thread, cs, i), cs[i]).1
  }

  /** The writes are those of the two attempt flags: the replacement, then the original
      without its event bits.  A verified context is really there. */
  predicate Consistent(w: World) {
    && (w.txn.writeAttempted ==> w.txn.original.Some? && w.txn.replacement.Some?)
    && (w.txn.restoreAttempted ==> w.txn.writeAttempted)
    && w.asked == (if w.txn.writeAttempted then [w.txn.replacement.value] else []) +
                  (if w.txn.restoreAttempted then [w.txn.original.value.(dr6 := 0)] else [])
    && (w.txn.restored ==> w.txn.restoreAttempted && w.thread == w.txn.original.value.(dr6 := 0))
    && (w.txn.applied ==> w.txn.writeAttempted && w.txn.failure == NoFailure)
    && (w.txn.applied && !w.txn.restoreAttempted ==> w.thread == w.txn.replacement.value)
    && (w.txn.writeAttempted ==> w.txn.applied || w.txn.restoreAttempted)
  }

  lemma RestoreKeeps(o: Oracle, w: World)
    requires w.txn.writeAttempted ==> w.txn.original.Some? && w.txn.replacement.Some?
    requires w.txn.writeAttempted && !w.txn.restoreAttempted ==> w.asked == [w.txn.replacement.value]
    requires w.txn.applied ==> w.txn.writeAttempted && w.txn.failure == NoFailure
    requires w.txn.writeAttempted && !w.txn.restoreAttempted ==> !w.txn.restored
    requires w.txn.restoreAttempted ==> Consistent(w)
    requires !w.txn.writeAttempted ==> Consistent(w)
    ensures Consistent(OnRestore(o, w).0)
    ensures OnRestore(o, w).1 ==> OnRestore(o, w).0.txn.restored
  {}

  lemma ApplyKeeps(o: Oracle, w: World, expected: Context, call: u32)
    requires Consistent(w)
    ensures Consistent(OnApply(o, w, expected, call).0)
  {
    hide AtCall, Replacement, OnRestore;
    if OnApplies(o, w, expected, call).Some? {
      RestoreKeeps(o, OnApplies(o, w, expected, call).value);
    }
  }

  /** The world in which a failed apply starts its restore. */
  function OnApplies(o: Oracle, w: World, expected: Context, call: u32): Option<World> {
    if w.txn.writeAttempted || w.txn.restoreAttempted || w.txn.failure != NoFailure || !AtCall(expected, call) then None
    else
      var (w1, current) := ReadPort(o, w);
      if current != Some(expected) then None
      else
        var r := Replacement(expected, call);
        var w2 := w1.(txn := w1.txn.(original := Some(expected), replacement := Some(r), writeAttempted := true));
        var (w3, f) := WriteAndVerify(o, w2, r);
        if f != NoFailure then Some(w3.(txn := w3.txn.(failure := f))) else None
  }

  lemma {:induction false} EveryRunIsConsistent(o: Oracle, thread: Context, cs: seq<Call>, n: nat)
    requires n <= |cs|
    ensures Consistent(WorldAt(o, thread, cs, n))
  {
    hide OnApply, OnRestore;
    if n > 0 {
      EveryRunIsConsistent(o, thread, cs, n - 1);
      var w := WorldAt(o, thread, cs, n - 1);
      match cs[n - 1]
      case Apply(expected, address) => ApplyKeeps(o, w, expected, address);
      case Restore => RestoreKeeps(o, w);
    }
  }

  /** Any sequence of calls makes at most two writes. */
  lemma AtMostTwoWrites(o: Oracle, thread: Context, cs: seq<Call>, n: nat)
    requires n <= |cs|
    ensures |WorldAt(o, thread, cs, n).asked| <= 2
  {
    EveryRunIsConsistent(o, thread, cs, n);
  }

  /** apply true: the thread was exactly as expected before and is exactly the
      replacement after. */
  lemma ApplyTrue(o: Oracle, w: World, expected: Context, call: u32)
    requires OnApply(o, w, expected, call).1
    ensures AtCall(expected, call) && w.thread == expected
    ensures OnApply(o, w, expected, call).0.thread == Replacement(expected, call)
    ensures OnApply(o, w, expected, call).0.asked == w.asked + [Replacement(expected, call)]
  {
    hide AtCall, Replacement;
  }

  /** apply false: this call attempted no write, or a restore has been attempted. */
  lemma ApplyFalse(o: Oracle, w: World, expected: Context, call: u32)
    requires Consistent(w) && !OnApply(o, w, expected, call).1
    ensures var w' := OnApply(o, w, expected, call).0;
            (w'.asked == w.asked && w'.thread == w.thread) || w'.txn.restoreAttempted
  {
    hide AtCall, Replacement;
  }

  /** restored, anywhere in a run: the thread is the context the transaction met, with
      only its DR6 cause bits cleared. */
  lemma RestoredIsOriginal(o: Oracle, thread: Context, cs: seq<Call>, n: nat)
    requires n <= |cs| && WorldAt(o, thread, cs, n).txn.restored
    ensures WorldAt(o, thread, cs, n).thread == thread.(dr6 := 0)
  {
    EveryRunIsConsistent(o, thread, cs, n);
    OriginalIsFirst(o, thread, cs, n);
  }

  /** Until the first write the thread is the initial one, and that is what is recorded. */
  lemma {:induction false} OriginalIsFirst(o: Oracle, thread: Context, cs: seq<Call>, n: nat)
    requires n <= |cs|
    ensures var w := WorldAt(o, thread, cs, n);
            if w.txn.writeAttempted then w.txn.original == Some(thread) else w.thread == thread
  {
    if n > 0 {
      OriginalIsFirst(o, thread, cs, n - 1);
      OneCall(o, WorldAt(o, thread, cs, n - 1), cs[n - 1]);
    }
  }

  lemma OneCall(o: Oracle, w: World, c: Call)
    ensures var w' := Step(o, w, c).0;
            && (w.txn.writeAttempted ==> w'.txn.original == w.txn.original && w'.txn.writeAttempted)
            && (!w.txn.writeAttempted && w'.txn.writeAttempted ==> w'.txn.original == Some(w.thread))
            && (!w.txn.writeAttempted && !w'.txn.writeAttempted ==> w'.thread == w.thread)
  {
    hide AtCall, Replacement;
  }

  /** The transaction is one-shot: once a call has failed or written, apply is inert. */
  lemma {:induction false} AppliesOnce(o: Oracle, thread: Context, cs: seq<Call>, i: nat, j: nat)
    requires i < j < |cs| && cs[i].Apply? && cs[j].Apply?
    ensures !ResultAt(o, thread, cs, j)
    ensures WorldAt(o, thread, cs, j + 1) == WorldAt(o, thread, cs, j)
  {
    hide AtCall, Replacement, OnRestore;
    SpentStays(o, thread, cs, i + 1, j);
  }

  predicate Spent(t: Txn) { t.writeAttempted || t.restoreAttempted || t.failure != NoFailure }

  lemma {:induction false} SpentStays(o: Oracle, thread: Context, cs: seq<Call>, i: nat, j: nat)
    requires 0 < i <= j <= |cs| && cs[i - 1].Apply?
    ensures Spent(WorldAt(o, thread, cs, j).txn)
    decreases j
  {
    hide Step, Spent;
    SpentStep(o, WorldAt(o, thread, cs, j - 1), cs[j - 1]);
    if i < j { SpentStays(o, thread, cs, i, j - 1); }
  }

  lemma SpentStep(o: Oracle, w: World, c: Call)
    ensures Spent(w.txn) || c.Apply? ==> Spent(Step(o, w, c).0.txn)
  {
    hide AtCall, Replacement;
  }
}
