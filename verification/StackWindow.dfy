// A window of stack words and the words of the thread block behind FS, seen as
// two arrays; a store into either is an array update and touches nothing else.

module StackWindow {
  import opened Words
  import opened X86

  ghost predicate View(m0: Memory, m: Memory, lo: int, st: seq<u32>, fs: int, tib: seq<u32>) {
    && 0 <= lo && lo + 4 * |st| <= M32 && 0 <= fs && fs + 4 * |tib| <= M32
    && Apart(lo, 4 * |st|, fs, 4 * |tib|)
    && (forall k {:trigger st[k]} :: 0 <= k < |st| ==> Load32(m, lo + 4 * k) == Some(st[k]))
    && (forall k {:trigger tib[k]} :: 0 <= k < |tib| ==> Load32(m, fs + 4 * k) == Some(tib[k]))
    && m.Keys == m0.Keys
    && (forall x {:trigger m[x]} ::
          x in m && !(lo <= x < lo + 4 * |st|) && !(fs <= x < fs + 4 * |tib|) ==> m[x] == m0[x])
  }

  lemma Loads(m0: Memory, m: Memory, lo: int, st: seq<u32>, fs: int, tib: seq<u32>, k: nat)
    requires View(m0, m, lo, st, fs, tib) && k < |st|
    ensures Load32(m, lo + 4 * k) == Some(st[k])
  {}

  lemma LoadsTib(m0: Memory, m: Memory, lo: int, st: seq<u32>, fs: int, tib: seq<u32>, k: nat)
    requires View(m0, m, lo, st, fs, tib) && k < |tib|
    ensures Load32(m, fs + 4 * k) == Some(tib[k])
  {}

  lemma LoadedIsMapped(m: Memory, a: int)
    requires Load32(m, a).Some?
    ensures a in m && a + 1 in m && a + 2 in m && a + 3 in m && 0 <= a < M32 - 3
  {}

  lemma Stores(m0: Memory, m: Memory, lo: int, st: seq<u32>, fs: int, tib: seq<u32>, k: nat, v: u32)
    returns (m': Memory)
    requires View(m0, m, lo, st, fs, tib) && k < |st|
    ensures Store32(m, lo + 4 * k, v) == Some(m') && View(m0, m', lo, st[k := v], fs, tib)
  {
    hide Load32, Store32, ByteOf;
    var a := lo + 4 * k;
    Loads(m0, m, lo, st, fs, tib, k);
    LoadedIsMapped(m, a);
    m' := Effect32(m, a, v);
    LoadStored(m', a, v);
    forall j | 0 <= j < |st| ensures Load32(m', lo + 4 * j) == Some(st[k := v][j]) {
      if j != k {
        Loads(m0, m, lo, st, fs, tib, j);
        LoadKept(m, m', a, lo + 4 * j, 4);
      }
    }
    forall j | 0 <= j < |tib| ensures Load32(m', fs + 4 * j) == Some(tib[j]) {
      LoadsTib(m0, m, lo, st, fs, tib, j);
      LoadKept(m, m', a, fs + 4 * j, 4);
    }
    assert forall x :: x in m' && !(lo <= x < lo + 4 * |st|) && !(fs <= x < fs + 4 * |tib|) ==> m'[x] == m[x];
  }

  lemma StoresTib(m0: Memory, m: Memory, lo: int, st: seq<u32>, fs: int, tib: seq<u32>, k: nat, v: u32)
    returns (m': Memory)
    requires View(m0, m, lo, st, fs, tib) && k < |tib|
    ensures Store32(m, fs + 4 * k, v) == Some(m') && View(m0, m', lo, st, fs, tib[k := v])
  {
    hide Load32, Store32, ByteOf;
    var a := fs + 4 * k;
    LoadsTib(m0, m, lo, st, fs, tib, k);
    LoadedIsMapped(m, a);
    m' := Effect32(m, a, v);
    LoadStored(m', a, v);
    forall j | 0 <= j < |tib| ensures Load32(m', fs + 4 * j) == Some(tib[k := v][j]) {
      if j != k {
        LoadsTib(m0, m, lo, st, fs, tib, j);
        LoadKept(m, m', a, fs + 4 * j, 4);
      }
    }
    forall j | 0 <= j < |st| ensures Load32(m', lo + 4 * j) == Some(st[j]) {
      Loads(m0, m, lo, st, fs, tib, j);
      LoadKept(m, m', a, lo + 4 * j, 4);
    }
    assert forall x :: x in m' && !(lo <= x < lo + 4 * |st|) && !(fs <= x < fs + 4 * |tib|) ==> m'[x] == m[x];
  }

  /** A part of the window is a window of its own, with the memory of now as the old one. */
  lemma Narrowed(m0: Memory, m: Memory, lo: int, st: seq<u32>, fs: int, tib: seq<u32>, i: nat, n: nat)
    requires View(m0, m, lo, st, fs, tib) && i + n <= |st|
    ensures View(m, m, lo + 4 * i, st[i..i + n], fs, tib)
  {
    hide Load32;
    forall k | 0 <= k < n ensures Load32(m, lo + 4 * i + 4 * k) == Some(st[i..i + n][k]) {
      Loads(m0, m, lo, st, fs, tib, i + k);
    }
  }

  /** What happened inside the part, seen in the whole window. */
  lemma Widened(m0: Memory, m: Memory, m': Memory, lo: int, st: seq<u32>, fs: int, tib: seq<u32>, i: nat,
                part: seq<u32>, tib': seq<u32>)
    requires View(m0, m, lo, st, fs, tib) && i + |part| <= |st| && |tib'| == |tib|
    requires View(m, m', lo + 4 * i, part, fs, tib')
    ensures View(m0, m', lo, st[..i] + part + st[i + |part|..], fs, tib')
  {
    hide Load32;
    var now := st[..i] + part + st[i + |part|..];
    forall k | 0 <= k < |st| ensures Load32(m', lo + 4 * k) == Some(now[k]) {
      if i <= k < i + |part| {
        Loads(m, m', lo + 4 * i, part, fs, tib', k - i);
      } else {
        Loads(m0, m, lo, st, fs, tib, k);
        WordKept(m, m', lo + 4 * i, part, fs, tib', lo + 4 * k);
      }
    }
  }

  /** A word outside the window and the thread block is as it was. */
  lemma WordKept(m0: Memory, m: Memory, lo: int, st: seq<u32>, fs: int, tib: seq<u32>, a: int)
    requires View(m0, m, lo, st, fs, tib) && Apart(a, 4, lo, 4 * |st|) && Apart(a, 4, fs, 4 * |tib|)
    ensures Load32(m, a) == Load32(m0, a)
  {}
}
