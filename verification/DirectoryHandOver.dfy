// Between the copy and the scan: the buffer the copier leaves is the buffer the
// ready check starts from, and the two together give the finished directory.

module DirectoryHandOver {
  import opened Words
  import opened X86
  import opened CwdCopyFrame
  import opened FileManagerReady
  import opened FileManagerScan

  /** A buffer that passed the copy check passes the ready check as its own starting point. */
  lemma CopiedIsReady(before: seq<byte>, after: seq<byte>, source: seq<byte>, len: nat)
    requires |before| == 136 && |after| == 136 && |source| == 260
    requires BufferMatches(before, after, source, len, true)
    ensures ReadyBuffer(after, after, len, false)
  {
    CopiedBytes(before, after, source, len);
  }

  lemma CopiedBytes(before: seq<byte>, after: seq<byte>, source: seq<byte>, len: nat)
    requires |before| == 136 && |after| == 136 && |source| == 260
    requires BufferMatches(before, after, source, len, true)
    ensures 3 <= len <= 126 && after[len + 4] == 0
    ensures forall i :: 4 <= i < len + 4 ==> after[i] == source[i - 4] != 0
  {
    assert forall i :: 4 <= i <= len + 4 ==> after[i] == Expected(before, source, len, true, i);
  }

  /** The copied buffer in memory is a directory the scan can start on. */
  lemma CopiedIsDirectory(m: Memory, buffer: u32, before: seq<byte>, source: seq<byte>, len: nat)
    requires |before| == 136 && |source| == 260 && 4 <= buffer <= U32_MAX - 128
    requires BufferMatches(before, Window(m, buffer - 4, 136), source, len, true)
    requires forall a :: buffer <= a < buffer + 128 ==> a in m
    ensures Directory(m, buffer, len)
  {
    var after := Window(m, buffer - 4, 136);
    CopiedBytes(before, after, source, len);
    forall a {:trigger At(m, a)} | buffer <= a <= buffer + len ensures At(m, a) == after[a - buffer + 4] {}
    assert At(m, buffer + len) == after[len + 4];
  }

  /** Copy, scan and suffix together: the final window is the source's text with the
      separator and a terminator behind it, and the old bytes everywhere else. */
  lemma FinishedDirectory(before: seq<byte>, copied: seq<byte>, now: seq<byte>, source: seq<byte>, len: nat)
    requires |before| == 136 && |copied| == 136 && |now| == 136 && |source| == 260
    requires BufferMatches(before, copied, source, len, true) && ReadyBuffer(copied, now, len, true)
    ensures len <= 126 && now[4..] == source[..len] + [0x5c, 0] + before[len + 6..] && now[..4] == before[..4]
  {
    CopiedBytes(before, copied, source, len);
    assert now == copied[len + 4 := 0x5c][len + 5 := 0];
    assert forall i :: 0 <= i < 136 && !(4 <= i <= len + 4) ==> copied[i] == Expected(before, source, len, true, i);
    hide BufferMatches, ReadyBuffer, Expected;
  }
}
