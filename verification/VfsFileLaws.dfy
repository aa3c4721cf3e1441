/** What the stat cache, available(), read() and peek() promise of a file handle, and when. */
module VfsFileLaws {
  import opened Wrappers
  import opened VfsFile

  datatype Op =
    | Write(buf: Bytes, accepted: nat, spilled: nat)
    | Flush
    | Seek(pos: uint32, mode: SeekMode)
    | Read
    | Peek
    | Size(ok: bool)
    | LastWrite(ok: bool)
    | Available(ok: bool)

  predicate Queries(op: Op) {
    op.Size? || op.LastWrite? || op.Available?
  }

  predicate Possible(h: Handle, op: Op) {
    op.Write? ==> op.accepted <= |op.buf| && (h.IsFile() ==> op.spilled <= |h.file.value.pending| + op.accepted)
  }

  function Run(h: Handle, op: Op): Handle
    requires Possible(h, op)
  {
    match op
    case Write(buf, accepted, spilled) => h.Write(buf, accepted, spilled)
    case Flush => h.Flush()
    case Seek(pos, mode) => h.Seek(pos, mode)
    case Read => h.AfterRead()
    case Peek => h.AfterPeek()
    case Size(ok) => h.AfterSize(ok)
    case LastWrite(ok) => h.GetStat(ok)
    case Available(ok) => h.AfterSize(ok)
  }

  predicate AllPossible(h: Handle, ops: seq<Op>)
    decreases |ops|
  {
    ops != [] ==> Possible(h, ops[0]) && AllPossible(Run(h, ops[0]), ops[1..])
  }

  function RunAll(h: Handle, ops: seq<Op>): Handle
    requires AllPossible(h, ops)
    decreases |ops|
  {
    if ops == [] then h else RunAll(Run(h, ops[0]), ops[1..])
  }

  /** No size(), getLastWrite() or available() between a write and the flush after it. */
  predicate Patient(ops: seq<Op>, unflushed: bool)
    decreases |ops|
  {
    ops != [] ==>
      && (unflushed ==> !Queries(ops[0]))
      && Patient(ops[1..], if ops[0].Write? then true else if ops[0].Flush? then false else unflushed)
  }

  // ---- stat cache ----

  predicate Buffered(h: Handle) {
    h.IsFile() && h.file.value.pending != []
  }

  /** Either the next size() will stat, or the cached size is the size on disk with nothing buffered. */
  predicate CacheGood(h: Handle) {
    h.IsFile() && h.named && (h.written || (h.cached == Some(|h.disk|) && !Buffered(h)))
  }

  lemma FlushKeepsFile(h: Handle)
    requires h.IsFile()
    ensures h.Flush().IsFile() && !Buffered(h.Flush())
    ensures h.Flush().written == h.written && h.Flush().cached == h.cached && h.Flush().named == h.named
    ensures !Buffered(h) ==> h.Flush() == h
  {
    var f := h.file.value;
    assert f.pending == [] ==> f.pending[..0] == [] && f.pending[0..] == [];
  }

  lemma CacheStep(h: Handle, op: Op, unflushed: bool)
    requires CacheGood(h) && Possible(h, op) && (unflushed ==> !Queries(op)) && (!unflushed ==> !Buffered(h))
    ensures CacheGood(Run(h, op))
    ensures (if op.Write? then true else if op.Flush? then false else unflushed) || !Buffered(Run(h, op))
  {
    FlushKeepsFile(h);
    match op
    case Peek =>
      FlushKeepsFile(h.AfterRead());
    case _ =>
  }

  /** A patient caller never sees a stale cache, however much of the buffer stdio empties on its own. */
  lemma {:induction false} CacheStaysGood(h: Handle, ops: seq<Op>, unflushed: bool)
    requires CacheGood(h) && AllPossible(h, ops) && Patient(ops, unflushed) && (!unflushed ==> !Buffered(h))
    ensures CacheGood(RunAll(h, ops))
    decreases |ops|
  {
    if ops != [] {
      CacheStep(h, ops[0], unflushed);
      CacheStaysGood(Run(h, ops[0]), ops[1..],
                     if ops[0].Write? then true else if ops[0].Flush? then false else unflushed);
    }
  }

  /** A stat that fails, or has no path, changes nothing; one that succeeds makes the cache true. */
  lemma StatOutcomes(h: Handle, ok: bool)
    ensures !ok || !h.named ==> h.GetStat(ok) == h
    ensures ok && h.named ==> h.GetStat(ok).cached == Some(|h.disk|) && !h.GetStat(ok).written
    ensures h.IsFile() && !h.written ==> h.AfterSize(ok) == h && h.Size(ok) == h.cached
    ensures h.IsFile() && h.written && ok && h.named ==> h.Size(ok) == Some(|h.disk|)
    ensures !h.IsFile() ==> h.Size(ok) == Some(0)
  {
  }

  /** A write to a stream not open for writing writes nothing, and marks the handle all the same. */
  lemma RefusedWriteIsDirty(h: Handle, buf: Bytes)
    requires h.IsFile() && !h.file.value.canWrite && buf != []
    ensures h.Write(buf, 0, 0) == h.(written := true)
    ensures h.named ==> h.Write(buf, 0, 0).Size(true) == Some(|h.disk|)
  {
  }

  /** Only close() takes the path away. */
  lemma {:induction false} NameStays(h: Handle, ops: seq<Op>)
    requires AllPossible(h, ops)
    ensures RunAll(h, ops).named == h.named
    decreases |ops|
  {
    if ops != [] {
      NameStaysStep(h, ops[0]);
      NameStays(Run(h, ops[0]), ops[1..]);
    }
  }

  lemma NameStaysStep(h: Handle, op: Op)
    requires Possible(h, op)
    ensures Run(h, op).named == h.named
  {
    match op
    case Write(_, _, _) =>
    case Peek =>
    case _ =>
  }

  /** Right after opening, the cache is good exactly if the file existed and kept its size. */
  lemma CacheAfterOpen(found: Found, mode: string, data: Bytes)
    requires (found.Regular? || found.Missing?) && mode != ""
    requires found.Missing? ==> data == [] && mode[0] != 'r'
    ensures CacheGood(Open(found, mode, true, data)) <==> found.Regular? && (Truncates(mode) ==> data == [])
  {
  }

  /**
    From any open that keeps the file, and from any other after the first write, a patient run
    leaves a handle whose cached size is the size on disk unless marked written, and whose
    size() is the true size whenever nothing is buffered and a stat, if needed, succeeds.
   */
  lemma SizeIsTrue(found: Found, mode: string, data: Bytes, before: seq<Op>, first: Op, ops: seq<Op>)
    requires (found.Regular? || found.Missing?) && mode != ""
    requires found.Missing? ==> data == [] && mode[0] != 'r'
    requires var h := Open(found, mode, true, data);
             && AllPossible(h, before) && RunAll(h, before).IsFile() && Possible(RunAll(h, before), first)
             && AllPossible(Run(RunAll(h, before), first), ops)
    requires first.Write? && first.buf != [] && Patient(ops, true)
    ensures var h := RunAll(Run(RunAll(Open(found, mode, true, data), before), first), ops);
            && (!h.written ==> h.cached == Some(|h.disk|))
            && (!Buffered(h) ==> h.Size(true) == Some(|h.disk|))
  {
    var h := RunAll(Open(found, mode, true, data), before);
    NameStays(Open(found, mode, true, data), before);
    FlushKeepsFile(h);
    CacheStaysGood(Run(h, first), ops, true);
  }

  lemma SizeIsTrueFromOpen(mode: string, data: Bytes, ops: seq<Op>)
    requires mode != "" && !Truncates(mode)
    requires AllPossible(Open(Regular, mode, true, data), ops) && Patient(ops, false)
    ensures var h := RunAll(Open(Regular, mode, true, data), ops);
            && (!h.written ==> h.cached == Some(|h.disk|))
            && (!Buffered(h) ==> h.Size(true) == Some(|h.disk|))
  {
    CacheAfterOpen(Regular, mode, data);
    CacheStaysGood(Open(Regular, mode, true, data), ops, false);
  }

  /**
    A size() before the flush is right afterwards exactly if nothing was buffered or what was
    buffered lies within the file.
   */
  lemma EarlySizeIsStale(h: Handle)
    requires h.IsFile() && h.named && h.written
    ensures var h' := h.AfterSize(true).Flush();
            h'.Size(true) == Some(|h'.disk|) <==> !Buffered(h) || h.Position() <= |h.disk|
  {
    var f := h.file.value;
    assert f.pending[..|f.pending|] == f.pending;
    FlushKeepsFile(h);
  }

  /** A stale size stays, and so does the true one, over every run without a write or a getLastWrite(). */
  lemma {:induction false} CachedSizeStays(h: Handle, ops: seq<Op>)
    requires h.IsFile() && !h.written && !Buffered(h) && AllPossible(h, ops)
    requires forall op :: op in ops ==> !op.Write? && !op.LastWrite?
    ensures var h' := RunAll(h, ops);
            h'.IsFile() && !h'.written && h'.Size(true) == h.Size(true) && h'.disk == h.disk
    decreases |ops|
  {
    if ops != [] {
      assert ops[0] in ops;
      FlushKeepsFile(h);
      FlushKeepsFile(h.AfterRead());
      CachedSizeStays(Run(h, ops[0]), ops[1..]);
    }
  }

  /** It happens: a new file, one byte, size(), flush. From then on size() says 0 of a file of one byte. */
  lemma NewFileStaysEmpty(b: bv8, ops: seq<Op>)
    requires var h := Open(Missing, "w", true, []).Write([b], 1, 0).AfterSize(true).Flush();
             AllPossible(h, ops) && forall op :: op in ops ==> !op.Write? && !op.LastWrite?
    ensures var h' := RunAll(Open(Missing, "w", true, []).Write([b], 1, 0).AfterSize(true).Flush(), ops);
            h'.Size(true) == Some(0) && h'.disk == [b]
  {
    var h := Open(Missing, "w", true, []).Write([b], 1, 0).AfterSize(true);
    FlushKeepsFile(h);
    assert h.file.value.pending == [b] && h.file.value.base == 0 && h.disk == [];
    assert h.Flush().disk == [b];
    CachedSizeStays(h.Flush(), ops);
  }

  // ---- contents ----

  /** Two neighbouring writes to the disk are one. */
  lemma OverlayTwice(data: Bytes, at: nat, a: Bytes, b: Bytes)
    ensures Overlay(Overlay(data, at, a), at + |a|, b) == Overlay(data, at, a + b)
  {
    if a == [] {
      assert a + b == b;
    } else if b == [] {
      assert a + b == a;
    } else {
      OverlayPair(data, at, a, b);
    }
  }

  lemma OverlayIs(data: Bytes, at: nat, bytes: Bytes, head: Bytes, tail: Bytes)
    requires bytes != [] && head == Head(data, at) && tail == Tail(data, at + |bytes|)
    ensures Overlay(data, at, bytes) == head + bytes + tail
  {
  }

  lemma OverlayPair(data: Bytes, at: nat, a: Bytes, b: Bytes)
    requires a != [] && b != []
    ensures Overlay(Overlay(data, at, a), at + |a|, b) == Overlay(data, at, a + b)
  {
    var head, tail := Head(data, at), Tail(data, at + |a| + |b|);
    var both := a + b;
    assert |both| == |a| + |b|;
    OverlayIs(data, at, both, head, tail);
    OverlayParts(data, at, a, at + |a| + |b|);
    OverlayIs(Overlay(data, at, a), at + |a|, b, head + a, tail);
    Regrouped(head, a, b, tail);
  }

  lemma Regrouped(a: Bytes, b: Bytes, c: Bytes, d: Bytes)
    ensures a + b + c + d == a + (b + c) + d
  {
  }

  /** The overlaid bytes up to where `a` ends, and from `end` on. */
  lemma OverlayParts(data: Bytes, at: nat, a: Bytes, end: nat)
    requires a != [] && at + |a| <= end
    ensures Head(Overlay(data, at, a), at + |a|) == Head(data, at) + a
    ensures Tail(Overlay(data, at, a), end) == Tail(data, end)
  {
    var front, back := Head(data, at) + a, Tail(data, at + |a|);
    assert Overlay(data, at, a) == front + back;
    assert (front + back)[..at + |a|] == front;
    if end < |data| {
      assert (front + back)[end..] == back[end - |front|..];
      assert back[end - |front|..] == data[end..];
    }
  }

  lemma CutAt(bytes: Bytes, k: nat)
    requires k <= |bytes|
    ensures bytes == bytes[..k] + bytes[k..] && |bytes[..k]| == k
  {
  }

  lemma OverlayOfSum(data: Bytes, at: nat, bytes: Bytes, front: Bytes, back: Bytes)
    requires bytes == front + back
    ensures Overlay(Overlay(data, at, front), at + |front|, back) == Overlay(data, at, bytes)
  {
    OverlayTwice(data, at, front, back);
  }

  lemma OverlaySplit(data: Bytes, at: nat, bytes: Bytes, k: nat)
    requires k <= |bytes|
    ensures Overlay(Overlay(data, at, bytes[..k]), at + k, bytes[k..]) == Overlay(data, at, bytes)
  {
    CutAt(bytes, k);
    OverlayOfSum(data, at, bytes, bytes[..k], bytes[k..]);
  }

  /** What the file will hold once the buffer is written out. */
  function Contents(h: Handle): Bytes {
    h.Flush().disk
  }

  /** When stdio empties its buffer, and how much of it, makes no difference to the contents. */
  lemma SpillIsInvisible(h: Handle, k: nat)
    requires h.IsFile() && k <= |h.file.value.pending|
    ensures Contents(h.Spill(k)) == Contents(h) && h.Spill(k).Position() == h.Position()
  {
    var f := h.file.value;
    ContentsAre(h);
    ContentsAre(h.Spill(k));
    OverlaySplit(h.disk, f.base, f.pending, k);
  }

  lemma ContentsAre(h: Handle)
    requires h.IsFile()
    ensures Contents(h) == Overlay(h.disk, h.file.value.base, h.file.value.pending)
  {
    var f := h.file.value;
    assert f.pending[..|f.pending|] == f.pending;
  }

  /** In append mode, what is buffered belongs at the end of the file. */
  predicate AppendsAtEnd(h: Handle) {
    h.IsFile() && h.file.value.append && Buffered(h) ==> h.file.value.base == |h.disk|
  }

  lemma AppendStep(h: Handle, op: Op)
    requires AppendsAtEnd(h) && Possible(h, op)
    ensures AppendsAtEnd(Run(h, op))
  {
    if h.IsFile() {
      FlushKeepsFile(h);
    }
    if op.Peek? && h.IsFile() {
      FlushKeepsFile(h.AfterRead());
    }
  }

  /** ... after every run of operations from opening. */
  lemma {:induction false} AppendRun(h: Handle, ops: seq<Op>)
    requires AppendsAtEnd(h) && AllPossible(h, ops)
    ensures AppendsAtEnd(RunAll(h, ops))
    decreases |ops|
  {
    if ops != [] {
      AppendStep(h, ops[0]);
      AppendRun(Run(h, ops[0]), ops[1..]);
    }
  }

  /** Where a write goes: the position, or the end of the file in append mode. */
  function Target(h: Handle): nat {
    if h.IsFile() && h.file.value.append then |Contents(h)| else h.Position()
  }

  /** The handle once the bytes are in the buffer, and before stdio empties any of it. */
  function Accepted(h: Handle, bytes: Bytes): Handle
    requires h.IsFile()
  {
    var f := h.file.value;
    var base := if f.append && f.pending == [] then |h.disk| else f.base;
    h.(written := true, file := Some(f.(base := base, pending := f.pending + bytes)))
  }

  lemma AcceptedContents(h: Handle, bytes: Bytes)
    requires h.IsFile() && AppendsAtEnd(h)
    ensures Contents(Accepted(h, bytes)) == Overlay(Contents(h), Target(h), bytes)
    ensures Accepted(h, bytes).Position() == Target(h) + |bytes|
  {
    var f := h.file.value;
    ContentsAre(h);
    ContentsAre(Accepted(h, bytes));
    OverlayTwice(h.disk, Accepted(h, bytes).file.value.base, f.pending, bytes);
  }

  /** A write puts its bytes at the target, whatever was buffered before and is emptied meanwhile. */
  lemma WriteLandsAtTarget(h: Handle, buf: Bytes, accepted: nat, spilled: nat)
    requires h.IsFile() && h.file.value.canWrite && buf != [] && Possible(h, Write(buf, accepted, spilled))
    requires AppendsAtEnd(h)
    ensures var h' := h.Write(buf, accepted, spilled);
            h'.IsFile() && Contents(h') == Overlay(Contents(h), Target(h), buf[..accepted])
            && h'.Position() == Target(h) + accepted
  {
    AcceptedContents(h, buf[..accepted]);
    SpillIsInvisible(Accepted(h, buf[..accepted]), spilled);
  }

  lemma OverlayAt(data: Bytes, at: nat, bytes: Bytes, i: nat)
    requires i < |bytes|
    ensures at + i < |Overlay(data, at, bytes)| && Overlay(data, at, bytes)[at + i] == bytes[i]
  {
    assert Overlay(data, at, bytes)[at..at + |bytes|][i] == bytes[i];
  }

  lemma SeekThenRead(h: Handle, pos: uint32)
    requires h.IsFile() && h.file.value.canRead && pos < |Contents(h)|
    ensures h.Seek(pos, SeekSet).ReadByte() == Contents(h)[pos] as int
  {
    FlushKeepsFile(h);
    FlushKeepsFile(h.Seek(pos, SeekSet));
  }

  lemma WrittenByte(h: Handle, buf: Bytes, accepted: nat, spilled: nat, i: nat)
    requires h.IsFile() && h.file.value.canWrite && AppendsAtEnd(h)
    requires buf != [] && Possible(h, Write(buf, accepted, spilled)) && i < accepted
    ensures var h' := h.Write(buf, accepted, spilled);
            && h'.IsFile() && h'.file.value.canRead == h.file.value.canRead
            && Target(h) + i < |Contents(h')| && Contents(h')[Target(h) + i] == buf[i]
  {
    WriteLandsAtTarget(h, buf, accepted, spilled);
    OverlayAt(Contents(h), Target(h), buf[..accepted], i);
  }

  /**
    Write, seek back, read, on any stream open for both: seek() gets to a byte just written
    exactly while its position fits 32 bits, and then that byte comes back.
   */
  lemma WrittenIsReadBack(h: Handle, buf: Bytes, accepted: nat, spilled: nat, i: nat)
    requires h.IsFile() && h.file.value.canWrite && h.file.value.canRead && AppendsAtEnd(h)
    requires buf != [] && Possible(h, Write(buf, accepted, spilled)) && i < accepted
    ensures var at := Target(h) + i;
            var h' := h.Write(buf, accepted, spilled).Seek(at % UINT32, SeekSet);
            (h'.Position() == at <==> at < UINT32) && (at < UINT32 ==> h'.ReadByte() == buf[i] as int)
  {
    WrittenByte(h, buf, accepted, spilled, i);
    SeekLands(h.Write(buf, accepted, spilled), Target(h) + i);
  }

  lemma SeekLands(h: Handle, at: nat)
    requires h.IsFile() && h.file.value.canRead && at < |Contents(h)|
    ensures h.Seek(at % UINT32, SeekSet).Position() == at <==> at < UINT32
    ensures at < UINT32 ==> h.Seek(at % UINT32, SeekSet).ReadByte() == Contents(h)[at] as int
  {
    FlushKeepsFile(h);
    assert h.Seek(at % UINT32, SeekSet).Position() == at % UINT32;
    if at < UINT32 {
      assert at % UINT32 == at;
      SeekThenRead(h, at);
    }
  }

  // ---- reading ----

  /** A read-only handle whose file nobody changes, at a position within it. */
  predicate Reading(h: Handle) {
    && h.IsFile() && h.file.value.canRead && h.file.value.pending == []
    && !h.written && h.cached == Some(|h.disk|) && h.Position() <= |h.disk|
  }

  lemma OpenForReading(data: Bytes)
    ensures Reading(Open(Regular, "r", true, data)) && Open(Regular, "r", true, data).Position() == 0
  {
  }

  function Available(h: Handle): int
    requires h.Size(true).Some?
  {
    AsInt(h.Size(true).value - h.Position())
  }

  lemma ReadStep(h: Handle)
    requires Reading(h)
    ensures h.AfterRead() == (if h.Position() < |h.disk| then h.MoveTo(h.Position() + 1) else h)
    ensures h.ReadByte() == (if h.Position() < |h.disk| then h.disk[h.Position()] as int else -1)
    ensures Reading(h.AfterRead())
  {
    FlushKeepsFile(h);
  }

  lemma IntOf(left: nat)
    requires left < SIZE_T
    ensures AsInt(left) == left <==> left < UINT32 / 2
    ensures UINT32 / 2 <= left < UINT32 ==> AsInt(left) == left - UINT32
  {
    assert left % SIZE_T == left;
    assert left < UINT32 ==> left % UINT32 == left;
  }

  /** available() counts the bytes left exactly while they fit an int, and then falls with each read. */
  lemma AvailableCounts(h: Handle)
    requires Reading(h) && |h.disk| - h.Position() < SIZE_T
    ensures var left := |h.disk| - h.Position();
            && (Available(h) == left <==> left < UINT32 / 2)
            && (UINT32 / 2 <= left < UINT32 ==> Available(h) == left - UINT32)
            && (left < UINT32 / 2 && left > 0 ==> Available(h.AfterRead()) == Available(h) - 1)
            && (left == 0 ==> Available(h) == 0 && h.ReadByte() == -1)
  {
    var left := |h.disk| - h.Position();
    ReadStep(h);
    IntOf(left);
    assert Available(h) == AsInt(left);
    if left > 0 {
      IntOf(left - 1);
      assert Available(h.AfterRead()) == AsInt(left - 1);
    }
  }

  /** while (available() > 0) read(); as the values read. */
  function DrainAll(h: Handle): seq<int>
    requires Reading(h) && |h.disk| - h.Position() < UINT32 / 2
    decreases |h.disk| - h.Position()
  {
    AvailableCounts(h);
    ReadStep(h);
    if Available(h) <= 0 then [] else [h.ReadByte()] + DrainAll(h.AfterRead())
  }

  lemma {:induction false} DrainReadsTheRest(h: Handle)
    requires Reading(h) && |h.disk| - h.Position() < UINT32 / 2
    ensures |DrainAll(h)| == |h.disk| - h.Position()
    ensures forall i :: 0 <= i < |DrainAll(h)| ==> DrainAll(h)[i] == h.disk[h.Position() + i] as int
    decreases |h.disk| - h.Position()
  {
    AvailableCounts(h);
    ReadStep(h);
    if Available(h) > 0 {
      var h', rest := h.AfterRead(), DrainAll(h.AfterRead());
      DrainReadsTheRest(h');
      assert DrainAll(h) == [h.ReadByte()] + rest;
      forall i | 0 <= i < |rest|
        ensures rest[i] == h.disk[h.Position() + 1 + i] as int
      {
        assert h'.disk == h.disk && h'.Position() == h.Position() + 1;
      }
    }
  }

  /** peek() returns what read() would and moves nothing, exactly while the position fits 32 bits. */
  lemma PeekKeepsPosition(h: Handle)
    requires Reading(h)
    ensures h.AfterPeek() == h <==> h.Position() < UINT32
    ensures h.Position() < UINT32 ==> h.AfterPeek().ReadByte() == h.ReadByte()
  {
    ReadStep(h);
    FlushKeepsFile(h.AfterRead());
    assert h.AfterPeek() == h.MoveTo(h.Position() % UINT32);
  }

  function Peeks(h: Handle, n: nat): Handle
    decreases n
  {
    if n == 0 then h else Peeks(h.AfterPeek(), n - 1)
  }

  lemma {:induction false} AnyNumberOfPeeks(h: Handle, n: nat)
    requires Reading(h) && h.Position() < UINT32
    ensures Peeks(h, n) == h
    decreases n
  {
    if n > 0 {
      PeekKeepsPosition(h);
      AnyNumberOfPeeks(h, n - 1);
    }
  }
}
