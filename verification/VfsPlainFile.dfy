/**
  The reference for a file handle: a file without a buffer. Every run of operations on a handle,
  whatever stdio keeps back and whenever it writes it out, reads what the plain file would read,
  and close() leaves on the disk what the plain file holds.
 */
module VfsPlainFile {
  import opened Wrappers
  import opened VfsFile
  import opened VfsFileLaws

  /** `data` with `bytes` put at offset `at`, byte by byte; a hole reads as zeros. */
  function Put(data: Bytes, at: nat, bytes: Bytes): Bytes {
    if bytes == [] then data
    else
      var size := if at + |bytes| > |data| then at + |bytes| else |data|;
      seq(size, (i: nat) =>
        if at <= i < at + |bytes| then bytes[i - at] else if i < |data| then data[i] else 0)
  }

  lemma OverlayIsPut(data: Bytes, at: nat, bytes: Bytes)
    ensures Overlay(data, at, bytes) == Put(data, at, bytes)
  {
    if bytes != [] {
      var o, p := Overlay(data, at, bytes), Put(data, at, bytes);
      assert |o| == |p|;
      forall i | 0 <= i < |o|
        ensures o[i] == p[i]
      {
        if i < at {
          assert o[i] == Head(data, at)[i];
        } else if i < at + |bytes| {
          assert o[at..at + |bytes|][i - at] == bytes[i - at];
        } else {
          assert o[i] == Tail(data, at + |bytes|)[i - (at + |bytes|)];
        }
      }
    }
  }

  datatype Plain = Plain(canRead: bool, canWrite: bool, append: bool, data: Bytes, pos: nat)
  {
    function Write(bytes: Bytes): Plain {
      var at := if append then |data| else pos;
      this.(data := Put(data, at, bytes), pos := at + |bytes|)
    }

    function Read(): (int, Plain) {
      if canRead && pos < |data| then (data[pos] as int, this.(pos := pos + 1)) else (-1, this)
    }

    function Seek(to: nat, mode: SeekMode): Plain {
      match mode
      case SeekSet => this.(pos := to)
      case SeekCur => this.(pos := pos + to)
      case SeekEnd => this.(pos := |data| + to)
    }

    /** What an operation returns, of those that return data, and the file after it. */
    function Do(op: Op): (seq<int>, Plain) {
      match op
      case Write(buf, accepted, _) =>
        ([], if canWrite && buf != [] && accepted <= |buf| then Write(buf[..accepted]) else this)
      case Seek(to, mode) => ([], Seek(to, mode))
      case Read =>
        var (b, after) := Read();
        ([b], after)
      case Peek =>
        var (b, after) := Read();
        ([b], after.Seek(pos % UINT32, SeekSet))
      case _ => ([], this)
    }

    function Run(ops: seq<Op>): (seq<int>, Plain)
      decreases |ops|
    {
      if ops == [] then ([], this)
      else
        var (first, after) := Do(ops[0]);
        var (rest, end) := after.Run(ops[1..]);
        (first + rest, end)
    }
  }

  /** What a handle stands for. */
  function Meaning(h: Handle): Plain
    requires h.IsFile()
  {
    var f := h.file.value;
    Plain(f.canRead, f.canWrite, f.append, Contents(h), h.Position())
  }

  /** What the handle itself returns. */
  function Returned(h: Handle, op: Op): seq<int> {
    if op.Read? || op.Peek? then [h.ReadByte()] else []
  }

  function ReturnedAll(h: Handle, ops: seq<Op>): seq<int>
    requires AllPossible(h, ops)
    decreases |ops|
  {
    if ops == [] then [] else Returned(h, ops[0]) + ReturnedAll(VfsFileLaws.Run(h, ops[0]), ops[1..])
  }

  lemma FlushMeansSame(h: Handle)
    requires h.IsFile()
    ensures h.Flush().IsFile() && Meaning(h.Flush()) == Meaning(h)
    ensures h.Flush().disk == Contents(h) && !Buffered(h.Flush())
  {
    FlushKeepsFile(h);
    FlushKeepsFile(h.Flush());
  }

  lemma MoveMeans(h: Handle, pos: nat)
    requires h.IsFile() && !Buffered(h)
    ensures h.MoveTo(pos).IsFile() && Meaning(h.MoveTo(pos)) == Meaning(h).(pos := pos)
    ensures !Buffered(h.MoveTo(pos))
  {
    FlushKeepsFile(h);
    FlushKeepsFile(h.MoveTo(pos));
  }

  lemma SeekMeans(h: Handle, to: uint32, mode: SeekMode)
    requires h.IsFile()
    ensures h.Seek(to, mode).IsFile() && Meaning(h.Seek(to, mode)) == Meaning(h).Seek(to, mode)
    ensures !Buffered(h.Seek(to, mode))
  {
    FlushMeansSame(h);
    MoveMeans(h.Flush(), h.SeekBase(mode) + to);
  }

  lemma ReadMeans(h: Handle)
    requires h.IsFile()
    ensures h.AfterRead().IsFile() && (h.ReadByte(), Meaning(h.AfterRead())) == Meaning(h).Read()
    ensures Buffered(h.AfterRead()) ==> h.AfterRead() == h
  {
    FlushMeansSame(h);
    if h.CanRead() {
      MoveMeans(h.Flush(), h.Position() + 1);
    }
  }

  lemma WriteMeans(h: Handle, buf: Bytes, accepted: nat, spilled: nat)
    requires h.IsFile() && AppendsAtEnd(h) && Possible(h, Op.Write(buf, accepted, spilled))
    ensures var h' := h.Write(buf, accepted, spilled);
            h'.IsFile()
            && Meaning(h') == Meaning(h).Do(Op.Write(buf, accepted, spilled)).1
  {
    if h.file.value.canWrite && buf != [] {
      WriteLandsAtTarget(h, buf, accepted, spilled);
      OverlayIsPut(Contents(h), Target(h), buf[..accepted]);
    } else if h.file.value.canWrite || buf == [] {
      assert h.Write(buf, accepted, spilled) == h;
    } else {
      ContentsAre(h);
      ContentsAre(h.Write(buf, accepted, spilled));
    }
  }

  lemma StatMeans(h: Handle, ok: bool)
    requires h.IsFile()
    ensures h.GetStat(ok).IsFile() && Meaning(h.GetStat(ok)) == Meaning(h)
    ensures h.AfterSize(ok).IsFile() && Meaning(h.AfterSize(ok)) == Meaning(h)
  {
    ContentsAre(h);
    ContentsAre(h.GetStat(ok));
  }

  lemma StepMeans(h: Handle, op: Op)
    requires h.IsFile() && AppendsAtEnd(h) && Possible(h, op)
    ensures VfsFileLaws.Run(h, op).IsFile()
    ensures (Returned(h, op), Meaning(VfsFileLaws.Run(h, op))) == Meaning(h).Do(op)
  {
    match op
    case Write(buf, accepted, spilled) => WriteMeans(h, buf, accepted, spilled);
    case Flush => FlushMeansSame(h);
    case Seek(to, mode) => SeekMeans(h, to, mode);
    case Read => ReadMeans(h);
    case Peek =>
      ReadMeans(h);
      SeekMeans(h.AfterRead(), h.Position() % UINT32, SeekSet);
    case Size(ok) => StatMeans(h, ok);
    case LastWrite(ok) => StatMeans(h, ok);
    case Available(ok) => StatMeans(h, ok);
  }

  /** Over every run, buffering shows neither in what is read nor in what the file means. */
  lemma {:induction false} RunMeans(h: Handle, ops: seq<Op>)
    requires h.IsFile() && AppendsAtEnd(h) && AllPossible(h, ops)
    ensures RunAll(h, ops).IsFile()
    ensures (ReturnedAll(h, ops), Meaning(RunAll(h, ops))) == Meaning(h).Run(ops)
    decreases |ops|
  {
    if ops != [] {
      StepMeans(h, ops[0]);
      AppendStep(h, ops[0]);
      RunMeans(VfsFileLaws.Run(h, ops[0]), ops[1..]);
    }
  }

  /** close() leaves the contents on the disk and takes stream and path away; a directory's disk is left alone. */
  lemma CloseKeepsContents(h: Handle)
    ensures h.IsFile() ==>
              && h.Closed().disk == Put(h.disk, h.file.value.base, h.file.value.pending)
              && h.Closed().disk == Contents(h) && h.Closed().file == None
    ensures !h.IsFile() ==> h.Closed().disk == h.disk
    ensures !h.Closed().named && !h.Closed().isDirectory && h.Closed().cached == h.cached
  {
    if h.IsFile() {
      ContentsAre(h);
      OverlayIsPut(h.disk, h.file.value.base, h.file.value.pending);
    }
  }

  /** The modes of the C standard. */
  predicate IsMode(mode: string) {
    mode in ["r", "r+", "w", "w+", "a", "a+"]
  }

  /** A file as fopen leaves it. */
  function Opened(mode: string, data: Bytes): Plain
    requires IsMode(mode)
  {
    if mode == "r" then Plain(true, false, false, data, 0)
    else if mode == "r+" then Plain(true, true, false, data, 0)
    else if mode == "w" then Plain(false, true, false, [], 0)
    else if mode == "w+" then Plain(true, true, false, [], 0)
    else if mode == "a" then Plain(false, true, true, data, |data|)
    else Plain(true, true, true, data, 0)
  }

  /** The constructor, case by case: what was found, what the mode asks for, whether the call succeeds. */
  lemma OpenMeans(mode: string, data: Bytes)
    requires IsMode(mode)
    ensures var h := Open(Regular, mode, true, data);
            && h.IsFile() && !Buffered(h) && Meaning(h) == Opened(mode, data)
            && h.cached == Some(|data|) && !h.written && h.named
    ensures mode != "r" && mode != "r+" ==>
              var h := Open(Missing, mode, true, []);
              h.IsFile() && !Buffered(h) && Meaning(h) == Opened(mode, []) && h.cached == None && !h.written && h.named
    ensures forall opens :: mode == "r" || mode == "r+" ==>
              Open(Missing, mode, opens, []) == Handle(None, opens, None, false, [], true)
    ensures forall opens :: Open(Directory, mode, opens, data) == Handle(None, opens, Some(|data|), false, data, true)
    ensures forall opens :: Open(Other, mode, opens, data) == Handle(None, false, Some(|data|), false, data, true)
    ensures Open(Regular, mode, false, data) == Handle(None, false, Some(|data|), false, data, true)
  {
    assert |"r"| == |"w"| == |"a"| == 1 && |"r+"| == |"w+"| == |"a+"| == 2;
    assert "r"[0] == 'r' && "r+"[0] == 'r' && "w"[0] == 'w' && "w+"[0] == 'w' && "a"[0] == 'a' && "a+"[0] == 'a';
    assert '+' !in "r" && '+' !in "w" && '+' !in "a";
    assert "r+"[1] == '+' && "w+"[1] == '+' && "a+"[1] == '+';
    ContentsAre(Open(Regular, mode, true, data));
    if mode != "r" && mode != "r+" {
      ContentsAre(Open(Missing, mode, true, []));
    }
  }

  /**
    Open an existing file, or create one, do anything, close: everything read is what the plain
    file gives, and the disk holds what the plain file holds.
   */
  lemma OpenRunClose(found: Found, mode: string, data: Bytes, ops: seq<Op>)
    requires IsMode(mode)
    requires found == Regular || (found == Missing && data == [] && mode != "r" && mode != "r+")
    requires AllPossible(Open(found, mode, true, data), ops)
    ensures var h, (out, end) := Open(found, mode, true, data), Opened(mode, data).Run(ops);
            && ReturnedAll(h, ops) == out
            && RunAll(h, ops).Closed().disk == end.data
            && RunAll(h, ops).Closed().file == None
  {
    OpenMeans(mode, data);
    RunMeans(Open(found, mode, true, data), ops);
    CloseKeepsContents(RunAll(Open(found, mode, true, data), ops));
  }
}
