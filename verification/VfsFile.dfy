/**
  The file half of cores/ardulinux/FS/vfs_api.cpp and cores/ardulinux/FS/FS.cpp: a handle over
  a buffered stdio stream, with a stat result that is cached until something is written.

  `Handle` is a handle together with the one disk file behind it, of which it is the only
  writer; its members say what each call does. `VFSFileImpl` and `File` are the objects.
 */
module VfsFile {
  import opened Wrappers

  type Bytes = seq<bv8>

  const UINT32: nat := 0x1_0000_0000
  /** The position argument of seek(). */
  type uint32 = n: nat | n < UINT32

  datatype SeekMode = SeekSet | SeekCur | SeekEnd

  const SIZE_T: nat := 0x1_0000_0000_0000_0000

  /** A size_t difference returned as int. */
  function AsInt(difference: int): int {
    var low := (difference % SIZE_T) % UINT32;
    if low < UINT32 / 2 then low else low - UINT32
  }

  function Zeros(n: nat): Bytes {
    seq(n, _ => 0)
  }

  /** The first `at` bytes, with zeros for those that do not exist. */
  function Head(data: Bytes, at: nat): (r: Bytes)
    ensures |r| == at
  {
    if at <= |data| then data[..at] else data + Zeros(at - |data|)
  }

  function Tail(data: Bytes, from: nat): Bytes {
    if from < |data| then data[from..] else []
  }

  /** `data` after writing `bytes` at offset `at`, filling any hole with zeros. */
  function Overlay(data: Bytes, at: nat, bytes: Bytes): (r: Bytes)
    ensures |r| == if bytes != [] && at + |bytes| > |data| then at + |bytes| else |data|
    ensures bytes != [] ==> r[at..at + |bytes|] == bytes
  {
    if bytes == [] then data else Head(data, at) + bytes + Tail(data, at + |bytes|)
  }

  /** An open FILE*: `pending` is written but still in the buffer, and belongs at offset `base`. */
  datatype Stream = Stream(canRead: bool, canWrite: bool, append: bool, base: nat, pending: Bytes)
  {
    function Pos(): nat { base + |pending| }
  }

  function Truncates(mode: string): bool {
    mode != "" && mode[0] == 'w'
  }

  /** A stream that only appends starts at the end of the file; "a+" starts reading at the beginning. */
  function OpenStream(mode: string, data: Bytes): Stream {
    var append := mode != "" && mode[0] == 'a';
    var canRead := mode != "" && (mode[0] == 'r' || '+' in mode);
    var canWrite := mode != "" && (mode[0] != 'r' || '+' in mode);
    Stream(canRead, canWrite, append, if append && !canRead then |data| else 0, [])
  }

  datatype Handle = Handle(
    file: Option<Stream>,
    isDirectory: bool,
    cached: Option<nat>,   // _stat.st_size; None while _stat was never filled
    written: bool,
    disk: Bytes,
    named: bool)           // _path, freed by close()
  {
    predicate IsFile() {
      !isDirectory && file.Some?
    }

    /** Move the first `k` pending bytes to the disk. */
    function Spill(k: nat): Handle
      requires file.Some? && k <= |file.value.pending|
    {
      var f := file.value;
      this.(disk := Overlay(disk, f.base, f.pending[..k]),
            file := Some(f.(base := f.base + k, pending := f.pending[k..])))
    }

    /** `accepted` bytes of `buf` get into the buffer, of which `spilled` go on to the disk at once. */
    function Write(buf: Bytes, accepted: nat, spilled: nat): Handle
      requires accepted <= |buf|
      requires IsFile() ==> spilled <= |file.value.pending| + accepted
    {
      if !IsFile() || buf == [] then this
      else if !file.value.canWrite then this.(written := true)
      else
        var f := file.value;
        var base := if f.append && f.pending == [] then |disk| else f.base;
        this.(written := true, file := Some(f.(base := base, pending := f.pending + buf[..accepted]))).Spill(spilled)
    }

    function Flush(): Handle {
      if IsFile() then Spill(|file.value.pending|) else this
    }

    /** fseek writes the buffer out before it moves. */
    function Seek(pos: uint32, mode: SeekMode): Handle {
      if IsFile() then Flush().MoveTo(SeekBase(mode) + pos) else this
    }

    function SeekBase(mode: SeekMode): nat {
      match mode
      case SeekSet => 0
      case SeekCur => Position()
      case SeekEnd => |Flush().disk|
    }

    function MoveTo(pos: nat): Handle
      requires file.Some?
    {
      this.(file := Some(file.value.(base := pos, pending := [])))
    }

    function Position(): nat {
      if IsFile() then file.value.Pos() else 0
    }

    function GetStat(ok: bool): Handle {
      if named && ok then this.(cached := Some(|disk|), written := false) else this
    }

    /** What size() leaves behind; `ok` is whether a stat, if one is made, succeeds. */
    function AfterSize(ok: bool): Handle {
      if IsFile() && written then GetStat(ok) else this
    }

    /** What size() returns: None stands for the bytes of a stat structure never filled. */
    function Size(ok: bool): Option<nat> {
      if IsFile() then AfterSize(ok).cached else Some(0)
    }

    // ---- single-byte reads, as File does them ----

    predicate CanRead() {
      IsFile() && file.value.canRead && Position() < |Flush().disk|
    }

    function ReadByte(): int {
      if CanRead() then Flush().disk[Position()] as int else -1
    }

    /** A stream open for reading writes its buffer out before it reads. */
    function AfterRead(): Handle {
      if CanRead() then Flush().MoveTo(Position() + 1)
      else if IsFile() && file.value.canRead then Flush()
      else this
    }

    function AfterPeek(): Handle {
      AfterRead().Seek(Position() % UINT32, SeekSet)
    }

    /** fclose writes the buffer out; a directory is only closed. */
    function Closed(): Handle {
      if isDirectory then this.(isDirectory := false, named := false) else Flush().(file := None, named := false)
    }
  }

  /** What stat() said of the path before opening. */
  datatype Found = Regular | Directory | Other | Missing

  /** The constructor: stat first, then open, which may truncate or create. */
  function Open(found: Found, mode: string, opens: bool, data: Bytes): Handle
    requires found.Missing? ==> data == []
  {
    var creates := found.Missing? && mode != "" && mode[0] != 'r';
    var cached := if found.Missing? then None else Some(|data|);
    if found.Directory? || (found.Missing? && !creates) then
      Handle(None, opens, cached, false, data, true)
    else if found.Other? || !opens then
      Handle(None, false, cached, false, data, true)
    else
      var disk := if Truncates(mode) then [] else data;
      Handle(Some(OpenStream(mode, disk)), false, cached, false, disk, true)
  }

  class Disk {
    var data: Bytes

    constructor (data: Bytes)
      ensures this.data == data
    {
      this.data := data;
    }
  }

  class VFSFileImpl {
    const disk: Disk
    var f: Option<Stream>
    var isDirectory: bool
    var stat: Option<nat>
    var written: bool
    var named: bool          // _path is not NULL

    ghost function View(): Handle
      reads this, disk
    {
      Handle(f, isDirectory, stat, written, disk.data, named)
    }

    constructor (disk: Disk, found: Found, mode: string, opens: bool)
      requires found.Missing? ==> disk.data == []
      modifies disk
      ensures this.disk == disk && View() == Open(found, mode, opens, old(disk.data))
    {
      this.disk := disk;
      f, isDirectory, stat, written, named := None, false, None, false, true;
      new;
      if !found.Missing? {
        stat := Some(|disk.data|);
        if found.Regular? {
          FOpen(mode, opens);
        } else if found.Directory? {
          isDirectory := opens;
        }
      } else if mode == "" || mode[0] == 'r' {
        isDirectory := opens;
      } else {
        FOpen(mode, opens);
      }
    }

    method FOpen(mode: string, opens: bool)
      modifies this`f, disk
      ensures disk.data == if opens && Truncates(mode) then [] else old(disk.data)
      ensures f == if opens then Some(OpenStream(mode, disk.data)) else old(f)
    {
      if opens {
        if Truncates(mode) {
          disk.data := [];
        }
        f := Some(OpenStream(mode, disk.data));
      }
    }

    /** What stdio does when it empties `k` bytes of its buffer. */
    method Drain(k: nat)
      requires f.Some? && k <= |f.value.pending|
      modifies this`f, disk
      ensures View() == old(View()).Spill(k)
    {
      disk.data := Overlay(disk.data, f.value.base, f.value.pending[..k]);
      f := Some(f.value.(base := f.value.base + k, pending := f.value.pending[k..]));
    }

    method GetStat(ok: bool)
      modifies this`stat, this`written
      ensures View() == old(View()).GetStat(ok)
    {
      if named && ok {
        stat := Some(|disk.data|);
        written := false;
      }
    }

    method GetLastWrite(ok: bool)
      modifies this`stat, this`written
      ensures View() == old(View()).GetStat(ok)
    {
      GetStat(ok);
    }

    method Write(buf: Bytes, accepted: nat, spilled: nat) returns (n: nat)
      requires accepted <= |buf|
      requires !isDirectory && f.Some? ==> spilled <= |f.value.pending| + accepted
      modifies this, disk
      ensures View() == old(View()).Write(buf, accepted, spilled)
      ensures n == if old(View()).IsFile() && buf != [] && old(f).value.canWrite then accepted else 0
    {
      if isDirectory || f.None? || buf == [] {
        return 0;
      }
      written := true;
      if !f.value.canWrite {
        return 0;
      }
      var base := if f.value.append && f.value.pending == [] then |disk.data| else f.value.base;
      f := Some(f.value.(base := base, pending := f.value.pending + buf[..accepted]));
      Drain(spilled);
      n := accepted;
    }

    method Flush()
      modifies this`f, disk
      ensures View() == old(View()).Flush()
    {
      if isDirectory || f.None? {
        return;
      }
      Drain(|f.value.pending|);
    }

    method Seek(pos: uint32, mode: SeekMode) returns (moved: bool)
      modifies this`f, disk
      ensures View() == old(View()).Seek(pos, mode) && moved == old(View()).IsFile()
    {
      if isDirectory || f.None? {
        return false;
      }
      Drain(|f.value.pending|);
      var from := match mode case SeekSet => 0 case SeekCur => f.value.Pos() case SeekEnd => |disk.data|;
      f := Some(f.value.(base := from + pos, pending := []));
      moved := true;
    }

    method Position() returns (pos: nat)
      ensures pos == View().Position()
    {
      pos := if isDirectory || f.None? then 0 else f.value.Pos();
    }

    method Size(ok: bool) returns (size: Option<nat>)
      modifies this`stat, this`written
      ensures View() == old(View()).AfterSize(ok) && size == old(View()).Size(ok)
    {
      if isDirectory || f.None? {
        return Some(0);
      }
      if written {
        GetStat(ok);
      }
      size := stat;
    }

    /** A one-byte read: the byte, or None at the end of the file or on a stream not open for reading. */
    method ReadOne() returns (b: Option<bv8>)
      modifies this`f, disk
      ensures View() == old(View()).AfterRead()
      ensures b == if old(View()).CanRead() then Some(disk.data[old(View()).Position()]) else None
    {
      b := None;
      if !isDirectory && f.Some? && f.value.canRead {
        Drain(|f.value.pending|);
        if f.value.Pos() < |disk.data| {
          b := Some(disk.data[f.value.Pos()]);
          f := Some(f.value.(base := f.value.Pos() + 1, pending := []));
        }
      }
    }

    method Close()
      modifies this, disk
      ensures View() == old(View()).Closed()
    {
      named := false;
      if isDirectory {
        isDirectory := false;
      } else if f.Some? {
        Drain(|f.value.pending|);
        f := None;
      }
    }
  }

  class File {
    var p: Option<VFSFileImpl>

    constructor (impl: VFSFileImpl)
      ensures p == Some(impl)
    {
      p := Some(impl);
    }

    method Read() returns (b: int)
      modifies if p.Some? then {p.value, p.value.disk} else {}
      ensures p.Some? ==> p.value.View() == old(p.value.View()).AfterRead() && b == old(p.value.View()).ReadByte()
      ensures p.None? ==> b == -1
    {
      if p.None? {
        return -1;
      }
      var result := p.value.ReadOne();
      b := if result.None? then -1 else result.value as int;
    }

    method Peek() returns (b: int)
      modifies if p.Some? then {p.value, p.value.disk} else {}
      ensures p.Some? ==> p.value.View() == old(p.value.View()).AfterPeek() && b == old(p.value.View()).ReadByte()
      ensures p.None? ==> b == -1
    {
      if p.None? {
        return -1;
      }
      var curPos := p.value.Position();
      b := Read();
      var moved := Seek(curPos % UINT32, SeekSet);
    }

    method Seek(pos: uint32, mode: SeekMode) returns (moved: bool)
      modifies if p.Some? then {p.value, p.value.disk} else {}
      ensures p.Some? ==>
                p.value.View() == old(p.value.View()).Seek(pos, mode) && moved == old(p.value.View()).IsFile()
      ensures p.None? ==> !moved
    {
      moved := false;
      if p.Some? {
        moved := p.value.Seek(pos, mode);
      }
    }

    /** size() minus position() in size_t, returned as int; None if size() was never known. */
    method Available(ok: bool) returns (n: Option<int>)
      modifies if p.Some? then {p.value} else {}
      ensures p.Some? ==> p.value.View() == old(p.value.View()).AfterSize(ok)
      ensures p.Some? ==>
                var size := old(p.value.View()).Size(ok);
                n == if size.None? then None else Some(AsInt(size.value - old(p.value.View()).Position()))
      ensures p.None? ==> n == Some(0)
    {
      if p.None? {
        return Some(0);
      }
      var size := p.value.Size(ok);
      var pos := p.value.Position();
      if size.None? {
        return None;
      }
      var total: int := size.value;
      n := Some(AsInt(total - pos));
    }

    method Close()
      modifies this, if p.Some? then {p.value, p.value.disk} else {}
      ensures p.None? && (old(p).Some? ==> old(p).value.View() == old(p.value.View()).Closed())
    {
      if p.Some? {
        p.value.Close();
        p := None;
      }
    }
  }
}
