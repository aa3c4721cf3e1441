/** Directory iteration in cores/ardulinux/FS/vfs_api.cpp: openNextFile and rewindDirectory. */
module VfsDirectory {
  import opened Wrappers

  datatype Kind = Regular | Directory | Special

  datatype Entry = Entry(name: string, kind: Kind)

  /** `cursor` is readdir's position; None once the directory is closed, or if it never opened. */
  datatype Listing = Listing(path: string, entries: seq<Entry>, cursor: Option<nat>)
  {
    function Left(): seq<Entry> {
      if cursor.Some? && cursor.value <= |entries| then entries[cursor.value..] else []
    }

    function Rewind(): Listing {
      if cursor.Some? then this.(cursor := Some(0)) else this
    }
  }

  predicate EndsWithSlash(s: string) {
    s != "" && s[|s| - 1] == '/'
  }

  function ChildName(parent: string, name: string): string {
    if !(name != "" && name[0] == '/') && !EndsWithSlash(parent) then parent + "/" + name else parent + name
  }

  function OpenNext(d: Listing): (Option<string>, Listing)
    decreases |d.Left()|
  {
    if d.Left() == [] then (None, d)
    else
      var e := d.Left()[0];
      var d' := d.(cursor := Some(d.cursor.value + 1));
      if e.kind.Special? then OpenNext(d') else (Some(ChildName(d.path, e.name)), d')
  }

  class VFSDirectory {
    const path: string
    const entries: seq<Entry>
    var cursor: Option<nat>

    ghost function View(): Listing
      reads this
    {
      Listing(path, entries, cursor)
    }

    constructor (path: string, entries: seq<Entry>, opens: bool)
      ensures View() == Listing(path, entries, if opens then Some(0) else None)
    {
      this.path, this.entries, cursor := path, entries, if opens then Some(0) else None;
    }

    /** Skips what is neither a regular file nor a directory by calling itself on the next entry. */
    method OpenNextFile() returns (name: Option<string>)
      modifies this
      ensures (name, View()) == OpenNext(old(View()))
      decreases |View().Left()|
    {
      if cursor.None? || cursor.value >= |entries| {
        return None;
      }
      var file := entries[cursor.value];
      cursor := Some(cursor.value + 1);
      if file.kind.Special? {
        name := OpenNextFile();
        return;
      }
      var fname := file.name;
      var full := path;
      if !(fname != "" && fname[0] == '/') && !EndsWithSlash(full) {
        full := full + "/";
      }
      name := Some(full + fname);
    }

    method RewindDirectory()
      modifies this
      ensures View() == old(View()).Rewind()
    {
      if cursor.Some? {
        cursor := Some(0);
      }
    }
  }

  // ---- what iterating yields ----

  predicate Kept(e: Entry) {
    !e.kind.Special?
  }

  /** The reference: the kept entries in directory order, under their full names. */
  function Names(path: string, entries: seq<Entry>): seq<string> {
    if entries == [] then []
    else (if Kept(entries[0]) then [ChildName(path, entries[0].name)] else []) + Names(path, entries[1..])
  }

  lemma {:induction false} OpenNextStep(d: Listing)
    ensures var (name, d') := OpenNext(d);
            && d'.path == d.path && d'.entries == d.entries
            && (name.None? ==> Names(d.path, d.Left()) == [] && d'.Left() == [])
            && (name.Some? ==> Names(d.path, d.Left()) == [name.value] + Names(d.path, d'.Left())
                               && |d'.Left()| < |d.Left()|)
    decreases |d.Left()|
  {
    if d.Left() != [] {
      var d1 := d.(cursor := Some(d.cursor.value + 1));
      assert d.Left()[1..] == d1.Left();
      if d.Left()[0].kind.Special? {
        OpenNextStep(d1);
      }
    }
  }

  /** Every name openNextFile gives until it gives none. */
  function Iterate(d: Listing): seq<string>
    decreases |d.Left()|
  {
    OpenNextStep(d);
    var (name, d') := OpenNext(d);
    if name.None? then [] else [name.value] + Iterate(d')
  }

  /** Iteration yields exactly the regular files and directories not yet passed, in order. */
  lemma {:induction false} IterateYieldsNames(d: Listing)
    ensures Iterate(d) == Names(d.path, d.Left())
    decreases |d.Left()|
  {
    OpenNextStep(d);
    var (name, d') := OpenNext(d);
    if name.Some? {
      IterateYieldsNames(d');
    }
  }

  /** From any point of an iteration, a rewind replays all of it. */
  lemma RewindReplays(d: Listing)
    requires d.cursor.Some?
    ensures Iterate(d.Rewind()) == Names(d.path, d.entries)
  {
    IterateYieldsNames(d.Rewind());
    assert d.Rewind().Left() == d.entries;
  }

  function Stem(parent: string): string {
    if EndsWithSlash(parent) then parent[..|parent| - 1] else parent
  }

  /** A child is its parent, one separator, its own name; so different entries get different names. */
  lemma ChildNameHasOneSeparator(parent: string, name: string, other: string)
    requires name != "" && name[0] != '/' && other != "" && other[0] != '/'
    ensures ChildName(parent, name) == Stem(parent) + "/" + name
    ensures ChildName(parent, name) == ChildName(parent, other) <==> name == other
  {
    assert EndsWithSlash(parent) ==> parent == Stem(parent) + "/";
    var at := |Stem(parent)| + 1;
    assert (Stem(parent) + "/" + name)[at..] == name;
    assert (Stem(parent) + "/" + other)[at..] == other;
  }
}
