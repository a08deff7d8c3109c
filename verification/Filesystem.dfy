/**
 A directory and file model with durability. An entry change is visible at once and durable only after
 its directory is synced; file data is durable only after the file is synced. A power loss keeps, entry
 by entry, either the visible state or any state since the last directory sync, and arbitrary bytes in
 files that were not synced.
*/
module Filesystem {

  datatype Name = Fixed(text: string) | Temp(id: nat)

  /** An entry: a name inside a directory, which is identified by its inode. */
  datatype Path = Path(dir: nat, name: Name)

  datatype Entry = Gone | At(inode: nat)

  datatype File = File(data: seq<int>, synced: bool)

  datatype Fs = Fs(next: nat, files: map<nat, File>, live: map<Path, nat>, shadow: set<(Path, Entry)>)

  function Current(fs: Fs, p: Path): Entry {
    if p in fs.live then At(fs.live[p]) else Gone
  }

  /** The states of an entry that a power loss could reveal. */
  predicate Possible(fs: Fs, p: Path, e: Entry) {
    e == Current(fs, p) || (p, e) in fs.shadow
  }

  ghost predicate Durable(fs: Fs, p: Path) {
    forall e :: (p, e) !in fs.shadow
  }

  /** `open` with O_CREAT and O_EXCL, and `mkdir`: a fresh inode under an unused name. */
  function Create(fs: Fs, p: Path, regular: bool): Fs {
    Fs(fs.next + 1,
       if regular then fs.files[fs.next := File([], false)] else fs.files,
       fs.live[p := fs.next],
       fs.shadow + {(p, Gone)})
  }

  function Append(fs: Fs, i: nat, data: seq<int>): Fs
    requires i in fs.files
  {
    fs.(files := fs.files[i := File(fs.files[i].data + data, false)])
  }

  function SyncFile(fs: Fs, i: nat): Fs
    requires i in fs.files
  {
    fs.(files := fs.files[i := File(fs.files[i].data, true)])
  }

  function SyncDir(fs: Fs, dir: nat): Fs {
    fs.(shadow := set s | s in fs.shadow && s.0.dir != dir)
  }

  function Link(fs: Fs, from: Path, to: Path): Fs
    requires from in fs.live
  {
    fs.(live := fs.live[to := fs.live[from]], shadow := fs.shadow + {(to, Gone)})
  }

  function Unlink(fs: Fs, p: Path): Fs
    requires p in fs.live
  {
    fs.(live := fs.live - {p}, shadow := fs.shadow + {(p, At(fs.live[p]))})
  }

  /** What the disk may show after a power loss. */
  ghost predicate CrashOutcome(fs: Fs, g: Fs) {
    && g.next == fs.next && g.shadow == {} && g.files.Keys == fs.files.Keys
    && (forall p :: Possible(fs, p, Current(g, p)))
    && (forall i :: i in fs.files && fs.files[i].synced ==> g.files[i] == fs.files[i])
    && (forall i :: i in fs.files && !fs.files[i].synced ==> !g.files[i].synced)
  }

  /** Every inode number in use, for files, entries and directories, is below `next`. */
  ghost predicate Bounded(fs: Fs) {
    && (forall i :: i in fs.files ==> i < fs.next)
    && (forall p :: p in fs.live ==> fs.live[p] < fs.next && p.dir < fs.next)
    && (forall s :: s in fs.shadow ==> s.0.dir < fs.next && (s.1.At? ==> s.1.inode < fs.next))
  }

  lemma {:induction false} CrashKeepsDurable(fs: Fs, g: Fs, p: Path)
    requires CrashOutcome(fs, g) && Durable(fs, p)
    ensures Current(g, p) == Current(fs, p) && (p in g.live <==> p in fs.live)
    ensures p in fs.live ==> g.live[p] == fs.live[p]
    ensures Durable(g, p)
  {
  }

  lemma {:induction false} CrashBounded(fs: Fs, g: Fs)
    requires CrashOutcome(fs, g) && Bounded(fs)
    ensures Bounded(g)
  {
    forall p | p in g.live ensures g.live[p] < g.next && p.dir < g.next {
      assert Possible(fs, p, Current(g, p));
    }
  }

  /** What was possible after the loss was possible before it. */
  lemma {:induction false} CrashPossible(fs: Fs, g: Fs, p: Path, e: Entry)
    requires CrashOutcome(fs, g) && Possible(g, p, e)
    ensures Possible(fs, p, e)
  {
  }

  /**
   `_write_all` against a kernel that may write fewer bytes than asked; `result` gives its answers.
   The loop ends with exactly the payload written, or at the first answer that is not positive.
  */
  method WriteAll(data: seq<int>, result: nat -> int) returns (written: seq<int>, calls: nat, ok: bool)
    ensures ok ==> written == data
    ensures written <= data
    ensures ok <==> forall c :: 0 <= c < calls ==> result(c) > 0
    ensures calls <= |data|
    ensures !ok ==> calls > 0 && result(calls - 1) <= 0 && |written| < |data|
  {
    var view := data;
    written, calls, ok := [], 0, true;
    while view != []
      invariant written + view == data
      invariant calls <= |written|
      invariant forall c :: 0 <= c < calls ==> result(c) > 0
      decreases |view|
    {
      var n := result(calls);
      calls := calls + 1;
      if n <= 0 {
        ok := false;
        assert result(calls - 1) <= 0;
        return;
      }
      var k := if n <= |view| then n else |view|;
      written, view := written + view[..k], view[k..];
    }
  }
}
