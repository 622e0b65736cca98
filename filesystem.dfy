/**
 * The part of the file system the driver touches: regular files with their
 * contents, and directories. The three operations it uses (rename a file,
 * create a directory and its ancestors, append to a file, creating it) are
 * given first as functions on a snapshot, then as methods of a mutable
 * `FileSystem` object proved to behave like them.
 */
module FileSys {
  import opened Wrappers
  import opened Paths

  /** A snapshot: the contents of every regular file, and the set of directories. */
  datatype Disk = Disk(files: map<string, string>, dirs: set<string>)

  /** Why an operation was refused. */
  datatype IoError = NotFound | NotADirectory | IsADirectory

  /** No path is both a file and a directory, and every file lies in a directory. */
  predicate Valid(d: Disk) {
    forall p :: p in d.files ==> p !in d.dirs && Parent(p) in d.dirs
  }

  /** `Path::exists`: a file or a directory is there. */
  predicate PathExists(d: Disk, path: string) {
    path in d.files || path in d.dirs
  }

  /** The error a missing or non-directory parent gives. */
  function ParentError(d: Disk, path: string): IoError {
    if Parent(path) in d.files then NotADirectory else NotFound
  }

  /**
   * `fs::rename` of a regular file: the source must be a file, the
   * destination's parent a directory and the destination not a directory;
   * an existing destination file is replaced.
   */
  function RenameFile(d: Disk, from: string, to: string): Result<Disk, IoError> {
    if from !in d.files then Err(NotFound)
    else if Parent(to) !in d.dirs then Err(ParentError(d, to))
    else if to in d.dirs then Err(IsADirectory)
    else Ok(Disk((d.files - {from})[to := d.files[from]], d.dirs))
  }

  /** The directory itself and every prefix of it that ends just before a `/`. */
  function Ancestors(dir: string): set<string> {
    set i | 0 < i <= |dir| && (i == |dir| || dir[i] == '/') :: dir[..i]
  }

  /**
   * `fs::create_dir_all`: creates the directory and all its ancestors;
   * refused when one of them is a regular file.
   */
  function CreateDirAll(d: Disk, dir: string): Result<Disk, IoError> {
    if exists a :: a in Ancestors(dir) && a in d.files then Err(NotADirectory)
    else Ok(Disk(d.files, d.dirs + Ancestors(dir)))
  }

  /**
   * Opening for append with creation, then writing `text`: an existing
   * file is extended, a missing one is created in an existing directory.
   */
  function AppendCreate(d: Disk, path: string, text: string): Result<Disk, IoError> {
    if path in d.dirs then Err(IsADirectory)
    else if path in d.files then Ok(d.(files := d.files[path := d.files[path] + text]))
    else if Parent(path) in d.dirs then Ok(d.(files := d.files[path := text]))
    else Err(ParentError(d, path))
  }

  /** The snapshot an operation leaves: its result when it succeeded, the old one when it was refused. */
  function After(before: Disk, r: Result<Disk, IoError>): Disk {
    if r.Ok? then r.value else before
  }

  /** The error an operation reports, if any. */
  function Failure(r: Result<Disk, IoError>): Option<IoError> {
    if r.Ok? then None else Some(r.error)
  }

  // ---------------------------------------------------------------------
  // What each operation does, and that it keeps the snapshot valid
  // ---------------------------------------------------------------------

  /**
   * A rename succeeds exactly when its three conditions hold; then the
   * destination holds the source's content, the source is gone, the
   * directories stay, and no other file changes.
   */
  lemma RenameFileEffect(d: Disk, from: string, to: string)
    ensures RenameFile(d, from, to).Ok? <==> from in d.files && Parent(to) in d.dirs && to !in d.dirs
    ensures RenameFile(d, from, to).Ok? ==>
      var e := RenameFile(d, from, to).value;
      && to in e.files && e.files[to] == d.files[from]
      && (from != to ==> from !in e.files)
      && e.dirs == d.dirs
      && e.files - {from, to} == d.files - {from, to}
  {
    if RenameFile(d, from, to).Ok? {
      var e := RenameFile(d, from, to).value;
      assert e.files - {from, to} == d.files - {from, to};
    }
  }

  lemma RenamePreservesValid(d: Disk, from: string, to: string)
    requires Valid(d) && RenameFile(d, from, to).Ok?
    ensures Valid(RenameFile(d, from, to).value)
  {
  }

  /** A non-empty directory is among its own ancestors. */
  lemma DirInAncestors(dir: string)
    requires dir != ""
    ensures dir in Ancestors(dir)
  {
    assert dir[..|dir|] == dir;
  }

  /** No ancestor is longer than the directory itself. */
  lemma AncestorsNoLonger(dir: string)
    ensures forall a :: a in Ancestors(dir) ==> |a| <= |dir|
  {
  }

  /**
   * Creating a directory succeeds exactly when none of its ancestors is a
   * file; then the directory and all its ancestors exist, no other
   * directory appears, and no file changes.
   */
  lemma CreateDirAllEffect(d: Disk, dir: string)
    ensures CreateDirAll(d, dir).Ok? <==> forall a :: a in Ancestors(dir) ==> a !in d.files
    ensures CreateDirAll(d, dir).Ok? ==>
      var e := CreateDirAll(d, dir).value;
      && e.files == d.files
      && d.dirs <= e.dirs
      && e.dirs == d.dirs + Ancestors(dir)
      && (dir != "" ==> dir in e.dirs)
  {
    if dir != "" {
      DirInAncestors(dir);
    }
  }

  lemma CreateDirAllPreservesValid(d: Disk, dir: string)
    requires Valid(d) && CreateDirAll(d, dir).Ok?
    ensures Valid(CreateDirAll(d, dir).value)
  {
  }

  /**
   * Appending succeeds exactly when the path is not a directory and either
   * is a file or lies in a directory; then the file holds its old content
   * (none when it was missing) followed by the text, and nothing else changes.
   */
  lemma AppendCreateEffect(d: Disk, path: string, text: string)
    ensures AppendCreate(d, path, text).Ok?
            <==> path !in d.dirs && (path in d.files || Parent(path) in d.dirs)
    ensures AppendCreate(d, path, text).Ok? ==>
      var e := AppendCreate(d, path, text).value;
      && path in e.files
      && e.files[path] == (if path in d.files then d.files[path] else "") + text
      && e.dirs == d.dirs
      && e.files - {path} == d.files - {path}
  {
    if AppendCreate(d, path, text).Ok? {
      var e := AppendCreate(d, path, text).value;
      assert e.files - {path} == d.files - {path};
      if path !in d.files {
        assert "" + text == text;
      }
    }
  }

  lemma AppendCreatePreservesValid(d: Disk, path: string, text: string)
    requires Valid(d) && AppendCreate(d, path, text).Ok?
    ensures Valid(AppendCreate(d, path, text).value)
  {
  }

  // ---------------------------------------------------------------------
  // The file system as a mutable object
  // ---------------------------------------------------------------------

  /** The file system the driver runs against; each call changes it in place. */
  class FileSystem {
    var files: map<string, string>
    var dirs: set<string>

    /** The current state as a value. */
    function Snapshot(): Disk
      reads this
    {
      Disk(files, dirs)
    }

    constructor (initial: Disk)
      ensures Snapshot() == initial
    {
      files := initial.files;
      dirs := initial.dirs;
    }

    method Exists(path: string) returns (b: bool)
      ensures b == PathExists(Snapshot(), path)
    {
      b := path in files || path in dirs;
    }

    method Rename(from: string, to: string) returns (err: Option<IoError>)
      modifies this
      ensures Snapshot() == After(old(Snapshot()), RenameFile(old(Snapshot()), from, to))
      ensures err == Failure(RenameFile(old(Snapshot()), from, to))
    {
      if from !in files {
        return Some(NotFound);
      }
      var parent := Parent(to);
      if parent !in dirs {
        return Some(if parent in files then NotADirectory else NotFound);
      }
      if to in dirs {
        return Some(IsADirectory);
      }
      var content := files[from];
      files := files - {from};
      files := files[to := content];
      err := None;
    }

    method CreateDirs(dir: string) returns (err: Option<IoError>)
      modifies this
      ensures Snapshot() == After(old(Snapshot()), CreateDirAll(old(Snapshot()), dir))
      ensures err == Failure(CreateDirAll(old(Snapshot()), dir))
    {
      var ancestors := Ancestors(dir);
      if exists a :: a in ancestors && a in files {
        return Some(NotADirectory);
      }
      dirs := dirs + ancestors;
      err := None;
    }

    method Append(path: string, text: string) returns (err: Option<IoError>)
      modifies this
      ensures Snapshot() == After(old(Snapshot()), AppendCreate(old(Snapshot()), path, text))
      ensures err == Failure(AppendCreate(old(Snapshot()), path, text))
    {
      if path in dirs {
        return Some(IsADirectory);
      }
      if path in files {
        files := files[path := files[path] + text];
        return None;
      }
      var parent := Parent(path);
      if parent !in dirs {
        return Some(if parent in files then NotADirectory else NotFound);
      }
      files := files[path := text];
      err := None;
    }

    /** The changes another process makes while the driver waits for it: the state becomes `after`. */
    method Become(after: Disk)
      modifies this
      ensures Snapshot() == after
    {
      files := after.files;
      dirs := after.dirs;
    }
  }
}
