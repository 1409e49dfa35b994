/**
 * InMemoryDirectoryInfo: a directory that exists only in memory. Its name,
 * parent and timestamps are fixed at construction (readonly fields, here
 * `const`); its two child lists are handed out as live lists that callers grow
 * in place, modelled as the `files` and `directories` fields and the two
 * append methods. The file type `F` stands for whatever IFileInfo
 * implementation callers store.
 */
module InMemory {
  import opened Wrappers
  import opened Paths
  import opened FileSystem

  class InMemoryDirectoryInfo<F> {
    const fullName: string
    const parent: InMemoryDirectoryInfo?<F>
    const creationTimeUtc: DateTime
    const lastAccessTimeUtc: DateTime
    const lastWriteTimeUtc: DateTime

    var directories: seq<InMemoryDirectoryInfo<F>>
    var files: seq<F>

    /** What the constructor's argument check leaves behind: a non-empty full name. */
    ghost predicate Valid() {
      fullName != []
    }

    constructor (fullName: string, parent: InMemoryDirectoryInfo?<F>,
                 creationTimeUtc: DateTime, lastAccessTimeUtc: DateTime, lastWriteTimeUtc: DateTime)
      requires fullName != []
      ensures Valid()
      ensures this.fullName == fullName && this.parent == parent
      ensures this.creationTimeUtc == creationTimeUtc
      ensures this.lastAccessTimeUtc == lastAccessTimeUtc
      ensures this.lastWriteTimeUtc == lastWriteTimeUtc
      ensures files == [] && directories == []
    {
      this.fullName := fullName;
      this.parent := parent;
      this.creationTimeUtc := creationTimeUtc;
      this.lastAccessTimeUtc := lastAccessTimeUtc;
      this.lastWriteTimeUtc := lastWriteTimeUtc;
      directories := [];
      files := [];
    }

    /** `new InMemoryDirectoryInfo(...)` with its argument check: an empty full name is refused. */
    static method Create(fullName: string, parent: InMemoryDirectoryInfo?<F>,
                         creationTimeUtc: DateTime, lastAccessTimeUtc: DateTime, lastWriteTimeUtc: DateTime)
      returns (r: Result<InMemoryDirectoryInfo<F>, ArgumentError>)
      ensures r.Failure? <==> fullName == []
      ensures r.Failure? ==> r.error == ArgumentEmpty("fullName")
      ensures r.Success? ==> var d := r.value;
        && fresh(d) && d.Valid()
        && d.fullName == fullName && d.parent == parent
        && d.creationTimeUtc == creationTimeUtc
        && d.lastAccessTimeUtc == lastAccessTimeUtc
        && d.lastWriteTimeUtc == lastWriteTimeUtc
        && d.files == [] && d.directories == []
    {
      if fullName == [] {
        return Failure(ArgumentEmpty("fullName"));
      }
      var d := new InMemoryDirectoryInfo(fullName, parent, creationTimeUtc, lastAccessTimeUtc, lastWriteTimeUtc);
      return Success(d);
    }

    /** FullName: the constructor argument, unchanged. */
    function FullName(): (r: string)
      requires Valid()
      ensures r == fullName && r != []
    {
      fullName
    }

    /** ToString(): the full name. */
    function ToString(): (r: string)
      requires Valid()
      ensures r == fullName && r != []
    {
      fullName
    }

    /**
     * Name: Path.GetFileName of the full name, i.e. the final separator-free
     * suffix, which follows a separator unless it is the whole name.
     */
    function Name(): (r: string)
      ensures NoSeparator(r, FileNameSeparators)
      ensures |r| <= |fullName| && r == fullName[|fullName| - |r|..]
      ensures |r| < |fullName| ==> fullName[|fullName| - |r| - 1] in FileNameSeparators
    {
      LastSegmentIsSeparatorFreeSuffix(fullName, FileNameSeparators);
      GetFileName(fullName)
    }

    /** PhysicalPath: always null, since nothing backs the directory on disk. */
    function PhysicalPath(): (r: Option<string>)
      ensures r.None?
    {
      None
    }

    /** Extension: always empty. */
    function Extension(): (r: string)
      ensures r == []
    {
      []
    }

    /** Exists: always true. */
    function Exists(): (r: bool)
      ensures r
    {
      true
    }

    /** IsReadOnly: always true. */
    function IsReadOnly(): (r: bool)
      ensures r
    {
      true
    }

    /** GetFiles(): a fresh array holding the current file list in insertion order. */
    method GetFiles() returns (a: array<F>)
      ensures fresh(a) && a[..] == files
    {
      var snapshot := files;
      a := new F[|snapshot|](i requires 0 <= i < |snapshot| => snapshot[i]);
    }

    /** GetDirectories(): a fresh array holding the current directory list in insertion order. */
    method GetDirectories() returns (a: array<InMemoryDirectoryInfo<F>>)
      ensures fresh(a) && a[..] == directories
    {
      var snapshot := directories;
      a := new InMemoryDirectoryInfo<F>[|snapshot|](i requires 0 <= i < |snapshot| => snapshot[i]);
    }

    /** `Files.Add(file)`: appends to the live file list and touches nothing else. */
    method AddFile(file: F)
      modifies this`files
      ensures files == old(files) + [file]
    {
      files := files + [file];
    }

    /** `Directories.Add(directory)`: appends to the live directory list and touches nothing else. */
    method AddDirectory(directory: InMemoryDirectoryInfo<F>)
      modifies this`directories
      ensures directories == old(directories) + [directory]
    {
      directories := directories + [directory];
    }

    /** Refresh(): does nothing. */
    method Refresh()
      ensures unchanged(this)
    {
    }
  }

  /** A snapshot taken by GetFiles is not altered by later appends to the live list. */
  method SnapshotIsIndependent<F>(d: InMemoryDirectoryInfo<F>, extra: F) returns (snapshot: array<F>)
    modifies d`files
    ensures snapshot[..] == old(d.files)
    ensures d.files == old(d.files) + [extra]
  {
    snapshot := d.GetFiles();
    d.AddFile(extra);
  }
}
