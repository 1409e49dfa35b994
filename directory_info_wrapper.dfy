/**
 * DirectoryInfoWrapper: the IDirectoryInfo face of a physical System.IO
 * directory. The wrapped DirectoryInfo is a readonly field, here a `const`
 * record (full name, attribute word and the two listings); the wrapper's own
 * logic is the name computation, the attribute test, the parent it reports
 * and the two loops that wrap the listings into fresh arrays.
 *
 * FileInfoWrapper is not part of this model; it appears only as the holder of
 * one FileInfo record, with the name System.IO.FileInfo reports.
 */
module InfoWrappers {
  import opened Wrappers
  import opened Paths
  import opened FileSystem

  /** The characters Name splits on: Path.AltDirectorySeparatorChar and Path.DirectorySeparatorChar. */
  const NameSeparators: set<char> := {AltDirectorySeparatorChar, DirectorySeparatorChar}

  /** The name a wrapper reports for a directory with this full name. */
  function DirectoryName(fullName: string): string {
    LastSegment(fullName, NameSeparators)
  }

  /** System.IO.FileInfo.Name: the file name part of the full name. */
  function FileName(file: FileInfo): string {
    GetFileName(file.fullName)
  }

  /** The corrected attribute test: the ReadOnly flag is set, whatever other flags are. */
  predicate HasReadOnlyFlag(attributes: FileAttributes) {
    attributes & ReadOnly == ReadOnly
  }

  /** A wrapper around one physical file. */
  class FileInfoWrapper {
    const wrappedInstance: FileInfo

    constructor (fileInfo: FileInfo)
      ensures wrappedInstance == fileInfo
    {
      wrappedInstance := fileInfo;
    }

    function Name(): string {
      FileName(wrappedInstance)
    }

    /** Open for reading: the content, or None when opening throws. */
    function Open(): Option<Bytes> {
      wrappedInstance.content
    }
  }

  class DirectoryInfoWrapper {
    const wrappedInstance: DirectoryInfo

    constructor (directoryInfo: DirectoryInfo)
      ensures wrappedInstance == directoryInfo
    {
      wrappedInstance := directoryInfo;
    }

    /** `new DirectoryInfoWrapper(directoryInfo)` with its null check; None stands for null. */
    static method Create(directoryInfo: Option<DirectoryInfo>) returns (r: Result<DirectoryInfoWrapper, ArgumentError>)
      ensures r.Failure? <==> directoryInfo.None?
      ensures r.Failure? ==> r.error == ArgumentNull("directoryInfo")
      ensures r.Success? ==> fresh(r.value) && r.value.wrappedInstance == directoryInfo.value
    {
      if directoryInfo.None? {
        return Failure(ArgumentNull("directoryInfo"));
      }
      var w := new DirectoryInfoWrapper(directoryInfo.value);
      return Success(w);
    }

    /** FullName: the wrapped directory's full name. */
    function FullName(): (r: string)
      ensures r == wrappedInstance.fullName
    {
      wrappedInstance.fullName
    }

    /** PhysicalPath: the same full name, so it always agrees with FullName. */
    function PhysicalPath(): (r: string)
      ensures r == FullName()
    {
      wrappedInstance.fullName
    }

    /**
     * Name: the full name split on both directory separators, last piece;
     * that is the text after the last separator.
     */
    function Name(): (r: string)
      ensures r == DirectoryName(FullName())
    {
      var folders := Split(wrappedInstance.fullName, NameSeparators);
      SplitLastIsLastSegment(wrappedInstance.fullName, NameSeparators);
      folders[|folders| - 1]
    }

    /** IsReadOnly as written: the whole attribute word must equal ReadOnly. */
    function IsReadOnly(): (r: bool)
      ensures r <==> wrappedInstance.attributes == ReadOnly
      ensures r ==> HasReadOnlyFlag(wrappedInstance.attributes)
    {
      wrappedInstance.attributes == ReadOnly
    }

    /** Parent as written: the wrapper itself, whatever the full name. */
    function Parent(): (r: DirectoryInfoWrapper)
      ensures r.FullName() == FullName() && r.Name() == Name()
    {
      this
    }

    /**
     * The parent a directory evidently should report: the directory named by
     * the text before the final separator, None when the name has none.
     */
    function ParentFullName(): (r: Option<string>)
      ensures r.None? <==> NoSeparator(FullName(), NameSeparators)
      ensures r.Some? ==> |r.value| < |FullName()|
      ensures r.Some? ==> FullName() == r.value + [FullName()[|r.value|]] + Name()
      ensures r.Some? ==> FullName()[|r.value|] in NameSeparators
    {
      DirectoryPartAndLastSegment(wrappedInstance.fullName, NameSeparators);
      DirectoryPart(wrappedInstance.fullName, NameSeparators)
    }

    /** GetFiles(): a fresh array whose element i wraps the listing's file i. */
    method GetFiles() returns (a: array<FileInfoWrapper?>)
      ensures fresh(a) && a.Length == |wrappedInstance.files|
      ensures forall i | 0 <= i < a.Length :: a[i] != null && a[i].wrappedInstance == wrappedInstance.files[i]
    {
      var listing := wrappedInstance.files;
      a := new FileInfoWrapper?[|listing|];
      var i := 0;
      while i < |listing|
        invariant 0 <= i <= |listing|
        invariant forall j | 0 <= j < i :: a[j] != null && a[j].wrappedInstance == listing[j]
      {
        var f := new FileInfoWrapper(listing[i]);
        a[i] := f;
        i := i + 1;
      }
    }

    /** GetDirectories(): a fresh array whose element i wraps the listing's subdirectory i. */
    method GetDirectories() returns (a: array<DirectoryInfoWrapper?>)
      ensures fresh(a) && a.Length == |wrappedInstance.directories|
      ensures forall i | 0 <= i < a.Length :: a[i] != null && a[i].wrappedInstance == wrappedInstance.directories[i]
    {
      var listing := wrappedInstance.directories;
      a := new DirectoryInfoWrapper?[|listing|];
      var i := 0;
      while i < |listing|
        invariant 0 <= i <= |listing|
        invariant forall j | 0 <= j < i :: a[j] != null && a[j].wrappedInstance == listing[j]
      {
        var d := new DirectoryInfoWrapper(listing[i]);
        a[i] := d;
        i := i + 1;
      }
    }
  }

  /**
   * The name a wrapper reports is the longest separator-free suffix of the full
   * name: the whole name when it has no separator, and empty when it ends with one.
   */
  lemma NameIsLastSeparatorFreeSuffix(w: DirectoryInfoWrapper)
    ensures NoSeparator(w.Name(), NameSeparators)
    ensures |w.Name()| <= |w.FullName()|
    ensures w.Name() == w.FullName()[|w.FullName()| - |w.Name()|..]
    ensures |w.Name()| < |w.FullName()| ==> w.FullName()[|w.FullName()| - |w.Name()| - 1] in NameSeparators
    ensures NoSeparator(w.FullName(), NameSeparators) ==> w.Name() == w.FullName()
    ensures w.FullName() != [] && w.FullName()[|w.FullName()| - 1] in NameSeparators ==> w.Name() == []
  {
    LastSegmentIsSeparatorFreeSuffix(w.wrappedInstance.fullName, NameSeparators);
  }

  /**
   * A wrapper for `Path.Combine(path1, folder)` is named `folder` when that is a
   * bare name and `path1` does not end with a volume separator (a temporary
   * directory path and a random file name, for instance).
   */
  lemma NameOfCombinedPath(w: DirectoryInfoWrapper, path1: string, folder: string)
    requires folder != [] && NoSeparator(folder, FileNameSeparators)
    requires path1 == [] || path1[|path1| - 1] != VolumeSeparatorChar
    requires w.wrappedInstance.fullName == Combine(path1, folder)
    ensures w.Name() == folder
  {
    var s := w.wrappedInstance.fullName;
    assert NoSeparator(folder, NameSeparators) by {
      forall i | 0 <= i < |folder| ensures folder[i] !in NameSeparators {
        assert folder[i] !in FileNameSeparators;
      }
    }
    assert !IsPathRooted(folder) by {
      assert folder[0] !in FileNameSeparators;
      if |folder| >= 2 { assert folder[1] !in FileNameSeparators; }
    }
    if path1 == [] {
      LastSegmentIsSeparatorFreeSuffix(s, NameSeparators);
    } else if path1[|path1| - 1] in FileNameSeparators {
      var q := path1[..|path1| - 1];
      assert s == q + [path1[|path1| - 1]] + folder;
      LastSegmentAfterSeparator(q, path1[|path1| - 1], folder, NameSeparators);
    } else {
      LastSegmentAfterSeparator(path1, DirectorySeparatorChar, folder, NameSeparators);
    }
  }

  /** A file name has no separator, so it is a bare name. */
  lemma FileNameIsBare(file: FileInfo)
    ensures NoSeparator(FileName(file), FileNameSeparators)
  {
    LastSegmentIsSeparatorFreeSuffix(file.fullName, FileNameSeparators);
  }

  /** A non-empty directory name ends with a character that is neither separator. */
  lemma DirectoryNameEnd(fullName: string)
    requires DirectoryName(fullName) != []
    ensures var name := DirectoryName(fullName); name[|name| - 1] !in NameSeparators
  {
    LastSegmentIsSeparatorFreeSuffix(fullName, NameSeparators);
  }

  // ---------------------------------------------------------------------------
  // The two defects, as written and corrected

  /** A read-only directory also carries the Directory flag, and IsReadOnly then answers false. */
  lemma ReadOnlyDirectoryNotReported(w: DirectoryInfoWrapper)
    requires w.wrappedInstance.attributes == ReadOnly | Directory
    ensures !w.IsReadOnly()
    ensures HasReadOnlyFlag(w.wrappedInstance.attributes)
  {
  }

  /** The flag test sees ReadOnly whatever other flags are combined with it, and only then. */
  lemma HasReadOnlyFlagOfCombination(a: FileAttributes, b: FileAttributes)
    ensures HasReadOnlyFlag(a | b) <==> HasReadOnlyFlag(a) || HasReadOnlyFlag(b)
    ensures HasReadOnlyFlag(ReadOnly)
    ensures !HasReadOnlyFlag(Directory) && !HasReadOnlyFlag(Hidden)
  {
  }

  /**
   * Whenever the full name has a separator, so that there is a directory above,
   * Parent reports a different full name from that directory's.
   */
  lemma ParentIsNotAboveNestedDirectory(w: DirectoryInfoWrapper)
    ensures w.ParentFullName().Some? ==> w.Parent().FullName() != w.ParentFullName().value
    ensures w.Parent().FullName() == w.FullName()
  {
  }

  /** For `Dir\Sub`, Parent reports `Dir\Sub` where `Dir` is due. */
  lemma ParentOfNestedDirectory(w: DirectoryInfoWrapper)
    requires w.wrappedInstance.fullName == "Dir\\Sub"
    ensures w.Parent().FullName() == "Dir\\Sub"
    ensures w.ParentFullName() == Some("Dir")
  {
    assert "Dir\\"[..3] == "Dir";
    assert DirectoryPart("Dir\\", NameSeparators) == Some("Dir");
    assert "Dir\\S"[..4] == "Dir\\";
    assert DirectoryPart("Dir\\S", NameSeparators) == Some("Dir");
    assert "Dir\\Su"[..5] == "Dir\\S";
    assert DirectoryPart("Dir\\Su", NameSeparators) == Some("Dir");
    assert "Dir\\Sub"[..6] == "Dir\\Su";
  }
}
