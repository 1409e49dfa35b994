/**
 * What a Build writes, stated without the step-by-step functions: the run
 * stops at the first file whose Open fails, a directory tree contributes one
 * attempt per file and none for directories, a directory's own files come
 * first, every file of the tree is attempted under the names joined from the
 * enqueued directory down, entries of any other type are skipped, and the
 * progress events are forwarded once per subscription.
 */
module ZipProperties {
  import opened Wrappers
  import opened Paths
  import opened FileSystem
  import opened InfoWrappers
  import opened Zip

  // ---------------------------------------------------------------------------
  // A run stops at the first failure

  /** The index of the first attempt whose Open fails, or the number of attempts when none fails. */
  function FirstFailure(attempts: seq<Attempt>): (n: nat)
    ensures n <= |attempts|
    ensures forall k | 0 <= k < n :: attempts[k].content.Some?
    ensures n < |attempts| ==> attempts[n].content.None?
  {
    if attempts == [] || attempts[0].content.None? then 0
    else
      var n := 1 + FirstFailure(attempts[1..]);
      assert forall k | 1 <= k < n :: attempts[k] == attempts[1..][k - 1];
      n
  }

  /**
   * A run writes one record per attempt, in order, up to the first attempt
   * whose Open fails; it fails exactly when there is one, with that path.
   */
  lemma {:induction false} RunUpToFirstFailure(attempts: seq<Attempt>)
    ensures var w, n := Run(attempts), FirstFailure(attempts);
      && |w.records| == n
      && (forall k | 0 <= k < n :: w.records[k] == ZipRecord(attempts[k].path, attempts[k].content.value))
      && (w.failedAt.None? <==> n == |attempts|)
      && (n < |attempts| ==> w.failedAt == Some(attempts[n].path))
  {
    if attempts != [] && attempts[0].content.Some? {
      var rest := attempts[1..];
      RunUpToFirstFailure(rest);
      var w, r := Run(attempts), Run(rest);
      var first := ZipRecord(attempts[0].path, attempts[0].content.value);
      assert w.records == [first] + r.records;
      forall k | 1 <= k < FirstFailure(attempts)
        ensures w.records[k] == ZipRecord(attempts[k].path, attempts[k].content.value)
      {
        assert w.records[k] == r.records[k - 1];
        assert rest[k - 1] == attempts[k];
      }
    }
  }

  // ---------------------------------------------------------------------------
  // One attempt per file, none for a directory

  /** The files in a directory tree. */
  function FileCount(d: DirectoryInfo): nat
    decreases d, |d.directories| + 1
  {
    |d.files| + SubdirectoryFileCount(d, 0)
  }

  /** The files in the trees of the subdirectories of `d` from the `j`-th on. */
  function SubdirectoryFileCount(d: DirectoryInfo, j: nat): nat
    requires j <= |d.directories|
    decreases d, |d.directories| - j
  {
    if j == |d.directories| then 0 else FileCount(d.directories[j]) + SubdirectoryFileCount(d, j + 1)
  }

  /**
   * A directory tree is attempted once per file it holds and never for a
   * directory, so a tree without files contributes nothing.
   */
  lemma {:induction false} DirectoryAttemptCount(d: DirectoryInfo, parentDirectory: string)
    ensures |DirectoryAttempts(d, parentDirectory)| == FileCount(d)
    ensures FileCount(d) == 0 ==> DirectoryAttempts(d, parentDirectory) == []
    decreases d, |d.directories| + 1
  {
    SubdirectoryAttemptCount(d, 0, Combine(parentDirectory, DirectoryName(d.fullName)));
  }

  /** The subdirectories from the `j`-th on are attempted once per file they hold. */
  lemma {:induction false} SubdirectoryAttemptCount(d: DirectoryInfo, j: nat, p: string)
    requires j <= |d.directories|
    ensures |SubdirectoryAttempts(d, j, p)| == SubdirectoryFileCount(d, j)
    decreases d, |d.directories| - j
  {
    if j < |d.directories| {
      DirectoryAttemptCount(d.directories[j], p);
      SubdirectoryAttemptCount(d, j + 1, p);
      LengthOfAppend(SubdirectoryAttempts(d, j, p), DirectoryAttempts(d.directories[j], p), SubdirectoryAttempts(d, j + 1, p));
    }
  }

  lemma LengthOfAppend<T>(all: seq<T>, a: seq<T>, b: seq<T>)
    requires all == a + b
    ensures |all| == |a| + |b|
  {
  }

  // ---------------------------------------------------------------------------
  // Order and paths inside a directory

  /**
   * A directory's own files come first, in listing order, each under the
   * directory's path combined with the file name; its subdirectories follow.
   */
  lemma DirectoryFilesFirst(d: DirectoryInfo, parentDirectory: string)
    ensures var a, p := DirectoryAttempts(d, parentDirectory), Combine(parentDirectory, DirectoryName(d.fullName));
      && |d.files| <= |a|
      && (forall i | 0 <= i < |d.files| :: a[i] == Attempt(Combine(p, FileName(d.files[i])), d.files[i].content))
      && a[|d.files|..] == SubdirectoryAttempts(d, 0, p)
  {
    var p := Combine(parentDirectory, DirectoryName(d.fullName));
    var a, fa := DirectoryAttempts(d, parentDirectory), FileAttempts(d.files, p);
    forall i | 0 <= i < |d.files|
      ensures a[i] == Attempt(Combine(p, FileName(d.files[i])), d.files[i].content)
    {
      FileAttemptAt(d.files, p, i);
      assert a[i] == fa[i];
    }
    assert a[|d.files|..] == SubdirectoryAttempts(d, 0, p);
  }

  /**
   * The directory reached from a directory with archive path `p` by taking
   * the subdirectories numbered by `route`, with its own archive path: each
   * step combines the path so far with the subdirectory's name. None when an
   * index is out of range.
   */
  function Descend(d: DirectoryInfo, p: string, route: seq<nat>): Option<(DirectoryInfo, string)>
    decreases |route|
  {
    if route == [] then Some((d, p))
    else if route[0] < |d.directories| then
      var sub := d.directories[route[0]];
      Descend(sub, Combine(p, DirectoryName(sub.fullName)), route[1..])
    else None
  }

  /** The subdirectories of `d` from the `k`-th up to, not including, the `j`-th, each walked below `p`. */
  function SubdirectoryAttemptsBetween(d: DirectoryInfo, k: nat, j: nat, p: string): seq<Attempt>
    requires k <= j <= |d.directories|
    decreases j - k
  {
    if k == j then [] else DirectoryAttempts(d.directories[k], p) + SubdirectoryAttemptsBetween(d, k + 1, j, p)
  }

  /** The walk from the `k`-th subdirectory is the walk up to the `j`-th followed by the walk from there. */
  lemma {:induction false} SubdirectoryAttemptsSplit(d: DirectoryInfo, k: nat, j: nat, p: string)
    requires k <= j <= |d.directories|
    ensures SubdirectoryAttempts(d, k, p) == SubdirectoryAttemptsBetween(d, k, j, p) + SubdirectoryAttempts(d, j, p)
    decreases j - k
  {
    if k < j {
      var first := DirectoryAttempts(d.directories[k], p);
      SubdirectoryAttemptsSplit(d, k + 1, j, p);
      assert SubdirectoryAttempts(d, k, p) == first + SubdirectoryAttempts(d, k + 1, p);
      assert SubdirectoryAttemptsBetween(d, k, j, p) == first + SubdirectoryAttemptsBetween(d, k + 1, j, p);
      RegroupFirst(SubdirectoryAttempts(d, k, p), first, SubdirectoryAttempts(d, k + 1, p),
                   SubdirectoryAttemptsBetween(d, k, j, p), SubdirectoryAttemptsBetween(d, k + 1, j, p), SubdirectoryAttempts(d, j, p));
    }
  }

  /** `all == first + rest` with `rest == middle + last` regroups as `(first + middle) + last`. */
  lemma RegroupFirst<T>(all: seq<T>, first: seq<T>, rest: seq<T>, front: seq<T>, middle: seq<T>, last: seq<T>)
    requires all == first + rest && rest == middle + last && front == first + middle
    ensures all == front + last
  {
  }

  /** Whatever a subdirectory's walk attempts, the walk of all the subdirectories attempts too. */
  lemma SubdirectoryAttemptsInclude(d: DirectoryInfo, j: nat, p: string, x: Attempt)
    requires j < |d.directories|
    requires x in DirectoryAttempts(d.directories[j], p)
    ensures x in SubdirectoryAttempts(d, 0, p)
  {
    SubdirectoryAttemptsSplit(d, 0, j, p);
    InMiddle(x, SubdirectoryAttemptsBetween(d, 0, j, p), DirectoryAttempts(d.directories[j], p), SubdirectoryAttempts(d, j + 1, p));
  }

  lemma InMiddle<T>(x: T, a: seq<T>, b: seq<T>, c: seq<T>)
    requires x in b
    ensures x in a + (b + c)
  {
  }

  /**
   * Every file anywhere in the tree is attempted, with its own content, under
   * the names joined from the walked directory down to its directory, then
   * its file name.
   */
  lemma {:induction false} FileInTree(d: DirectoryInfo, parentDirectory: string, route: seq<nat>,
                                      e: DirectoryInfo, q: string, i: nat)
    requires Descend(d, Combine(parentDirectory, DirectoryName(d.fullName)), route) == Some((e, q))
    requires i < |e.files|
    ensures Attempt(Combine(q, FileName(e.files[i])), e.files[i].content) in DirectoryAttempts(d, parentDirectory)
    decreases |route|
  {
    var p := Combine(parentDirectory, DirectoryName(d.fullName));
    var x := Attempt(Combine(q, FileName(e.files[i])), e.files[i].content);
    if route == [] {
      DirectoryFilesFirst(d, parentDirectory);
      assert DirectoryAttempts(d, parentDirectory)[i] == x;
    } else {
      var j := route[0];
      FileInTree(d.directories[j], p, route[1..], e, q, i);
      SubdirectoryAttemptsInclude(d, j, p, x);
    }
  }

  /**
   * An enqueued directory is walked below the empty path, so the archive
   * paths of its files start with its own name and no separator before it.
   */
  lemma EnqueuedDirectoryFile(w: DirectoryInfoWrapper, route: seq<nat>, e: DirectoryInfo, q: string, i: nat)
    requires Descend(w.wrappedInstance, w.Name(), route) == Some((e, q))
    requires i < |e.files|
    ensures Attempt(Combine(q, FileName(e.files[i])), e.files[i].content)
      in EntryAttempts(PendingDirectory(PhysicalDirectory(w)))
  {
    assert Combine([], w.Name()) == w.Name();
    FileInTree(w.wrappedInstance, [], route, e, q, i);
  }

  /**
   * A file directly in an enqueued directory is stored as the directory's name,
   * a backslash and the file name, when both are plain names.
   */
  lemma EnqueuedDirectoryOwnFile(w: DirectoryInfoWrapper, i: nat)
    requires i < |w.wrappedInstance.files|
    requires var name := w.Name(); name != [] && name[|name| - 1] != VolumeSeparatorChar
    requires var f := FileName(w.wrappedInstance.files[i]); f != []
    ensures EntryAttempts(PendingDirectory(PhysicalDirectory(w)))[i].path
      == w.Name() + [DirectorySeparatorChar] + FileName(w.wrappedInstance.files[i])
  {
    var d, name := w.wrappedInstance, w.Name();
    var f := FileName(d.files[i]);
    EnqueuedDirectoryOwnFilePath(w, i);
    FileNameIsBare(d.files[i]);
    DirectoryNameEnd(d.fullName);
    CombineJoins(name, f);
  }

  /** File `i` of an enqueued directory is attempted under the directory's name combined with the file name. */
  lemma EnqueuedDirectoryOwnFilePath(w: DirectoryInfoWrapper, i: nat)
    requires i < |w.wrappedInstance.files|
    ensures EntryAttempts(PendingDirectory(PhysicalDirectory(w)))[i].path
      == Combine(w.Name(), FileName(w.wrappedInstance.files[i]))
  {
    DirectoryFilesFirst(w.wrappedInstance, []);
    assert Combine([], w.Name()) == w.Name();
  }

  // ---------------------------------------------------------------------------
  // The queue

  /** A pending physical file is attempted once, under its bare name: the separator-free end of its full name. */
  lemma TopLevelFileBareName(f: FileInfoWrapper)
    ensures var a := EntryAttempts(PendingFile(PhysicalFile(f)));
      && |a| == 1 && a[0].content == f.wrappedInstance.content
      && NoSeparator(a[0].path, FileNameSeparators)
      && var full := f.wrappedInstance.fullName;
         |a[0].path| <= |full| && a[0].path == full[|full| - |a[0].path|..]
  {
    LastSegmentIsSeparatorFreeSuffix(f.wrappedInstance.fullName, FileNameSeparators);
  }

  /** An entry of any other type contributes nothing, wherever it stands in the queue. */
  lemma OtherEntriesSkipped(q1: seq<FileSystemEntry>, e: FileSystemEntry, q2: seq<FileSystemEntry>)
    requires e == PendingFile(OtherFile) || e == PendingDirectory(OtherDirectory)
    ensures QueueAttempts(q1 + [e] + q2) == QueueAttempts(q1 + q2)
  {
    QueueAttemptsAppend(q1 + [e], q2);
    QueueAttemptsAppend(q1, [e]);
    QueueAttemptsAppend(q1, q2);
    assert [e][1..] == [];
    assert QueueAttempts(q1) + [] == QueueAttempts(q1);
  }

  // ---------------------------------------------------------------------------
  // Progress

  /** Forwarding through a single subscription passes every event once. */
  lemma {:induction false} ForwardedOnce(events: seq<ProgressEvent>)
    ensures Forwarded(events, 1) == events
    decreases |events|
  {
    if events != [] {
      var init := events[..|events| - 1];
      ForwardedOnce(init);
      assert Repeat(events[|events| - 1], 1) == [] + [events[|events| - 1]];
      assert init + [events[|events| - 1]] == events;
    }
  }

  /** The corrected progress log passes on every copier event of every record exactly once, in order. */
  lemma {:induction false} ProgressLogOnceIsAllEvents(copierEvents: Bytes -> seq<ProgressEvent>, records: seq<ZipRecord>)
    ensures ProgressLogOnce(copierEvents, true, records) == AllEvents(copierEvents, records)
    decreases |records|
  {
    if records != [] {
      var n := |records|;
      ProgressLogOnceIsAllEvents(copierEvents, records[..n - 1]);
      ForwardedOnce(copierEvents(records[n - 1].content));
    }
  }

  /**
   * As written, the second file's events arrive twice: one copier event per
   * file and two files give three progress events instead of two.
   */
  lemma ProgressRepeatsPerFile(copierEvents: Bytes -> seq<ProgressEvent>, r1: ZipRecord, r2: ZipRecord,
                               x: ProgressEvent, y: ProgressEvent)
    requires copierEvents(r1.content) == [x] && copierEvents(r2.content) == [y]
    ensures ProgressLog(copierEvents, true, [r1, r2], 0) == [x, y, y]
    ensures ProgressLogOnce(copierEvents, true, [r1, r2]) == AllEvents(copierEvents, [r1, r2]) == [x, y]
  {
    var rs := [r1, r2];
    assert rs[..1] == [r1];
    assert ProgressLog(copierEvents, true, rs, 0) == [x, y, y] by {
      SingleRecordLogs(copierEvents, r1, x);
      ForwardedSingle(y, 2);
      assert Repeat(y, 2) == [y, y] by { assert Repeat(y, 1) == [] + [y]; }
      assert ProgressLog(copierEvents, true, rs, 0) == [x] + [y, y];
    }
    assert ProgressLogOnce(copierEvents, true, rs) == [x, y] by {
      SingleRecordLogs(copierEvents, r1, x);
      ForwardedOnce([y]);
      assert ProgressLogOnce(copierEvents, true, rs) == [x] + [y];
    }
    assert AllEvents(copierEvents, rs) == [x, y] by {
      SingleRecordLogs(copierEvents, r1, x);
      assert AllEvents(copierEvents, rs) == [x] + [y];
    }
  }

  /** One event repeated for each of `k` subscriptions. */
  lemma ForwardedSingle(e: ProgressEvent, k: nat)
    ensures Forwarded([e], k) == Repeat(e, k)
  {
    assert [e][..0] == [];
  }

  /** With one record whose copy raises one event, all three logs hold that event once. */
  lemma SingleRecordLogs(copierEvents: Bytes -> seq<ProgressEvent>, r: ZipRecord, x: ProgressEvent)
    requires copierEvents(r.content) == [x]
    ensures ProgressLog(copierEvents, true, [r], 0) == [x]
    ensures ProgressLogOnce(copierEvents, true, [r]) == [x]
    ensures AllEvents(copierEvents, [r]) == [x]
  {
    assert [r][..0] == [];
    ForwardedOnce([x]);
    assert ProgressLog(copierEvents, true, [r], 0) == [] + [x];
    assert ProgressLogOnce(copierEvents, true, [r]) == [] + [x];
    assert AllEvents(copierEvents, [r]) == [] + [x];
  }
}
