/**
 * ZipFileBuilder: a queue of pending files and directories that Build writes
 * into a zip archive, in queue order. A file goes in under its bare name; a
 * physical directory is walked depth first, its own files before its
 * subdirectories, each record's path being the directory names from the
 * enqueued directory down joined with Path.Combine. Dispatch is on the exact
 * runtime type, so any other kind of entry is skipped. No record is written
 * for a directory itself.
 *
 * The archive is the ordered sequence of (path, content) records written to
 * the zip stream; the zip encoding, File.Create and File.Open of the archive
 * are not part of this model. Opening a source file may fail (its content is
 * None): the failure escapes Build and the queue is kept.
 *
 * Progress: every file copied subscribes the builder's handler once more to
 * the one StreamCopier of the Build, so while the k-th file is copied each
 * copier event is forwarded k times, and only when ArchiveProgress has
 * subscribers. The events a copier raises for some content are a parameter
 * (`copierEvents`); StreamCopier is not part of this model.
 */
module Zip {
  import opened Wrappers
  import opened Paths
  import opened FileSystem
  import opened InfoWrappers

  /** One archive record: the entry path and the bytes copied under it. */
  datatype ZipRecord = ZipRecord(path: string, content: Bytes)

  /** A StreamCopier progress notification, kept opaque. */
  type ProgressEvent = int

  /** A pending file, by exact runtime type. */
  datatype FileEntry =
    | InMemoryFile(name: string, content: Option<Bytes>)   // InMemoryFileInfoWrapper
    | PhysicalFile(file: FileInfoWrapper)                   // FileInfoWrapper
    | OtherFile                                             // any other IFileInfo

  /** A pending directory, by exact runtime type. */
  datatype DirectoryEntry =
    | PhysicalDirectory(directory: DirectoryInfoWrapper)    // DirectoryInfoWrapper
    | OtherDirectory                                        // any other IDirectoryInfo

  datatype FileSystemEntry = PendingFile(file: FileEntry) | PendingDirectory(directory: DirectoryEntry)

  datatype BuildError = InvalidArgument(argument: ArgumentError) | OpenFailed(path: string)

  // ---------------------------------------------------------------------------
  // What Build writes, as functions

  /** One file Build tries to copy: the archive path and what opening the file yields. */
  datatype Attempt = Attempt(path: string, content: Option<Bytes>)

  /** The files of a directory listing, in order, each under the directory's path `p`. */
  function FileAttempts(files: seq<FileInfo>, p: string): (r: seq<Attempt>)
    ensures |r| == |files|
  {
    if files == [] then []
    else [Attempt(Combine(p, FileName(files[0])), files[0].content)] + FileAttempts(files[1..], p)
  }

  /** A directory below `parentDirectory`, depth first: its own files, then its subdirectories. */
  function DirectoryAttempts(d: DirectoryInfo, parentDirectory: string): seq<Attempt>
    decreases d, |d.directories| + 1
  {
    var p := Combine(parentDirectory, DirectoryName(d.fullName));
    FileAttempts(d.files, p) + SubdirectoryAttempts(d, 0, p)
  }

  /** The subdirectories of `d` from the `j`-th on, in order, each walked below `p`. */
  function SubdirectoryAttempts(d: DirectoryInfo, j: nat, p: string): seq<Attempt>
    requires j <= |d.directories|
    decreases d, |d.directories| - j
  {
    if j == |d.directories| then []
    else DirectoryAttempts(d.directories[j], p) + SubdirectoryAttempts(d, j + 1, p)
  }

  /** `wrappers` are non-null and wrap the files of `listing`, in order. */
  predicate WrapsFiles(wrappers: seq<FileInfoWrapper?>, listing: seq<FileInfo>) {
    |wrappers| == |listing| && forall k | 0 <= k < |wrappers| :: wrappers[k] != null && wrappers[k].wrappedInstance == listing[k]
  }

  /** `wrappers` are non-null and wrap the directories of `listing`, in order. */
  predicate WrapsDirectories(wrappers: seq<DirectoryInfoWrapper?>, listing: seq<DirectoryInfo>) {
    |wrappers| == |listing| && forall k | 0 <= k < |wrappers| :: wrappers[k] != null && wrappers[k].wrappedInstance == listing[k]
  }

  /** One pending entry, dispatched on its exact type. */
  function EntryAttempts(e: FileSystemEntry): seq<Attempt> {
    match e
    case PendingFile(InMemoryFile(name, content)) => [Attempt(name, content)]
    case PendingFile(PhysicalFile(f)) => [Attempt(f.Name(), f.Open())]
    case PendingFile(OtherFile) => []
    case PendingDirectory(PhysicalDirectory(d)) => DirectoryAttempts(d.wrappedInstance, [])
    case PendingDirectory(OtherDirectory) => []
  }

  /** The whole queue, in order. */
  function QueueAttempts(q: seq<FileSystemEntry>): seq<Attempt> {
    if q == [] then [] else EntryAttempts(q[0]) + QueueAttempts(q[1..])
  }

  /**
   * The outcome of a run of attempts: the records written, in order, and the
   * path of the file whose Open failed, which ends the run.
   */
  datatype Walk = Walk(records: seq<ZipRecord>, failedAt: Option<string>)

  const Nothing: Walk := Walk([], None)

  /** Run `a`, then `b` unless `a` failed. */
  function Then(a: Walk, b: Walk): Walk {
    if a.failedAt.Some? then a else Walk(a.records + b.records, b.failedAt)
  }

  /** One file: a record when Open succeeds, otherwise a failure and no record. */
  function WriteFile(path: string, content: Option<Bytes>): Walk {
    match content
    case None => Walk([], Some(path))
    case Some(c) => Walk([ZipRecord(path, c)], None)
  }

  /** The attempts in order, up to and including the first whose Open fails. */
  function Run(attempts: seq<Attempt>): Walk {
    if attempts == [] then Nothing
    else Then(WriteFile(attempts[0].path, attempts[0].content), Run(attempts[1..]))
  }

  /** `e`, `k` times over. */
  function Repeat(e: ProgressEvent, k: nat): (r: seq<ProgressEvent>)
    ensures |r| == k
  {
    if k == 0 then [] else Repeat(e, k - 1) + [e]
  }

  /** Each event repeated `k` times in a row: what `k` subscriptions of one handler deliver. */
  function Forwarded(events: seq<ProgressEvent>, k: nat): seq<ProgressEvent>
    decreases |events|
  {
    if events == [] then []
    else Forwarded(events[..|events| - 1], k) + Repeat(events[|events| - 1], k)
  }

  /**
   * The events raised through ArchiveProgress while `records` are copied, when
   * `handlers` subscriptions were already on the copier before the first of them.
   */
  function ProgressLog(copierEvents: Bytes -> seq<ProgressEvent>, subscribed: bool,
                       records: seq<ZipRecord>, handlers: nat): seq<ProgressEvent>
    decreases |records|
  {
    if !subscribed || records == [] then []
    else
      var n := |records|;
      ProgressLog(copierEvents, subscribed, records[..n - 1], handlers)
        + Forwarded(copierEvents(records[n - 1].content), handlers + n)
  }

  /** The progress log the event evidently should produce: every copier event once, in order. */
  function ProgressLogOnce(copierEvents: Bytes -> seq<ProgressEvent>, subscribed: bool,
                           records: seq<ZipRecord>): seq<ProgressEvent>
    decreases |records|
  {
    if !subscribed || records == [] then []
    else
      var n := |records|;
      ProgressLogOnce(copierEvents, subscribed, records[..n - 1]) + Forwarded(copierEvents(records[n - 1].content), 1)
  }

  /** The copier events of all records, concatenated in order. */
  function AllEvents(copierEvents: Bytes -> seq<ProgressEvent>, records: seq<ZipRecord>): seq<ProgressEvent>
    decreases |records|
  {
    if records == [] then []
    else AllEvents(copierEvents, records[..|records| - 1]) + copierEvents(records[|records| - 1].content)
  }

  /**
   * What writing is observed through: the archive's records so far, how many
   * times the handler is subscribed to the copier, and the events raised
   * through ArchiveProgress.
   */
  datatype Output = Output(records: seq<ZipRecord>, handlers: nat, progress: seq<ProgressEvent>)

  /** The output once `records` are written on top of `o`, each copy subscribing the handler once more. */
  function Written(copierEvents: Bytes -> seq<ProgressEvent>, subscribed: bool, o: Output, records: seq<ZipRecord>): Output {
    Output(o.records + records, o.handlers + |records|,
           o.progress + ProgressLog(copierEvents, subscribed, records, o.handlers))
  }

  // ---------------------------------------------------------------------------
  // The same walk step by step, as the builder's methods take it

  /** How far a walk has got: the output so far and, once an Open has failed, its path. */
  datatype Outcome = Outcome(out: Output, failedAt: Option<string>)

  /** `s` is the outcome of running `attempts` on top of `o`. */
  ghost predicate ReachedBy(copierEvents: Bytes -> seq<ProgressEvent>, subscribed: bool, o: Output,
                            s: Outcome, attempts: seq<Attempt>) {
    s == Reached(copierEvents, subscribed, o, Run(attempts))
  }

  /** The outcome of the walk `w` written on top of `o`. */
  function Reached(copierEvents: Bytes -> seq<ProgressEvent>, subscribed: bool, o: Output, w: Walk): Outcome {
    Outcome(Written(copierEvents, subscribed, o, w.records), w.failedAt)
  }

  /** The events ArchiveProgress raises while `content` is copied with `handlers` subscriptions. */
  function Delivered(copierEvents: Bytes -> seq<ProgressEvent>, subscribed: bool,
                     content: Bytes, handlers: nat): seq<ProgressEvent> {
    if subscribed then Forwarded(copierEvents(content), handlers) else []
  }

  /**
   * One file on top of `o`: when Open fails nothing changes and the walk
   * fails there; otherwise the record is put, the handler is subscribed once
   * more and the content is copied through every subscription.
   */
  function FileOutcome(copierEvents: Bytes -> seq<ProgressEvent>, subscribed: bool, o: Output,
                       path: string, content: Option<Bytes>): Outcome {
    match content
    case None => Outcome(o, Some(path))
    case Some(c) =>
      Outcome(Output(o.records + [ZipRecord(path, c)], o.handlers + 1,
                     o.progress + Delivered(copierEvents, subscribed, c, o.handlers + 1)), None)
  }

  /** The attempts from the `i`-th on, one file at a time, on top of `o`, up to the first failure. */
  function AttemptsOutcome(copierEvents: Bytes -> seq<ProgressEvent>, subscribed: bool, o: Output,
                           attempts: seq<Attempt>, i: nat): Outcome
    requires i <= |attempts|
    decreases |attempts| - i
  {
    if i == |attempts| then Outcome(o, None)
    else
      var s := FileOutcome(copierEvents, subscribed, o, attempts[i].path, attempts[i].content);
      if s.failedAt.Some? then s else AttemptsOutcome(copierEvents, subscribed, s.out, attempts, i + 1)
  }

  /** A directory below `parentDirectory` on top of `o`: its files, then, unless one failed, its subdirectories. */
  function DirectoryOutcome(copierEvents: Bytes -> seq<ProgressEvent>, subscribed: bool, o: Output,
                            d: DirectoryInfo, parentDirectory: string): Outcome
    decreases d, |d.directories| + 1
  {
    var p := Combine(parentDirectory, DirectoryName(d.fullName));
    var s := AttemptsOutcome(copierEvents, subscribed, o, FileAttempts(d.files, p), 0);
    if s.failedAt.Some? then s else SubdirectoriesOutcome(copierEvents, subscribed, s.out, d, 0, p)
  }

  /** The subdirectories of `d` from the `j`-th on, each below `p`, on top of `o`, up to the first failure. */
  function SubdirectoriesOutcome(copierEvents: Bytes -> seq<ProgressEvent>, subscribed: bool, o: Output,
                                 d: DirectoryInfo, j: nat, p: string): Outcome
    requires j <= |d.directories|
    decreases d, |d.directories| - j
  {
    if j == |d.directories| then Outcome(o, None)
    else
      var s := DirectoryOutcome(copierEvents, subscribed, o, d.directories[j], p);
      if s.failedAt.Some? then s else SubdirectoriesOutcome(copierEvents, subscribed, s.out, d, j + 1, p)
  }

  /** One pending entry on top of `o`, dispatched on its exact type. */
  function EntryOutcome(copierEvents: Bytes -> seq<ProgressEvent>, subscribed: bool, o: Output,
                        e: FileSystemEntry): Outcome {
    match e
    case PendingFile(InMemoryFile(name, content)) => FileOutcome(copierEvents, subscribed, o, name, content)
    case PendingFile(PhysicalFile(f)) => FileOutcome(copierEvents, subscribed, o, f.Name(), f.Open())
    case PendingFile(OtherFile) => Outcome(o, None)
    case PendingDirectory(PhysicalDirectory(d)) => DirectoryOutcome(copierEvents, subscribed, o, d.wrappedInstance, [])
    case PendingDirectory(OtherDirectory) => Outcome(o, None)
  }

  /** The entries of the queue from the `i`-th on, on top of `o`, up to the first failure. */
  function QueueOutcome(copierEvents: Bytes -> seq<ProgressEvent>, subscribed: bool, o: Output,
                        q: seq<FileSystemEntry>, i: nat): Outcome
    requires i <= |q|
    decreases |q| - i
  {
    if i == |q| then Outcome(o, None)
    else
      var s := EntryOutcome(copierEvents, subscribed, o, q[i]);
      if s.failedAt.Some? then s else QueueOutcome(copierEvents, subscribed, s.out, q, i + 1)
  }

  // ---------------------------------------------------------------------------
  // The objects Build works with

  /** The zip stream: the records put so far. */
  class ZipOutputStream {
    var records: seq<ZipRecord>

    constructor ()
      ensures records == []
    {
      records := [];
    }

    /** PutNextEntry(new ZipEntry(path)) followed by copying the content into it. */
    method PutEntry(path: string, content: Bytes)
      modifies this`records
      ensures records == old(records) + [ZipRecord(path, content)]
    {
      records := records + [ZipRecord(path, content)];
    }
  }

  /** The stream copier's TransferProgress event: how many times the builder's handler is subscribed. */
  class StreamCopier {
    var transferProgressHandlers: nat

    constructor ()
      ensures transferProgressHandlers == 0
    {
      transferProgressHandlers := 0;
    }

    /** `TransferProgress += OnZippingProgress`. */
    method Subscribe()
      modifies this`transferProgressHandlers
      ensures transferProgressHandlers == old(transferProgressHandlers) + 1
    {
      transferProgressHandlers := transferProgressHandlers + 1;
    }
  }

  class ZipFileBuilder {
    /** The pending entries, in the order they were added. */
    var pending: seq<FileSystemEntry>
    /** Whether ArchiveProgress has subscribers. */
    var archiveProgressSubscribed: bool
    /** The events raised through ArchiveProgress so far. */
    var archiveProgress: seq<ProgressEvent>
    /** The events a StreamCopier raises while copying some content. */
    const copierEvents: Bytes -> seq<ProgressEvent>

    constructor (copierEvents: Bytes -> seq<ProgressEvent>)
      ensures pending == [] && !archiveProgressSubscribed && archiveProgress == []
      ensures this.copierEvents == copierEvents
    {
      pending := [];
      archiveProgressSubscribed := false;
      archiveProgress := [];
      this.copierEvents := copierEvents;
    }

    /** The output of a Build in progress, writing to `zip` through `copier`. */
    function Observed(zip: ZipOutputStream, copier: StreamCopier): Output
      reads this`archiveProgress, zip`records, copier`transferProgressHandlers
    {
      Output(zip.records, copier.transferProgressHandlers, archiveProgress)
    }

    /** `ArchiveProgress += handler`. */
    method SubscribeArchiveProgress()
      modifies this`archiveProgressSubscribed
      ensures archiveProgressSubscribed
    {
      archiveProgressSubscribed := true;
    }

    /** AddDirectory: refuses null, otherwise appends to the queue and changes nothing else. */
    method AddDirectory(directoryInfo: Option<DirectoryEntry>) returns (r: Result<(), ArgumentError>)
      modifies this`pending
      ensures r.Failure? <==> directoryInfo.None?
      ensures r.Failure? ==> r.error == ArgumentNull("directoryInfo") && pending == old(pending)
      ensures r.Success? ==> pending == old(pending) + [PendingDirectory(directoryInfo.value)]
    {
      if directoryInfo.None? {
        return Failure(ArgumentNull("directoryInfo"));
      }
      pending := pending + [PendingDirectory(directoryInfo.value)];
      return Success(());
    }

    /** AddFile: refuses null, otherwise appends to the queue and changes nothing else. */
    method AddFile(fileInfo: Option<FileEntry>) returns (r: Result<(), ArgumentError>)
      modifies this`pending
      ensures r.Failure? <==> fileInfo.None?
      ensures r.Failure? ==> r.error == ArgumentNull("fileInfo") && pending == old(pending)
      ensures r.Success? ==> pending == old(pending) + [PendingFile(fileInfo.value)]
    {
      if fileInfo.None? {
        return Failure(ArgumentNull("fileInfo"));
      }
      pending := pending + [PendingFile(fileInfo.value)];
      return Success(());
    }

    /** OnZippingProgress: forwards one copier event, when ArchiveProgress has subscribers. */
    method OnZippingProgress(args: ProgressEvent)
      modifies this`archiveProgress
      ensures archiveProgress == old(archiveProgress) + (if archiveProgressSubscribed then [args] else [])
    {
      if archiveProgressSubscribed {
        archiveProgress := archiveProgress + [args];
      }
    }

    /** One copier event delivered to every subscription of the handler. */
    method DeliverProgress(copier: StreamCopier, args: ProgressEvent)
      modifies this`archiveProgress
      ensures archiveProgressSubscribed ==>
        archiveProgress == old(archiveProgress) + Repeat(args, copier.transferProgressHandlers)
      ensures !archiveProgressSubscribed ==> archiveProgress == old(archiveProgress)
    {
      var h := 0;
      while h < copier.transferProgressHandlers
        invariant 0 <= h <= copier.transferProgressHandlers
        invariant archiveProgressSubscribed ==> archiveProgress == old(archiveProgress) + Repeat(args, h)
        invariant !archiveProgressSubscribed ==> archiveProgress == old(archiveProgress)
      {
        OnZippingProgress(args);
        AppendAssoc(old(archiveProgress), Repeat(args, h), [args]);
        h := h + 1;
      }
    }

    /** StreamCopier.CopyStream as the builder sees it: each copier event, delivered in order. */
    method CopyStream(copier: StreamCopier, content: Bytes)
      modifies this`archiveProgress
      ensures archiveProgressSubscribed ==>
        archiveProgress == old(archiveProgress) + Forwarded(copierEvents(content), copier.transferProgressHandlers)
      ensures !archiveProgressSubscribed ==> archiveProgress == old(archiveProgress)
    {
      var events := copierEvents(content);
      ghost var k := copier.transferProgressHandlers;
      var i := 0;
      while i < |events|
        invariant 0 <= i <= |events|
        invariant archiveProgressSubscribed ==> archiveProgress == old(archiveProgress) + Forwarded(events[..i], k)
        invariant !archiveProgressSubscribed ==> archiveProgress == old(archiveProgress)
      {
        DeliverProgress(copier, events[i]);
        ForwardedSnoc(events, i, k);
        AppendAssoc(old(archiveProgress), Forwarded(events[..i], k), Repeat(events[i], k));
        i := i + 1;
      }
      assert events[..i] == events;
    }

    /**
     * AddFilesToZipFile: opens the file (None when Open throws, which ends the
     * call with no record), puts one record under `path`, subscribes the
     * handler once more and copies the content.
     */
    method AddFilesToZipFile(content: Option<Bytes>, path: string, zip: ZipOutputStream, copier: StreamCopier)
      returns (ok: bool)
      modifies zip`records, copier`transferProgressHandlers, this`archiveProgress
      ensures var s := FileOutcome(copierEvents, archiveProgressSubscribed, old(Observed(zip, copier)), path, content);
        ok == s.failedAt.None? && Observed(zip, copier) == s.out
    {
      if content.None? {
        return false;
      }
      zip.PutEntry(path, content.value);
      copier.Subscribe();
      CopyStream(copier, content.value);
      return true;
    }

    /**
     * AddDirectoryToZipFile: the directory's path is its name combined onto
     * `parentDirectory`; its files are written under that path, then each
     * subdirectory is walked below it. Returns the path whose Open failed.
     */
    method AddDirectoryToZipFile(directoryInfo: DirectoryInfoWrapper, zip: ZipOutputStream, copier: StreamCopier,
                                 parentDirectory: string)
      returns (failedAt: Option<string>)
      modifies zip`records, copier`transferProgressHandlers, this`archiveProgress
      decreases directoryInfo.wrappedInstance, 1
      ensures Outcome(Observed(zip, copier), failedAt)
        == DirectoryOutcome(copierEvents, archiveProgressSubscribed, old(Observed(zip, copier)),
                            directoryInfo.wrappedInstance, parentDirectory)
    {
      var d := directoryInfo.wrappedInstance;
      var p := Combine(parentDirectory, directoryInfo.Name());
      var files := directoryInfo.GetFiles();
      assert WrapsFiles(files[..], d.files);
      failedAt := AddListedFiles(files[..], d.files, p, zip, copier);
      if failedAt.Some? {
        return;
      }
      var directories := directoryInfo.GetDirectories();
      assert WrapsDirectories(directories[..], d.directories);
      failedAt := AddListedDirectories(directories[..], d, p, zip, copier);
    }

    /** The first loop of AddDirectoryToZipFile: each listed file, in order, under `p`. */
    method AddListedFiles(files: seq<FileInfoWrapper?>, listing: seq<FileInfo>, p: string,
                          zip: ZipOutputStream, copier: StreamCopier)
      returns (failedAt: Option<string>)
      requires WrapsFiles(files, listing)
      modifies zip`records, copier`transferProgressHandlers, this`archiveProgress
      ensures Outcome(Observed(zip, copier), failedAt)
        == AttemptsOutcome(copierEvents, archiveProgressSubscribed, old(Observed(zip, copier)), FileAttempts(listing, p), 0)
    {
      ghost var attempts := FileAttempts(listing, p);
      ghost var whole := AttemptsOutcome(copierEvents, archiveProgressSubscribed, Observed(zip, copier), attempts, 0);
      failedAt := None;
      var i := 0;
      while i < |files| && failedAt.None?
        invariant 0 <= i <= |files|
        invariant failedAt.None? ==>
          AttemptsOutcome(copierEvents, archiveProgressSubscribed, Observed(zip, copier), attempts, i) == whole
        invariant failedAt.Some? ==> Outcome(Observed(zip, copier), failedAt) == whole
      {
        var f := files[i];
        assert f != null && f.wrappedInstance == listing[i];
        var path := Combine(p, f.Name());
        FileAttemptAt(listing, p, i);
        var ok := AddFilesToZipFile(f.Open(), path, zip, copier);
        if !ok {
          failedAt := Some(path);
        }
        i := i + 1;
      }
    }

    /** The second loop of AddDirectoryToZipFile: each listed subdirectory of `d`, in order, below `p`. */
    method AddListedDirectories(directories: seq<DirectoryInfoWrapper?>, d: DirectoryInfo, p: string,
                                zip: ZipOutputStream, copier: StreamCopier)
      returns (failedAt: Option<string>)
      requires WrapsDirectories(directories, d.directories)
      modifies zip`records, copier`transferProgressHandlers, this`archiveProgress
      decreases d, 0
      ensures Outcome(Observed(zip, copier), failedAt)
        == SubdirectoriesOutcome(copierEvents, archiveProgressSubscribed, old(Observed(zip, copier)), d, 0, p)
    {
      ghost var whole := SubdirectoriesOutcome(copierEvents, archiveProgressSubscribed, Observed(zip, copier), d, 0, p);
      failedAt := None;
      var j := 0;
      while j < |directories| && failedAt.None?
        invariant 0 <= j <= |directories|
        invariant failedAt.None? ==>
          SubdirectoriesOutcome(copierEvents, archiveProgressSubscribed, Observed(zip, copier), d, j, p) == whole
        invariant failedAt.Some? ==> Outcome(Observed(zip, copier), failedAt) == whole
      {
        var w := directories[j];
        assert w != null && w.wrappedInstance == d.directories[j];
        failedAt := AddDirectoryToZipFile(w, zip, copier, p);
        j := j + 1;
      }
    }

    /** One pending entry, dispatched on its exact type: entries of any other type are skipped. */
    method AddEntry(e: FileSystemEntry, zip: ZipOutputStream, copier: StreamCopier) returns (failedAt: Option<string>)
      modifies zip`records, copier`transferProgressHandlers, this`archiveProgress
      ensures Outcome(Observed(zip, copier), failedAt)
        == EntryOutcome(copierEvents, archiveProgressSubscribed, old(Observed(zip, copier)), e)
    {
      failedAt := None;
      match e {
        case PendingFile(InMemoryFile(name, content)) =>
          var ok := AddFilesToZipFile(content, name, zip, copier);
          if !ok { failedAt := Some(name); }
        case PendingFile(PhysicalFile(f)) =>
          var ok := AddFilesToZipFile(f.Open(), f.Name(), zip, copier);
          if !ok { failedAt := Some(f.Name()); }
        case PendingFile(OtherFile) =>
        case PendingDirectory(PhysicalDirectory(d)) =>
          failedAt := AddDirectoryToZipFile(d, zip, copier, []);
        case PendingDirectory(OtherDirectory) =>
      }
    }

    /**
     * Build: refuses an empty archive name; otherwise writes every pending
     * entry in order. On success the queue is emptied and the archive's
     * records are returned; when opening a file fails the failure escapes and
     * the queue is kept.
     */
    method Build(archiveFileName: string) returns (r: Result<seq<ZipRecord>, BuildError>)
      modifies this`pending, this`archiveProgress
      ensures archiveFileName == [] ==>
        r == Failure(InvalidArgument(ArgumentEmpty("archiveFileName")))
        && pending == old(pending) && archiveProgress == old(archiveProgress)
      ensures archiveFileName != [] ==> var w := Run(QueueAttempts(old(pending)));
        && (w.failedAt.None? ==> r == Success(w.records) && pending == [])
        && (w.failedAt.Some? ==> r == Failure(OpenFailed(w.failedAt.value)) && pending == old(pending))
        && archiveProgress == old(archiveProgress) + ProgressLog(copierEvents, archiveProgressSubscribed, w.records, 0)
    {
      if archiveFileName == [] {
        return Failure(InvalidArgument(ArgumentEmpty("archiveFileName")));
      }
      var zip := new ZipOutputStream();
      var copier := new StreamCopier();
      var q := pending;
      ghost var whole := QueueOutcome(copierEvents, archiveProgressSubscribed, Observed(zip, copier), q, 0);
      var failedAt: Option<string> := None;
      var i := 0;
      while i < |q| && failedAt.None?
        invariant 0 <= i <= |q| && pending == q
        invariant failedAt.None? ==> QueueOutcome(copierEvents, archiveProgressSubscribed, Observed(zip, copier), q, i) == whole
        invariant failedAt.Some? ==> Outcome(Observed(zip, copier), failedAt) == whole
      {
        failedAt := AddEntry(q[i], zip, copier);
        i := i + 1;
      }
      BuildReached(copierEvents, archiveProgressSubscribed, old(archiveProgress), q);
      if failedAt.Some? {
        return Failure(OpenFailed(failedAt.value));
      }
      pending := [];
      return Success(zip.records);
    }
  }

  // ---------------------------------------------------------------------------
  // Lemmas the builder's proofs rest on

  /** Progress over two runs of records: the second run starts with the handlers the first added. */
  lemma {:induction false} ProgressLogAppend(copierEvents: Bytes -> seq<ProgressEvent>, subscribed: bool,
                                             a: seq<ZipRecord>, b: seq<ZipRecord>, handlers: nat, next: nat)
    requires next == handlers + |a|
    ensures ProgressLog(copierEvents, subscribed, a + b, handlers)
      == ProgressLog(copierEvents, subscribed, a, handlers) + ProgressLog(copierEvents, subscribed, b, next)
    decreases |b|
  {
    if subscribed && b != [] {
      var b0 := b[..|b| - 1];
      var events := Forwarded(copierEvents(b[|b| - 1].content), handlers + |a + b|);
      ProgressLogAppend(copierEvents, subscribed, a, b0, handlers, next);
      assert ProgressLog(copierEvents, subscribed, a + b, handlers)
          == ProgressLog(copierEvents, subscribed, a + b0, handlers) + events by {
        assert (a + b)[..|a + b| - 1] == a + b0;
        assert (a + b)[|a + b| - 1] == b[|b| - 1];
      }
      assert ProgressLog(copierEvents, subscribed, b, next) == ProgressLog(copierEvents, subscribed, b0, next) + events;
      AppendAssoc(ProgressLog(copierEvents, subscribed, a, handlers), ProgressLog(copierEvents, subscribed, b0, next), events);
    } else if subscribed {
      assert a + b == a;
    }
  }

  /** Writing `a` and then `b` is writing `a + b`. */
  lemma WrittenTwice(copierEvents: Bytes -> seq<ProgressEvent>, subscribed: bool, o: Output,
                     a: seq<ZipRecord>, b: seq<ZipRecord>)
    ensures Written(copierEvents, subscribed, Written(copierEvents, subscribed, o, a), b)
         == Written(copierEvents, subscribed, o, a + b)
  {
    ProgressLogAppend(copierEvents, subscribed, a, b, o.handlers, o.handlers + |a|);
    AppendAssoc(o.records, a, b);
    AppendAssoc(o.progress, ProgressLog(copierEvents, subscribed, a, o.handlers),
                ProgressLog(copierEvents, subscribed, b, o.handlers + |a|));
  }

  /** Forwarding one more event. */
  lemma ForwardedSnoc(events: seq<ProgressEvent>, i: nat, k: nat)
    requires i < |events|
    ensures Forwarded(events[..i + 1], k) == Forwarded(events[..i], k) + Repeat(events[i], k)
  {
    assert events[..i + 1][..i] == events[..i];
  }

  /** The head and tail of a concatenation whose first part is not empty. */
  lemma ConsAppend<T>(a: seq<T>, b: seq<T>)
    requires a != []
    ensures (a + b)[0] == a[0] && (a + b)[1..] == a[1..] + b
  {
  }

  lemma AppendAssoc<T>(a: seq<T>, b: seq<T>, c: seq<T>)
    ensures (a + b) + c == a + (b + c)
  {
  }

  /** A single attempt runs as one WriteFile. */
  lemma RunSingle(path: string, content: Option<Bytes>)
    ensures Run([Attempt(path, content)]) == WriteFile(path, content)
  {
    var w := WriteFile(path, content);
    assert [Attempt(path, content)][1..] == [];
    assert w.records + [] == w.records;
  }

  /** Running a walk after two others is running it after the two back to back. */
  lemma ThenAssoc(a: Walk, b: Walk, c: Walk)
    ensures Then(a, Then(b, c)) == Then(Then(a, b), c)
  {
    AppendAssoc(a.records, b.records, c.records);
  }

  /** Running two runs of attempts back to back: the second only when the first did not fail. */
  lemma {:induction false} RunAppend(a: seq<Attempt>, b: seq<Attempt>)
    ensures Run(a + b) == Then(Run(a), Run(b))
  {
    if a == [] {
      assert a + b == b;
      assert [] + Run(b).records == Run(b).records;
    } else {
      RunAppend(a[1..], b);
      ConsAppend(a, b);
      ThenAssoc(WriteFile(a[0].path, a[0].content), Run(a[1..]), Run(b));
    }
  }

  /** A directory's run: its files' run, then, unless that failed, its subdirectories' run. */
  lemma DirectoryRun(d: DirectoryInfo, parentDirectory: string)
    ensures var p := Combine(parentDirectory, DirectoryName(d.fullName));
      Run(DirectoryAttempts(d, parentDirectory))
        == Then(Run(FileAttempts(d.files, p)), Run(SubdirectoryAttempts(d, 0, p)))
  {
    var p := Combine(parentDirectory, DirectoryName(d.fullName));
    RunAppend(FileAttempts(d.files, p), SubdirectoryAttempts(d, 0, p));
  }

  /** Attempt `i` of a listing is file `i` under the directory's path. */
  lemma {:induction false} FileAttemptAt(files: seq<FileInfo>, p: string, i: nat)
    requires i < |files|
    ensures FileAttempts(files, p)[i] == Attempt(Combine(p, FileName(files[i])), files[i].content)
  {
    if 0 < i {
      FileAttemptAt(files[1..], p, i - 1);
    }
  }

  /** Once a run fails, nothing after it is attempted. */
  lemma RunStopsAtFailure(a: seq<Attempt>, b: seq<Attempt>)
    requires Run(a).failedAt.Some?
    ensures Run(a + b) == Run(a)
  {
    RunAppend(a, b);
  }

  /** The queue's attempts are those of its entries, in queue order. */
  lemma {:induction false} QueueAttemptsAppend(q1: seq<FileSystemEntry>, q2: seq<FileSystemEntry>)
    ensures QueueAttempts(q1 + q2) == QueueAttempts(q1) + QueueAttempts(q2)
  {
    if q1 == [] {
      assert q1 + q2 == q2;
    } else {
      QueueAttemptsAppend(q1[1..], q2);
      ConsAppend(q1, q2);
      AppendAssoc(EntryAttempts(q1[0]), QueueAttempts(q1[1..]), QueueAttempts(q2));
    }
  }

  /** Writing one file step by step is writing its WriteFile walk. */
  lemma FileReached(copierEvents: Bytes -> seq<ProgressEvent>, subscribed: bool, o: Output,
                    path: string, content: Option<Bytes>)
    ensures ReachedBy(copierEvents, subscribed, o, FileOutcome(copierEvents, subscribed, o, path, content),
                      [Attempt(path, content)])
  {
    RunSingle(path, content);
    match content
    case None =>
      assert o.records + [] == o.records && o.progress + [] == o.progress;
    case Some(c) =>
      var rs := [ZipRecord(path, c)];
      assert rs[..0] == [];
      assert subscribed ==>
        ProgressLog(copierEvents, subscribed, rs, o.handlers) == [] + Forwarded(copierEvents(c), o.handlers + 1);
      assert !subscribed ==> ProgressLog(copierEvents, subscribed, rs, o.handlers) == [];
      assert o.progress + [] == o.progress;
  }

  /** Nothing attempted leaves the output as it was. */
  lemma NothingReached(copierEvents: Bytes -> seq<ProgressEvent>, subscribed: bool, o: Output)
    ensures ReachedBy(copierEvents, subscribed, o, Outcome(o, None), [])
  {
    assert o.records + [] == o.records && o.progress + [] == o.progress;
  }

  /**
   * A step that continues from the outcome `s` of the attempts `a`, unless it
   * failed, with the outcome `t` of the attempts `b`, reaches the run of both.
   */
  lemma ThenReached(copierEvents: Bytes -> seq<ProgressEvent>, subscribed: bool, o: Output,
                    a: seq<Attempt>, b: seq<Attempt>, s: Outcome, t: Outcome)
    requires ReachedBy(copierEvents, subscribed, o, s, a)
    requires s.failedAt.None? ==> ReachedBy(copierEvents, subscribed, s.out, t, b)
    ensures ReachedBy(copierEvents, subscribed, o, if s.failedAt.Some? then s else t, a + b)
  {
    WrittenTwice(copierEvents, subscribed, o, Run(a).records, Run(b).records);
    RunAppend(a, b);
  }

  /** Attempts written one by one from the `i`-th on reach the run of those attempts. */
  lemma {:induction false} AttemptsReached(copierEvents: Bytes -> seq<ProgressEvent>, subscribed: bool, o: Output,
                                           attempts: seq<Attempt>, i: nat)
    requires i <= |attempts|
    ensures ReachedBy(copierEvents, subscribed, o, AttemptsOutcome(copierEvents, subscribed, o, attempts, i), attempts[i..])
    decreases |attempts| - i
  {
    if i == |attempts| {
      assert attempts[i..] == [];
      NothingReached(copierEvents, subscribed, o);
    } else {
      var a := attempts[i];
      var s := FileOutcome(copierEvents, subscribed, o, a.path, a.content);
      FileReached(copierEvents, subscribed, o, a.path, a.content);
      AttemptsReached(copierEvents, subscribed, s.out, attempts, i + 1);
      ThenReached(copierEvents, subscribed, o, [a], attempts[i + 1..],
                  s, AttemptsOutcome(copierEvents, subscribed, s.out, attempts, i + 1));
      assert [a] + attempts[i + 1..] == attempts[i..];
    }
  }

  /** A directory walked step by step reaches the run of its attempts. */
  lemma {:induction false} DirectoryReached(copierEvents: Bytes -> seq<ProgressEvent>, subscribed: bool, o: Output,
                                            d: DirectoryInfo, parentDirectory: string)
    ensures ReachedBy(copierEvents, subscribed, o, DirectoryOutcome(copierEvents, subscribed, o, d, parentDirectory),
                      DirectoryAttempts(d, parentDirectory))
    decreases d, |d.directories| + 1
  {
    var p := Combine(parentDirectory, DirectoryName(d.fullName));
    var fa := FileAttempts(d.files, p);
    var s := AttemptsOutcome(copierEvents, subscribed, o, fa, 0);
    AttemptsReached(copierEvents, subscribed, o, fa, 0);
    assert fa[0..] == fa;
    SubdirectoriesReached(copierEvents, subscribed, s.out, d, 0, p);
    ThenReached(copierEvents, subscribed, o, fa, SubdirectoryAttempts(d, 0, p),
                s, SubdirectoriesOutcome(copierEvents, subscribed, s.out, d, 0, p));
  }

  /** The subdirectories from the `j`-th on, walked step by step, reach the run of their attempts. */
  lemma {:induction false} SubdirectoriesReached(copierEvents: Bytes -> seq<ProgressEvent>, subscribed: bool, o: Output,
                                                 d: DirectoryInfo, j: nat, p: string)
    requires j <= |d.directories|
    ensures ReachedBy(copierEvents, subscribed, o, SubdirectoriesOutcome(copierEvents, subscribed, o, d, j, p),
                      SubdirectoryAttempts(d, j, p))
    decreases d, |d.directories| - j
  {
    if j == |d.directories| {
      NothingReached(copierEvents, subscribed, o);
    } else {
      var sub := d.directories[j];
      var s := DirectoryOutcome(copierEvents, subscribed, o, sub, p);
      DirectoryReached(copierEvents, subscribed, o, sub, p);
      SubdirectoriesReached(copierEvents, subscribed, s.out, d, j + 1, p);
      ThenReached(copierEvents, subscribed, o, DirectoryAttempts(sub, p), SubdirectoryAttempts(d, j + 1, p),
                  s, SubdirectoriesOutcome(copierEvents, subscribed, s.out, d, j + 1, p));
    }
  }

  /** An entry written step by step reaches the run of its attempts. */
  lemma EntryReached(copierEvents: Bytes -> seq<ProgressEvent>, subscribed: bool, o: Output, e: FileSystemEntry)
    ensures ReachedBy(copierEvents, subscribed, o, EntryOutcome(copierEvents, subscribed, o, e), EntryAttempts(e))
  {
    match e
    case PendingFile(InMemoryFile(name, content)) =>
      FileReached(copierEvents, subscribed, o, name, content);
    case PendingFile(PhysicalFile(f)) =>
      FileReached(copierEvents, subscribed, o, f.Name(), f.Open());
    case PendingFile(OtherFile) =>
      NothingReached(copierEvents, subscribed, o);
    case PendingDirectory(PhysicalDirectory(d)) =>
      DirectoryReached(copierEvents, subscribed, o, d.wrappedInstance, []);
    case PendingDirectory(OtherDirectory) =>
      NothingReached(copierEvents, subscribed, o);
  }

  /** The queue written entry by entry from the `i`-th on reaches the run of those entries' attempts. */
  lemma {:induction false} QueueReached(copierEvents: Bytes -> seq<ProgressEvent>, subscribed: bool, o: Output,
                                        q: seq<FileSystemEntry>, i: nat)
    requires i <= |q|
    ensures ReachedBy(copierEvents, subscribed, o, QueueOutcome(copierEvents, subscribed, o, q, i), QueueAttempts(q[i..]))
    decreases |q| - i
  {
    if i == |q| {
      assert q[i..] == [];
      NothingReached(copierEvents, subscribed, o);
    } else {
      var s := EntryOutcome(copierEvents, subscribed, o, q[i]);
      EntryReached(copierEvents, subscribed, o, q[i]);
      QueueReached(copierEvents, subscribed, s.out, q, i + 1);
      ThenReached(copierEvents, subscribed, o, EntryAttempts(q[i]), QueueAttempts(q[i + 1..]),
                  s, QueueOutcome(copierEvents, subscribed, s.out, q, i + 1));
      assert q[i..][1..] == q[i + 1..];
    }
  }

  /** A whole Build from an empty archive: the records of the queue's run, and the progress they raise. */
  lemma BuildReached(copierEvents: Bytes -> seq<ProgressEvent>, subscribed: bool, progress: seq<ProgressEvent>,
                     q: seq<FileSystemEntry>)
    ensures var s, w := QueueOutcome(copierEvents, subscribed, Output([], 0, progress), q, 0), Run(QueueAttempts(q));
      && s.out.records == w.records && s.failedAt == w.failedAt
      && s.out.progress == progress + ProgressLog(copierEvents, subscribed, w.records, 0)
  {
    QueueReached(copierEvents, subscribed, Output([], 0, progress), q, 0);
    assert q[0..] == q;
  }
}
