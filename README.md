# In-memory directory trees and the zip archive builder, in Dafny

This project models four pieces of two related code bases and proves properties of them. The first three belong to the re-motion IO library (namespace `Remotion.IO`). The zip builder belongs to the re-vision document management system (namespace `Remotion.Dms.Shared.Utilities`).

- **InMemoryDirectoryInfo** is a directory that exists only in memory (module `InMemory`, file `in_memory_directory_info.dfy`).
  - Its full name, parent and three timestamps are fixed at construction.
  - Callers grow its file and directory lists in place.
  - Its remaining getters are constants.
- **DirectoryTreeResolver** builds trees of such directories from backslash-delimited paths (module `DirectoryTree`, file `directory_tree_resolver.dfy`).
  - Every ancestor of a requested path is created on demand.
  - Each full path is created once and returned as the same instance afterwards.
  - A new node is linked into its parent's directory list, or into the root list when it has no parent.
  - A file created through `GetFileInfoWithPath` is appended to its directory.
  - The implementation file is not part of this model. The class follows the behaviour that `UnitTests/DirectoryTreeResolverTest.cs` asserts.
  - The separator set is a constructor parameter that must contain the backslash.
- **DirectoryInfoWrapper** is the directory interface over a physical `System.IO` directory (module `InfoWrappers`, file `directory_info_wrapper.dfy`). Its own logic is:
  - the name computation;
  - the read-only test;
  - the parent it reports;
  - the two loops that wrap the listings into fresh arrays.
- **ZipFileBuilder** keeps a queue of pending files and directories (module `Zip`, file `zip_file_builder.dfy`; the properties are in module `ZipProperties`, file `zip_properties.dfy`).
  - `Build` writes the queue, in order, as records of a zip stream.
  - A file is stored under its bare name.
  - A physical directory is walked depth first: its files come first, then its subdirectories. Each record's path is the directory names from the enqueued directory down, joined with `Path.Combine`.
  - Entries of any other runtime type are skipped.

Supporting modules:

- `Paths` (`paths.dfy`) states the .NET path rules the core relies on: `String.Split`, `Path.GetFileName`, `Path.Combine` and `Path.IsPathRooted`, with explicit separator sets.
- `FileSystem` (`file_system.dfy`) holds the physical file and directory records: full name, attribute word, content and ordered listings.
- `Wrappers` (`wrappers.dfy`) holds `Option` and `Result`.
  - `None` stands for a null reference.
  - `Failure` stands for the exception an argument check throws.

How the zip builder is stated:

- The archive is the ordered sequence of `(path, content)` records put into the zip stream.
- `Build` is proved against `Run(QueueAttempts(queue))`.
  - `QueueAttempts` lists every file the queue makes Build open, in order, with its archive path.
  - `Run` writes them until the first whose `Open` fails.
  - `ZipProperties` proves what that run is without the step-by-step functions.
- The `ArchiveProgress` events are stated by `ProgressLog`.

Where the documentation and the code disagree, the model follows the code. The class comment at `Dms/Shared/Utilities/ZipFileBuilder.cs:27` says the directory itself is added after its files. The code writes no record for a directory (`DirectoryAttemptCount`).

## Model

| member | source | states |
|---|---|---|
| InMemory.InMemoryDirectoryInfo.constructor | Core/InMemoryDirectoryInfo.cs:44-58 | full name, parent and the three timestamps are the arguments; both child lists start empty |
| InMemory.InMemoryDirectoryInfo.Create | Core/InMemoryDirectoryInfo.cs:51 | construction fails with an empty-argument error exactly when the full name is empty; otherwise a fresh node holding the arguments |
| InMemory.InMemoryDirectoryInfo.FullName | Core/InMemoryDirectoryInfo.cs:65-68 | the constructor's full name, unchanged and non-empty |
| InMemory.InMemoryDirectoryInfo.ToString | Core/InMemoryDirectoryInfo.cs:135-138 | the full name, unchanged and non-empty |
| InMemory.InMemoryDirectoryInfo.Name | Core/InMemoryDirectoryInfo.cs:70-73 | a separator-free suffix of the full name that follows a separator unless it is the whole name, i.e. the final path segment |
| InMemory.InMemoryDirectoryInfo.PhysicalPath | Core/InMemoryDirectoryInfo.cs:60-63 | always null |
| InMemory.InMemoryDirectoryInfo.Extension | Core/InMemoryDirectoryInfo.cs:75-78 | always empty |
| InMemory.InMemoryDirectoryInfo.Exists | Core/InMemoryDirectoryInfo.cs:80-83 | always true |
| InMemory.InMemoryDirectoryInfo.IsReadOnly | Core/InMemoryDirectoryInfo.cs:85-88 | always true |
| InMemory.InMemoryDirectoryInfo.GetFiles | Core/InMemoryDirectoryInfo.cs:110-113 | a fresh array holding the current file list in insertion order |
| InMemory.InMemoryDirectoryInfo.GetDirectories | Core/InMemoryDirectoryInfo.cs:115-118 | a fresh array holding the current directory list in insertion order |
| InMemory.InMemoryDirectoryInfo.AddFile | Core/InMemoryDirectoryInfo.cs:120-123 | appending through the live file list adds the file at the end and changes no other field |
| InMemory.InMemoryDirectoryInfo.AddDirectory | Core/InMemoryDirectoryInfo.cs:125-128 | appending through the live directory list adds the directory at the end and changes no other field |
| InMemory.InMemoryDirectoryInfo.Refresh | Core/InMemoryDirectoryInfo.cs:130-133 | the node is unchanged |
| InMemory.SnapshotIsIndependent | Core/InMemoryDirectoryInfo.cs:110-123 | a GetFiles snapshot keeps the old contents after a later append to the live list |
| DirectoryTree.DirectoryTreeResolver.constructor | UnitTests/DirectoryTreeResolverTest.cs:33 | a resolver with the given baseline, nothing cached, no roots and no nodes, satisfying the tree invariant |
| DirectoryTree.DirectoryTreeResolver.GetLeafDirectoryInfo | UnitTests/DirectoryTreeResolverTest.cs:37-69 | fails exactly on an empty path or an empty segment. Otherwise it returns the cached node for the path, with that full name, the baseline as all three timestamps, and as parent the node of the path before the last separator (null when there is none). The cache gains exactly the path's ancestors; existing nodes and their file lists are kept; every node it adds is new |
| DirectoryTree.DirectoryTreeResolver.Resolve | UnitTests/DirectoryTreeResolverTest.cs:51-56 | returns the node cached for the path, creating the missing ancestors. A path already cached returns the same instance and changes neither the cache, the roots nor any directory list |
| DirectoryTree.DirectoryTreeResolver.ResolveMissing | UnitTests/DirectoryTreeResolverTest.cs:113-122 | an uncached path gets a fresh node with no files, after its parent path is resolved; earlier nodes are kept |
| DirectoryTree.DirectoryTreeResolver.AddNode | UnitTests/DirectoryTreeResolverTest.cs:89-107 | a fresh node is cached under its path and linked into its parent's list or the root list, keeping the tree invariant |
| DirectoryTree.DirectoryTreeResolver.AncestorsCached | UnitTests/DirectoryTreeResolverTest.cs:127-131 | every ancestor of a cached path is cached |
| DirectoryTree.DirectoryTreeResolver.GetRootDirectories | UnitTests/DirectoryTreeResolverTest.cs:72-77 | a fresh array holding the root list |
| DirectoryTree.RootsAreFirstSegments | UnitTests/DirectoryTreeResolverTest.cs:124-125 | the full names in the root list are exactly the distinct first segments of the resolved paths, with no name twice |
| DirectoryTree.SinglePathChain | UnitTests/DirectoryTreeResolverTest.cs:83-107 | after resolving one path, every ancestor's directory list is exactly its one child on that path, and the leaf's list is empty |
| DirectoryTree.DirectoryTreeResolver.GetFileInfoWithPath | UnitTests/DirectoryTreeResolverTest.cs:135-157 | fails on a malformed path. A path without a separator gives the factory's file for the whole path with a null directory and resolves nothing. Otherwise the factory gets the leaf name and the resolved directory, and the new file is appended to that directory's list, which was empty when the directory was new. No other node's file list changes, and every node it adds is new |
| DirectoryTree.DirectoryTreeResolver.CreateFileIn | UnitTests/DirectoryTreeResolverTest.cs:137-144 | resolves the directory, passes it to the factory and appends the result to exactly that directory's file list; every node it adds is new |
| DirectoryTree.DirectoryTreeResolver.AttachFile | UnitTests/DirectoryTreeResolverTest.cs:144 | appends the file to one node's list, keeping the tree invariant |
| DirectoryTree.SamePathTwice | UnitTests/DirectoryTreeResolverTest.cs:51-57 | the same path requested twice from a new resolver gives the same node both times; both requests fail exactly when the path is malformed |
| DirectoryTree.SiblingsShareParent | UnitTests/DirectoryTreeResolverTest.cs:127-128 | two paths below the same directory, requested one after the other, get the same parent node, named after that directory |
| DirectoryTree.FileInNewDirectory | UnitTests/DirectoryTreeResolverTest.cs:135-145 | on a new resolver a file with a directory path is made by the factory from the leaf name and that directory, and is the directory's only file |
| DirectoryTree.AncestorFacts | UnitTests/DirectoryTreeResolverTest.cs:87-104 | every ancestor is a well-formed prefix of the path; its own ancestors are ancestors of the path; the parentless one is the first segment |
| DirectoryTree.FirstSegmentIsRootAncestor | UnitTests/DirectoryTreeResolverTest.cs:101-107 | the first segment is a parentless ancestor of the path |
| DirectoryTree.AncestorChildUnique | UnitTests/DirectoryTreeResolverTest.cs:93-105 | along one path each ancestor has at most one child among the other ancestors |
| DirectoryTree.AncestorNotBelow | UnitTests/DirectoryTreeResolverTest.cs:83-93 | no ancestor of a path has that path as its parent, so the leaf has no child |
| DirectoryTree.ResolvedName | UnitTests/DirectoryTreeResolverTest.cs:62-68 | the Name of a resolved node is the last segment of its path when that segment holds no other separator |
| InfoWrappers.DirectoryInfoWrapper.constructor | Core/DirectoryInfoWrapper.cs:32-36 | the wrapper holds the given directory |
| InfoWrappers.DirectoryInfoWrapper.Create | Core/DirectoryInfoWrapper.cs:34 | fails with a null-argument error exactly when the directory is null; otherwise a fresh wrapper of it |
| InfoWrappers.DirectoryInfoWrapper.FullName | Core/DirectoryInfoWrapper.cs:43-46 | the wrapped directory's full name |
| InfoWrappers.DirectoryInfoWrapper.PhysicalPath | Core/DirectoryInfoWrapper.cs:38-41 | always equal to FullName |
| InfoWrappers.DirectoryInfoWrapper.IsReadOnly | Core/DirectoryInfoWrapper.cs:67-70 | true exactly when the whole attribute word equals ReadOnly, which implies the ReadOnly flag is set |
| InfoWrappers.DirectoryInfoWrapper.Parent | Core/DirectoryInfoWrapper.cs:90-93 | as written: a wrapper with the same full name and name as this one |
| InfoWrappers.DirectoryInfoWrapper.ParentFullName | Core/DirectoryInfoWrapper.cs:90-93 | the parent a directory should report: None exactly when the full name has no separator; otherwise the text before the last separator, which with that separator and Name makes up the full name |
| InfoWrappers.DirectoryInfoWrapper.GetFiles | Core/DirectoryInfoWrapper.cs:95-103 | a fresh array as long as the file listing whose element i wraps listed file i |
| InfoWrappers.DirectoryInfoWrapper.GetDirectories | Core/DirectoryInfoWrapper.cs:105-114 | a fresh array as long as the subdirectory listing whose element i wraps listed subdirectory i; an empty listing gives an empty array |
| InfoWrappers.DirectoryInfoWrapper.Name | Core/DirectoryInfoWrapper.cs:53-60 | the last piece of the full name split on both directory separators is the text after the last separator (the `DirectoryName` of the full name) |
| InfoWrappers.NameIsLastSeparatorFreeSuffix | Core/DirectoryInfoWrapper.cs:53-60 | Name holds no separator and is a suffix of the full name that follows a separator unless it is the whole name. It is the whole name when there is no separator, and empty when the name ends with one |
| InfoWrappers.NameOfCombinedPath | UnitTests/DirectoryInfoWrapperTest.cs:44-50 | a wrapper of `Path.Combine(path1, folder)` is named `folder` when that is a bare name |
| InfoWrappers.ReadOnlyDirectoryNotReported | Core/DirectoryInfoWrapper.cs:69 | a directory with the ReadOnly and Directory flags has the ReadOnly flag, yet IsReadOnly answers false |
| InfoWrappers.HasReadOnlyFlagOfCombination | Core/DirectoryInfoWrapper.cs:69 | the flag test finds ReadOnly in a combination exactly when one part has it; ReadOnly has it, Directory and Hidden do not |
| InfoWrappers.ParentIsNotAboveNestedDirectory | Core/DirectoryInfoWrapper.cs:90-93 | Parent reports the wrapper's own full name, so whenever the full name has a separator it differs from the directory above |
| InfoWrappers.ParentOfNestedDirectory | Core/DirectoryInfoWrapper.cs:90-93 | for `Dir\Sub`, Parent reports `Dir\Sub` while the parent is `Dir` |
| Paths.CombineEndsWithSecond | Dms/Shared/Utilities/ZipFileBuilder.cs:93 | Path.Combine keeps the first path when the second is empty, and otherwise ends with an unrooted second path |
| Paths.CombineJoins | Dms/Shared/Utilities/ZipFileBuilder.cs:95 | Path.Combine of two plain names is the first, one backslash and the second |
| Paths.CombineThenGetFileName | Core/InMemoryDirectoryInfo.cs:72 | Path.GetFileName of a combined path is a bare second part |
| Paths.LastSegmentIsSeparatorFreeSuffix | Core/DirectoryInfoWrapper.cs:57-58 | the text after the last separator is the longest separator-free suffix |
| Paths.DirectoryPartAndLastSegment | Core/DirectoryInfoWrapper.cs:57-58 | a path with a separator is its part before the last separator, that separator and its last segment; it has no directory part exactly when it has no separator |
| Paths.LastSegmentAfterSeparator | Core/DirectoryInfoWrapper.cs:57-58 | separator-free text after a separator is the last segment |
| Paths.SplitLastIsLastSegment | Core/DirectoryInfoWrapper.cs:57-58 | the last piece String.Split produces is the text after the last separator |
| Paths.SplitSeparatorFree | Core/DirectoryInfoWrapper.cs:57 | a separator-free string splits into itself |
| Paths.SplitAppend | Core/DirectoryInfoWrapper.cs:57 | splitting `a`, a separator and `b`, with `a` separator-free, gives `a` and then the pieces of `b` |
| Paths.SplitJoin | Core/DirectoryInfoWrapper.cs:57 | splitting separator-free pieces joined by a separator gives the pieces back |
| Zip.ZipOutputStream.PutEntry | Dms/Shared/Utilities/ZipFileBuilder.cs:80-81 | appends one record with that path and content |
| Zip.StreamCopier.Subscribe | Dms/Shared/Utilities/ZipFileBuilder.cs:82 | the handler is subscribed once more |
| Zip.ZipFileBuilder.constructor | Dms/Shared/Utilities/ZipFileBuilder.cs:35-37 | an empty queue, no ArchiveProgress subscriber, no events |
| Zip.ZipFileBuilder.SubscribeArchiveProgress | Dms/Shared/Utilities/ZipFileBuilder.cs:33 | ArchiveProgress has a subscriber |
| Zip.ZipFileBuilder.AddDirectory | Dms/Shared/Utilities/ZipFileBuilder.cs:39-43 | fails with a null-argument error exactly on null, leaving the queue; otherwise appends the directory to the end of the queue and changes nothing else |
| Zip.ZipFileBuilder.AddFile | Dms/Shared/Utilities/ZipFileBuilder.cs:45-49 | fails with a null-argument error exactly on null, leaving the queue; otherwise appends the file to the end of the queue and changes nothing else |
| Zip.ZipFileBuilder.OnZippingProgress | Dms/Shared/Utilities/ZipFileBuilder.cs:100-104 | forwards the event exactly when ArchiveProgress has subscribers |
| Zip.ZipFileBuilder.DeliverProgress | Dms/Shared/Utilities/ZipFileBuilder.cs:82-83 | one copier event reaches ArchiveProgress once per subscription of the handler, when it has subscribers |
| Zip.ZipFileBuilder.CopyStream | Dms/Shared/Utilities/ZipFileBuilder.cs:83 | each copier event of the content, in order, forwarded once per subscription |
| Zip.ZipFileBuilder.AddFilesToZipFile | Dms/Shared/Utilities/ZipFileBuilder.cs:72-85 | a failed Open writes nothing and reports failure. Otherwise one record with the path and content is written, the handler is subscribed once more, and the content's events are forwarded |
| Zip.ZipFileBuilder.AddDirectoryToZipFile | Dms/Shared/Utilities/ZipFileBuilder.cs:87-98 | the records, subscriptions, events and failure are those of the directory's depth-first walk below the parent path |
| Zip.ZipFileBuilder.AddListedFiles | Dms/Shared/Utilities/ZipFileBuilder.cs:94-95 | the listed files, in order, under the directory's path, stopping at the first failed Open |
| Zip.ZipFileBuilder.AddListedDirectories | Dms/Shared/Utilities/ZipFileBuilder.cs:96-97 | the listed subdirectories, in order, each walked below the directory's path, stopping at the first failure |
| Zip.ZipFileBuilder.AddEntry | Dms/Shared/Utilities/ZipFileBuilder.cs:58-66 | one queue entry dispatched on its exact type; other types write nothing |
| Zip.ZipFileBuilder.Build | Dms/Shared/Utilities/ZipFileBuilder.cs:51-70 | an empty archive name fails and changes nothing. Otherwise the records are the run of the queue's attempts: on success they are returned and the queue is emptied; on a failed Open that path escapes and the queue is kept. The progress raised is the progress log of the written records |
| Zip.FileAttempts | Dms/Shared/Utilities/ZipFileBuilder.cs:94-95 | one attempt per listed file |
| Zip.FileAttemptAt | Dms/Shared/Utilities/ZipFileBuilder.cs:95 | attempt i of a listing is file i under the directory's path combined with its name |
| Zip.DirectoryRun | Dms/Shared/Utilities/ZipFileBuilder.cs:93-97 | a directory's run is its files' run, then, unless that failed, its subdirectories' run |
| Zip.RunAppend | Dms/Shared/Utilities/ZipFileBuilder.cs:58-66 | running two sequences of attempts back to back runs the second only when the first did not fail |
| Zip.RunStopsAtFailure | Dms/Shared/Utilities/ZipFileBuilder.cs:78 | once a run fails, nothing after it is attempted |
| Zip.QueueAttemptsAppend | Dms/Shared/Utilities/ZipFileBuilder.cs:58 | the queue's attempts are its entries' attempts in queue order |
| Zip.ProgressLogAppend | Dms/Shared/Utilities/ZipFileBuilder.cs:82 | the progress of two runs of records, the second starting with the subscriptions the first added |
| Zip.ForwardedSnoc | Dms/Shared/Utilities/ZipFileBuilder.cs:83 | forwarding one more event appends it once per subscription |
| Zip.FileReached | Dms/Shared/Utilities/ZipFileBuilder.cs:72-85 | writing one file step by step gives that file's run and its progress |
| Zip.AttemptsReached | Dms/Shared/Utilities/ZipFileBuilder.cs:94-95 | writing attempts one by one gives the run of those attempts |
| Zip.DirectoryReached | Dms/Shared/Utilities/ZipFileBuilder.cs:87-98 | a directory written step by step gives the run of its attempts |
| Zip.SubdirectoriesReached | Dms/Shared/Utilities/ZipFileBuilder.cs:96-97 | the subdirectories written one by one give the run of their attempts |
| Zip.EntryReached | Dms/Shared/Utilities/ZipFileBuilder.cs:60-65 | an entry written step by step gives the run of its attempts |
| Zip.QueueReached | Dms/Shared/Utilities/ZipFileBuilder.cs:58-66 | the queue written entry by entry gives the run of the queue's attempts |
| Zip.BuildReached | Dms/Shared/Utilities/ZipFileBuilder.cs:55-67 | a whole Build from an empty archive yields the queue's run and the progress log of its records |
| ZipProperties.FirstFailure | Dms/Shared/Utilities/ZipFileBuilder.cs:78 | the index of the first attempt whose Open fails, or the number of attempts when none fails |
| ZipProperties.RunUpToFirstFailure | Dms/Shared/Utilities/ZipFileBuilder.cs:58-66 | a Build writes one record per attempt, in order, up to the first failed Open. It fails exactly when there is one, with that path |
| ZipProperties.DirectoryAttemptCount | Dms/Shared/Utilities/ZipFileBuilder.cs:87-98 | a directory tree is attempted once per file and never for a directory, so a tree without files writes nothing |
| ZipProperties.SubdirectoryAttemptCount | Dms/Shared/Utilities/ZipFileBuilder.cs:96-97 | the subdirectories from the j-th on are attempted once per file they hold |
| ZipProperties.DirectoryFilesFirst | Dms/Shared/Utilities/ZipFileBuilder.cs:93-97 | a directory's own files come first, in listing order, each under the directory path combined with the file name; the subdirectories follow |
| ZipProperties.SubdirectoryAttemptsSplit | Dms/Shared/Utilities/ZipFileBuilder.cs:96-97 | the subdirectory walk from k is the walk from k up to j followed by the walk from j |
| ZipProperties.SubdirectoryAttemptsInclude | Dms/Shared/Utilities/ZipFileBuilder.cs:96-97 | whatever one subdirectory's walk attempts, the walk of all subdirectories attempts too |
| ZipProperties.FileInTree | Dms/Shared/Utilities/ZipFileBuilder.cs:93-97 | every file anywhere in the tree is attempted, with its content, under the names joined from the walked directory down, then its file name |
| ZipProperties.EnqueuedDirectoryFile | Dms/Shared/Utilities/ZipFileBuilder.cs:65 | for an enqueued directory, that holds with the directory's own name as the top of every path |
| ZipProperties.EnqueuedDirectoryOwnFilePath | Dms/Shared/Utilities/ZipFileBuilder.cs:65 | file i of an enqueued directory is attempted under the directory's name combined with the file name |
| ZipProperties.EnqueuedDirectoryOwnFile | Dms/Shared/Utilities/ZipFileBuilder.cs:93-95 | with plain names that path is the directory name, one backslash and the file name, with no leading separator |
| ZipProperties.TopLevelFileBareName | Dms/Shared/Utilities/ZipFileBuilder.cs:62-63 | a pending physical file is attempted once, under its bare name, the separator-free end of its full name |
| ZipProperties.OtherEntriesSkipped | Dms/Shared/Utilities/ZipFileBuilder.cs:60-65 | an entry of any other type contributes nothing, wherever it stands in the queue |
| ZipProperties.ForwardedOnce | Dms/Shared/Utilities/ZipFileBuilder.cs:100-104 | one subscription forwards every event once |
| ZipProperties.ForwardedSingle | Dms/Shared/Utilities/ZipFileBuilder.cs:82 | one event through k subscriptions arrives k times |
| ZipProperties.ProgressLogOnceIsAllEvents | Dms/Shared/Utilities/ZipFileBuilder.cs:100-104 | the corrected log passes on every copier event of every record once, in order |
| ZipProperties.ProgressRepeatsPerFile | Dms/Shared/Utilities/ZipFileBuilder.cs:82 | as written, two files with one copier event each raise three progress events, the second file's event twice; the corrected log raises two |
| ZipProperties.SingleRecordLogs | Dms/Shared/Utilities/ZipFileBuilder.cs:82 | with one file the as-written and corrected logs agree |

## Left out

- The resolver's implementation file is not part of this model. The class is modelled from the behaviour its tests assert.
  - An empty path, or a path with an empty segment (a leading, trailing or doubled separator), is refused with an argument error. The tests do not cover these.
  - Nodes are memoized on the exact full-path string.
- The zip container encoding (SharpZipLib's `ZipOutputStream`) is left out. The archive is the ordered sequence of `(path, content)` records.
- `File.Create` of the archive and the `File.Open` stream that `Build` returns are left out. `Zip.ZipFileBuilder.Build` returns the records instead.
- `StreamCopier`'s byte copying and progress arithmetic are not shown.
  - The events it raises for some content are a parameter (`copierEvents`).
  - Only its subscription count is modelled.
- Opening a file is its `Open` result (`None` when it throws). The file-system access behind it is left out.
- `Zip.ZipFileBuilder.AddDirectoryToZipFile` and `AddListedFiles` take the listings to be stable during the walk. The source re-queries the listing on every loop iteration, and a concurrent change on disk is not modelled.
- `InfoWrappers.DirectoryInfoWrapper.GetFiles` and `GetDirectories` likewise read one fixed listing.
- The wrapper's timestamp getters and setters, `Exists`, `Extension` and `Refresh` are left out. They only forward to the operating system.
- `System.IO.FileInfo.Name` is taken to be `Path.GetFileName` of the full name. `FileInfoWrapper` is not part of this model beyond holding one file record.
- `InMemoryFileInfoWrapper` is not part of this model beyond a name and an `Open` result in a queue entry.
- Timestamps are opaque integers. Only their equality matters.
- `Path.Combine`, `Path.GetFileName` and `String.Split` follow the .NET Framework rules on Windows, with explicit separator sets. Invalid-path-character checks are left out.
- A null string argument is the same as an empty one, since the model's strings are never null.
- `InMemory.InMemoryDirectoryInfo` is generic in the file type. The file interface is not part of this model.
- InMemory.InMemoryDirectoryInfo: the parent and the directory list hold `InMemoryDirectoryInfo` nodes only. In the source they are any directory implementation, so a physical directory wrapper or another implementation under an in-memory node is not modelled.
- InMemory.InMemoryDirectoryInfo.AddFile and AddDirectory are the only changes to the live `Files` and `Directories` lists that the model offers. The source hands out the lists themselves, so callers can also remove, insert, clear or reorder; those changes are not modelled.
- `FileSize`, the build scripts and the archive interfaces hold no logic of this core.

## Findings

| source | as written | input that shows it | evidently intended | confidence | as-written member | corrected member |
|---|---|---|---|---|---|---|
| Core/DirectoryInfoWrapper.cs:69 | `IsReadOnly` compares the whole attribute word with `ReadOnly` | a read-only directory, attributes `ReadOnly \| Directory` (0x11): `IsReadOnly` is false | a flag test `(attributes & ReadOnly) == ReadOnly` | not executed | InfoWrappers.ReadOnlyDirectoryNotReported | InfoWrappers.HasReadOnlyFlagOfCombination |
| Core/DirectoryInfoWrapper.cs:90-93 | `Parent` returns the wrapper itself | a directory `Dir\Sub`: Parent reports `Dir\Sub` (`ParentOfNestedDirectory`) | the directory before the last separator, `Dir` | not executed | InfoWrappers.ParentIsNotAboveNestedDirectory | InfoWrappers.DirectoryInfoWrapper.ParentFullName |
| Dms/Shared/Utilities/ZipFileBuilder.cs:82 | the progress handler is subscribed once more for every file and never removed | two files whose copies raise one event each: ArchiveProgress raises three events, the second file's twice | every copier event forwarded once | not executed | ZipProperties.ProgressRepeatsPerFile | ZipProperties.ProgressLogOnceIsAllEvents |

The builder and wrapper classes keep the behaviour as written. `Zip.ZipFileBuilder.Build` states its progress with the as-written `ProgressLog`. `IsReadOnly` and `Parent` keep their as-written results, and the corrected definitions stand beside them.
