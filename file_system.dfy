/**
 * The parts of System.IO the core reads, as plain records: a physical file or
 * directory as the operating system reports it at one moment. The listings are
 * taken to be stable while the core walks them.
 */
module FileSystem {
  import opened Wrappers

  type Byte = bv8
  type Bytes = seq<Byte>

  /** System.DateTime, kept opaque: only equality of timestamps matters to the core. */
  type DateTime = int

  /** System.IO.FileAttributes as its 32-bit flag word. */
  type FileAttributes = bv32

  const ReadOnly: FileAttributes := 0x1
  const Hidden: FileAttributes := 0x2
  const Directory: FileAttributes := 0x10

  /**
   * A System.IO.FileInfo: its full path and what opening it for reading yields,
   * None when Open throws (missing, locked or not permitted).
   */
  datatype FileInfo = FileInfo(fullName: string, content: Option<Bytes>)

  /** A System.IO.DirectoryInfo: full path, attribute word, and its two ordered listings. */
  datatype DirectoryInfo = DirectoryInfo(
    fullName: string,
    attributes: FileAttributes,
    files: seq<FileInfo>,
    directories: seq<DirectoryInfo>)
}
