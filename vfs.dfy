/** The parts of the vfs package that the io/fs adapter depends on: error
    values, file information, directory entries and the read side of the
    VFS interface. The wrapped VFS is code the adapter cannot see, so it is
    represented by what its calls answer. */
module VfsTypes {

  newtype byte = x: int | 0 <= x < 256

  datatype Option<T> = None | Some(value: T)

  /** Error values. `EOF` is io.EOF, `InvalidPath` is the package's
      ErrInvalidPath sentinel; the next kinds are those a backend reports;
      `Other` stands for any other error a backend may return (such as the
      result of errors.New); `PathError` is *fs.PathError. */
  datatype Error =
    | EOF
    | InvalidPath
    | NotExist
    | IsADirectory
    | NotADirectory
    | Other(msg: string)
    | PathError(op: string, path: string, err: Error)

  datatype Result<T> = Success(value: T) | Failure(error: Error)

  /** os.FileInfo as a backend reports it. */
  datatype FileInfo = FileInfo(name: string, size: int, isDir: bool, mode: nat, modTime: int)

  /** fs.DirEntry: an opaque entry built from a FileInfo by
      fs.FileInfoToDirEntry. */
  datatype DirEntry = DirEntry(info: FileInfo)

  function FileInfoToDirEntry(i: FileInfo): DirEntry
  {
    DirEntry(i)
  }

  /** A backend read handle (RFile), represented by the bytes it yields
      when read to the end. */
  datatype RFile = RFile(data: seq<byte>)

  /** The read side of the VFS interface: the answers of Stat, Open and
      ReadDir for every path. */
  datatype Vfs = Vfs(
    stat: string -> Result<FileInfo>,
    open: string -> Result<RFile>,
    readDir: string -> Result<seq<FileInfo>>)

  /** The package-level ReadFile helper: open the path through the VFS and
      read the handle to the end. An Open failure is returned unchanged. */
  function ReadAll(v: Vfs, name: string): Result<seq<byte>>
  {
    match v.open(name)
    case Failure(e) => Failure(e)
    case Success(f) => Success(f.data)
  }
}
