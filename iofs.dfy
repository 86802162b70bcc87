/** The read-only io/fs view of a VFS (AsReadOnlyFS): name sanitisation,
    rejection of parent references, and dispatch of Open on what the wrapped
    VFS's Stat reports. */
module IoFs {
  import opened VfsTypes
  import opened GoPath

  /** The name the adapter hands to the wrapped VFS: the cleaned name, with
      the io/fs root "." replaced by the VFS root "/". */
  function Sanitize(name: string): string
  {
    var c := Clean(name);
    if c == "." then "/" else c
  }

  /** The adapter refuses a name whose cleaned form contains "..". The test
      is on the substring, so "a..b" is refused as well as "../f". */
  predicate Refused(name: string)
  {
    Contains(Sanitize(name), "..")
  }

  /** The VFS root contains no "..", so the renaming of "." never changes
      the outcome of the test. */
  lemma RootHasNoParentRef()
    ensures !Contains("/", "..") && !Contains(".", "..")
  {
    assert !Contains("", "..");
    assert "/"[1..] == "" && "."[1..] == "";
  }

  /** `filepath.FromSlash` on a host whose separator is '/': the identity. */
  function FromSlash(p: string): string
  {
    p
  }

  /** What Open returns: a directory handle (adapterDirFile, from which a
      DirCursor.DirFile is built) or a file handle (adapterFileFile). */
  datatype Handle =
    | DirHandle(path: string, info: FileInfo)
    | FileHandle(r: RFile, info: FileInfo)

  /** adapterFileFile.Stat: the information Stat reported at open time. */
  function FileStat(h: Handle): (r: Result<FileInfo>)
    requires h.FileHandle?
    ensures r.Success? && r.value == h.info
  {
    Success(h.info)
  }

  /** readOnlyFSAdapter.Open. */
  function Open(v: Vfs, name: string): (r: Result<Handle>)
    // a refused name fails the same way whatever the VFS: it is never consulted
    ensures Refused(name) ==> r == Failure(PathError("open", Clean(name), InvalidPath))
    // an accepted name: a Stat error comes back unchanged and the VFS's Open is not consulted
    ensures !Refused(name) && v.stat(Sanitize(name)).Failure? ==>
      r == Failure(v.stat(Sanitize(name)).error)
    // a directory gets a directory handle on the sanitised path, whatever Open would answer
    ensures !Refused(name) && v.stat(Sanitize(name)).Success? && v.stat(Sanitize(name)).value.isDir ==>
      r == Success(DirHandle(Sanitize(name), v.stat(Sanitize(name)).value))
    // a file gets a file handle from the VFS's Open, with the info Stat reported
    ensures && !Refused(name)
            && v.stat(Sanitize(name)).Success? && !v.stat(Sanitize(name)).value.isDir
            && v.open(Sanitize(name)).Success?
      ==> r == Success(FileHandle(v.open(Sanitize(name)).value, v.stat(Sanitize(name)).value))
    // ... or, when the VFS cannot open it, Open's error unchanged
    ensures && !Refused(name)
            && v.stat(Sanitize(name)).Success? && !v.stat(Sanitize(name)).value.isDir
            && v.open(Sanitize(name)).Failure?
      ==> r == Failure(v.open(Sanitize(name)).error)
  {
    var p := Sanitize(name);
    RootHasNoParentRef();
    if Contains(p, "..") then Failure(PathError("open", p, InvalidPath))
    else
      match v.stat(p)
      case Failure(e) => Failure(e)
      case Success(info) =>
        if info.isDir then Success(DirHandle(p, info))
        else
          match v.open(p)
          case Failure(e) => Failure(e)
          case Success(f) => Success(FileHandle(f, info))
  }

  /** readOnlyFSAdapter.ReadFile. */
  function ReadFile(v: Vfs, name: string): (r: Result<seq<byte>>)
    ensures Refused(name) ==> r == Failure(PathError("readfile", Clean(name), InvalidPath))
    ensures !Refused(name) ==> r == ReadAll(v, Sanitize(name))
  {
    var p := Sanitize(name);
    RootHasNoParentRef();
    if Contains(p, "..") then Failure(PathError("readfile", p, InvalidPath))
    else ReadAll(v, p)
  }

  /** VFSPathFromFSName: the VFS path for an io/fs name. */
  function VFSPathFromFSName(name: string): (r: string)
    // the io/fs root names map to the VFS root, every other name to its clean form
    ensures r == "/" <==> Clean(name) == "." || Clean(name) == "/"
    ensures r != "/" ==> r == Clean(name)
    // the result is already clean and never the relative root
    ensures r != "." && Clean(r) == r
    // it is the very path Open and ReadFile hand to the VFS
    ensures r == Sanitize(name)
  {
    var c := Clean(name);
    CleanIdempotent(name);
    CleanRoot();
    if c == "." || c == "" then "/" else FromSlash(c)
  }

  /** A path whose elements cannot climb: the root, or a list of ordinary
      names (after the leading empty element of a rooted path) none of
      which is "..". */
  predicate ClimbFree(p: string)
  {
    p == "/" ||
    var xs := if IsRooted(p) then Split(p)[1..] else Split(p);
    xs != [] && forall i :: 0 <= i < |xs| ==> IsName(xs[i]) && xs[i] != ".."
  }

  /** An accepted name reaches the VFS without any parent reference: the
      VFS never sees a path that climbs above its root. */
  lemma AcceptedPathIsClimbFree(name: string)
    requires !Refused(name)
    ensures ClimbFree(Sanitize(name))
  {
    var c := Clean(name);
    if c != "." && c != "/" {
      CleanSplit(name);
      var out := CleanElems(name);
      var xs := if IsRooted(c) then Split(c)[1..] else Split(c);
      assert xs == out;
      forall i | 0 <= i < |xs| ensures IsName(xs[i]) && xs[i] != ".." {
        if xs[i] == ".." {
          var j := if IsRooted(c) then i + 1 else i;
          assert Split(c)[j] == "..";
          SplitElementOccurs(c, j);
        }
      }
    }
  }

  /** A name that climbs above where it starts (a ".." survives cleaning)
      is refused by both Open and ReadFile. */
  lemma ClimbingNameRefused(v: Vfs, name: string, i: nat)
    requires i < |CleanElems(name)| && CleanElems(name)[i] == ".."
    ensures Open(v, name) == Failure(PathError("open", Clean(name), InvalidPath))
    ensures ReadFile(v, name) == Failure(PathError("readfile", Clean(name), InvalidPath))
  {
    var c := Clean(name);
    CleanSplit(name);
    assert !IsRooted(name);
    assert Split(c)[i] == "..";
    SplitElementOccurs(c, i);
  }

  /** Open and ReadFile see only the cleaned name: cleaning it first
      changes nothing. */
  lemma SanitizeIgnoresPreCleaning(v: Vfs, name: string)
    ensures Open(v, Clean(name)) == Open(v, name)
    ensures ReadFile(v, Clean(name)) == ReadFile(v, name)
  {
    CleanIdempotent(name);
  }

  /** Open consults the VFS at one path only: two VFSs that answer Stat and
      Open alike at the sanitised name give the same result. */
  lemma OpenConsultsOnlySanitizedPath(v1: Vfs, v2: Vfs, name: string)
    requires v1.stat(Sanitize(name)) == v2.stat(Sanitize(name))
    requires v1.open(Sanitize(name)) == v2.open(Sanitize(name))
    ensures Open(v1, name) == Open(v2, name)
  {
  }

  /** The io/fs root spellings "", "." and "./", and "/", all open the
      VFS root "/". */
  lemma RootNamesOpenRoot(v: Vfs)
    ensures Sanitize("") == "/" && Sanitize(".") == "/" && Sanitize("/") == "/" && Sanitize("./") == "/"
    ensures Open(v, ".") == Open(v, "/") && Open(v, "") == Open(v, "/") && Open(v, "./") == Open(v, "/")
  {
    CleanDot();
    CleanRoot();
    assert "./"[1..] == "/";
    assert Split("./") == ["."] + ["", ""][1..] by {
      assert Split("/") == ["", ""];
      assert "/"[1..] == "";
    }
  }
}
