/** The adapter's behaviour on the names and directories its tests use,
    derived from the general model. */
module IoFsScenarios {
  import opened VfsTypes
  import opened GoPath
  import opened IoFs
  import opened DirCursor

  lemma CleanEmpty()
    ensures Clean("") == "."
  {
  }

  /** A single plain element is already clean. */
  lemma CleanName(e: string)
    requires IsName(e)
    ensures Clean(e) == e
  {
    CleanRelativeJoin([e]);
  }

  lemma CleanTwo()
    ensures Clean("a/b") == "a/b" && Clean("/a/b") == "/a/b"
  {
    assert Join(["a", "b"]) == "a/b";
    CleanRelativeJoin(["a", "b"]);
    assert "/" + Join(["a", "b"]) == "/a/b";
    CleanRootedJoin(["a", "b"]);
  }

  lemma CleanParentThenName()
    ensures Clean("../f") == "../f"
  {
    assert Join(["..", "f"]) == "../f";
    CleanRelativeJoin(["..", "f"]);
  }

  /** The table of VFSPathFromFSName's test: the io/fs root names become
      "/", other names keep their clean form, a leading '/' included. */
  lemma VFSPathFromFSNameTable()
    ensures VFSPathFromFSName(".") == "/"
    ensures VFSPathFromFSName("") == "/"
    ensures VFSPathFromFSName("/") == "/"
    ensures VFSPathFromFSName("a") == "a"
    ensures VFSPathFromFSName("a/b") == "a/b"
    ensures VFSPathFromFSName("/a/b") == "/a/b"
  {
    CleanEmpty();
    CleanDot();
    CleanRoot();
    CleanName("a");
    CleanTwo();
  }

  /** ReadFile("..") and Open("../f") fail with ErrInvalidPath inside a
      PathError, whatever the VFS holds. */
  lemma ParentNamesRefused(v: Vfs)
    ensures ReadFile(v, "..") == Failure(PathError("readfile", "..", InvalidPath))
    ensures Open(v, "../f") == Failure(PathError("open", "../f", InvalidPath))
  {
    CleanName("..");
    CleanParentThenName();
    assert ".." <= "../f";
  }

  /** The test is on the substring: a name with ".." inside an element is
      refused too, although it does not climb. */
  lemma DotDotInsideNameRefused(v: Vfs)
    ensures Open(v, "a..b") == Failure(PathError("open", "a..b", InvalidPath))
  {
    CleanName("a..b");
    ContainsAt("a..b", "..", 1);
  }

  /** A ".." at the root of a rooted name is dropped by cleaning, so the
      name is accepted and opens the same as without it. */
  lemma RootedParentDropped(v: Vfs)
    ensures !Refused("/../f") && Open(v, "/../f") == Open(v, "/f")
  {
    SplitNoSlash("f");
    SplitAtFirstSlash("..", "f");
    assert "/../f"[1..] == ".." + "/" + "f";
    assert Split("/../f") == [""] + [".."] + ["f"];
    assert Resolve([], ["", "..", "f"], true) == ["f"];
    assert CleanElems("/../f") == ["f"];
    assert Clean("/../f") == "/f";
    assert "/f"[1..] == "f";
    assert CleanElems("/f") == ["f"];
    assert !Contains("/f", "..") by {
      assert "/f"[1..] == "f" && "f"[1..] == "";
    }
  }

  /** When Stat fails for the opened name, Open returns that very error. */
  lemma OpenWhenStatFails(v: Vfs, e: Error)
    requires v.stat("f") == Failure(e)
    ensures Open(v, "f") == Failure(e)
  {
    CleanName("f");
    assert !Contains("f", "..") by {
      assert "f"[1..] == "";
    }
  }

  /** Open(".") on a VFS whose root is a directory yields a directory
      handle on "/", even when the VFS's own Open refuses directories. */
  lemma OpenRootDirectory(v: Vfs, root: FileInfo, e: Error)
    requires root.isDir && v.stat("/") == Success(root) && v.open("/") == Failure(e)
    ensures Open(v, ".") == Success(DirHandle("/", root))
  {
    RootNamesOpenRoot(v);
    RootHasNoParentRef();
  }

  /** ReadFile(".") reads the VFS root, a directory, and fails with the
      error the VFS gives for opening it. */
  lemma ReadFileOfRootFails(v: Vfs, e: Error)
    requires v.open("/") == Failure(e)
    ensures ReadFile(v, ".") == Failure(e)
  {
    RootNamesOpenRoot(v);
    RootHasNoParentRef();
  }

  /** Two entries read one at a time: one entry, another, then EOF. */
  lemma ReadDirOneAtATime(a: FileInfo, b: FileInfo)
    ensures var rs := Calls(Unread, [1, 1, 1], Success([a, b]));
      && rs[0].entries == [DirEntry(a)] && rs[0].err == None
      && rs[1].entries == [DirEntry(b)] && rs[1].err == None
      && rs[2].entries == [] && rs[2].err == Some(EOF)
  {
    var rs := Calls(Unread, [1, 1, 1], Success([a, b]));
    var L := ToEntries([a, b]);
    var s1 := DirState(Some(L), 1);
    var s2 := DirState(Some(L), 2);
    assert rs[0] == Step(Unread, 1, Success([a, b]));
    assert Step(Unread, 1, Success([a, b])).next == s1;
    assert rs[1] == Step(s1, 1, Success([a, b]));
    assert Step(s1, 1, Success([a, b])).next == s2;
    assert rs[2] == Step(s2, 1, Success([a, b]));
  }

  /** ReadDir(0) and ReadDir(-1) on a fresh handle return every entry. */
  lemma ReadDirNonPositiveReturnsAll(infos: seq<FileInfo>, n: int)
    requires n <= 0
    ensures Step(Unread, n, Success(infos)).entries == ToEntries(infos)
    ensures Step(Unread, n, Success(infos)).err == None
  {
  }

  /** A test scenario, not a model of a member: the directory-handle test
      in the imperative form. Open the root, read it as a file (nothing),
      then one entry at a time until EOF, then once more with n = 0. */
  method ReadDirHarness(v: Vfs, root: FileInfo, a: FileInfo, b: FileInfo)
    requires root.isDir && v.stat("/") == Success(root) && v.readDir("/") == Success([a, b])
  {
    RootNamesOpenRoot(v);
    var h := Open(v, ".");
    assert h == Success(DirHandle("/", root));
    var d := new DirFile(v, h.value.path, h.value.info);
    var n, rerr := d.Read([]);
    assert n == 0 && rerr == None;
    var e1, err1 := d.ReadDir(1);
    assert e1 == [DirEntry(a)] && err1 == None;
    var e2, err2 := d.ReadDir(1);
    assert e2 == [DirEntry(b)] && err2 == None;
    var e3, err3 := d.ReadDir(1);
    assert e3 == [] && err3 == Some(EOF);
    var rest, err4 := d.ReadDir(0);
    assert rest == [] && err4 == None;
  }
}
