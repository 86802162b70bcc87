# A Dafny model of vfs-kit's read-only io/fs adapter

`AsReadOnlyFS` (iofs.go) turns any VFS of the package into a Go `io/fs.FS`.
This project models that adapter and proves what it promises:

- **Name sanitisation and dispatch** (`IoFs`): every name is cleaned with
  `path.Clean`; the io/fs root `"."` becomes the VFS root `"/"`; a cleaned
  name that contains the substring `".."` is refused with `ErrInvalidPath`
  (wrapped in a `PathError` naming the operation) before the wrapped VFS
  is consulted. `Open` then asks the VFS's `Stat`: a directory yields a
  directory handle, a file yields a file handle opened through the VFS. A
  `Stat` or `Open` error comes back unchanged. `ReadFile` does the same
  sanitisation and hands the path to the package's `ReadFile` helper.
  `VFSPathFromFSName` gives the same path on its own.
- **`path.Clean`** (`GoPath`): a lexical model of Go's function. It splits
  at `'/'`, drops empty and `"."` elements, lets each `".."` remove the
  element before it, drops a `".."` at the root of a rooted path, and keeps
  one at the start of a relative path. The result is rejoined, and an empty
  relative result becomes `"."`. The model proves that cleaning is
  idempotent, which gives these adapter properties:
  - a name and its clean form open alike;
  - an accepted name reaches the VFS as an already-clean path with no
    parent reference (`ClimbFree`);
  - a name that climbs above its start is always refused.
- **The directory cursor** (`DirCursor`): `adapterDirFile` is the class
  `DirFile`, with fields `cached` and `nextIdx`. On first use, `ReadDir`
  fetches the listing and caches it with an append loop. It then serves
  the listing in batches of at most `n`, and answers `io.EOF` once the
  listing is used up. For `n <= 0` it returns the remainder without moving
  the cursor. The method is proved against the pure function `Step`.
  Lemmas about `Step` show the following:
  - successive positive-size calls return consecutive slices that
    concatenate to the listing, in the VFS's order;
  - EOF comes exactly when the listing is used up;
  - a failed listing is retried on every call and never cached;
  - once cached, the listing is never fetched again.

The wrapped VFS is code the adapter cannot see. It is the datatype
`VfsTypes.Vfs`, whose fields give what `Stat`, `Open` and `ReadDir` answer
for each path. `filepath.FromSlash` is the identity: the host separator is
taken to be `'/'`.

The io/fs documentation asks that, after `ReadDir(n)` with `n <= 0`,
further calls yield the entries that follow. The code does not move the
cursor in that case, so a later `ReadDir(1)` starts again at the same
entry. The model follows the code (`DirCursor.Step`, fourth postcondition).
In `VFSPathFromFSName`, the test `name == ""` after cleaning can never hold,
because `path.Clean` never returns the empty string (`GoPath.Clean`, first
postcondition); it is modelled as written.

## Model

| member | source | states |
|---|---|---|
| `GoPath.Clean` | iofs.go:22 | `path.Clean` never returns the empty string, and its result is rooted exactly when its input is |
| `GoPath.CleanIdempotent` | iofs.go:38 | cleaning an already cleaned name changes nothing |
| `GoPath.CleanSplit` | iofs.go:38 | a cleaned name other than "." splits back into its surviving elements, after one leading empty element if rooted |
| `GoPath.RootedCleanHasNoParent` | iofs.go:114 | cleaning a rooted name leaves no ".." and no "." element |
| `GoPath.ContainsAt` | iofs.go:26 | `strings.Contains` holds whenever the substring occurs at some index |
| `GoPath.ContainsHasIndex` | iofs.go:26 | conversely, when `strings.Contains` holds, the substring occurs at some index |
| `GoPath.ContainsIffOccurs` | iofs.go:26 | `strings.Contains` holds exactly when the substring occurs at some index, so the refusal test at iofs.go:42 is the plain substring test |
| `IoFs.RootHasNoParentRef` | iofs.go:23-26 | neither "." nor "/" contains "..", so renaming "." to "/" cannot change the refusal test |
| `IoFs.Open` | iofs.go:37-57 | a refused name gives PathError("open", cleaned name, ErrInvalidPath) whatever the VFS is; for an accepted name, a Stat error for the sanitised path comes back unchanged; a directory gets a directory handle on that path with Stat's info, whatever the VFS's Open would answer; a file gets a file handle from the VFS's Open with Stat's info, or Open's error unchanged |
| `IoFs.ReadFile` | iofs.go:21-30 | a refused name gives PathError("readfile", cleaned name, ErrInvalidPath) without consulting the VFS; otherwise the package ReadFile helper's result for the sanitised path |
| `IoFs.VFSPathFromFSName` | iofs.go:113-119 | "/" exactly for names that clean to "." or "/", otherwise the clean name; the result is never "." and is its own clean form; it is the path Open and ReadFile hand to the VFS |
| `IoFs.FileStat` | iofs.go:65 | a file handle's Stat succeeds with the info Stat reported at open time |
| `IoFs.AcceptedPathIsClimbFree` | iofs.go:42-45 | for an accepted name, the VFS receives "/" or a list of ordinary names with no ".." among them |
| `IoFs.ClimbingNameRefused` | iofs.go:38-44 | a name in which a ".." survives cleaning is refused by Open, and by ReadFile too |
| `IoFs.SanitizeIgnoresPreCleaning` | iofs.go:38-41 | Open and ReadFile give the same result for a name and for its clean form |
| `IoFs.OpenConsultsOnlySanitizedPath` | iofs.go:45-56 | two VFSs whose Stat and Open agree at the sanitised path give the same Open result |
| `IoFs.RootNamesOpenRoot` | iofs.go:39-41 | "", "." and "./" sanitise to "/" and open exactly what "/" opens |
| `DirCursor.ToEntries` | iofs.go:90-93 | one entry per FileInfo of the listing, in the listing's order |
| `DirCursor.BatchEnd` | iofs.go:101-104 | the batch end lies between the cursor and the listing's end, at distance min(n, remaining) from the cursor |
| `DirCursor.Step` | iofs.go:84-108 | keeps 0 <= nextIdx <= len(cached). A failed first listing returns its error unchanged and leaves the state alone; otherwise the listing is cached. For n <= 0, the whole remainder with a nil error and the cursor kept. For n > 0, exactly min(n, remaining) entries from the cursor on, with the cursor moved past them. EOF with no entries exactly when nothing remains |
| `DirCursor.CachedListingIsFinal` | iofs.go:85-94 | once the listing is cached, what the VFS would answer makes no difference |
| `DirCursor.Calls` | iofs.go:84-108 | a series of calls gives one reply per call |
| `DirCursor.After` | iofs.go:84-108 | the state after a series of calls still satisfies the cursor invariant |
| `DirCursor.Sum` | iofs.go:101 | the total of positive batch sizes is at least their number |
| `DirCursor.BatchesConcatenate` | iofs.go:98-107 | successive calls with positive sizes return consecutive, non-overlapping slices of the listing, which together are the listing from the cursor on, up to the total asked for |
| `DirCursor.BatchesServeUpToCursor` | iofs.go:98-107 | the entries of successive positive-size calls are exactly the listing between the cursor before them and the cursor after them |
| `DirCursor.CallsAt` | iofs.go:84-108 | the i-th call of a series answers what one call answers in the state the earlier calls leave behind |
| `DirCursor.CursorAfterBatches` | iofs.go:101-106 | after successive positive-size calls, the listing is cached and the cursor has advanced by the total asked for, capped at the listing's end |
| `DirCursor.EofExactlyWhenExhausted` | iofs.go:98-100 | in such a series, a call answers EOF with no entries exactly when the sizes before it cover the listing; every earlier call has a nil error |
| `DirCursor.ListingServedInOrder` | iofs.go:84-108 | from a freshly opened handle, enough positive-size calls return the whole listing in the VFS's order, and every call after the listing is covered answers EOF |
| `DirCursor.FailedListingRetried` | iofs.go:85-89 | while the VFS's ReadDir fails, every call returns that error unchanged and the state never changes |
| `DirCursor.DirFile.constructor` | iofs.go:50 | a new directory handle keeps the VFS, the path and the info, and starts with no cached listing and the cursor at 0 |
| `DirCursor.DirFile.Stat` | iofs.go:80 | succeeds with the info Stat reported when the handle was opened |
| `DirCursor.DirFile.Read` | iofs.go:81 | reads nothing and reports no error |
| `DirCursor.DirFile.Close` | iofs.go:82 | always succeeds |
| `DirCursor.DirFile.ReadDir` | iofs.go:84-108 | the new cursor state, the entries and the error are exactly those of `Step` on the old state, with the VFS's listing for the handle's path; the cursor invariant is kept |
| `DirCursor.WrapInt64` | iofs.go:101 | the 64-bit result is in range, equals the input when the input is in range, and differs from the input by a multiple of 2^64: it is two's-complement wrap-around and nothing else |
| `DirCursor.BatchEndAsWritten` | iofs.go:101-104 | the source's batch end never exceeds the listing length; without overflow it is min(cursor + n, length); when cursor + n passes the largest int it is negative |
| `DirCursor.BatchEndAsWrittenOverflows` | iofs.go:101-105 | with the cursor at 1 in a two-entry listing and n = MaxInt64, the source's batch end falls below the cursor |
| `DirCursor.BatchEndMatchesWithoutOverflow` | iofs.go:101-104 | without overflow the source's batch end equals `BatchEnd`, and `BatchEnd` never forms a sum beyond the listing length |
| `IoFsScenarios.CleanEmpty` | iofs_test.go:218 | the empty name cleans to "." |
| `IoFsScenarios.CleanName` | iofs_test.go:220 | a single ordinary element is already clean |
| `IoFsScenarios.CleanTwo` | iofs_test.go:221-222 | "a/b" and "/a/b" are already clean |
| `IoFsScenarios.CleanParentThenName` | iofs_test.go:203 | "../f" is already clean |
| `IoFsScenarios.VFSPathFromFSNameTable` | iofs_test.go:212-230 | ".", "" and "/" map to "/"; "a", "a/b" and "/a/b" map to themselves |
| `IoFsScenarios.ParentNamesRefused` | iofs_test.go:191-210 | ReadFile("..") and Open("../f") fail with ErrInvalidPath in a PathError, whatever the VFS |
| `IoFsScenarios.DotDotInsideNameRefused` | iofs.go:42-44 | "a..b" is refused too, because the test is on the substring |
| `IoFsScenarios.RootedParentDropped` | iofs.go:38-44 | "/../f" is accepted and opens exactly what "/f" opens |
| `IoFsScenarios.OpenWhenStatFails` | iofs_test.go:242-253 | when Stat fails for "f", Open("f") returns that very error |
| `IoFsScenarios.OpenRootDirectory` | iofs_test.go:89-103 | Open(".") on a VFS whose root is a directory returns a directory handle on "/", even when the VFS's own Open fails for "/" |
| `IoFsScenarios.ReadFileOfRootFails` | iofs_test.go:42-46 | ReadFile(".") fails with the error the VFS gives for opening the root directory |
| `IoFsScenarios.ReadDirOneAtATime` | iofs_test.go:146-170 | on a two-entry directory, ReadDir(1) three times gives one entry, the other, then EOF with nothing |
| `IoFsScenarios.ReadDirNonPositiveReturnsAll` | iofs_test.go:172-189 | ReadDir(0) or ReadDir(-1) on a fresh handle returns every entry with a nil error |

## Findings

| source | as written | input that shows it | evidently intended | confidence | as-written member | corrected member |
|---|---|---|---|---|---|---|
| iofs.go:101-105 | `end := f.nextIdx + n` is a 64-bit `int` sum and can wrap to a negative value. The cap `end > len(f.cached)` then does not fire, and `f.cached[f.nextIdx:end]` is out of range, which is a runtime panic | a two-entry directory; ReadDir(1), then ReadDir(math.MaxInt64): nextIdx = 1 and end = 1 + MaxInt64, which wraps to -2^63 | the rest of the listing, as for any n at least the number of remaining entries | not executed; the wrap-around is Go's defined int arithmetic on 64-bit platforms | `DirCursor.BatchEndAsWritten`, `DirCursor.BatchEndAsWrittenOverflows` | `DirCursor.BatchEnd` |

`DirCursor.Step`, and through it `DirFile.ReadDir`, use `BatchEnd`.
`BatchEnd` proves the intended batch size. `BatchEndMatchesWithoutOverflow`
shows that it agrees with the source wherever the source does not overflow.

## Left out

- `DirCursor.DirFile.ReadDir`: the batch size `n` is an unbounded integer. The source's 64-bit overflow for huge `n` appears only under Findings.
- `DirCursor.DirFile.ReadDir`: the returned entries are values. In Go they are sub-slices of the cached listing and share its backing array, so a caller that writes into them (as `fs.ReadDir` does when it sorts the result of `ReadDir(-1)` in place) changes what later calls on the same handle return. The model does not capture that aliasing: the cache is unaffected by what callers do with the entries.
- The wrapped VFS is a value: it answers each path the same way every time. That `ReadDir` caches its listing against a VFS that changes is stated on `Step`, through its `listing` argument, by `DirCursor.CachedListingIsFinal`.
- The package-level `ReadFile(v, name)` helper is not part of this model. It is represented as the VFS's `Open` followed by reading the whole handle (`VfsTypes.ReadAll`). A read error partway through the file is not modelled.
- `adapterFileFile.Read` and `Close` only forward to the backend's handle. A file handle is modelled by the bytes it yields. `fs.FileInfoToDirEntry` is an opaque wrapper (`VfsTypes.DirEntry`).
- `AsReadOnlyFS` only wraps the VFS. Open returns a `Handle` value. A directory handle's object is then built by `DirFile`'s constructor from the path and info it carries.
- Go distinguishes a nil slice from an empty one among returned entries. The model has one empty sequence.
- Go strings are bytes; here they are `seq<char>`. Only the ASCII characters '/' and '.' matter to the model.
- Concurrency is left out: the adapter has no locking of its own, and a handle belongs to one caller.
