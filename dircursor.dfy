/** The directory handle of the io/fs adapter (adapterDirFile): a listing
    fetched from the wrapped VFS on first use and cached, served in batches
    through the `nextIdx` cursor. */
module DirCursor {
  import opened VfsTypes

  function Min(a: int, b: int): int
  {
    if a <= b then a else b
  }

  /** The entries fs.FileInfoToDirEntry makes of a listing, in its order. */
  function ToEntries(infos: seq<FileInfo>): (es: seq<DirEntry>)
    ensures |es| == |infos|
    ensures forall k :: 0 <= k < |infos| ==> es[k] == FileInfoToDirEntry(infos[k])
  {
    seq(|infos|, k requires 0 <= k < |infos| => FileInfoToDirEntry(infos[k]))
  }

  /** The cursor state of a directory handle: the cached listing (None
      while it has not been fetched, Go's nil slice) and the index of the
      next entry to return. */
  datatype DirState = DirState(cached: Option<seq<DirEntry>>, nextIdx: int)

  /** The state of a freshly opened directory handle. */
  const Unread := DirState(None, 0)

  /** The cursor invariant: it stays 0 until the listing is cached and then
      never passes its end. */
  predicate ValidState(s: DirState)
  {
    if s.cached.None? then s.nextIdx == 0 else 0 <= s.nextIdx <= |s.cached.value|
  }

  /** A call can serve entries when the listing is cached or the VFS lists
      the directory successfully. */
  predicate CanServe(s: DirState, listing: Result<seq<FileInfo>>)
  {
    s.cached.Some? || listing.Success?
  }

  /** The listing a call serves from: the cached one if there is one, else
      the VFS's fresh answer. */
  function Listing(s: DirState, listing: Result<seq<FileInfo>>): seq<DirEntry>
    requires CanServe(s, listing)
  {
    if s.cached.Some? then s.cached.value else ToEntries(listing.value)
  }

  /** What one ReadDir call answers, and the state it leaves behind. */
  datatype Reply = Reply(next: DirState, entries: seq<DirEntry>, err: Option<Error>)

  /** The end of a batch of at most `n` entries starting at `nextIdx`,
      computed without forming a sum larger than `len`. */
  function BatchEnd(nextIdx: int, n: int, len: int): (end: int)
    requires 0 <= nextIdx <= len && n > 0
    ensures nextIdx <= end <= len
    ensures end - nextIdx == Min(n, len - nextIdx)
  {
    if n > len - nextIdx then len else nextIdx + n
  }

  /** One call of ReadDir(n) on a handle in state `s`, where `listing` is
      what the wrapped VFS's ReadDir would answer for the handle's path. */
  function Step(s: DirState, n: int, listing: Result<seq<FileInfo>>): (r: Reply)
    requires ValidState(s)
    ensures ValidState(r.next)
    // a failed first listing: its error, unchanged, and no change of state
    ensures !CanServe(s, listing) ==> r == Reply(s, [], Some(listing.error))
    // otherwise the listing is cached from now on
    ensures CanServe(s, listing) ==> r.next.cached == Some(Listing(s, listing))
    // n <= 0: the whole remainder, possibly empty, never EOF, cursor kept
    ensures CanServe(s, listing) && n <= 0 ==>
      && r.entries == Listing(s, listing)[s.nextIdx..]
      && r.err == None
      && r.next.nextIdx == s.nextIdx
    // n > 0: the next min(n, remaining) entries, and the cursor moves past them
    ensures CanServe(s, listing) && n > 0 ==>
      var L := Listing(s, listing);
      && r.next.nextIdx == s.nextIdx + Min(n, |L| - s.nextIdx)
      && r.entries == L[s.nextIdx..r.next.nextIdx]
    // n > 0: EOF exactly when nothing remains
    ensures CanServe(s, listing) && n > 0 ==>
      r.err == (if s.nextIdx < |Listing(s, listing)| then None else Some(EOF))
  {
    if !CanServe(s, listing) then Reply(s, [], Some(listing.error))
    else
      var c := Listing(s, listing);
      if n <= 0 then Reply(DirState(Some(c), s.nextIdx), c[s.nextIdx..], None)
      else if s.nextIdx >= |c| then Reply(DirState(Some(c), s.nextIdx), [], Some(EOF))
      else
        var end := BatchEnd(s.nextIdx, n, |c|);
        Reply(DirState(Some(c), end), c[s.nextIdx..end], None)
  }

  /** Once the listing is cached the VFS is not consulted again: what it
      would answer makes no difference. */
  lemma CachedListingIsFinal(s: DirState, n: int, l1: Result<seq<FileInfo>>, l2: Result<seq<FileInfo>>)
    requires ValidState(s) && s.cached.Some?
    ensures Step(s, n, l1) == Step(s, n, l2)
  {
  }

  /** The replies to successive calls ReadDir(ns[0]), ReadDir(ns[1]), ...
      while the VFS keeps answering `listing`. */
  function Calls(s: DirState, ns: seq<int>, listing: Result<seq<FileInfo>>): (rs: seq<Reply>)
    requires ValidState(s)
    ensures |rs| == |ns|
    decreases |ns|
  {
    if ns == [] then []
    else
      var r := Step(s, ns[0], listing);
      [r] + Calls(r.next, ns[1..], listing)
  }

  /** The state after those calls. */
  function After(s: DirState, ns: seq<int>, listing: Result<seq<FileInfo>>): (t: DirState)
    requires ValidState(s)
    ensures ValidState(t)
    decreases |ns|
  {
    if ns == [] then s else After(Step(s, ns[0], listing).next, ns[1..], listing)
  }

  /** All entries returned by a series of calls, in order. */
  function Flatten(rs: seq<Reply>): seq<DirEntry>
    decreases |rs|
  {
    if rs == [] then [] else rs[0].entries + Flatten(rs[1..])
  }

  predicate AllPositive(ns: seq<int>)
  {
    forall i :: 0 <= i < |ns| ==> ns[i] > 0
  }

  lemma AllPositiveSlice(ns: seq<int>, lo: nat, hi: nat)
    requires AllPositive(ns) && lo <= hi <= |ns|
    ensures AllPositive(ns[lo..hi])
  {
    assert forall i :: 0 <= i < hi - lo ==> ns[lo..hi][i] == ns[lo + i];
  }

  /** The total of the batch sizes asked for. */
  function Sum(ns: seq<int>): (t: int)
    ensures AllPositive(ns) ==> t >= |ns|
    decreases |ns|
  {
    if ns == [] then 0
    else ns[0] + Sum(ns[1..])
  }

  /** The cursor after successive calls with positive sizes: the listing
      is cached and the cursor has moved by as many entries as were asked
      for, but not past the end. */
  lemma {:induction false} CursorAfterBatches(s: DirState, ns: seq<int>, listing: Result<seq<FileInfo>>)
    requires ValidState(s) && CanServe(s, listing) && AllPositive(ns) && ns != []
    ensures var L := Listing(s, listing);
      After(s, ns, listing) == DirState(Some(L), s.nextIdx + Min(Sum(ns), |L| - s.nextIdx))
    decreases |ns|
  {
    var L := Listing(s, listing);
    var t := Step(s, ns[0], listing).next;
    var rest := ns[1..];
    AllPositiveSlice(ns, 1, |ns|);
    assert Listing(t, listing) == L;
    MinSplit(ns[0], Sum(rest), |L| - s.nextIdx);
    if rest != [] {
      CursorAfterBatches(t, rest, listing);
    }
  }

  /** Successive calls with positive sizes return consecutive,
      non-overlapping slices of the listing: together they are the listing
      from the cursor on, up to as many entries as were asked for. */
  lemma BatchesConcatenate(s: DirState, ns: seq<int>, listing: Result<seq<FileInfo>>)
    requires ValidState(s) && CanServe(s, listing) && AllPositive(ns)
    ensures var L := Listing(s, listing);
      Flatten(Calls(s, ns, listing)) == L[s.nextIdx..s.nextIdx + Min(Sum(ns), |L| - s.nextIdx)]
  {
    BatchesServeUpToCursor(s, ns, listing);
    if ns != [] {
      CursorAfterBatches(s, ns, listing);
    }
  }

  /** The entries of successive positive-size calls are the listing
      between the cursor before them and the cursor after them. */
  lemma {:induction false} BatchesServeUpToCursor(s: DirState, ns: seq<int>, listing: Result<seq<FileInfo>>)
    requires ValidState(s) && CanServe(s, listing) && AllPositive(ns)
    ensures var L := Listing(s, listing); var e := After(s, ns, listing).nextIdx;
      && s.nextIdx <= e <= |L|
      && Flatten(Calls(s, ns, listing)) == L[s.nextIdx..e]
    decreases |ns|
  {
    if ns != [] {
      var r := Step(s, ns[0], listing);
      var L := Listing(s, listing);
      FirstBatch(s, ns[0], listing);
      AllPositiveSlice(ns, 1, |ns|);
      BatchesServeUpToCursor(r.next, ns[1..], listing);
      FlattenFirstCall(s, ns, listing);
      AdjacentSlices(L, s.nextIdx, r.next.nextIdx, After(r.next, ns[1..], listing).nextIdx);
    }
  }

  /** One positive-size call serves the slice between the old and the new
      cursor of a listing it keeps. */
  lemma FirstBatch(s: DirState, n: int, listing: Result<seq<FileInfo>>)
    requires ValidState(s) && CanServe(s, listing) && n > 0
    ensures var r := Step(s, n, listing); var L := Listing(s, listing);
      && Listing(r.next, listing) == L
      && s.nextIdx <= r.next.nextIdx <= |L|
      && r.next.nextIdx == s.nextIdx + Min(n, |L| - s.nextIdx)
      && r.entries == L[s.nextIdx..r.next.nextIdx]
  {
  }

  /** The entries of a series of calls are those of the first call followed
      by those of the rest. */
  lemma FlattenFirstCall(s: DirState, ns: seq<int>, listing: Result<seq<FileInfo>>)
    requires ValidState(s) && ns != []
    ensures var r := Step(s, ns[0], listing);
      Flatten(Calls(s, ns, listing)) == r.entries + Flatten(Calls(r.next, ns[1..], listing))
  {
    var r := Step(s, ns[0], listing);
    assert Calls(s, ns, listing) == [r] + Calls(r.next, ns[1..], listing);
    assert ([r] + Calls(r.next, ns[1..], listing))[1..] == Calls(r.next, ns[1..], listing);
  }

  lemma AdjacentSlices<T>(L: seq<T>, a: int, b: int, c: int)
    requires 0 <= a <= b <= c <= |L|
    ensures L[a..b] + L[b..c] == L[a..c]
  {
  }

  /** Taking `a` and then `b` from `room` takes `a + b`, capped at `room`. */
  lemma MinSplit(a: int, b: int, room: int)
    requires a > 0 && b >= 0 && room >= 0
    ensures Min(a, room) + Min(b, room - Min(a, room)) == Min(a + b, room)
  {
  }

  /** In a series of calls with positive sizes, a call answers EOF, with no
      entries, exactly when the sizes asked for before it have used up the
      listing; every earlier call succeeds. */
  lemma EofExactlyWhenExhausted(s: DirState, ns: seq<int>, listing: Result<seq<FileInfo>>, i: nat)
    requires ValidState(s) && CanServe(s, listing) && AllPositive(ns) && i < |ns|
    ensures var r := Calls(s, ns, listing)[i];
      && (r.err == None <==> s.nextIdx + Sum(ns[..i]) < |Listing(s, listing)|)
      && (r.err != None ==> r.err == Some(EOF) && r.entries == [])
  {
    CallsAt(s, ns, listing, i);
    AllPositiveSlice(ns, 0, i);
    if i == 0 {
      assert ns[..0] == [];
    } else {
      CursorAfterBatches(s, ns[..i], listing);
    }
  }

  /** The i-th of a series of calls is one call made in the state the
      calls before it leave behind. */
  lemma {:induction false} CallsAt(s: DirState, ns: seq<int>, listing: Result<seq<FileInfo>>, i: nat)
    requires ValidState(s) && i < |ns|
    ensures Calls(s, ns, listing)[i] == Step(After(s, ns[..i], listing), ns[i], listing)
    decreases i
  {
    if i == 0 {
      assert ns[..0] == [];
    } else {
      var t := Step(s, ns[0], listing).next;
      CallsAt(t, ns[1..], listing, i - 1);
      assert ns[..i][0] == ns[0] && ns[..i][1..] == ns[1..][..i - 1];
      assert Calls(s, ns, listing)[i] == Calls(t, ns[1..], listing)[i - 1];
    }
  }

  /** Read from a freshly opened handle with positive batch sizes, the
      directory comes out whole and in the VFS's order once enough entries
      have been asked for, and every call made after the sizes asked for
      cover it answers EOF with no entries. */
  lemma ListingServedInOrder(infos: seq<FileInfo>, ns: seq<int>)
    requires AllPositive(ns) && Sum(ns) >= |infos|
    ensures Flatten(Calls(Unread, ns, Success(infos))) == ToEntries(infos)
    ensures forall i :: 0 <= i < |ns| && Sum(ns[..i]) >= |infos| ==>
      Calls(Unread, ns, Success(infos))[i].entries == [] && Calls(Unread, ns, Success(infos))[i].err == Some(EOF)
  {
    BatchesConcatenate(Unread, ns, Success(infos));
    assert ToEntries(infos)[0..|infos|] == ToEntries(infos);
    forall i | 0 <= i < |ns| && Sum(ns[..i]) >= |infos|
      ensures Calls(Unread, ns, Success(infos))[i].entries == [] && Calls(Unread, ns, Success(infos))[i].err == Some(EOF)
    {
      EofExactlyWhenExhausted(Unread, ns, Success(infos), i);
    }
  }

  /** A listing that fails is not cached: every call retries it and
      answers its error, unchanged, leaving the state as it was. */
  lemma {:induction false} FailedListingRetried(s: DirState, ns: seq<int>, e: Error)
    requires ValidState(s) && s.cached.None?
    ensures forall i :: 0 <= i < |ns| ==> Calls(s, ns, Failure(e))[i] == Reply(s, [], Some(e))
    ensures After(s, ns, Failure(e)) == s
    decreases |ns|
  {
    if ns != [] {
      FailedListingRetried(s, ns[1..], e);
      forall i | 0 <= i < |ns| ensures Calls(s, ns, Failure(e))[i] == Reply(s, [], Some(e)) {
        if i > 0 {
          assert Calls(s, ns, Failure(e))[i] == Calls(s, ns[1..], Failure(e))[i - 1];
        }
      }
    }
  }

  /** adapterDirFile. */
  class DirFile {
    const v: Vfs
    const path: string
    const info: FileInfo
    var cached: Option<seq<DirEntry>>
    var nextIdx: int

    function State(): DirState
      reads this
    {
      DirState(cached, nextIdx)
    }

    ghost predicate Valid()
      reads this
    {
      ValidState(State())
    }

    /** The handle Open makes for a directory. */
    constructor (v: Vfs, path: string, info: FileInfo)
      ensures this.v == v && this.path == path && this.info == info
      ensures Valid() && State() == Unread
    {
      this.v := v;
      this.path := path;
      this.info := info;
      cached := None;
      nextIdx := 0;
    }

    /** Stat: the information Stat reported when the handle was opened. */
    function Stat(): (r: Result<FileInfo>)
      ensures r.Success? && r.value == info
    {
      Success(info)
    }

    /** Read: a directory has no bytes; nothing is read and no error. */
    method Read(p: seq<byte>) returns (count: int, err: Option<Error>)
      ensures count == 0 && err == None
    {
      count, err := 0, None;
    }

    /** Close: always succeeds. */
    method Close() returns (err: Option<Error>)
      ensures err == None
    {
      err := None;
    }

    /** ReadDir(n). */
    method ReadDir(n: int) returns (out: seq<DirEntry>, err: Option<Error>)
      requires Valid()
      modifies this
      ensures Valid()
      ensures var r := Step(old(State()), n, v.readDir(path));
        State() == r.next && out == r.entries && err == r.err
    {
      if cached.None? {
        var listing := v.readDir(path);
        if listing.Failure? {
          return [], Some(listing.error);
        }
        var infos := listing.value;
        var acc: seq<DirEntry> := [];
        for i := 0 to |infos|
          invariant |acc| == i
          invariant forall k :: 0 <= k < i ==> acc[k] == FileInfoToDirEntry(infos[k])
        {
          acc := acc + [FileInfoToDirEntry(infos[i])];
        }
        assert acc == ToEntries(infos);
        cached := Some(acc);
      }
      var c := cached.value;
      if n <= 0 {
        return c[nextIdx..], None;
      }
      if nextIdx >= |c| {
        return [], Some(EOF);
      }
      var end := nextIdx + n;
      if end > |c| {
        end := |c|;
      }
      out := c[nextIdx..end];
      nextIdx := end;
      err := None;
    }
  }

  // -----------------------------------------------------------------------
  // The batch end as the source computes it, in Go's 64-bit int

  const MaxInt64: int := 0x7fff_ffff_ffff_ffff

  /** Two's-complement wrap-around of a 64-bit signed integer. */
  function WrapInt64(x: int): (r: int)
    ensures -MaxInt64 - 1 <= r <= MaxInt64
    ensures -MaxInt64 - 1 <= x <= MaxInt64 ==> r == x
    // r differs from x by a whole number of 2^64 steps: together with the
    // range this pins r down uniquely
    ensures (r - x) % (2 * (MaxInt64 + 1)) == 0
  {
    var m := 2 * (MaxInt64 + 1);
    var y := x + MaxInt64 + 1;
    assert y == (y / m) * m + y % m;
    assert (y % m - MaxInt64 - 1) - x == -(y / m) * m;
    y % m - MaxInt64 - 1
  }

  /** `end := f.nextIdx + n; if end > len(f.cached) { end = len(f.cached) }`
      evaluated with 64-bit wrap-around. */
  function BatchEndAsWritten(nextIdx: int, n: int, len: int): (end: int)
    ensures end <= len
    // without overflow it is the capped sum
    ensures -MaxInt64 - 1 <= nextIdx + n <= MaxInt64 ==> end == Min(nextIdx + n, len)
    // with overflow past the top, the sum wraps to a negative end
    ensures 0 <= nextIdx <= MaxInt64 && 0 < n <= MaxInt64 && nextIdx + n > MaxInt64 && len >= 0 ==> end < 0
  {
    var end := WrapInt64(nextIdx + n);
    if end > len then len else end
  }

  /** After one entry of a two-entry directory has been read, ReadDir with
      the largest int as batch size computes an end below the cursor, so
      the slice `f.cached[f.nextIdx:end]` is out of range. */
  lemma BatchEndAsWrittenOverflows()
    ensures BatchEndAsWritten(1, MaxInt64, 2) < 1
  {
    assert WrapInt64(1 + MaxInt64) == -MaxInt64 - 1;
  }

  /** Without overflow the source's computation and BatchEnd agree, and
      BatchEnd never forms a sum beyond the listing length, so it cannot
      overflow for any 64-bit inputs. */
  lemma BatchEndMatchesWithoutOverflow(nextIdx: int, n: int, len: int)
    requires 0 <= nextIdx <= len <= MaxInt64 && 0 < n <= MaxInt64
    ensures nextIdx + n <= MaxInt64 ==> BatchEndAsWritten(nextIdx, n, len) == BatchEnd(nextIdx, n, len)
    ensures n <= len - nextIdx ==> nextIdx + n <= MaxInt64
  {
  }
}
