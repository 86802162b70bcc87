/** A lexical model of Go's `path.Clean` and `strings.Contains`, the two
    string operations the io/fs adapter applies to every name it receives.

    `path.Clean` works element by element: the name is split at every '/',
    empty and "." elements are dropped, each ".." removes the element before
    it (a ".." that reaches the root of a rooted path is dropped, one that
    reaches the start of a relative path is kept), and the survivors are
    joined again, with a leading '/' for a rooted path and "." for an empty
    relative result. */
module GoPath {

  // ---------------------------------------------------------------------
  // strings.Contains

  /** `strings.Contains(s, sub)`: `sub` occurs somewhere inside `s`. */
  predicate Contains(s: string, sub: string)
    decreases |s|
  {
    sub <= s || (s != [] && Contains(s[1..], sub))
  }

  /** An occurrence of `sub` at index `i` of `s` makes Contains hold. */
  lemma {:induction false} ContainsAt(s: string, sub: string, i: nat)
    requires i + |sub| <= |s| && s[i..i + |sub|] == sub
    ensures Contains(s, sub)
    decreases i
  {
    if i == 0 {
      assert sub <= s;
    } else {
      assert s[1..][i - 1..i - 1 + |sub|] == s[i..i + |sub|];
      ContainsAt(s[1..], sub, i - 1);
    }
  }

  /** The converse of ContainsAt: when Contains holds, `sub` occurs at
      some index of `s`. */
  lemma {:induction false} ContainsHasIndex(s: string, sub: string) returns (i: nat)
    requires Contains(s, sub)
    ensures i + |sub| <= |s| && s[i..i + |sub|] == sub
    decreases |s|
  {
    if sub <= s {
      i := 0;
    } else {
      var j := ContainsHasIndex(s[1..], sub);
      assert s[1..][j..j + |sub|] == s[j + 1..j + 1 + |sub|];
      i := j + 1;
    }
  }

  /** `sub` occurs in `s` starting at index `i`. */
  predicate OccursAt(s: string, sub: string, i: nat)
  {
    i + |sub| <= |s| && s[i..i + |sub|] == sub
  }

  /** Contains is exactly "occurs at some index". */
  lemma ContainsIffOccurs(s: string, sub: string)
    ensures Contains(s, sub) <==> exists i: nat :: OccursAt(s, sub, i)
  {
    if Contains(s, sub) {
      var i := ContainsHasIndex(s, sub);
      assert OccursAt(s, sub, i);
    } else {
      forall i: nat | OccursAt(s, sub, i) ensures false {
        ContainsAt(s, sub, i);
      }
    }
  }

  // ---------------------------------------------------------------------
  // Splitting at '/' and joining with '/'

  /** The elements of `p` between its '/' separators, as `strings.Split(p, "/")`
      gives them: one more element than there are separators. */
  function Split(p: string): (r: seq<string>)
    ensures |r| >= 1
    decreases |p|
  {
    if p == [] then [""]
    else if p[0] == '/' then [""] + Split(p[1..])
    else
      var t := Split(p[1..]);
      [[p[0]] + t[0]] + t[1..]
  }

  /** `strings.Join(xs, "/")`. */
  function Join(xs: seq<string>): string
    decreases |xs|
  {
    if xs == [] then ""
    else if |xs| == 1 then xs[0]
    else xs[0] + "/" + Join(xs[1..])
  }

  /** No element of `xs` contains the separator. */
  predicate SlashFree(xs: seq<string>)
  {
    forall i :: 0 <= i < |xs| ==> '/' !in xs[i]
  }

  /** Every element that Split produces occurs in the split string. */
  lemma {:induction false} SplitElementOccurs(p: string, i: nat)
    requires i < |Split(p)|
    ensures Contains(p, Split(p)[i])
    decreases |p|
  {
    if p == [] {
    } else if p[0] == '/' {
      if i == 0 {
        assert Split(p)[0] == "" && "" <= p;
      } else {
        SplitElementOccurs(p[1..], i - 1);
      }
    } else if i == 0 {
      SplitFirstIsPrefix(p[1..]);
      assert Split(p)[0] <= p;
    } else {
      SplitElementOccurs(p[1..], i);
    }
  }

  /** The first element of a split is a prefix of the split string. */
  lemma {:induction false} SplitFirstIsPrefix(p: string)
    ensures Split(p)[0] <= p
    decreases |p|
  {
    if p != [] && p[0] != '/' {
      SplitFirstIsPrefix(p[1..]);
    }
  }

  /** Splitting a string without separators yields that string alone. */
  lemma {:induction false} SplitNoSlash(a: string)
    requires '/' !in a
    ensures Split(a) == [a]
    decreases |a|
  {
    if a != [] {
      assert '/' !in a[1..] by {
        forall k | 0 <= k < |a[1..]| ensures a[1..][k] != '/' { assert a[1..][k] == a[k + 1]; }
      }
      SplitNoSlash(a[1..]);
      assert [a[0]] + a[1..] == a;
    }
  }

  /** The first separator of `a + "/" + rest` ends the first element. */
  lemma {:induction false} SplitAtFirstSlash(a: string, rest: string)
    requires '/' !in a
    ensures Split(a + "/" + rest) == [a] + Split(rest)
    decreases |a|
  {
    if a == [] {
      assert a + "/" + rest == "/" + rest;
      assert ("/" + rest)[1..] == rest;
    } else {
      assert '/' !in a[1..] by {
        forall k | 0 <= k < |a[1..]| ensures a[1..][k] != '/' { assert a[1..][k] == a[k + 1]; }
      }
      SplitAtFirstSlash(a[1..], rest);
      assert (a + "/" + rest)[1..] == a[1..] + "/" + rest;
      assert [a[0]] + a[1..] == a;
    }
  }

  /** Split undoes Join when no element contains the separator. */
  lemma {:induction false} SplitJoin(xs: seq<string>)
    requires xs != [] && SlashFree(xs)
    ensures Split(Join(xs)) == xs
    decreases |xs|
  {
    if |xs| == 1 {
      SplitNoSlash(xs[0]);
    } else {
      SplitAtFirstSlash(xs[0], Join(xs[1..]));
      SplitJoin(xs[1..]);
      assert [xs[0]] + xs[1..] == xs;
    }
  }

  /** A joined path starts with the first character of its first element. */
  lemma JoinFirst(xs: seq<string>)
    requires xs != [] && xs[0] != ""
    ensures Join(xs) != "" && Join(xs)[0] == xs[0][0]
  {
  }

  // ---------------------------------------------------------------------
  // Resolving "." and ".."

  /** An element that survives cleaning: not empty, not ".", no separator. */
  predicate IsName(e: string)
  {
    e != "" && e != "." && '/' !in e
  }

  /** The shape of a cleaned element list: ordinary names, ".." never in a
      rooted path, and in a relative path only as a leading run. */
  predicate Canonical(out: seq<string>, rooted: bool)
  {
    && (forall i :: 0 <= i < |out| ==> IsName(out[i]))
    && (rooted ==> forall i :: 0 <= i < |out| ==> out[i] != "..")
    && (forall i, j :: 0 <= i < j < |out| && out[j] == ".." ==> out[i] == "..")
  }

  /** One step of the lexical rules of path.Clean, applied to the elements
      kept so far. */
  function Apply(out: seq<string>, e: string, rooted: bool): seq<string>
  {
    if e == "" || e == "." then out
    else if e == ".." then
      if |out| > 0 && out[|out| - 1] != ".." then out[..|out| - 1]
      else if rooted then out
      else out + [".."]
    else out + [e]
  }

  /** The elements kept after processing `elems` from left to right. */
  function Resolve(out: seq<string>, elems: seq<string>, rooted: bool): seq<string>
    decreases |elems|
  {
    if elems == [] then out
    else Resolve(Apply(out, elems[0], rooted), elems[1..], rooted)
  }

  /** Each step keeps the element list canonical. */
  lemma ApplyCanonical(out: seq<string>, e: string, rooted: bool)
    requires Canonical(out, rooted) && '/' !in e
    ensures Canonical(Apply(out, e, rooted), rooted)
  {
    if e == ".." && !rooted && !(|out| > 0 && out[|out| - 1] != "..") {
      var r := out + [".."];
      forall i, j | 0 <= i < j < |r| && r[j] == ".." ensures r[i] == ".." {
        if |out| > 0 { assert out[|out| - 1] == ".."; }
      }
    }
  }

  /** Resolving keeps the element list canonical. */
  lemma {:induction false} ResolveCanonical(out: seq<string>, elems: seq<string>, rooted: bool)
    requires Canonical(out, rooted) && SlashFree(elems)
    ensures Canonical(Resolve(out, elems, rooted), rooted)
    decreases |elems|
  {
    if elems != [] {
      ApplyCanonical(out, elems[0], rooted);
      assert SlashFree(elems[1..]) by {
        forall k | 0 <= k < |elems[1..]| ensures '/' !in elems[1..][k] { assert elems[1..][k] == elems[k + 1]; }
      }
      ResolveCanonical(Apply(out, elems[0], rooted), elems[1..], rooted);
    }
  }

  /** Resolving a list that is already canonical changes nothing. */
  lemma {:induction false} ResolveFixpoint(acc: seq<string>, xs: seq<string>, rooted: bool)
    requires Canonical(acc + xs, rooted)
    ensures Resolve(acc, xs, rooted) == acc + xs
    decreases |xs|
  {
    if xs != [] {
      var all := acc + xs;
      assert all[|acc|] == xs[0];
      if xs[0] == ".." && |acc| > 0 {
        assert all[|acc| - 1] == acc[|acc| - 1];
      }
      assert Apply(acc, xs[0], rooted) == acc + [xs[0]];
      assert (acc + [xs[0]]) + xs[1..] == all;
      ResolveFixpoint(acc + [xs[0]], xs[1..], rooted);
    }
  }

  /** Elements produced by Split never contain the separator. */
  lemma {:induction false} SplitSlashFree(p: string)
    ensures SlashFree(Split(p))
    decreases |p|
  {
    if p != [] {
      SplitSlashFree(p[1..]);
      if p[0] != '/' {
        var t := Split(p[1..]);
        assert '/' !in [p[0]] + t[0] by {
          assert t[0] == Split(p[1..])[0];
        }
        var r := Split(p);
        forall k | 0 <= k < |r| ensures '/' !in r[k] {
          if k > 0 { assert r[k] == t[k]; }
        }
      }
    }
  }

  // ---------------------------------------------------------------------
  // path.Clean

  /** The path is rooted: it starts with '/'. */
  predicate IsRooted(p: string)
  {
    |p| > 0 && p[0] == '/'
  }

  /** The elements of `p` that survive cleaning. */
  function CleanElems(p: string): (out: seq<string>)
    ensures Canonical(out, IsRooted(p))
  {
    SplitSlashFree(p);
    ResolveCanonical([], Split(p), IsRooted(p));
    Resolve([], Split(p), IsRooted(p))
  }

  /** `path.Clean(p)`: the shortest name lexically equivalent to `p`. */
  function Clean(p: string): (r: string)
    ensures r != ""
    ensures IsRooted(r) <==> IsRooted(p)
  {
    if p == "" then "."
    else
      var out := CleanElems(p);
      if IsRooted(p) then "/" + Join(out)
      else if out == [] then "."
      else (JoinFirst(out); Join(out))
  }

  /** The cleaned path splits back into its surviving elements: after the
      leading empty element of a rooted path, every element is a name. */
  lemma CleanSplit(p: string)
    ensures Clean(p) != "." ==>
      Split(Clean(p)) == (if IsRooted(p) then [""] else []) + CleanElems(p)
      || (Clean(p) == "/" && CleanElems(p) == [])
  {
    if p != "" && Clean(p) != "." {
      var out := CleanElems(p);
      if IsRooted(p) {
        var c := "/" + Join(out);
        assert c[1..] == Join(out);
        if out != [] {
          SplitJoin(out);
        }
      } else {
        SplitJoin(out);
      }
    }
  }

  /** "." is already clean. */
  lemma CleanDot()
    ensures Clean(".") == "."
  {
    assert "."[1..] == "";
    assert Split("") == [""];
    assert ['.'] + "" == ".";
    assert Split(".") == [['.'] + Split("")[0]] + Split("")[1..];
    assert Resolve([], ["."], false) == [];
  }

  /** "/" is already clean. */
  lemma CleanRoot()
    ensures Clean("/") == "/"
  {
    assert Split("/") == ["", ""];
    assert Resolve([], ["", ""], true) == [];
  }

  /** A rooted path with surviving elements cleans back to itself. */
  lemma CleanRootedJoin(out: seq<string>)
    requires out != [] && Canonical(out, true)
    ensures Clean("/" + Join(out)) == "/" + Join(out)
  {
    var c := "/" + Join(out);
    assert c[1..] == Join(out);
    SplitJoin(out);
    assert Split(c) == [""] + out;
    ResolveFixpoint([], out, true);
    assert ([""] + out)[1..] == out;
    assert CleanElems(c) == out;
  }

  /** A relative path with surviving elements cleans back to itself. */
  lemma CleanRelativeJoin(out: seq<string>)
    requires out != [] && Canonical(out, false)
    ensures Clean(Join(out)) == Join(out)
  {
    JoinFirst(out);
    SplitJoin(out);
    ResolveFixpoint([], out, false);
    assert CleanElems(Join(out)) == out;
  }

  /** Cleaning is idempotent: a cleaned path is its own clean form. */
  lemma CleanIdempotent(p: string)
    ensures Clean(Clean(p)) == Clean(p)
  {
    if p == "" {
      CleanDot();
    } else {
      var out := CleanElems(p);
      if IsRooted(p) {
        if out == [] {
          CleanRoot();
        } else {
          CleanRootedJoin(out);
        }
      } else if out == [] {
        CleanDot();
      } else {
        CleanRelativeJoin(out);
      }
    }
  }

  /** In a rooted path, cleaning removes every ".." element, so the result
      can never climb above the root. */
  lemma RootedCleanHasNoParent(p: string)
    requires IsRooted(p)
    ensures forall i :: 0 <= i < |Split(Clean(p))| ==> Split(Clean(p))[i] != ".." && Split(Clean(p))[i] != "."
  {
    CleanSplit(p);
    if Clean(p) == "/" {
      assert Split("/") == ["", ""];
    }
  }
}
