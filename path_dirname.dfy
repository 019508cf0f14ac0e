/** `path_dirname`: the directory part of a path name. The path is split into
    its non-empty components on '/' (as `strtok_r` does, so repeated and
    trailing separators produce no empty component), every component but the
    last is joined again with '/', a leading '/' is kept for an absolute path,
    and a path with at most one component gives ".". */
module PathDirname {
  import opened Status
  import opened CStrings

  /** A component: non-empty and free of separators. */
  predicate Component(t: seq<char>) {
    t != [] && forall i :: 0 <= i < |t| ==> t[i] != '/'
  }

  predicate AllComponents(ts: seq<seq<char>>) {
    forall k :: 0 <= k < |ts| ==> Component(ts[k])
  }

  /** The tokens `strtok_r(..., "/", ...)` returns, in order. */
  function Tokens(s: seq<char>): (ts: seq<seq<char>>)
    ensures 2 * |ts| <= |s| + 1
    decreases |s|
  {
    if s == [] then []
    else if s[0] == '/' then Tokens(s[1..])
    else
      var n := Span(s, '/');
      assert n < |s| ==> Tokens(s[n..]) == Tokens(s[n..][1..]);
      [s[..n]] + Tokens(s[n..])
  }

  /** Every token is a component: non-empty and free of separators. */
  lemma {:induction false} TokensAreComponents(s: seq<char>)
    ensures AllComponents(Tokens(s))
    decreases |s|
  {
    if s != [] {
      if s[0] == '/' {
        TokensAreComponents(s[1..]);
      } else {
        var n := Span(s, '/');
        TokensAreComponents(s[n..]);
        assert Tokens(s)[1..] == Tokens(s[n..]);
      }
    }
  }

  /** Components joined with '/'. */
  function Join(ts: seq<seq<char>>): seq<char>
    requires ts != []
  {
    if |ts| == 1 then ts[0] else ts[0] + "/" + Join(ts[1..])
  }

  /** "/" for an absolute path, nothing otherwise. */
  function Lead(s: seq<char>): seq<char> {
    if s != [] && s[0] == '/' then "/" else ""
  }

  /** The directory part of the C string `s`. */
  function DirnameOf(s: seq<char>): (r: seq<char>)
    ensures r != []
  {
    var ts := Tokens(s);
    if |ts| <= 1 then "." else Lead(s) + Join(ts[..|ts| - 1])
  }

  // ---------------------------------------------------------------------
  // Splitting a joined path gives its components back.

  lemma {:induction false} SpanOfComponent(t: seq<char>, rest: seq<char>)
    requires (forall i :: 0 <= i < |t| ==> t[i] != '/') && (rest == [] || rest[0] == '/')
    ensures Span(t + rest, '/') == |t|
  {
    if t != [] {
      assert (t + rest)[1..] == t[1..] + rest;
      SpanOfComponent(t[1..], rest);
    } else {
      assert t + rest == rest;
    }
  }

  /** `strtok_r` gives back the components `Join` put together. */
  lemma {:induction false} TokensOfJoin(ts: seq<seq<char>>)
    requires ts != [] && AllComponents(ts)
    ensures Tokens(Join(ts)) == ts
    decreases |ts|
  {
    var t := ts[0];
    if |ts| == 1 {
      SpanOfComponent(t, []);
      assert t[..|t|] == t && t[|t|..] == [];
    } else {
      var rest := "/" + Join(ts[1..]);
      var s := t + rest;
      assert Join(ts) == s;
      SpanOfComponent(t, rest);
      assert s[..|t|] == t && s[|t|..] == rest;
      assert rest[1..] == Join(ts[1..]);
      TokensOfJoin(ts[1..]);
      assert Tokens(s) == [t] + Tokens(rest);
      assert ts == [t] + ts[1..];
    }
  }

  /** The directory part, split again, is the path's components but the last:
      nothing is lost, added or reordered. */
  lemma {:induction false} DirnameComponents(s: seq<char>)
    requires |Tokens(s)| >= 2
    ensures var ts := Tokens(s); Tokens(DirnameOf(s)) == ts[..|ts| - 1]
  {
    var ts := Tokens(s);
    TokensAreComponents(s);
    var parents := ts[..|ts| - 1];
    assert AllComponents(parents) by {
      forall k | 0 <= k < |parents| ensures Component(parents[k]) {
        assert parents[k] == ts[k];
      }
    }
    var j := Join(parents);
    var d := DirnameOf(s);
    assert d == Lead(s) + j;
    TokensOfJoin(parents);
    if s[0] == '/' {
      assert d == "/" + j;
      TokensAfterSeparator(j);
    } else {
      assert d == j;
    }
  }

  /** A leading separator adds no component. */
  lemma {:induction false} TokensAfterSeparator(j: seq<char>)
    ensures Tokens("/" + j) == Tokens(j)
  {
    assert ("/" + j)[1..] == j;
  }

  /** The directory part is absolute exactly when the path is, provided the
      path has at least two components; otherwise it is ".". */
  lemma {:induction false} DirnameAbsolute(s: seq<char>)
    ensures |Tokens(s)| <= 1 ==> DirnameOf(s) == "."
    ensures |Tokens(s)| >= 2 ==> (DirnameOf(s)[0] == '/' <==> s[0] == '/')
  {
    var ts := Tokens(s);
    if |ts| >= 2 && s[0] != '/' {
      TokensAreComponents(s);
      JoinStartsWithComponent(ts[..|ts| - 1]);
    }
  }

  lemma {:induction false} JoinStartsWithComponent(ts: seq<seq<char>>)
    requires ts != [] && AllComponents(ts)
    ensures Join(ts) != [] && Join(ts)[0] == ts[0][0]
  {
  }

  // ---------------------------------------------------------------------
  // Lengths: the directory part fits in the buffer the source allocates.

  /** Adding a component at the end of a join, as the loop does. */
  lemma {:induction false} JoinSnoc(ts: seq<seq<char>>, t: seq<char>)
    requires ts != []
    ensures Join(ts + [t]) == Join(ts) + "/" + t
    decreases |ts|
  {
    if |ts| == 1 {
      assert (ts + [t])[1..] == [t];
    } else {
      assert (ts + [t])[1..] == ts[1..] + [t];
      JoinSnoc(ts[1..], t);
    }
  }

  /** The components and the separators between them, and the leading '/',
      all come from the path itself. */
  lemma {:induction false} TokensFit(s: seq<char>)
    requires Tokens(s) != []
    ensures |Lead(s)| + |Join(Tokens(s))| <= |s|
    decreases |s|
  {
    if s[0] == '/' {
      TokensFit(s[1..]);
    } else {
      var n := Span(s, '/');
      var rest := Tokens(s[n..]);
      if rest != [] {
        TokensFit(s[n..]);
        assert Tokens(s)[1..] == rest;
      }
    }
  }

  /** Each join of a shorter prefix of the components is shorter still. */
  lemma {:induction false} JoinPrefixShorter(ts: seq<seq<char>>, i: nat)
    requires 1 <= i < |ts|
    ensures |Join(ts[..i])| + 1 + |ts[i]| <= |Join(ts[..i + 1])| <= |Join(ts)|
    decreases |ts| - i
  {
    assert ts[..i + 1] == ts[..i] + [ts[i]];
    JoinSnoc(ts[..i], ts[i]);
    if i + 1 < |ts| {
      JoinPrefixShorter(ts, i + 1);
    } else {
      assert ts[..i + 1] == ts;
    }
  }

  /** The join of a prefix of the components is no longer than the whole. */
  lemma {:induction false} JoinPrefixFits(ts: seq<seq<char>>, i: nat)
    requires 1 <= i < |ts|
    ensures |Join(ts[..i])| <= |Join(ts)|
  {
    JoinPrefixShorter(ts, i);
  }

  lemma {:induction false} JoinDropLast(ts: seq<seq<char>>)
    requires |ts| >= 2
    ensures |Join(ts[..|ts| - 1])| < |Join(ts)|
  {
    JoinPrefixShorter(ts, |ts| - 1);
  }

  /** The directory part is never longer than the path (for a non-empty path). */
  lemma {:induction false} DirnameFits(s: seq<char>)
    requires s != []
    ensures |DirnameOf(s)| <= |s|
  {
    var ts := Tokens(s);
    if |ts| >= 2 {
      TokensFit(s);
      JoinDropLast(ts);
    }
  }

  // ---------------------------------------------------------------------
  // The library calls the loop uses.

  /** `strncat(dst, src, n)`: appends at most `n` characters of `src`. */
  function Strncat(dst: seq<char>, src: seq<char>, n: int): (r: seq<char>)
    ensures |src| <= n ==> r == dst + src
    ensures n <= |src| ==> r == dst + src[..if n < 0 then 0 else n]
  {
    dst + src[..if n < 0 then 0 else if n < |src| then n else |src|]
  }

  /** `strncpy(dst, src, n)` seen as a C string: at most `n` characters of `src`. */
  function Strncpy(src: seq<char>, n: int): (r: seq<char>)
    ensures |r| <= |src| && r == src[..|r|]
    ensures n >= |src| ==> r == src
    ensures 0 <= n <= |src| ==> |r| == n
  {
    src[..if n < 0 then 0 else if n < |src| then n else |src|]
  }

  /** The loop of `path_dirname` over the `strtok_r` tokens of `s`: each
      token but the last is appended to the output with `strncat`, preceded by
      a separator (or, first, by '/' if `s` is absolute); `pathrem` counts the
      room left in the output buffer of `|s| + 1` bytes and never runs out, so
      no `strncat` cuts anything. With fewer than two tokens the output is
      `strncpy(".")`. */
  method JoinParents(s: seq<char>) returns (out: seq<char>)
    requires s != []
    ensures out == DirnameOf(s)
  {
    var pathmax := |s|;
    var pathrem: int := pathmax;
    out := [];
    var toks := Tokens(s);
    ghost var lead := Lead(s);
    if toks != [] {
      TokensFit(s);
    }
    var dirpath: Option<seq<char>> := None;
    var hasSep := false;
    var i := 0;
    while i < |toks|
      invariant 0 <= i <= |toks|
      invariant hasSep <==> i >= 2
      invariant dirpath == if i == 0 then None else Some(toks[i - 1])
      invariant out == Built(lead, toks, i)
      invariant pathrem == pathmax - |out|
    {
      var pathent := toks[i];
      if dirpath.Some? {
        BuiltFits(lead, toks, i);
        BuiltStep(lead, toks, i);
        if hasSep {
          out := Strncat(out, "/", pathrem);
          pathrem := pathrem - 1;
        } else {
          if s[0] == '/' {
            out := Strncat(out, "/", pathrem);
            pathrem := pathrem - 1;
          }
          hasSep := true;
        }
        out := Strncat(out, dirpath.value, pathrem);
        pathrem := pathrem - |dirpath.value|;
      }
      dirpath := Some(pathent);
      i := i + 1;
    }
    if !hasSep {
      out := Strncpy(".", pathrem);
    }
  }

  /** The output once the loop has seen `i` of the tokens `toks`: empty until
      the second token, then the path's lead and the join of all tokens seen
      but the last. */
  function Built(lead: seq<char>, toks: seq<seq<char>>, i: nat): seq<char>
    requires i <= |toks|
  {
    if i <= 1 then [] else lead + Join(toks[..i - 1])
  }

  /** What the loop needs at token `i`: the output one step on is no longer
      than the lead and the join of all tokens, so no `strncat` cuts
      anything ... */
  lemma {:induction false} BuiltFits(lead: seq<char>, toks: seq<seq<char>>, i: nat)
    requires 1 <= i < |toks|
    ensures |Built(lead, toks, i + 1)| <= |lead| + |Join(toks)|
  {
    JoinPrefixFits(toks, i);
    assert Built(lead, toks, i + 1) == lead + Join(toks[..i]);
  }

  /** ... and it is the output so far, a separator (or, the first time, the
      lead) and the previous token. */
  lemma {:induction false} BuiltStep(lead: seq<char>, toks: seq<seq<char>>, i: nat)
    requires 1 <= i < |toks|
    ensures Built(lead, toks, i + 1) == (if i >= 2 then Built(lead, toks, i) + "/" else lead) + toks[i - 1]
  {
    var t := toks[i - 1];
    assert Built(lead, toks, i + 1) == lead + Join(toks[..i]);
    if i >= 2 {
      var j := Join(toks[..i - 1]);
      assert Built(lead, toks, i) == lead + j;
      assert toks[..i] == toks[..i - 1] + [t];
      JoinSnoc(toks[..i - 1], t);
      assert lead + (j + "/" + t) == lead + j + "/" + t;
    } else {
      assert toks[..i] == [t];
    }
  }

  /** `path_dirname(dirname, alloc, filename)`. A NULL argument is `None` (for
      the out-pointer, `hasOut == false`); `alloc` gives the outcome of each
      allocator call. On success the result is `DirnameOf` the C string. A
      failure to reclaim the working copy replaces the status, even when the
      directory part was produced. */
  method Dirname(hasOut: bool, alloc: Option<Allocator>, filename: Option<seq<char>>)
    returns (status: int, dirname: Option<seq<char>>)
    ensures !hasOut || alloc.None? || filename.None? ==>
      status == ERROR_PATH_INVALID_PARAMETER && dirname.None?
    ensures hasOut && alloc.Some? && filename.Some? && CString(filename.value) == [] ==>
      status == alloc.value.strdupStatus && dirname == if status == SUCCESS then Some(".") else None
    ensures hasOut && alloc.Some? && filename.Some? && CString(filename.value) != [] ==>
      var a := alloc.value;
      var s := CString(filename.value);
      && (a.strdupStatus != SUCCESS ==> status == a.strdupStatus && dirname.None?)
      && (a.strdupStatus == SUCCESS && a.allocateStatus != SUCCESS ==>
            dirname.None? && status == (if a.reclaimStatus != SUCCESS then a.reclaimStatus else a.allocateStatus))
      && (a.strdupStatus == SUCCESS && a.allocateStatus == SUCCESS ==>
            dirname == Some(DirnameOf(s)) && |dirname.value| <= |s|
            && status == (if a.reclaimStatus != SUCCESS then a.reclaimStatus else SUCCESS))
  {
    if !hasOut || alloc.None? || filename.None? {
      return ERROR_PATH_INVALID_PARAMETER, None;
    }
    var a := alloc.value;
    var s := CString(filename.value);
    dirname := None;

    if s == [] {
      status := a.strdupStatus;
      if status == SUCCESS {
        dirname := Some(".");
      }
      return;
    }

    // the working copy that strtok_r cuts up
    status := a.strdupStatus;
    if status != SUCCESS {
      return;
    }

    status := a.allocateStatus;
    if status == SUCCESS {
      var out := JoinParents(s);
      DirnameFits(s);
      dirname := Some(out);
      status := SUCCESS;
    }

    // cleanup_workpath
    if a.reclaimStatus != SUCCESS {
      status := a.reclaimStatus;
    }
  }

  /** The outputs the library's tests pin down: a bare file name, a relative
      path, an explicit current directory and an absolute path. */
  lemma {:induction false} BareFileExample(path: seq<char>)
    requires path == "foo.txt"
    ensures DirnameOf(path) == "."
  {
    var foo: seq<char> := "foo.txt";
    SingleToken(foo);
  }

  lemma {:induction false} RelativeExample(path: seq<char>)
    requires path == "build/foo.txt"
    ensures DirnameOf(path) == "build"
  {
    var build: seq<char>, foo: seq<char> := "build", "foo.txt";
    assert path == build + "/" + foo;
    TwoTokens(build, foo);
  }

  lemma {:induction false} CurrentDirectoryExample(path: seq<char>)
    requires path == "./foo.txt"
    ensures DirnameOf(path) == "."
  {
    var dot: seq<char>, foo: seq<char> := ".", "foo.txt";
    assert path == dot + "/" + foo;
    TwoTokens(dot, foo);
  }

  lemma {:induction false} AbsoluteExample(path: seq<char>)
    requires path == "/build/src/foo.txt"
    ensures DirnameOf(path) == "/build/src"
  {
    var build: seq<char>, src: seq<char>, foo: seq<char> := "build", "src", "foo.txt";
    var ts := [build, src, foo];
    assert ts[1..] == [src, foo] && [src, foo][1..] == [foo];
    assert Join([src, foo]) == src + "/" + foo;
    assert Join(ts) == build + "/" + (src + "/" + foo);
    assert path == "/" + Join(ts);
    assert ts[..2] == [build, src] && [build, src][1..] == [src];
    assert Join([build, src]) == build + "/" + src;
    assert "/" + Join(ts[..2]) == "/build/src";
    AbsoluteParent(ts);
  }

  /** The parent of an absolute path of two or more components keeps the
      leading separator and all components but the last. */
  lemma {:induction false} AbsoluteParent(ts: seq<seq<char>>)
    requires |ts| >= 2 && AllComponents(ts)
    ensures DirnameOf("/" + Join(ts)) == "/" + Join(ts[..|ts| - 1])
  {
    var p := "/" + Join(ts);
    TokensOfJoin(ts);
    assert p[1..] == Join(ts);
    assert Tokens(p) == Tokens(p[1..]);
  }

  /** The parent of a relative path of two or more components is the join of
      all components but the last. */
  lemma {:induction false} RelativeParent(ts: seq<seq<char>>)
    requires |ts| >= 2 && AllComponents(ts)
    ensures DirnameOf(Join(ts)) == Join(ts[..|ts| - 1])
  {
    TokensOfJoin(ts);
    JoinStartsWithComponent(ts);
  }

  lemma {:induction false} SingleToken(t: seq<char>)
    requires Component(t)
    ensures DirnameOf(t) == "."
  {
    TokensOfJoin([t]);
  }

  lemma {:induction false} TwoTokens(a: seq<char>, b: seq<char>)
    requires Component(a) && Component(b)
    ensures DirnameOf(a + "/" + b) == a
  {
    TokensOfJoin([a, b]);
    assert Join([a, b]) == a + "/" + b;
    assert Join([a, b][..1]) == a;
  }
}
