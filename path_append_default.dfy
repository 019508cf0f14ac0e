/** `path_append_default`: a search path with the system's default search path
    (`_PATH_DEFPATH`, here the parameter `defPath`) added at its end. */
module PathAppendDefault {
  import opened Status
  import opened CStrings

  /** The directories of a search path: the text between ':' separators,
      empty entries included. */
  function Fields(s: seq<char>): (fs: seq<seq<char>>)
    ensures |fs| >= 1
    decreases |s|
  {
    var n := Span(s, ':');
    if n == |s| then [s] else [s[..n]] + Fields(s[n + 1..])
  }

  /** `path_append_default(outpath, alloc, path)`. A NULL argument is `None`
      (for the out-pointer, `hasOut == false`); `alloc.strdupStatus` is the
      outcome of the one allocating call, `rcpr_strdup` for an empty path and
      `rcpr_strcatv` otherwise. An empty path gives a copy of the default
      path, any other gives `path:defPath`. */
  function AppendDefault(hasOut: bool, alloc: Option<Allocator>, path: Option<seq<char>>, defPath: seq<char>)
    : (r: (int, Option<seq<char>>))
    ensures !hasOut || alloc.None? || path.None? ==> r == (ERROR_PATH_INVALID_PARAMETER, None)
    ensures hasOut && alloc.Some? && path.Some? ==>
      && r.0 == alloc.value.strdupStatus
      && (r.1.Some? <==> r.0 == SUCCESS)
    ensures r.1.Some? && CString(path.value) == [] ==> r.1.value == defPath
    ensures r.1.Some? && CString(path.value) != [] ==>
      var p := CString(path.value);
      var o := r.1.value;
      |o| == |p| + 1 + |defPath| && o[..|p|] == p && o[|p|] == ':' && o[|p| + 1..] == defPath
  {
    if !hasOut || alloc.None? || path.None? then (ERROR_PATH_INVALID_PARAMETER, None)
    else
      var status := alloc.value.strdupStatus;
      var p := CString(path.value);
      if status != SUCCESS then (status, None)
      else if p == [] then (status, Some(defPath))
      else (status, Some(p + ":" + defPath))
  }

  /** Joining two search paths with ':' lists the directories of the first,
      then those of the second. */
  lemma {:induction false} FieldsOfJoin(a: seq<char>, b: seq<char>)
    ensures Fields(a + ":" + b) == Fields(a) + Fields(b)
    decreases |a|
  {
    var s := a + ":" + b;
    var n := Span(a, ':');
    if n == |a| {
      SpanAtSeparator(a, b);
      assert s[..n] == a && s[n + 1..] == b;
      assert Fields(s) == [a] + Fields(b);
      assert Fields(a) == [a];
    } else {
      SpanOfPrefix(a, ":" + b);
      assert a + (":" + b) == s;
      var tail := a[n + 1..];
      assert s[..n] == a[..n];
      assert s[n + 1..] == tail + ":" + b;
      calc {
        Fields(s);
        [a[..n]] + Fields(tail + ":" + b);
        { FieldsOfJoin(tail, b); }
        [a[..n]] + (Fields(tail) + Fields(b));
        ([a[..n]] + Fields(tail)) + Fields(b);
        Fields(a) + Fields(b);
      }
    }
  }

  /** The first field of `a ++ ":" ++ b` is all of `a` when `a` has no ':'. */
  lemma {:induction false} SpanAtSeparator(a: seq<char>, b: seq<char>)
    requires Span(a, ':') == |a|
    ensures Span(a + ":" + b, ':') == |a|
    decreases |a|
  {
    if a != [] {
      assert (a + ":" + b)[1..] == a[1..] + ":" + b;
      SpanAtSeparator(a[1..], b);
    } else {
      assert a + ":" + b == ":" + b;
    }
  }

  /** Text after a ':' does not change where the first field ends. */
  lemma {:induction false} SpanOfPrefix(a: seq<char>, rest: seq<char>)
    requires Span(a, ':') < |a|
    ensures Span(a + rest, ':') == Span(a, ':')
    decreases |a|
  {
    if a[0] != ':' {
      assert (a + rest)[1..] == a[1..] + rest;
      SpanOfPrefix(a[1..], rest);
    }
  }

  /** Searching the result searches the given directories first, then the
      default ones: the directories of the result are those of the path
      followed by those of the default path. */
  lemma SearchOrder(hasOut: bool, alloc: Option<Allocator>, path: Option<seq<char>>, defPath: seq<char>)
    requires AppendDefault(hasOut, alloc, path, defPath).1.Some?
    ensures var p := CString(path.value);
      Fields(AppendDefault(hasOut, alloc, path, defPath).1.value)
        == (if p == [] then [] else Fields(p)) + Fields(defPath)
  {
    var p := CString(path.value);
    if p != [] {
      FieldsOfJoin(p, defPath);
    }
  }
}
