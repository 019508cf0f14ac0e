/** C strings as sequences of characters: the terminating NUL and `strlen`. */
module CStrings {

  /** The string terminator, and the byte `memset` fills with. */
  const NUL: char := 0 as char

  /** True when the sequence holds no terminator, so that it is a complete C string. */
  predicate NulFree(s: seq<char>) {
    forall i :: 0 <= i < |s| ==> s[i] != NUL
  }

  /** The characters a C string stops at: everything before the first NUL
      (all of `s` when it has none). Its length is `strlen(s)`. */
  function CString(s: seq<char>): (r: seq<char>)
    ensures |r| <= |s| && r == s[..|r|]
    ensures NulFree(r)
    ensures |r| < |s| ==> s[|r|] == NUL
  {
    if s == [] || s[0] == NUL then [] else [s[0]] + CString(s[1..])
  }

  /** A string without a terminator is its own C string. */
  lemma {:induction false} CStringOfNulFree(s: seq<char>)
    requires NulFree(s)
    ensures CString(s) == s
  {
    if s != [] {
      CStringOfNulFree(s[1..]);
    }
  }

  /** `strcspn(s, sep)` for a one-character set: the number of characters
      before the first `sep` (all of `s` when it has none). */
  function Span(s: seq<char>, sep: char): (n: nat)
    ensures n <= |s|
    ensures forall i :: 0 <= i < n ==> s[i] != sep
    ensures n < |s| ==> s[n] == sep
  {
    if s == [] || s[0] == sep then 0 else 1 + Span(s[1..], sep)
  }

  /** A run of `n` NUL bytes, what `memset(p, 0, n)` leaves behind. */
  function Zeros(n: nat): (r: seq<char>)
    ensures |r| == n && forall i :: 0 <= i < n ==> r[i] == NUL
  {
    seq(n, _ => NUL)
  }
}
