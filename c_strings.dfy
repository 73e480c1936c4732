/** C strings: the characters of a buffer before its first NUL. */
module CStrings {

  const Nul: char := '\0'

  /** What `strlen`, `strcmp` and `strtok` see of the buffer `s`; the end of `s` ends it too. */
  function CString(s: seq<char>): (r: seq<char>)
    ensures |r| <= |s| && r == s[..|r|]
    ensures Nul !in r
    ensures |r| < |s| ==> s[|r|] == Nul
  {
    if s == [] || s[0] == Nul then [] else [s[0]] + CString(s[1..])
  }

  /** `n` NUL characters, as `memset(p, 0, n)` writes them. */
  function Zeros(n: nat): (r: seq<char>)
    ensures |r| == n
    ensures forall i :: 0 <= i < n ==> r[i] == Nul
  {
    seq(n, _ => Nul)
  }

  lemma {:induction false} CStringOfTerminated(s: seq<char>, t: seq<char>)
    requires Nul !in s
    ensures CString(s + [Nul] + t) == s
  {
    if s != [] {
      assert (s + [Nul] + t)[1..] == s[1..] + [Nul] + t;
      CStringOfTerminated(s[1..], t);
    }
  }
}
