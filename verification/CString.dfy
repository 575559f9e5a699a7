/** C strings as Dafny strings: one `char` is one byte and the terminating NUL is not part of the value. */
module CString {

  datatype Option<+T> = None | Some(value: T)

  const TAB: char := '\t'

  /** Locale-free upper-casing of ASCII letters; every other byte is left alone. */
  function ToUpper(c: char): char
  {
    if 'a' <= c <= 'z' then c - 32 as char else c
  }

  /** Case-insensitive equality of whole strings. */
  predicate CaseEq(a: string, b: string)
  {
    |a| == |b| && forall i :: 0 <= i < |a| ==> ToUpper(a[i]) == ToUpper(b[i])
  }

  /** At most the first `n` bytes of `s`. */
  function Prefix(s: string, n: nat): string
  {
    if n <= |s| then s[..n] else s
  }

  /** Case-insensitive equality of at most `n` bytes. */
  predicate NCaseEq(a: string, b: string, n: nat)
  {
    CaseEq(Prefix(a, n), Prefix(b, n))
  }

  predicate IsBlank(c: char)
  {
    c == ' ' || c == TAB
  }

  /** The index of the first `c` in `s`, or `|s|` when there is none. */
  function Find(s: string, c: char): (k: nat)
    ensures k <= |s| && (k < |s| ==> s[k] == c)
    ensures forall i :: 0 <= i < k ==> s[i] != c
  {
    if s == "" || s[0] == c then 0 else 1 + Find(s[1..], c)
  }

  /** The index of the last `c` among the first `n` bytes of `s`, or -1. */
  function FindLast(s: string, c: char, n: nat): (k: int)
    requires n <= |s|
    ensures -1 <= k < n && (k >= 0 ==> s[k] == c)
    ensures forall i :: k < i < n ==> s[i] != c
  {
    if n == 0 then -1 else if s[n - 1] == c then n - 1 else FindLast(s, c, n - 1)
  }

  /** A position that separates `c` from everything before it is the one `Find` returns. */
  lemma FindUnique(s: string, c: char, k: nat)
    requires k <= |s| && (forall i :: 0 <= i < k ==> s[i] != c) && (k < |s| ==> s[k] == c)
    ensures Find(s, c) == k
  {
    var f := Find(s, c);
    assert f < |s| ==> s[f] == c;
  }
}
