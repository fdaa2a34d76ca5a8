/** Searching in C strings. */
module Strings {

  /** How many characters come before the first `stop`. */
  function UpTo(s: string, stop: char): (n: nat)
    ensures n <= |s| && (n < |s| ==> s[n] == stop) && stop !in s[..n]
  {
    if s == "" || s[0] == stop then 0 else 1 + UpTo(s[1..], stop)
  }

  /** strchr, with the length where the character does not occur. */
  method IndexOf(s: string, stop: char) returns (n: nat)
    ensures n == UpTo(s, stop)
  {
    n := 0;
    assert s[0..] == s;
    while n < |s| && s[n] != stop
      invariant n <= |s| && UpTo(s, stop) == n + UpTo(s[n..], stop)
    {
      assert s[n..][1..] == s[n + 1..];
      n := n + 1;
    }
  }

  lemma {:induction false} UpToConcat(a: string, stop: char, b: string)
    requires stop !in a
    ensures UpTo(a + ([stop] + b), stop) == |a|
    decreases |a|
  {
    var s := a + ([stop] + b);
    if a == "" {
      assert s == [stop] + b;
    } else {
      assert a[0] in a && s[0] == a[0] && s[1..] == a[1..] + ([stop] + b);
      UpToConcat(a[1..], stop, b);
    }
  }

  lemma Slices(s: string, p: nat, n: nat, next: nat)
    requires p + n <= next <= |s|
    ensures s[p..][..n] == s[p..p + n] && s[p..][next - p..] == s[next..]
  {
  }
}
