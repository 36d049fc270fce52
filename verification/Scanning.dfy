// Scanning text from its head.
module Scanning {

  /** How many characters of a kind stand at the head of s. */
  function Run(s: string, kind: char -> bool): (k: nat)
    ensures k <= |s|
  {
    if s != "" && kind(s[0]) then 1 + Run(s[1..], kind) else 0
  }

  lemma {:induction false} RunKind(s: string, kind: char -> bool)
    ensures forall k | 0 <= k < Run(s, kind) :: kind(s[k])
    ensures Stops(s[Run(s, kind)..], kind)
  {
    if s != "" && kind(s[0]) {
      RunKind(s[1..], kind);
      assert s[Run(s, kind)..] == s[1..][Run(s[1..], kind)..];
    }
  }

  /** Scanning stops before rest. */
  predicate Stops(rest: string, kind: char -> bool) { rest == "" || !kind(rest[0]) }

  lemma {:induction false} RunOver(a: string, rest: string, kind: char -> bool)
    requires (forall k | 0 <= k < |a| :: kind(a[k])) && Stops(rest, kind)
    ensures Run(a + rest, kind) == |a|
    ensures (a + rest)[..|a|] == a && (a + rest)[|a|..] == rest
  {
    if a == "" {
      assert a + rest == rest;
    } else {
      RunOver(a[1..], rest, kind);
      assert (a + rest)[1..] == a[1..] + rest;
    }
  }
}
