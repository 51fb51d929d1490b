/** Composite keys made by joining fields with a newline. */
module Keys {

  predicate NewlineFree(text: string) {
    '\n' !in text
  }

  const SEPARATOR: string := "\n"

  function Join(left: string, right: string): string {
    left + SEPARATOR + right
  }

  lemma FirstFieldReaches(a: string, b: string, c: string, d: string)
    requires NewlineFree(c) && Join(a, b) == Join(c, d)
    ensures |a| >= |c|
  {
    var key := Join(c, d);
    assert key[|a|] == '\n';
    assert forall k :: 0 <= k < |c| ==> key[k] == c[k];
  }

  /** A newline-free first field can be told apart from the rest of the key. */
  lemma JoinIsInjective(a: string, b: string, c: string, d: string)
    requires NewlineFree(a) && NewlineFree(c)
    requires Join(a, b) == Join(c, d)
    ensures a == c && b == d
  {
    FirstFieldReaches(a, b, c, d);
    FirstFieldReaches(c, d, a, b);
    var key := Join(a, b);
    assert a == key[..|a|] && c == key[..|c|];
    assert b == key[|a| + 1..] && d == key[|c| + 1..];
  }
}
