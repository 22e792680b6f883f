/** Texts joined by colons, and what can be read back from them. */
module ColonFields {
  import opened Common

  function Colon(a: string, b: string): string { a + ":" + b }

  predicate ColonFree(s: string) { ':' !in s }

  /** A colon-free last field can be told from any text before it. */
  lemma {:induction false} LastField(a: string, f: string, b: string, g: string)
    requires Colon(a, f) == Colon(b, g) && ColonFree(f) && ColonFree(g)
    ensures a == b && f == g
  {
    BorderFromRight(a + ":", f, b + ":", g, c => c != ':');
    assert a == (a + ":")[..|a|] && b == (b + ":")[..|b|];
  }
}
