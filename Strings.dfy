/** Facts about joining strings, stated over arbitrary pieces so that the
    proofs that use them need not unfold what the pieces are. */
module StringFacts {

  lemma Concat3(x: string, y: string, z: string)
    ensures x + (y + z) == x + y + z
  {
  }

  /** Appending five pieces at once or one at a time gives the same text. */
  lemma AppendIsAssociative(t: string, a: string, b: string, c: string, d: string, e: string)
    ensures t + (a + b + c + d + e) == t + a + b + c + d + e
  {
  }

  /** Where the first, the last and the middle two of five pieces sit. */
  lemma FivePieces(a: string, b: string, c: string, d: string, e: string)
    ensures var x := a + b + c + d + e;
      && a <= x
      && x[|x| - |e|..] == e
      && x[|a| + |b|..|a| + |b| + |c| + |d|] == c + d
  {
    var x := a + b + c + d + e;
    assert x == (a + b) + (c + d) + e;
  }

  /** The text after the opening bracket of `[h:m:s] `, grouped so that each
      separator comes right after the field before it. */
  lemma StampShape(h: string, m: string, s: string)
    ensures ("[" + h + ":" + m + ":" + s + "] ")[1..] == h + [':'] + (m + [':'] + (s + [']'] + [' ']))
  {
  }
}
