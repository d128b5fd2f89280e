/** The drop-oldest policy of the log queue, stated on values. */
module LogBuffer {

  /** The last min(n, |s|) elements of s, in their original order. */
  function LastN<T>(s: seq<T>, n: nat): seq<T> {
    if |s| <= n then s else s[|s| - n..]
  }

  /** What a queue of capacity `cap` holds after the entries `es` were appended
      one at a time, each append followed by the eviction of the oldest entry
      when the count exceeds `cap`. */
  function Replay<T>(es: seq<T>, cap: nat): (q: seq<T>)
    ensures |q| <= cap
  {
    if es == [] then []
    else
      var q := Replay(es[..|es| - 1], cap) + [es[|es| - 1]];
      if |q| > cap then q[1..] else q
  }

  /** LastN keeps the capacity bound, the newest entry, and order. */
  lemma LastNShape<T>(s: seq<T>, n: nat)
    ensures |LastN(s, n)| == if |s| <= n then |s| else n
    ensures forall k :: 0 <= k < |LastN(s, n)| ==> LastN(s, n)[k] == s[|s| - |LastN(s, n)| + k]
    ensures s != [] && n > 0 ==> LastN(s, n)[|LastN(s, n)| - 1] == s[|s| - 1]
  {
  }

  /** One append with eviction, from a queue within capacity, is LastN. */
  lemma AppendEvictIsLastN<T>(q: seq<T>, e: T, cap: nat)
    requires |q| <= cap
    ensures LastN(q + [e], cap) == if |q + [e]| > cap then (q + [e])[1..] else q + [e]
  {
  }

  /** Trimming early does not change what trimming at the end keeps. */
  lemma {:induction false} LastNAbsorbs<T>(s: seq<T>, t: seq<T>, n: nat)
    ensures LastN(LastN(s, n) + t, n) == LastN(s + t, n)
  {
    if |s| <= n {
      assert LastN(s, n) == s;
    } else {
      var m := |s| - n;
      var u := s[m..] + t;
      assert LastN(s, n) + t == u;
      if t == [] {
        assert s + t == s && u == s[m..] && |u| == n;
      } else {
        assert |u| - n == |t| && LastN(u, n) == u[|t|..];
        assert s + t == s[..m] + u && |s[..m]| == m;
        assert LastN(s + t, n) == (s + t)[m + |t|..];
        assert (s[..m] + u)[m + |t|..] == u[|t|..];
      }
    }
  }

  /** After any sequence of appends into an empty queue, the queue holds
      exactly the last min(|es|, cap) entries, in insertion order. */
  lemma {:induction false} ReplayKeepsLast<T>(es: seq<T>, cap: nat)
    ensures Replay(es, cap) == LastN(es, cap)
  {
    if es != [] {
      var init, e := es[..|es| - 1], es[|es| - 1];
      ReplayKeepsLast(init, cap);
      AppendEvictIsLastN(Replay(init, cap), e, cap);
      LastNAbsorbs(init, [e], cap);
      assert init + [e] == es;
    }
  }
}
