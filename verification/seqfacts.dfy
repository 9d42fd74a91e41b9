/** Small facts about sequence concatenation and slicing, stated once so that
    larger proofs can cite them instead of rediscovering them. */
module SeqFacts {

  lemma AppendAssoc<T>(a: seq<T>, b: seq<T>, c: seq<T>)
    ensures a + b + c == a + (b + c)
  {
  }

  lemma SplitJoin<T>(s: seq<T>, n: nat)
    requires n <= |s|
    ensures s[..n] + s[n..] == s
  {
  }

  lemma ConsTail<T>(S: seq<T>, P: seq<T>)
    requires |P| > 0
    ensures S + [P[0]] + P[1..] == S + P
  {
    assert [P[0]] + P[1..] == P;
    AppendAssoc(S, [P[0]], P[1..]);
  }

  lemma DropDrop<T>(R: seq<T>, n: nat)
    requires 1 <= n <= |R|
    ensures R[1..][n - 1..] == R[n..]
  {
  }

  lemma ReplaceHead<T>(S: seq<T>, P: seq<T>, r: T)
    requires |P| > 0
    ensures (S + P)[|S| := r] == S + [r] + P[1..]
  {
  }
}
