/** Sequences without repetitions, and concatenation. */
module Sequences {
  predicate Distinct<T(==)>(s: seq<T>) {
    s == [] || (s[0] !in s[1..] && Distinct(s[1..]))
  }

  lemma {:induction false} DistinctPairs<T>(s: seq<T>)
    ensures Distinct(s) <==> forall i, j :: 0 <= i < j < |s| ==> s[i] != s[j]
  {
    if s != [] {
      DistinctPairs(s[1..]);
      if s[0] in s[1..] {
        var j :| 0 <= j < |s[1..]| && s[1..][j] == s[0];
        assert s[0] == s[j + 1];
      } else if Distinct(s[1..]) {
        forall i, j | 0 <= i < j < |s| ensures s[i] != s[j] {
          assert s[1..][j - 1] == s[j] && (i > 0 ==> s[1..][i - 1] == s[i]);
        }
      } else {
        var i, j :| 0 <= i < j < |s[1..]| && s[1..][i] == s[1..][j];
        assert s[i + 1] == s[j + 1];
      }
    }
  }

  lemma ConsDistinct<T>(k: T, s: seq<T>)
    requires Distinct(s) && k !in s
    ensures Distinct([k] + s)
  {
    assert ([k] + s)[1..] == s;
  }

  lemma DistinctSnoc<T>(s: seq<T>, k: T)
    requires Distinct(s) && k !in s
    ensures Distinct(s + [k])
  {
    DistinctPairs(s);
    DistinctPairs(s + [k]);
    assert forall i :: 0 <= i < |s| ==> s[i] in s;
  }

  lemma DistinctInit<T>(s: seq<T>)
    requires s != [] && Distinct(s)
    ensures Distinct(s[..|s| - 1]) && s[|s| - 1] !in s[..|s| - 1]
  {
    DistinctPairs(s);
    DistinctPairs(s[..|s| - 1]);
  }

  lemma RemoveDistinct<T>(s: seq<T>, k: nat)
    requires Distinct(s) && k < |s|
    ensures Distinct(s[..k] + s[k + 1..])
  {
    DistinctPairs(s);
    DistinctPairs(s[..k] + s[k + 1..]);
  }

  /** Overwriting an element by the last one and dropping the last. */
  lemma SwapOutDistinct<T>(s: seq<T>, k: nat)
    requires Distinct(s) && k < |s|
    ensures Distinct(s[k := s[|s| - 1]][..|s| - 1])
  {
    DistinctPairs(s);
    DistinctPairs(s[k := s[|s| - 1]][..|s| - 1]);
  }

  lemma Associate<T>(a: seq<T>, b: seq<T>, c: seq<T>)
    ensures (a + b) + c == a + (b + c)
  {
  }
}
