/** Facts about sequences that the models share. */
module SeqFacts {

  lemma ConcatNil<T>(s: seq<T>)
    ensures [] + s == s && s + [] == s
  {
  }

  lemma ConcatAssoc<T>(a: seq<T>, b: seq<T>, c: seq<T>)
    ensures (a + b) + c == a + (b + c)
  {
  }

  ghost predicate Distinct<T>(s: seq<T>) {
    forall a, b :: 0 <= a < b < |s| ==> s[a] != s[b]
  }

  lemma DistinctConcat<T>(s: seq<T>, t: seq<T>)
    requires Distinct(s) && Distinct(t)
    requires forall x :: x in s ==> x !in t
    ensures Distinct(s + t)
  {
    var u := s + t;
    forall a, b | 0 <= a < b < |u|
      ensures u[a] != u[b]
    {
      if a < |s| <= b {
        assert u[a] in s && u[b] in t;
      }
    }
  }

  lemma NotDistinct<T>(s: seq<T>, k: nat, l: nat)
    requires k < |s| && l < |s| && k != l && s[k] == s[l]
    ensures !Distinct(s)
  {
    assert k < l || l < k;
  }

  lemma HeadNotInTail<T>(s: seq<T>)
    requires s != [] && Distinct(s)
    ensures s[0] !in s[1..] && Distinct(s[1..])
  {
  }
}
