/** Small helper types shared by every module of the model. */
module Common {

  /** A value that may be absent: a nullable column, a lookup that can miss. */
  datatype Option<+T> = None | Some(value: T)

  /** `string.IsNullOrEmpty` of .NET, for a nullable string. */
  predicate IsNullOrEmpty(s: Option<string>)
  {
    s.None? || s.value == ""
  }

  /** `a` is obtained from `b` by dropping elements, keeping the order of the rest. */
  ghost predicate IsSubsequence<T>(a: seq<T>, b: seq<T>)
    decreases |b|
  {
    if a == [] then true
    else if b == [] then false
    else (a[0] == b[0] && IsSubsequence(a[1..], b[1..])) || IsSubsequence(a, b[1..])
  }

  lemma {:induction false} SubsequenceOfItself<T>(a: seq<T>)
    ensures IsSubsequence(a, a)
  {
    if a != [] {
      SubsequenceOfItself(a[1..]);
    }
  }

  /** The positions of `s` whose element satisfies `p`. */
  ghost function IndicesWhere<T>(s: seq<T>, p: T -> bool): set<int>
  {
    set i | 0 <= i < |s| && p(s[i])
  }

  /** Counting positions element by element: the head, then the positions of the tail. */
  lemma IndicesWhereCons<T>(s: seq<T>, p: T -> bool)
    requires s != []
    ensures |IndicesWhere(s, p)| == (if p(s[0]) then 1 else 0) + |IndicesWhere(s[1..], p)|
  {
    var tail := IndicesWhere(s[1..], p);
    var shifted := set i | i in tail :: i + 1;
    forall j ensures j in IndicesWhere(s, p) <==> j in (if p(s[0]) then {0} else {}) + shifted {
      if 0 < j < |s| {
        assert s[j] == s[1..][j - 1];
        ShiftedMember(tail, j);
      }
    }
    assert IndicesWhere(s, p) == (if p(s[0]) then {0} else {}) + shifted;
    ShiftedSize(tail);
  }

  lemma {:induction false} ShiftedSize(s: set<int>)
    ensures |set i | i in s :: i + 1| == |s|
    decreases |s|
  {
    if |s| > 0 {
      var x := PickOne(s);
      var rest := s - {x};
      ShiftedSize(rest);
      var all, others := set i | i in s :: i + 1, set i | i in rest :: i + 1;
      forall j ensures j in all <==> j in others + {x + 1} {
        ShiftedMember(s, j);
        ShiftedMember(rest, j);
      }
      assert all == others + {x + 1};
    }
  }

  lemma ShiftedMember(s: set<int>, j: int)
    ensures j in (set i | i in s :: i + 1) <==> j - 1 in s
  {
    if j - 1 in s {
      assert j == (j - 1) + 1;
    }
  }

  /** Some element of a non-empty set. */
  lemma PickOne(s: set<int>) returns (x: int)
    requires |s| > 0
    ensures x in s
  {
    if forall y :: y !in s {
      assert false;
    }
    var y :| y in s;
    x := y;
  }
}
