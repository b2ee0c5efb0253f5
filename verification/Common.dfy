/** Shared vocabulary: optional values, duplicate-free sequences, families of lists, and sums. */
module Common {

  datatype Option<+T> = None | Some(value: T)

  /** No element occurs twice. */
  ghost predicate Distinct<T>(s: seq<T>) {
    forall i, j :: 0 <= i < j < |s| ==> s[i] != s[j]
  }

  /** Removing the k-th element. */
  function Without<X>(s: seq<X>, k: nat): seq<X>
    requires k < |s|
  {
    s[..k] + s[k + 1..]
  }

  /** Membership and distinctness after appending a new element, and after dropping the first. */
  lemma DistinctSnoc<T>(s: seq<T>, x: T)
    requires Distinct(s) && x !in s
    ensures Distinct(s + [x]) && forall y :: y in s + [x] <==> y in s || y == x
  {}

  lemma DistinctTail<T>(s: seq<T>)
    requires Distinct(s) && s != []
    ensures Distinct(s[1..]) && s[0] !in s[1..] && forall y :: y in s <==> y == s[0] || y in s[1..]
  {
    assert s == [s[0]] + s[1..];
  }

  function Somes<T>(s: seq<T>): seq<Option<T>> {
    seq(|s|, i requires 0 <= i < |s| => Some(s[i]))
  }

  lemma {:induction false} AppendAssociates<T>(a: seq<T>, b: seq<T>, c: seq<T>)
    ensures a + b + c == a + (b + c)
  {}

  // ---- lists that share their elements

  /** The sequence without `t`. */
  function Remove<T(==)>(s: seq<T>, t: T): (r: seq<T>)
    ensures t !in r
  {
    if s == [] then []
    else if s[0] == t then Remove(s[1..], t)
    else [s[0]] + Remove(s[1..], t)
  }

  /** The lists without `t`: list_delete of a link, on whichever list it is. */
  function Unlisted<T(==)>(lists: seq<seq<T>>, t: T): (r: seq<seq<T>>)
    ensures |r| == |lists| && forall w :: 0 <= w < |r| ==> r[w] == Remove(lists[w], t)
  {
    if lists == [] then [] else [Remove(lists[0], t)] + Unlisted(lists[1..], t)
  }

  ghost predicate Apart<T>(a: seq<T>, b: seq<T>) {
    forall i, j :: 0 <= i < |a| && 0 <= j < |b| ==> a[i] != b[j]
  }

  lemma {:induction false} RemoveMember<T>(s: seq<T>, t: T, x: T)
    ensures x in Remove(s, t) <==> x in s && x != t
    decreases |s|
  {
    if s != [] {
      RemoveMember(s[1..], t, x);
      assert s == [s[0]] + s[1..];
    }
  }

  lemma {:induction false} RemoveDistinct<T>(s: seq<T>, t: T)
    requires Distinct(s)
    ensures Distinct(Remove(s, t)) && |Remove(s, t)| <= |s|
    decreases |s|
  {
    if s != [] {
      DistinctTail(s);
      RemoveDistinct(s[1..], t);
      RemoveMember(s[1..], t, s[0]);
    }
  }

  lemma {:induction false} RemoveAbsent<T>(s: seq<T>, t: T)
    requires t !in s
    ensures Remove(s, t) == s
    decreases |s|
  {
    if s != [] { RemoveAbsent(s[1..], t); }
  }

  lemma {:induction false} RemoveAt<T>(s: seq<T>, k: nat)
    requires Distinct(s) && k < |s|
    ensures Remove(s, s[k]) == s[..k] + s[k + 1..]
    decreases |s|
  {
    DistinctTail(s);
    if k == 0 {
      RemoveAbsent(s[1..], s[0]);
    } else {
      RemoveAt(s[1..], k - 1);
      assert s[1..][..k - 1] == s[1..k] && s[1..][k..] == s[k + 1..];
      assert s[..k] == [s[0]] + s[1..k];
    }
  }

  lemma RemoveApart<T>(a: seq<T>, b: seq<T>, t: T)
    requires Apart(a, b)
    ensures Apart(Remove(a, t), Remove(b, t))
    ensures Apart([t] + Remove(a, t), Remove(b, t)) && Apart(Remove(a, t), [t] + Remove(b, t))
  {
    var ra, rb := Remove(a, t), Remove(b, t);
    forall i, j | 0 <= i < |ra| && 0 <= j < |rb|
      ensures ra[i] != rb[j]
    {
      RemoveMember(a, t, ra[i]);
      RemoveMember(b, t, rb[j]);
    }
  }

  // ---- sums

  /** The sum of a weight over a sequence, e.g. over the program counters of all tasks. */
  function Sum<T>(w: T -> nat, s: seq<T>): nat {
    if s == [] then 0 else w(s[|s| - 1]) + Sum(w, s[..|s| - 1])
  }

  /** Changing one element changes the sum by the difference of its weights. */
  lemma {:induction false} SumUpdate<T>(w: T -> nat, s: seq<T>, i: nat, x: T)
    requires i < |s|
    ensures Sum(w, s[i := x]) == Sum(w, s) - w(s[i]) + w(x)
    decreases |s|
  {
    var k := |s| - 1;
    if i == k {
      assert s[i := x][..k] == s[..k];
    } else {
      assert s[i := x][..k] == s[..k][i := x];
      SumUpdate(w, s[..k], i, x);
    }
  }

  lemma {:induction false} SumBound<T>(w: T -> nat, s: seq<T>, max: nat)
    requires forall x :: x in s ==> w(x) <= max
    ensures Sum(w, s) <= max * |s|
    decreases |s|
  {
    if s != [] { SumBound(w, s[..|s| - 1], max); }
  }

  lemma {:induction false} SumZero<T>(w: T -> nat, s: seq<T>)
    requires forall x :: x in s ==> w(x) == 0
    ensures Sum(w, s) == 0
  {
    SumBound(w, s, 0);
  }

  /** A positive sum has a positive summand. */
  lemma {:induction false} SumPositive<T>(w: T -> nat, s: seq<T>) returns (i: nat)
    requires Sum(w, s) > 0
    ensures i < |s| && w(s[i]) > 0
    decreases |s|
  {
    if w(s[|s| - 1]) > 0 { i := |s| - 1; } else { i := SumPositive(w, s[..|s| - 1]); }
  }

  /** Distinct positions of positive weight are no more than the sum. */
  lemma {:induction false} SumCounts<T>(w: T -> nat, s: seq<T>, at: seq<nat>)
    requires Distinct(at) && forall i :: i in at ==> i < |s| && w(s[i]) > 0
    ensures |at| <= Sum(w, s)
    decreases |s|
  {
    if at != [] {
      assert at[0] in at;
      var k := |s| - 1;
      if k in at {
        var j :| 0 <= j < |at| && at[j] == k;
        var rest := at[..j] + at[j + 1..];
        assert forall i :: i in rest ==> i in at && i != k;
        SumCounts(w, s[..k], rest);
      } else {
        SumCounts(w, s[..k], at);
      }
    }
  }
}
