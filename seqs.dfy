/** The three LINQ operators the controllers use (`Where`, `FirstOrDefault`, `Select`), over sequences. */
module Seqs {
  import opened Wrappers

  /** `Where`: the elements satisfying `p`, in their stored order. */
  function Filter<T(!new)>(s: seq<T>, p: T -> bool): (r: seq<T>)
    ensures |r| <= |s|
    ensures forall i :: 0 <= i < |r| ==> p(r[i])
    ensures forall x :: x in r <==> x in s && p(x)
    ensures forall x :: multiset(r)[x] == if p(x) then multiset(s)[x] else 0
    decreases |s|
  {
    if |s| == 0 then []
    else
      var tail := Filter(s[1..], p);
      assert s == [s[0]] + s[1..];
      if p(s[0]) then [s[0]] + tail else tail
  }

  /** `FirstOrDefault(p)`: the first element satisfying `p`, or None. */
  function FindFirst<T(!new)>(s: seq<T>, p: T -> bool): (r: Option<T>)
    ensures r.None? <==> forall x :: x in s ==> !p(x)
    ensures r.Some? ==> exists i :: 0 <= i < |s| && s[i] == r.value && p(s[i]) &&
                                    forall j :: 0 <= j < i ==> !p(s[j])
    decreases |s|
  {
    if |s| == 0 then None
    else if p(s[0]) then Some(s[0])
    else
      var r := FindFirst(s[1..], p);
      assert r.Some? ==> exists i :: 0 <= i < |s| - 1 && s[1..][i] == r.value && p(s[1..][i]) &&
                                     forall j :: 0 <= j < i ==> !p(s[1..][j]);
      assert r.Some? ==> exists i :: 0 <= i < |s| && s[i] == r.value && p(s[i]) &&
                                     forall j :: 0 <= j < i ==> !p(s[j]) by {
        if r.Some? {
          var i :| 0 <= i < |s| - 1 && s[1..][i] == r.value && p(s[1..][i]) &&
                   forall j :: 0 <= j < i ==> !p(s[1..][j]);
          assert s[i + 1] == r.value && p(s[i + 1]);
          assert forall j :: 0 <= j < i + 1 ==> !p(s[j]) by {
            forall j | 0 <= j < i + 1 ensures !p(s[j]) {
              if j > 0 { assert s[j] == s[1..][j - 1]; }
            }
          }
        }
      }
      r
  }

  /** `Select(f)`: `f` applied to every element, in order. */
  function MapSeq<T, U>(f: T -> U, s: seq<T>): (r: seq<U>)
    ensures |r| == |s|
    ensures forall i :: 0 <= i < |s| ==> r[i] == f(s[i])
    decreases |s|
  {
    if |s| == 0 then [] else [f(s[0])] + MapSeq(f, s[1..])
  }

  lemma MultisetRemoveAt<T>(b: seq<T>, i: nat)
    requires i < |b|
    ensures multiset(b) == multiset(b[..i] + b[i + 1..]) + multiset{b[i]}
  {
    assert b[i..] == [b[i]] + b[i + 1..];
    assert b == b[..i] + b[i..];
  }

  lemma MapSeqRemoveAt<T, U>(f: T -> U, b: seq<T>, i: nat)
    requires i < |b|
    ensures multiset(MapSeq(f, b)) == multiset(MapSeq(f, b[..i] + b[i + 1..])) + multiset{f(b[i])}
  {
    var m, rest := MapSeq(f, b), b[..i] + b[i + 1..];
    MultisetRemoveAt(m, i);
    forall k | 0 <= k < |rest|
      ensures MapSeq(f, rest)[k] == (m[..i] + m[i + 1..])[k]
    {
      if k < i { assert rest[k] == b[k]; } else { assert rest[k] == b[k + 1]; }
    }
    assert MapSeq(f, rest) == m[..i] + m[i + 1..];
  }

  lemma PermutationTail<T>(a: seq<T>, b: seq<T>, i: nat)
    requires multiset(a) == multiset(b) && 0 < |a| && i < |b| && b[i] == a[0]
    ensures multiset(a[1..]) == multiset(b[..i] + b[i + 1..])
  {
    assert a == [a[0]] + a[1..];
    MultisetRemoveAt(b, i);
    var A, B := multiset(a[1..]), multiset(b[..i] + b[i + 1..]);
    assert A + multiset{a[0]} == B + multiset{a[0]};
    forall y ensures A[y] == B[y] {
      assert (A + multiset{a[0]})[y] == A[y] + multiset{a[0]}[y];
      assert (B + multiset{a[0]})[y] == B[y] + multiset{a[0]}[y];
    }
  }

  /** Projecting two permutations of one collection gives two permutations of one collection. */
  lemma {:induction false} MapSeqPermutation<T, U>(f: T -> U, a: seq<T>, b: seq<T>)
    requires multiset(a) == multiset(b)
    ensures multiset(MapSeq(f, a)) == multiset(MapSeq(f, b))
    decreases |a|
  {
    if |a| == 0 {
      assert |b| == |multiset(b)| == 0;
    } else {
      assert a[0] in multiset(b);
      var i :| 0 <= i < |b| && b[i] == a[0];
      var a', b' := a[1..], b[..i] + b[i + 1..];
      PermutationTail(a, b, i);
      MapSeqPermutation(f, a', b');
      assert MapSeq(f, a) == [f(a[0])] + MapSeq(f, a');
      MapSeqRemoveAt(f, b, i);
      assert multiset(MapSeq(f, b)) == multiset(MapSeq(f, b')) + multiset{f(a[0])};
    }
  }
}
