/** Sequences without repetition. */
module Sequences {

  ghost predicate Differ<T>(s: seq<T>, i: int, j: int) {
    0 <= i < |s| && 0 <= j < |s| && s[i] != s[j]
  }

  /** No element occurs twice. Stated through `Differ`, so that the verifier
      does not compare all pairs of positions it knows; `OnlyAt` gives the
      pairs for one position. */
  ghost predicate Distinct<T>(s: seq<T>) {
    forall i, j {:trigger Differ(s, i, j)} | 0 <= i < j < |s| :: Differ(s, i, j)
  }

  lemma OnlyAt<T>(s: seq<T>, k: nat)
    requires Distinct(s) && k < |s|
    ensures forall i | 0 <= i < |s| && i != k :: s[i] != s[k]
  {
    forall i | 0 <= i < |s| && i != k ensures s[i] != s[k] {
      assert if i < k then Differ(s, i, k) else Differ(s, k, i);
    }
  }

  lemma DistinctExtend<T>(s: seq<T>, x: T)
    requires Distinct(s) && x !in s
    ensures Distinct([x] + s) && Distinct(s + [x])
  {
    forall i, j | 0 <= i < j < |s| + 1 ensures Differ([x] + s, i, j) && Differ(s + [x], i, j) {
      assert i > 0 ==> Differ(s, i - 1, j - 1);
      assert j < |s| ==> Differ(s, i, j);
    }
  }

  /** `s` without its element at position `k`. */
  function Without<T>(s: seq<T>, k: nat): (r: seq<T>)
    requires k < |s|
    ensures |r| == |s| - 1
    ensures forall i | 0 <= i < |r| :: r[i] == s[if i < k then i else i + 1]
  {
    s[..k] + s[k + 1..]
  }

  lemma WithoutDistinct<T>(s: seq<T>, k: nat)
    requires k < |s| && Distinct(s)
    ensures Distinct(Without(s, k))
    ensures s[k] !in Without(s, k)
    ensures forall x | x in s && x != s[k] :: x in Without(s, k)
    ensures forall x | x in Without(s, k) :: x in s
  {
    OnlyAt(s, k);
    forall i, j | 0 <= i < j < |s| - 1 ensures Differ(Without(s, k), i, j) {
      assert Differ(s, if i < k then i else i + 1, if j < k then j else j + 1);
    }
    forall x | x in s && x != s[k] ensures x in Without(s, k) {
      var i :| 0 <= i < |s| && s[i] == x;
      assert Without(s, k)[if i < k then i else i - 1] == x;
    }
  }

  lemma WithoutMultiset<T>(s: seq<T>, k: nat)
    requires k < |s|
    ensures multiset(Without(s, k)) == multiset(s) - multiset{s[k]}
  {
    assert s == s[..k] + [s[k]] + s[k + 1..];
  }

  function Repeat<T>(x: T, n: nat): (r: seq<T>)
    ensures |r| == n && forall i | 0 <= i < n :: r[i] == x
  {
    seq(n, _ => x)
  }

  ghost function ToSet<T>(s: seq<T>): set<T> {
    set x | x in s
  }

  lemma ToSetExtend<T>(s: seq<T>, x: T)
    ensures ToSet(s + [x]) == ToSet(s) + {x}
    ensures ToSet([x] + s) == ToSet(s) + {x}
  {
  }

  lemma ToSetWithout<T>(s: seq<T>, k: nat)
    requires k < |s| && Distinct(s)
    ensures ToSet(Without(s, k)) == ToSet(s) - {s[k]}
  {
    WithoutDistinct(s, k);
  }

  /** A sequence without repetition has as many elements as its set. */
  lemma {:induction false} ToSetSize<T>(s: seq<T>)
    ensures |ToSet(s)| <= |s|
    ensures Distinct(s) ==> |ToSet(s)| == |s|
    decreases |s|
  {
    if s != [] {
      ToSetSize(s[1..]);
      assert s == [s[0]] + s[1..];
      ToSetExtend(s[1..], s[0]);
      if Distinct(s) {
        OnlyAt(s, 0);
        forall i, j | 0 <= i < j < |s| - 1 ensures Differ(s[1..], i, j) {
          assert Differ(s, i + 1, j + 1);
        }
      }
    }
  }
}
