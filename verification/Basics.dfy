/** What several modules share: optional values, and sequences in which nothing occurs twice. */
module Basics {
  datatype Option<+T> = None | Some(value: T)

  ghost predicate NoDup<T>(w: seq<T>) {
    forall i, j :: 0 <= i < j < |w| ==> w[i] != w[j]
  }

  /** Rearranging a sequence without duplicates gives one with the same elements and none twice. */
  lemma SameItems<T>(a: seq<T>, b: seq<T>)
    requires multiset(a) == multiset(b)
    ensures |a| == |b| && (forall t :: t in a <==> t in b) && (NoDup(a) ==> NoDup(b))
  {
    assert |multiset(a)| == |multiset(b)|;
    forall t ensures t in a <==> t in b {
      assert t in multiset(a) <==> t in multiset(b);
    }
    if NoDup(a) {
      forall i, j | 0 <= i < j < |b| ensures b[i] != b[j] {
        if b[i] == b[j] {
          CountedOnce(a, b[i]);
          TwiceCounted(b, i, j);
        }
      }
    }
  }

  lemma {:induction false} CountedOnce<T>(a: seq<T>, t: T)
    requires NoDup(a)
    ensures multiset(a)[t] <= 1
  {
    if a != [] {
      var h, r := a[0], a[1..];
      assert forall i, j :: 0 <= i < j < |r| ==> r[i] != r[j];
      CountedOnce(r, t);
      assert a == [h] + r;
      assert h !in r;
      assert multiset(a)[t] == (if t == h then 1 else 0) + multiset(r)[t];
      assert t == h ==> multiset(r)[t] == 0;
    }
  }

  lemma TwiceCounted<T>(b: seq<T>, i: nat, j: nat)
    requires i < j < |b| && b[i] == b[j]
    ensures multiset(b)[b[i]] >= 2
  {
    assert b == b[..j] + b[j..];
    assert b[i] in b[..j] && b[i] in b[j..] by { assert b[..j][i] == b[i] && b[j..][0] == b[i]; }
  }

  lemma TailNoDup<T>(w: seq<T>)
    requires NoDup(w) && |w| > 0
    ensures NoDup(w[1..]) && w[0] !in w[1..] && forall t :: t in w[1..] <==> t in w && t != w[0]
  {
    forall i, j | 0 <= i < j < |w[1..]| ensures w[1..][i] != w[1..][j] {
      assert w[1..][i] == w[i + 1] && w[1..][j] == w[j + 1];
    }
    assert w == [w[0]] + w[1..];
  }

  lemma TailItems<T>(w: seq<T>)
    requires w != []
    ensures multiset(w[1..]) == multiset(w) - multiset{w[0]}
  {
    assert w == [w[0]] + w[1..];
  }

  lemma JoinNoDup<T>(w: seq<T>, r: seq<T>, t: T)
    requires NoDup(w) && t !in w && multiset(r) == multiset(w) + multiset{t}
    ensures NoDup(r) && |r| == |w| + 1 && forall x :: x in r <==> x in w || x == t
  {
    assert multiset(w + [t]) == multiset(r);
    SameItems(w + [t], r);
  }

  lemma JoinApart<T>(v: seq<T>, w: seq<T>)
    requires NoDup(v) && NoDup(w) && forall x :: x in v ==> x !in w
    ensures NoDup(v + w) && forall x :: x in v + w <==> x in v || x in w
  {
    var r := v + w;
    forall i, j | 0 <= i < j < |r| ensures r[i] != r[j] {
      assert i < |v| <= j ==> r[i] in v && r[j] in w;
    }
  }
}
