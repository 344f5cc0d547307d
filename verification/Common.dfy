/** Types and facts that several modules share. */
module Common {
  datatype Option<T> = None | Some(value: T)

  /** The arguments or the reply of a call, as the codec carries them. */
  type Payload = string

  lemma Cancel<T>(a: multiset<T>, b: multiset<T>, x: T)
    requires a + multiset{x} == b + multiset{x}
    ensures a == b
  {
    assert a == (a + multiset{x}) - multiset{x};
  }

  lemma WithoutOne<T>(s: seq<T>, i: nat)
    requires i < |s|
    ensures multiset(s) == multiset(s[..i] + s[i + 1..]) + multiset{s[i]}
  {
    assert s == s[..i] + [s[i]] + s[i + 1..];
  }

  /** Two lists with the same elements: the first of one stands somewhere in the other, and without it they
      still have the same elements. */
  lemma RemoveBoth<T>(a: seq<T>, b: seq<T>) returns (i: nat)
    requires multiset(a) == multiset(b) && a != []
    ensures i < |b| && b[i] == a[0] && multiset(a[1..]) == multiset(b[..i] + b[i + 1..])
  {
    assert a[0] in multiset(b);
    i :| 0 <= i < |b| && b[i] == a[0];
    WithoutOne(b, i);
    assert a == [a[0]] + a[1..];
    Cancel(multiset(a[1..]), multiset(b[..i] + b[i + 1..]), a[0]);
  }

  function Map<A, B>(f: A -> B, s: seq<A>): (r: seq<B>)
    ensures |r| == |s| && forall k :: 0 <= k < |s| ==> r[k] == f(s[k])
  {
    seq(|s|, k requires 0 <= k < |s| => f(s[k]))
  }

  lemma MapFirst<A, B>(f: A -> B, s: seq<A>)
    requires s != []
    ensures multiset(Map(f, s)) == multiset(Map(f, s[1..])) + multiset{f(s[0])}
  {
    assert Map(f, s) == [f(s[0])] + Map(f, s[1..]);
  }

  /** Takes the first of `a` out of `b`. */
  lemma MapTake<A, B>(f: A -> B, a: seq<A>, b: seq<A>) returns (rest: seq<A>)
    requires multiset(a) == multiset(b) && a != []
    ensures multiset(a[1..]) == multiset(rest)
    ensures multiset(Map(f, b)) == multiset(Map(f, rest)) + multiset{f(a[0])}
  {
    var i := RemoveBoth(a, b);
    rest := b[..i] + b[i + 1..];
    var r := Map(f, b);
    assert Map(f, rest) == r[..i] + r[i + 1..];
    WithoutOne(r, i);
  }

  /** The same elements in another order have the same images. */
  lemma {:induction false} MapPermute<A, B>(f: A -> B, a: seq<A>, b: seq<A>)
    requires multiset(a) == multiset(b)
    ensures multiset(Map(f, a)) == multiset(Map(f, b))
  {
    if a == [] {
      assert |b| == |multiset(b)| == 0;
    } else {
      var rest := MapTake(f, a, b);
      MapPermute(f, a[1..], rest);
      MapFirst(f, a);
    }
  }

  function Copies<T>(x: T, n: nat): multiset<T> {
    multiset{}[x := n]
  }

  /** `out` holds the elements `taken` and `n` copies of `x`, in some order. */
  ghost predicate Collected<T>(out: seq<T>, taken: seq<T>, x: T, n: nat) {
    multiset(out) == multiset(taken) + Copies(x, n)
  }

  lemma CollectNone<T>(x: T)
    ensures Collected([], [], x, 0)
  {
  }

  lemma CollectNext<T>(out: seq<T>, taken: seq<T>, x: T, n: nat, next: T)
    requires Collected(out, taken, x, n)
    ensures Collected(out + [next], taken + [next], x, n)
  {
    hide Copies;
  }

  lemma CollectCopy<T>(out: seq<T>, taken: seq<T>, x: T, n: nat)
    requires Collected(out, taken, x, n)
    ensures Collected(out + [x], taken, x, n + 1)
  {
    assert Copies(x, n + 1) == Copies(x, n) + multiset{x};
  }
}
