/** Facts about slices and concatenation that the solver does not reach for on its own. */
module Sequences {
  lemma Associative<T>(a: seq<T>, b: seq<T>, c: seq<T>)
    ensures (a + b) + c == a + (b + c)
  {
  }

  lemma Unit<T>(a: seq<T>)
    ensures a + [] == a && [] + a == a
  {
  }

  lemma Single<T>(x: T)
    ensures [x][1..] == [] && [x][..0] == []
  {
  }

  lemma Whole<T>(a: seq<T>)
    ensures a[0..] == a && a[..|a|] == a && a[..0] == [] && a[|a|..] == []
  {
  }

  lemma InEitherPart<T>(a: seq<T>, b: seq<T>, x: T)
    ensures x in a + b <==> x in a || x in b
  {
  }

  lemma Halves<T>(a: seq<T>, at: nat)
    requires at <= |a|
    ensures a[..at] + a[at..] == a
  {
  }

  lemma Cons<T>(x: T, rest: seq<T>)
    ensures ([x] + rest)[0] == x && ([x] + rest)[1..] == rest
  {
  }

  /** A concatenation starts as its first part does. */
  lemma HeadOf<T>(a: seq<T>, b: seq<T>)
    requires a != []
    ensures (a + b)[0] == a[0] && (a + b)[1..] == a[1..] + b && [a[0]] + a[1..] == a
  {
  }

  /** A concatenation ends as its second part does. */
  lemma EndOf<T>(a: seq<T>, b: seq<T>)
    requires b != []
    ensures (a + b)[|a + b| - 1] == b[|b| - 1] && (a + b)[..|a + b| - 1] == a + b[..|b| - 1]
  {
  }

  /** Appending one element. */
  lemma LastOf<T>(a: seq<T>, x: T)
    ensures (a + [x])[..|a|] == a && (a + [x])[|a|] == x
  {
  }

  lemma FirstRest<T>(a: seq<T>)
    requires a != []
    ensures a == [a[0]] + a[1..]
  {
  }

  lemma InitLast<T>(a: seq<T>)
    requires a != []
    ensures a == a[..|a| - 1] + [a[|a| - 1]]
  {
  }

  /** One more element taken. */
  lemma TakeNext<T>(a: seq<T>, i: nat)
    requires i < |a|
    ensures a[..i + 1] == a[..i] + [a[i]] && a[..i + 1][..i] == a[..i]
  {
  }

  /** One more element dropped. */
  lemma DropNext<T>(a: seq<T>, i: nat)
    requires i < |a|
    ensures a[i..][0] == a[i] && a[i..][1..] == a[i + 1..]
  {
  }

  lemma SplitAt<T>(xs: seq<T>, at: nat, head: seq<T>, rest: seq<T>)
    requires at <= |xs| && xs[at..] == head + rest
    ensures at + |head| <= |xs| && xs[at..at + |head|] == head && xs[at + |head|..] == rest
  {
    assert xs[at..at + |head|] == xs[at..][..|head|];
    assert xs[at + |head|..] == xs[at..][|head|..];
  }

  lemma TakeCons<T>(x: T, rest: seq<T>, m: nat)
    requires 0 < m <= |rest| + 1
    ensures ([x] + rest)[..m] == [x] + rest[..m - 1]
  {
  }

  /** The next of a stretch of `xs` that another sequence starts with. */
  lemma NextOfStart<T>(xs: seq<T>, k: nat, end: nat, head: T, rest: seq<T>)
    requires k < end <= |xs| && xs[k..end] <= [head] + rest
    ensures xs[k] == head && xs[k + 1..end] <= rest
  {
    assert xs[k] == xs[k..end][0] == head;
    var more := xs[k + 1..end];
    assert more == xs[k..end][1..];
    assert more == rest[..|more|];
  }

  /** The middle one of three parts, and what comes after it. */
  lemma Middle<T>(a: seq<T>, b: seq<T>, c: seq<T>)
    ensures (a + (b + c))[|a|..|a| + |b|] == b && (a + (b + c))[|a| + |b|..] == c
  {
  }
}
