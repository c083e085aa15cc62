/** Small facts about sequences, kept apart so that proofs can name them. */
module Seqs {
  lemma SplitLast<T>(s: seq<T>)
    requires s != []
    ensures s[..|s| - 1] + [s[|s| - 1]] == s
  {
  }

  lemma SplitFirst<T>(s: seq<T>)
    requires s != []
    ensures [s[0]] + s[1..] == s
  {
  }

  lemma AppendHead<T>(a: seq<T>, b: seq<T>)
    requires a != []
    ensures (a + b)[0] == a[0]
    ensures (a + b)[1..] == a[1..] + b
  {
  }

  lemma ConsParts<T>(x: T, s: seq<T>)
    ensures ([x] + s)[0] == x
    ensures ([x] + s)[1..] == s
  {
  }

  lemma SnocParts<T>(s: seq<T>, x: T)
    ensures (s + [x])[..|s|] == s
    ensures (s + [x])[|s|] == x
  {
  }

  lemma ConcatAssociates<T>(a: seq<T>, b: seq<T>, c: seq<T>)
    ensures (a + b) + c == a + (b + c)
  {
  }

  lemma ConcatEmpty<T>(s: seq<T>)
    ensures s + [] == s
    ensures [] + s == s
  {
  }

  lemma PrefixInside<T>(a: seq<T>, b: seq<T>, c: seq<T>, i: nat)
    requires i <= |b|
    ensures (a + (b + c))[..|a| + i] == a + b[..i]
  {
  }

  lemma SplitAt<T>(s: seq<T>, i: nat)
    requires i <= |s|
    ensures s[..i] + s[i..] == s
  {
  }

  lemma MiddlePart<T>(a: seq<T>, b: seq<T>, c: seq<T>)
    ensures |a| + |b| <= |(a + b) + c|
    ensures ((a + b) + c)[|a|..|a| + |b|] == b
  {
  }

  // ---- Concatenated images ----

  function FlatMap<A, B>(f: A -> seq<B>, s: seq<A>): seq<B> {
    if s == [] then [] else FlatMap(f, s[..|s| - 1]) + f(s[|s| - 1])
  }

  lemma FlatMapSnoc<A, B>(f: A -> seq<B>, s: seq<A>, i: nat)
    requires i < |s|
    ensures FlatMap(f, s[..i + 1]) == FlatMap(f, s[..i]) + f(s[i])
  {
    assert s[..i + 1][..i] == s[..i];
  }

  lemma {:induction false} FlatMapConcat<A, B>(f: A -> seq<B>, a: seq<A>, b: seq<A>)
    ensures FlatMap(f, a + b) == FlatMap(f, a) + FlatMap(f, b)
    decreases |b|
  {
    if b == [] {
      ConcatEmpty(a);
      ConcatEmpty(FlatMap(f, a));
    } else {
      var front, last := b[..|b| - 1], b[|b| - 1];
      SplitLast(b);
      ConcatAssociates(a, front, [last]);
      SnocParts(a + front, last);
      FlatMapConcat(f, a, front);
      ConcatAssociates(FlatMap(f, a), FlatMap(f, front), f(last));
    }
  }

  lemma FlatMapOne<A, B>(f: A -> seq<B>, a: A)
    ensures FlatMap(f, [a]) == f(a)
  {
  }

  lemma {:induction false} FlatMapContains<A(!new), B>(f: A -> seq<B>, s: seq<A>, x: B)
    ensures x in FlatMap(f, s) <==> exists a :: a in s && x in f(a)
    decreases |s|
  {
    if s != [] {
      var front, last := s[..|s| - 1], s[|s| - 1];
      SplitLast(s);
      FlatMapContains(f, front, x);
      if x in FlatMap(f, s) {
        if x in f(last) {
          assert last in s;
        } else {
          var a :| a in front && x in f(a);
          assert a in s;
        }
      }
    }
  }
}
