/**
 * Flattening a sequence through a function, the shape of Go's nested
 * `for ... { acc = append(acc, ...) }` loops. The definition peels the
 * LAST element, so that a loop that has appended the images of `s[..i]`
 * extends its invariant by one unfolding.
 */
module Seqs {

  function ConcatMap<T, U>(s: seq<T>, f: T -> seq<U>): seq<U>
  {
    if s == [] then [] else ConcatMap(s[..|s| - 1], f) + f(s[|s| - 1])
  }

  /** One more element appended to the input appends its image. */
  lemma ConcatMapSnoc<T, U>(s: seq<T>, x: T, f: T -> seq<U>)
    ensures ConcatMap(s + [x], f) == ConcatMap(s, f) + f(x)
  {
    assert (s + [x])[..|s + [x]| - 1] == s;
  }

  /** The loop form: the prefix `s[..i + 1]` adds the image of `s[i]`. */
  lemma ConcatMapPrefix<T, U>(s: seq<T>, i: nat, f: T -> seq<U>)
    requires i < |s|
    ensures ConcatMap(s[..i + 1], f) == ConcatMap(s[..i], f) + f(s[i])
  {
    assert s[..i + 1] == s[..i] + [s[i]];
    ConcatMapSnoc(s[..i], s[i], f);
  }

  /** An element of the flattening comes from some element of the input, and conversely. */
  lemma {:induction false} ConcatMapMember<T, U>(s: seq<T>, f: T -> seq<U>, y: U)
    ensures y in ConcatMap(s, f) <==> exists x :: x in s && y in f(x)
  {
    if s != [] {
      var init, last := s[..|s| - 1], s[|s| - 1];
      ConcatMapMember(init, f, y);
      assert s == init + [last];
      if y in ConcatMap(s, f) {
        if y !in f(last) {
          var x :| x in init && y in f(x);
          assert x in s;
        }
      } else {
        forall x | x in s ensures y !in f(x) {
          if x != last {
            assert x in init;
          }
        }
      }
    }
  }

  /** When every element yields `c` results, the flattening has `|s| * c`. */
  lemma {:induction false} ConcatMapUniformLength<T, U>(s: seq<T>, f: T -> seq<U>, c: nat)
    requires forall x :: x in s ==> |f(x)| == c
    ensures |ConcatMap(s, f)| == |s| * c
  {
    if s != [] {
      var init, last := s[..|s| - 1], s[|s| - 1];
      assert forall x :: x in init ==> x in s;
      ConcatMapUniformLength(init, f, c);
      assert |ConcatMap(s, f)| == |ConcatMap(init, f)| + |f(last)|;
      assert |f(last)| == c;
      MulSucc(|init|, c);
    }
  }

  lemma MulSucc(n: nat, c: nat)
    ensures (n + 1) * c == n * c + c
  {
  }

  /** Flattening distributes over concatenation of inputs. */
  lemma {:induction false} ConcatMapAppend<T, U>(a: seq<T>, b: seq<T>, f: T -> seq<U>)
    ensures ConcatMap(a + b, f) == ConcatMap(a, f) + ConcatMap(b, f)
  {
    if b == [] {
      assert a + b == a;
    } else {
      var init, last := b[..|b| - 1], b[|b| - 1];
      calc {
        ConcatMap(a + b, f);
        == { assert a + b == (a + init) + [last]; ConcatMapSnoc(a + init, last, f); }
        ConcatMap(a + init, f) + f(last);
        == { ConcatMapAppend(a, init, f); }
        (ConcatMap(a, f) + ConcatMap(init, f)) + f(last);
        == { AppendAssoc(ConcatMap(a, f), ConcatMap(init, f), f(last)); }
        ConcatMap(a, f) + (ConcatMap(init, f) + f(last));
        == { assert b == init + [last]; ConcatMapSnoc(init, last, f); }
        ConcatMap(a, f) + ConcatMap(b, f);
      }
    }
  }

  lemma AppendAssoc<U>(x: seq<U>, y: seq<U>, z: seq<U>)
    ensures (x + y) + z == x + (y + z)
  {
  }

  /** `f` applied to every element, in order. */
  function MapSeq<T, U>(f: T -> U, s: seq<T>): (r: seq<U>)
    ensures |r| == |s| && forall i :: 0 <= i < |s| ==> r[i] == f(s[i])
  {
    seq(|s|, i requires 0 <= i < |s| => f(s[i]))
  }

  lemma MapSeqPrefix<T, U>(f: T -> U, s: seq<T>, i: nat)
    requires i < |s|
    ensures MapSeq(f, s[..i + 1]) == MapSeq(f, s[..i]) + [f(s[i])]
  {
  }

  lemma MapSeqAppend<T, U>(f: T -> U, a: seq<T>, b: seq<T>)
    ensures MapSeq(f, a + b) == MapSeq(f, a) + MapSeq(f, b)
  {
  }

  /** Mapping after flattening is flattening the mapped pieces. */
  lemma {:induction false} ConcatMapMapSeq<T, V, U>(s: seq<T>, h: T -> seq<V>, g: V -> U, f: T -> seq<U>)
    requires forall x :: f(x) == MapSeq(g, h(x))
    ensures ConcatMap(s, f) == MapSeq(g, ConcatMap(s, h))
  {
    if s != [] {
      var init, last := s[..|s| - 1], s[|s| - 1];
      ConcatMapMapSeq(init, h, g, f);
      MapSeqAppend(g, ConcatMap(init, h), h(last));
    }
  }
}
