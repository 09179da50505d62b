/**
 * Bytes fed into a linear, reversible register, as the CRC-32 division does. Everything a CRC
 * detects follows from the laws below; Crc32 shows that its bit-vector register obeys them.
 */
module Burst {
  import opened Bytes

  ghost predicate Group<R(!new)>(xor: (R, R) -> R, zero: R) {
    && (forall x, y :: xor(x, y) == xor(y, x))
    && (forall x, y, z :: xor(xor(x, y), z) == xor(x, xor(y, z)))
    && (forall x :: xor(x, x) == zero && xor(x, zero) == x)
  }

  ghost predicate Linear<R(!new)>(xor: (R, R) -> R, f: R -> R) {
    forall x, y :: f(xor(x, y)) == xor(f(x), f(y))
  }

  ghost predicate Inverse<R(!new)>(f: R -> R, g: R -> R) {
    forall x :: g(f(x)) == x
  }

  ghost predicate Injective<R(!new)>(f: R -> R) {
    forall x, y :: f(x) == f(y) ==> x == y
  }

  /** Shifting up by a byte makes room for one more byte, and a step takes it back. */
  ghost predicate Shifts<R(!new)>(xor: (R, R) -> R, step: R -> R, up: R -> R, of: byte -> R, fits: (R, nat) -> bool) {
    && (forall b, w, n: nat :: n <= 3 && fits(w, n) ==> fits(xor(of(b), up(w)), n + 1))
    && (forall w, n: nat :: n <= 3 && fits(w, n) ==> step(up(w)) == w)
  }

  /** The lowest byte can be read off. */
  ghost predicate LowByte<R(!new)>(xor: (R, R) -> R, up: R -> R, of: byte -> R) {
    forall a, b, v, w :: xor(of(a), up(v)) == xor(of(b), up(w)) ==> a == b
  }

  ghost predicate FitsSum<R(!new)>(xor: (R, R) -> R, fits: (R, nat) -> bool) {
    forall x, y, n: nat :: n <= 3 && fits(x, n) && fits(y, n) ==> fits(xor(x, y), n)
  }

  lemma DoubleLinear<R(!new)>(xor: (R, R) -> R, f: R -> R, g: R -> R)
    requires Linear(xor, f) && forall x :: g(x) == f(f(x))
    ensures Linear(xor, g)
  {}

  lemma TripleLinear<R(!new)>(xor: (R, R) -> R, f: R -> R, g: R -> R)
    requires Linear(xor, f) && forall x :: g(x) == f(f(f(x)))
    ensures Linear(xor, g)
  {}

  lemma SameLinear<R(!new)>(xor: (R, R) -> R, f: R -> R, g: R -> R)
    requires Linear(xor, f) && forall x :: g(x) == f(x)
    ensures Linear(xor, g)
  {}

  function Sum8<R>(xor: (R, R) -> R, a: R, b: R, c: R, d: R, e: R, f: R, g: R, h: R): R {
    xor(xor(xor(a, b), xor(c, d)), xor(xor(e, f), xor(g, h)))
  }

  lemma Linear8<R(!new)>(xor: (R, R) -> R, t: R -> R, a: R, b: R, c: R, d: R, e: R, f: R, g: R, h: R,
                         a': R, b': R, c': R, d': R, e': R, f': R, g': R, h': R)
    requires Linear(xor, t)
    requires t(a) == a' && t(b) == b' && t(c) == c' && t(d) == d' && t(e) == e' && t(f) == f' && t(g) == g' && t(h) == h'
    ensures t(Sum8(xor, a, b, c, d, e, f, g, h)) == Sum8(xor, a', b', c', d', e', f', g', h')
  {}

  lemma DoubleInverse<R(!new)>(f: R -> R, g: R -> R, f2: R -> R, g2: R -> R)
    requires Inverse(f, g) && (forall x :: f2(x) == f(f(x))) && forall x :: g2(x) == g(g(x))
    ensures Inverse(f2, g2)
  {}

  lemma Regroup<R(!new)>(xor: (R, R) -> R, zero: R, a: R, b: R, c: R, d: R)
    requires Group(xor, zero)
    ensures xor(xor(a, b), xor(c, d)) == xor(xor(a, c), xor(b, d))
  {
    assert xor(xor(a, b), xor(c, d)) == xor(a, xor(b, xor(c, d)));
    assert xor(b, xor(c, d)) == xor(xor(b, c), d) == xor(xor(c, b), d) == xor(c, xor(b, d));
    assert xor(a, xor(c, xor(b, d))) == xor(xor(a, c), xor(b, d));
  }

  /** The sum of two linear maps is linear. */
  lemma SumLinear<R(!new)>(xor: (R, R) -> R, zero: R, f: R -> R, g: R -> R, h: R -> R)
    requires Group(xor, zero) && Linear(xor, f) && Linear(xor, g)
    requires forall x :: h(x) == xor(f(x), g(x))
    ensures Linear(xor, h)
  {
    forall x, y ensures h(xor(x, y)) == xor(h(x), h(y)) {
      Regroup(xor, zero, f(x), f(y), g(x), g(y));
    }
  }

  /** `step` divides by one byte, `up` shifts left by one, `fits` bounds a value's length in bytes. */
  datatype Register<!R(!new)> =
    Register(zero: R, xor: (R, R) -> R, step: R -> R, up: R -> R, of: byte -> R, fits: (R, nat) -> bool)
  {
    ghost predicate Lawful() {
      && Group(xor, zero)
      && Linear(xor, step)
      && Injective(step)
      && Shifts(xor, step, up, of, fits)
      && LowByte(xor, up, of)
      && FitsSum(xor, fits)
      && fits(zero, 0)
    }

    function Feed(x: R, data: seq<byte>): R
      decreases |data|
    {
      if data == [] then x else Feed(step(xor(x, of(data[0]))), data[1..])
    }

    function Steps(x: R, n: nat): R {
      if n == 0 then x else Steps(step(x), n - 1)
    }

    /** Up to four bytes as one register value, the first byte lowest. */
    function Word(bs: seq<byte>): R
      decreases |bs|
    {
      if bs == [] then zero else xor(of(bs[0]), up(Word(bs[1..])))
    }

    lemma Cancel(x: R, y: R, z: R)
      requires Group(xor, zero) && xor(z, x) == xor(z, y)
      ensures x == y
    {
      assert xor(z, xor(z, x)) == xor(xor(z, z), x) == x;
      assert xor(z, xor(z, y)) == xor(xor(z, z), y) == y;
    }

    lemma {:induction false} FeedConcat(x: R, a: seq<byte>, b: seq<byte>)
      ensures Feed(x, a + b) == Feed(Feed(x, a), b)
      decreases |a|
    {
      if a == [] {
        assert a + b == b;
      } else {
        assert (a + b)[1..] == a[1..] + b;
        FeedConcat(step(xor(x, of(a[0]))), a[1..], b);
      }
    }

    lemma {:induction false} FeedInjective(x: R, y: R, data: seq<byte>)
      requires Lawful() && Feed(x, data) == Feed(y, data)
      ensures x == y
      decreases |data|
    {
      if data != [] {
        var b := of(data[0]);
        FeedInjective(step(xor(x, b)), step(xor(y, b)), data[1..]);
        Cancel(x, y, b);
      }
    }

    lemma {:induction false} WordFits(bs: seq<byte>)
      requires Lawful() && |bs| <= 4
      ensures fits(Word(bs), |bs|)
      decreases |bs|
    {
      if bs != [] { WordFits(bs[1..]); }
    }

    lemma {:induction false} WordInjective(u: seq<byte>, v: seq<byte>)
      requires Lawful() && |u| == |v| <= 4 && Word(u) == Word(v)
      ensures u == v
      decreases |u|
    {
      if u != [] {
        WordFits(u[1..]);
        WordFits(v[1..]);
        assert u[0] == v[0];
        Cancel(up(Word(u[1..])), up(Word(v[1..])), of(u[0]));
        assert step(up(Word(u[1..]))) == Word(u[1..]) && step(up(Word(v[1..]))) == Word(v[1..]);
        WordInjective(u[1..], v[1..]);
      }
    }

    lemma StepWord(x: R, b: R, w: R)
      requires Group(xor, zero) && Linear(xor, step) && step(up(w)) == w
      ensures step(xor(x, xor(b, up(w)))) == xor(step(xor(x, b)), w)
    {
      assert xor(x, xor(b, up(w))) == xor(xor(x, b), up(w));
      assert step(xor(xor(x, b), up(w))) == xor(step(xor(x, b)), step(up(w)));
    }

    /** Feeding up to four bytes is adding their word and stepping. */
    lemma {:induction false} FeedWord(x: R, bs: seq<byte>)
      requires Lawful() && |bs| <= 4
      ensures Feed(x, bs) == Steps(xor(x, Word(bs)), |bs|)
      decreases |bs|
    {
      if bs != [] {
        var b, w := of(bs[0]), Word(bs[1..]);
        WordFits(bs[1..]);
        FeedWord(step(xor(x, b)), bs[1..]);
        StepWord(x, b, w);
      }
    }

    lemma {:induction false} StepsLinear(x: R, y: R, n: nat)
      requires Linear(xor, step)
      ensures Steps(xor(x, y), n) == xor(Steps(x, n), Steps(y, n))
      decreases n
    {
      if n != 0 { StepsLinear(step(x), step(y), n - 1); }
    }

    /** The change up to four bytes make to the register depends on their difference alone. */
    lemma FeedDifference(x: R, u: seq<byte>, v: seq<byte>)
      requires Lawful() && |u| == |v| <= 4
      ensures xor(Feed(x, u), Feed(x, v)) == Steps(xor(Word(u), Word(v)), |u|)
    {
      FeedWord(x, u);
      FeedWord(x, v);
      StepsLinear(xor(x, Word(u)), xor(x, Word(v)), |u|);
      var a, b := Word(u), Word(v);
      assert xor(xor(x, a), xor(x, b)) == xor(a, b) by {
        assert xor(xor(x, a), xor(x, b)) == xor(xor(a, x), xor(x, b)) == xor(a, xor(x, xor(x, b)));
        assert xor(x, xor(x, b)) == xor(xor(x, x), b) == b;
      }
    }

    lemma {:induction false} StepsInjective(x: R, y: R, n: nat)
      requires Lawful() && Steps(x, n) == Steps(y, n)
      ensures x == y
      decreases n
    {
      if n != 0 { StepsInjective(step(x), step(y), n - 1); }
    }

    /** A change confined to at most four consecutive bytes always changes the register. */
    lemma BurstDetected(x: R, u: seq<byte>, v: seq<byte>, rest: seq<byte>)
      requires Lawful() && |u| == |v| <= 4 && Feed(x, u + rest) == Feed(x, v + rest)
      ensures u == v
    {
      FeedConcat(x, u, rest);
      FeedConcat(x, v, rest);
      FeedInjective(Feed(x, u), Feed(x, v), rest);
      FeedWord(x, u);
      FeedWord(x, v);
      StepsInjective(xor(x, Word(u)), xor(x, Word(v)), |u|);
      Cancel(Word(u), Word(v), x);
      WordInjective(u, v);
    }

    lemma ZeroDifference(x: R, y: R)
      requires Group(xor, zero) && xor(x, y) == zero
      ensures x == y
    {
      Cancel(y, x, x);
    }

    lemma WordDifference(u: seq<byte>, v: seq<byte>)
      requires Lawful() && |u| == |v| <= 3 && u != v
      ensures fits(xor(Word(u), Word(v)), |u|) && xor(Word(u), Word(v)) != zero
    {
      hide Group, Linear, Injective, Shifts, LowByte, Word;
      WordFits(u);
      WordFits(v);
      if xor(Word(u), Word(v)) == zero {
        ZeroDifference(Word(u), Word(v));
        WordInjective(u, v);
      }
    }

    lemma FewSteps(x: R)
      ensures Steps(x, 1) == step(x) && Steps(x, 2) == step(step(x)) && Steps(x, 3) == step(step(step(x)))
    {
      assert Steps(step(x), 0) == step(x);
      assert Steps(step(x), 1) == Steps(step(step(x)), 0);
      assert Steps(step(x), 2) == Steps(step(step(x)), 1) == Steps(step(step(step(x))), 0);
    }

    /** A checksum: feed everything from `init`, then add `final`. */
    function Sum(init: R, final: R, data: seq<byte>): R {
      xor(Feed(init, data), final)
    }

    /** No change confined to at most four consecutive bytes keeps the checksum. */
    lemma SumBurst(init: R, final: R, pre: seq<byte>, u: seq<byte>, v: seq<byte>, rest: seq<byte>)
      requires Lawful() && |u| == |v| <= 4
      requires Sum(init, final, pre + u + rest) == Sum(init, final, pre + v + rest)
      ensures u == v
    {
      assert pre + u + rest == pre + (u + rest) && pre + v + rest == pre + (v + rest);
      FeedConcat(init, pre, u + rest);
      FeedConcat(init, pre, v + rest);
      var x := Feed(init, pre);
      Cancel(Feed(x, u + rest), Feed(x, v + rest), final);
      BurstDetected(x, u, v, rest);
    }

    /** Changing the last bytes changes the checksum by the division of their difference. */
    lemma SumTail(init: R, final: R, pre: seq<byte>, u: seq<byte>, v: seq<byte>)
      requires Lawful() && |u| == |v| <= 4
      ensures xor(Sum(init, final, pre + u), Sum(init, final, pre + v)) == Steps(xor(Word(u), Word(v)), |u|)
    {
      FeedConcat(init, pre, u);
      FeedConcat(init, pre, v);
      var x := Feed(init, pre);
      FeedDifference(x, u, v);
      var a, b := Feed(x, u), Feed(x, v);
      Regroup(xor, zero, a, final, b, final);
      assert xor(xor(a, b), xor(final, final)) == xor(a, b);
    }
  }
}
