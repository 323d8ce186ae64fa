/**
  Messages folded into a register, over any word type with an exclusive-or.

  `step` is what the register does with a word already mixed in.  Everything a CRC promises
  about whole messages follows from two facts about `step`: it distributes over the
  exclusive-or, and it can be run backwards.
 */
module RegisterAlgebra {

  /** An exclusive-or: four operands can be paired up either way, and it is its own inverse. */
  ghost predicate IsXor<W(!new)>(xor: (W, W) -> W, zero: W) {
    PairsUp(xor) && HasZero(xor, zero)
  }

  ghost predicate PairsUp<W(!new)>(xor: (W, W) -> W) {
    forall a, b, c, d {:trigger xor(xor(a, b), xor(c, d))} :: xor(xor(a, b), xor(c, d)) == xor(xor(a, c), xor(b, d))
  }

  ghost predicate HasZero<W(!new)>(xor: (W, W) -> W, zero: W) {
    forall a :: xor(a, a) == zero && xor(a, zero) == a && xor(zero, a) == a
  }

  ghost predicate Additive<W(!new)>(xor: (W, W) -> W, step: W -> W) {
    forall a, b :: step(xor(a, b)) == xor(step(a), step(b))
  }

  ghost predicate Injective<W(!new)>(step: W -> W) {
    forall a, b :: step(a) == step(b) ==> a == b
  }

  /** The register after a message. */
  function FoldWith<W>(xor: (W, W) -> W, step: W -> W, m: seq<W>, c: W): W
    decreases |m|
  {
    if m == [] then c else FoldWith(xor, step, m[1..], step(xor(c, m[0])))
  }

  function Zip<W>(xor: (W, W) -> W, a: seq<W>, b: seq<W>): (r: seq<W>)
    requires |a| == |b|
    ensures |r| == |a| && forall i :: 0 <= i < |r| ==> r[i] == xor(a[i], b[i])
    decreases |a|
  {
    if a == [] then [] else [xor(a[0], b[0])] + Zip(xor, a[1..], b[1..])
  }

  lemma {:induction false} FoldAppend<W>(xor: (W, W) -> W, step: W -> W, a: seq<W>, b: seq<W>, c: W)
    ensures FoldWith(xor, step, a + b, c) == FoldWith(xor, step, b, FoldWith(xor, step, a, c))
    decreases |a|
  {
    if a == [] {
      assert a + b == b;
    } else {
      assert (a + b)[1..] == a[1..] + b;
      FoldAppend(xor, step, a[1..], b, step(xor(c, a[0])));
    }
  }

  lemma FoldOne<W>(xor: (W, W) -> W, step: W -> W, x: W, c: W)
    ensures FoldWith(xor, step, [x], c) == step(xor(c, x))
  {
    assert [x][1..] == [];
  }

  lemma Cancel<W(!new)>(xor: (W, W) -> W, zero: W, a: W, b: W)
    requires IsXor(xor, zero)
    ensures xor(a, xor(a, b)) == b
  {
    assert xor(xor(a, zero), xor(a, b)) == xor(xor(a, a), xor(zero, b));
  }

  lemma ZeroWhenEqual<W(!new)>(xor: (W, W) -> W, zero: W, a: W, b: W)
    requires IsXor(xor, zero)
    ensures xor(a, b) == zero <==> a == b
  {
    assert xor(xor(a, b), xor(zero, b)) == xor(xor(a, zero), xor(b, b));
  }

  lemma RightCancel<W(!new)>(xor: (W, W) -> W, zero: W, a: W, b: W, x: W)
    requires IsXor(xor, zero) && xor(a, x) == xor(b, x)
    ensures a == b
  {
    assert xor(xor(a, x), xor(b, x)) == xor(xor(a, b), xor(x, x));
    ZeroWhenEqual(xor, zero, a, b);
  }

  /** Two differences that meet cancel exactly when they are equal. */
  lemma EqualWhenXorEqual<W(!new)>(xor: (W, W) -> W, zero: W, a: W, b: W, c: W, d: W)
    requires IsXor(xor, zero)
    ensures xor(a, b) == xor(c, d) <==> xor(b, d) == xor(a, c)
  {
    ZeroWhenEqual(xor, zero, xor(a, b), xor(c, d));
    ZeroWhenEqual(xor, zero, xor(a, c), xor(b, d));
    assert xor(xor(a, b), xor(c, d)) == xor(xor(a, c), xor(b, d));
  }

  lemma {:induction false} FoldLinear<W(!new)>(xor: (W, W) -> W, zero: W, step: W -> W, a: seq<W>, b: seq<W>, c: W,
                                        d: W)
    requires IsXor(xor, zero) && Additive(xor, step) && |a| == |b|
    ensures FoldWith(xor, step, Zip(xor, a, b), xor(c, d)) == xor(FoldWith(xor, step, a, c), FoldWith(xor, step, b, d))
    decreases |a|
  {
    if a != [] {
      assert xor(xor(c, d), xor(a[0], b[0])) == xor(xor(c, a[0]), xor(d, b[0]));
      FoldLinear(xor, zero, step, a[1..], b[1..], step(xor(c, a[0])), step(xor(d, b[0])));
    }
  }

  lemma OwnValueGivesZero<W(!new)>(xor: (W, W) -> W, zero: W, step: W -> W, m: seq<W>, c: W)
    requires IsXor(xor, zero) && Additive(xor, step)
    ensures FoldWith(xor, step, m + [FoldWith(xor, step, m, c)], c) == zero
  {
    var r := FoldWith(xor, step, m, c);
    FoldAppend(xor, step, m, [r], c);
    FoldOne(xor, step, r, r);
    assert step(xor(zero, zero)) == xor(step(zero), step(zero));
  }

  lemma {:induction false} FoldInjective<W(!new)>(xor: (W, W) -> W, zero: W, step: W -> W, m: seq<W>, c: W, d: W)
    requires IsXor(xor, zero) && Injective(step)
    ensures FoldWith(xor, step, m, c) == FoldWith(xor, step, m, d) ==> c == d
    decreases |m|
  {
    if m != [] {
      FoldInjective(xor, zero, step, m[1..], step(xor(c, m[0])), step(xor(d, m[0])));
      if xor(c, m[0]) == xor(d, m[0]) {
        RightCancel(xor, zero, c, d, m[0]);
      }
    }
  }

  lemma FoldTwo<W>(xor: (W, W) -> W, step: W -> W, pre: seq<W>, x: W, y: W, post: seq<W>, c: W)
    ensures FoldWith(xor, step, pre + [x, y] + post, c)
         == FoldWith(xor, step, post, step(xor(step(xor(FoldWith(xor, step, pre, c), x)), y)))
  {
    var r := FoldWith(xor, step, pre, c);
    FoldAppend(xor, step, pre + [x, y], post, c);
    FoldAppend(xor, step, pre, [x, y], c);
    FoldAppend(xor, step, [x], [y], r);
    assert [x] + [y] == [x, y];
    FoldOne(xor, step, x, r);
    FoldOne(xor, step, y, step(xor(r, x)));
  }

  lemma StepDifference<W(!new)>(xor: (W, W) -> W, zero: W, step: W -> W, r: W, x: W, x': W)
    requires IsXor(xor, zero) && Additive(xor, step)
    ensures xor(step(xor(r, x)), step(xor(r, x'))) == step(xor(x, x'))
  {
    assert xor(xor(r, x), xor(r, x')) == xor(xor(r, r), xor(x, x'));
  }

  lemma AgreeAfter<W(!new)>(xor: (W, W) -> W, zero: W, step: W -> W, post: seq<W>, v: W, v': W)
    requires IsXor(xor, zero) && Injective(step)
    ensures FoldWith(xor, step, post, step(v)) == FoldWith(xor, step, post, step(v')) <==> v == v'
  {
    FoldInjective(xor, zero, step, post, step(v), step(v'));
  }

  lemma OneWordDifference<W(!new)>(xor: (W, W) -> W, zero: W, step: W -> W, a: seq<W>, b: seq<W>, k: nat, c: W)
    requires IsXor(xor, zero) && Injective(step)
    requires |a| == |b| && k < |a| && a[k] != b[k]
    requires forall i :: 0 <= i < |a| && i != k ==> a[i] == b[i]
    ensures FoldWith(xor, step, a, c) != FoldWith(xor, step, b, c)
  {
    var pre, post := a[..k], a[k + 1..];
    assert a == pre + [a[k]] + post && b == pre + [b[k]] + post;
    var r := FoldWith(xor, step, pre, c);
    FoldAppend(xor, step, pre + [a[k]], post, c);
    FoldAppend(xor, step, pre + [b[k]], post, c);
    FoldAppend(xor, step, pre, [a[k]], c);
    FoldAppend(xor, step, pre, [b[k]], c);
    FoldOne(xor, step, a[k], r);
    FoldOne(xor, step, b[k], r);
    Cancel(xor, zero, r, a[k]);
    Cancel(xor, zero, r, b[k]);
    FoldInjective(xor, zero, step, post, step(xor(r, a[k])), step(xor(r, b[k])));
  }

  /** A word fed in as two halves: the second half meets what the first left behind. */
  lemma TwoHalves<W(!new)>(xor: (W, W) -> W, half: W -> W, a: W, high: W, shifted: W)
    requires Additive(xor, half) && half(high) == shifted
    ensures half(xor(half(a), shifted)) == half(half(xor(a, high)))
  {
  }
}
