/**
 * The row index space: `cartProd` over the dimension ranges, and the
 * row-major (last axis fastest) numbering of its tuples.
 *
 * `cartProd` belongs to a vendored library whose text is not part of this
 * model. `CartProd` below builds the product the way nested loops do (the
 * first axis outermost); that it is row-major is then proved, against the
 * independent mixed-radix definition `Decode`/`Encode`.
 */
module CartesianProducts {

  /** The product of the lengths, i.e. the number of tuples. */
  function Product(lengths: seq<nat>): nat {
    if lengths == [] then 1 else lengths[0] * Product(lengths[1..])
  }

  function AxisLengths<T>(axes: seq<seq<T>>): (ls: seq<nat>)
    ensures |ls| == |axes|
    ensures forall i :: 0 <= i < |axes| ==> ls[i] == |axes[i]|
  {
    seq(|axes|, i requires 0 <= i < |axes| => |axes[i]|)
  }

  /** `0 until n`. */
  function Range(n: nat): (r: seq<nat>)
    ensures |r| == n
    ensures forall i :: 0 <= i < n ==> r[i] == i
  {
    seq(n, i requires 0 <= i < n => i)
  }

  /** One range per axis length. */
  function Ranges(lengths: seq<nat>): (rs: seq<seq<nat>>)
    ensures |rs| == |lengths|
    ensures AxisLengths(rs) == lengths
    ensures forall i :: 0 <= i < |lengths| ==> rs[i] == Range(lengths[i])
  {
    seq(|lengths|, i requires 0 <= i < |lengths| => Range(lengths[i]))
  }

  /** Every tuple of `tails`, with `x` in front. */
  function Prefixed<T>(x: T, tails: seq<seq<T>>): (r: seq<seq<T>>)
    ensures |r| == |tails|
    ensures forall k :: 0 <= k < |tails| ==> r[k] == [x] + tails[k]
  {
    seq(|tails|, k requires 0 <= k < |tails| => [x] + tails[k])
  }

  /** `head[i..]` each prefixed to every tuple of `tails`, one block after another. */
  function Blocks<T>(head: seq<T>, i: nat, tails: seq<seq<T>>): seq<seq<T>>
    decreases |head| - i
  {
    if i >= |head| then [] else Prefixed(head[i], tails) + Blocks(head, i + 1, tails)
  }

  /** The cartesian product of `axes`; the product of no axes is the one empty tuple. */
  function CartProd<T>(axes: seq<seq<T>>): seq<seq<T>>
    decreases |axes|
  {
    if axes == [] then [[]] else Blocks(axes[0], 0, CartProd(axes[1..]))
  }

  /** A tuple of positions that lies within the given lengths. */
  predicate InBounds(t: seq<nat>, lengths: seq<nat>) {
    |t| == |lengths| && forall i :: 0 <= i < |t| ==> t[i] < lengths[i]
  }

  /** The element of each axis at the tuple's position on that axis. */
  function Pick<T>(axes: seq<seq<T>>, t: seq<nat>): (r: seq<T>)
    requires InBounds(t, AxisLengths(axes))
    ensures |r| == |axes|
    ensures forall i :: 0 <= i < |axes| ==> r[i] == axes[i][t[i]]
  {
    seq(|axes|, i requires 0 <= i < |axes| => axes[i][t[i]])
  }

  /** Row-major position of a tuple: a mixed-radix number whose last digit varies fastest. */
  function Encode(t: seq<nat>, lengths: seq<nat>): nat
    requires |t| == |lengths|
  {
    if t == [] then 0 else t[0] * Product(lengths[1..]) + Encode(t[1..], lengths[1..])
  }

  /** The tuple at row-major position `r`: the mixed-radix digits of `r`. */
  function Decode(r: nat, lengths: seq<nat>): (t: seq<nat>)
    requires r < Product(lengths)
    ensures |t| == |lengths|
  {
    if lengths == [] then []
    else
      var p := Product(lengths[1..]);
      assert p > 0 by { if p == 0 { assert false; } }
      [r / p] + Decode(r % p, lengths[1..])
  }

  // ---- arithmetic helpers ----

  lemma DivModUnique(r: int, p: int, q: int, s: int)
    requires p > 0 && 0 <= s < p && r == q * p + s
    ensures r / p == q && r % p == s
  {
    var q', s' := r / p, r % p;
    assert r == q' * p + s';
    assert (q - q') * p == s' - s;
    if q > q' {
      assert (q - q') * p >= p by { MulAtLeast(q - q', p); }
    } else if q < q' {
      assert (q' - q) * p >= p by { MulAtLeast(q' - q, p); }
    }
  }

  lemma MulAtLeast(a: int, p: int)
    requires a >= 1 && p > 0
    ensures a * p >= p
  {
  }

  lemma MulBelow(q: nat, n: nat, p: nat, s: nat)
    requires q < n && s < p
    ensures q * p + s < n * p
  {
    assert (n - q) * p >= p by { MulAtLeast(n - q, p); }
  }

  // ---- the product is row-major ----

  lemma {:induction false} BlocksLength<T>(head: seq<T>, i: nat, tails: seq<seq<T>>)
    requires i <= |head|
    ensures |Blocks(head, i, tails)| == (|head| - i) * |tails|
    decreases |head| - i
  {
    if i < |head| {
      BlocksLength(head, i + 1, tails);
    }
  }

  lemma DivShift(r: nat, p: nat)
    requires 0 < p <= r
    ensures (r - p) / p == r / p - 1 && (r - p) % p == r % p
  {
    DivModUnique(r, p, (r - p) / p + 1, (r - p) % p);
  }

  lemma {:induction false} BlocksAt<T>(head: seq<T>, i: nat, tails: seq<seq<T>>, r: nat)
    requires i <= |head| && r < (|head| - i) * |tails|
    ensures |tails| > 0 && i + r / |tails| < |head|
    ensures |Blocks(head, i, tails)| == (|head| - i) * |tails|
    ensures Blocks(head, i, tails)[r] == [head[i + r / |tails|]] + tails[r % |tails|]
    decreases |head| - i
  {
    var p := |tails|;
    BlocksLength(head, i, tails);
    assert p > 0 by { if p == 0 { assert false; } }
    assert i < |head| by { if i == |head| { assert false; } }
    var front := Prefixed(head[i], tails);
    var back := Blocks(head, i + 1, tails);
    assert Blocks(head, i, tails) == front + back;
    if r < p {
      DivModUnique(r, p, 0, r);
      assert (front + back)[r] == front[r];
    } else {
      BlocksLength(head, i + 1, tails);
      assert (front + back)[r] == back[r - p];
      BlocksAt(head, i + 1, tails, r - p);
      DivShift(r, p);
    }
  }

  /** `CartProd` has one tuple per position below the product of the lengths. */
  lemma {:induction false} CartProdLength<T>(axes: seq<seq<T>>)
    ensures |CartProd(axes)| == Product(AxisLengths(axes))
    decreases |axes|
  {
    if axes != [] {
      CartProdLength(axes[1..]);
      assert AxisLengths(axes)[1..] == AxisLengths(axes[1..]);
      BlocksLength(axes[0], 0, CartProd(axes[1..]));
    }
  }

  /** Tuple `r` of `CartProd` holds, on each axis, the element at the `r`-th row-major position. */
  lemma {:induction false} CartProdAt<T>(axes: seq<seq<T>>, r: nat)
    requires r < Product(AxisLengths(axes))
    ensures |CartProd(axes)| == Product(AxisLengths(axes))
    ensures InBounds(Decode(r, AxisLengths(axes)), AxisLengths(axes))
    ensures CartProd(axes)[r] == Pick(axes, Decode(r, AxisLengths(axes)))
    decreases |axes|
  {
    CartProdLength(axes);
    DecodeInBounds(r, AxisLengths(axes));
    if axes != [] {
      var ls := AxisLengths(axes);
      var rest := axes[1..];
      assert ls[1..] == AxisLengths(rest);
      var tails := CartProd(rest);
      CartProdLength(rest);
      var p := Product(ls[1..]);
      assert |tails| == p;
      assert r < |axes[0]| * p;
      BlocksAt(axes[0], 0, tails, r);
      CartProdAt(rest, r % p);
      var t := Decode(r, ls);
      assert t == [r / p] + Decode(r % p, ls[1..]);
      assert CartProd(axes)[r] == [axes[0][r / p]] + Pick(rest, Decode(r % p, ls[1..]));
    }
  }

  lemma {:induction false} DecodeInBounds(r: nat, lengths: seq<nat>)
    requires r < Product(lengths)
    ensures InBounds(Decode(r, lengths), lengths)
    decreases |lengths|
  {
    if lengths != [] {
      var p := Product(lengths[1..]);
      assert p > 0 by { if p == 0 { assert false; } }
      DecodeInBounds(r % p, lengths[1..]);
      DivBelow(r, lengths[0], p);
    }
  }

  lemma MulMonotone(a: nat, b: nat, p: nat)
    requires a <= b
    ensures a * p <= b * p
  {
  }

  lemma DivBelow(r: nat, n: nat, p: nat)
    requires p > 0 && r < n * p
    ensures r / p < n
  {
    assert r == (r / p) * p + r % p;
    if r / p >= n {
      MulMonotone(n, r / p, p);
      assert false;
    }
  }

  /** Encoding an in-bounds tuple gives a position below the product. */
  lemma {:induction false} EncodeBelow(t: seq<nat>, lengths: seq<nat>)
    requires InBounds(t, lengths)
    ensures Encode(t, lengths) < Product(lengths)
    decreases |lengths|
  {
    if t != [] {
      EncodeBelow(t[1..], lengths[1..]);
      MulBelow(t[0], lengths[0], Product(lengths[1..]), Encode(t[1..], lengths[1..]));
    }
  }

  /** Decoding a position and encoding the tuple gives the position back. */
  lemma {:induction false} EncodeDecode(r: nat, lengths: seq<nat>)
    requires r < Product(lengths)
    ensures Encode(Decode(r, lengths), lengths) == r
    decreases |lengths|
  {
    if lengths != [] {
      var p := Product(lengths[1..]);
      assert p > 0 by { if p == 0 { assert false; } }
      EncodeDecode(r % p, lengths[1..]);
      var t := Decode(r, lengths);
      assert t[1..] == Decode(r % p, lengths[1..]);
    }
  }

  /** Encoding an in-bounds tuple and decoding the position gives the tuple back. */
  lemma {:induction false} DecodeEncode(t: seq<nat>, lengths: seq<nat>)
    requires InBounds(t, lengths)
    ensures Encode(t, lengths) < Product(lengths)
    ensures Decode(Encode(t, lengths), lengths) == t
    decreases |lengths|
  {
    EncodeBelow(t, lengths);
    if t != [] {
      var p := Product(lengths[1..]);
      var s := Encode(t[1..], lengths[1..]);
      EncodeBelow(t[1..], lengths[1..]);
      DivModUnique(Encode(t, lengths), p, t[0], s);
      DecodeEncode(t[1..], lengths[1..]);
    }
  }
}
