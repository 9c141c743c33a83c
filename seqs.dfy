/** Order-preserving filters over sequences: the shape of every
    `for x in xs: if not keep(x): continue; out.append(f(x))` loop in the system. */
module Seqs {

  /** The images under `f` of the elements of `xs` that satisfy `keep`, in order. */
  function FilterMap<A, B>(xs: seq<A>, keep: A -> bool, f: A -> B): (r: seq<B>)
    ensures |r| <= |xs|
  {
    if xs == [] then []
    else
      var init := FilterMap(xs[..|xs| - 1], keep, f);
      var x := xs[|xs| - 1];
      if keep(x) then init + [f(x)] else init
  }

  /** The positions in `xs` of the elements that satisfy `keep`, in increasing order. */
  function KeptPositions<A>(xs: seq<A>, keep: A -> bool): seq<nat>
  {
    if xs == [] then []
    else
      var init := KeptPositions(xs[..|xs| - 1], keep);
      if keep(xs[|xs| - 1]) then init + [|xs| - 1] else init
  }

  /** Number of elements of `xs` that satisfy `keep`. */
  function Count<A>(xs: seq<A>, keep: A -> bool): nat
  {
    if xs == [] then 0
    else Count(xs[..|xs| - 1], keep) + (if keep(xs[|xs| - 1]) then 1 else 0)
  }

  /** Appending one element extends the result by at most that element's image. */
  lemma {:induction false} FilterMapSnoc<A, B>(xs: seq<A>, x: A, keep: A -> bool, f: A -> B)
    ensures FilterMap(xs + [x], keep, f) == FilterMap(xs, keep, f) + (if keep(x) then [f(x)] else [])
  {
    assert (xs + [x])[..|xs + [x]| - 1] == xs;
  }

  /** Filtering distributes over concatenation. */
  lemma {:induction false} FilterMapAppend<A, B>(xs: seq<A>, ys: seq<A>, keep: A -> bool, f: A -> B)
    ensures FilterMap(xs + ys, keep, f) == FilterMap(xs, keep, f) + FilterMap(ys, keep, f)
    decreases |ys|
  {
    if ys == [] {
      assert xs + ys == xs;
    } else {
      var y := ys[|ys| - 1];
      var ys' := ys[..|ys| - 1];
      assert xs + ys == (xs + ys') + [y];
      assert ys == ys' + [y];
      FilterMapSnoc(xs + ys', y, keep, f);
      FilterMapAppend(xs, ys', keep, f);
      FilterMapSnoc(ys', y, keep, f);
    }
  }

  /** The filter keeps exactly the elements that satisfy `keep`, each exactly once and in the
      original order: `KeptPositions` is a strictly increasing list of positions, it contains
      every position whose element is kept, and the i-th result is the image of the element
      at the i-th position. */
  lemma {:induction false} FilterMapCharacterization<A, B>(xs: seq<A>, keep: A -> bool, f: A -> B)
    ensures |KeptPositions(xs, keep)| == |FilterMap(xs, keep, f)| == Count(xs, keep)
    ensures forall j :: 0 <= j < |KeptPositions(xs, keep)| ==>
              KeptPositions(xs, keep)[j] < |xs|
              && keep(xs[KeptPositions(xs, keep)[j]])
              && FilterMap(xs, keep, f)[j] == f(xs[KeptPositions(xs, keep)[j]])
    ensures forall j, k :: 0 <= j < k < |KeptPositions(xs, keep)| ==>
              KeptPositions(xs, keep)[j] < KeptPositions(xs, keep)[k]
    ensures forall i :: 0 <= i < |xs| && keep(xs[i]) ==> i in KeptPositions(xs, keep)
  {
    if xs != [] {
      var init := xs[..|xs| - 1];
      FilterMapCharacterization(init, keep, f);
      assert forall i :: 0 <= i < |init| ==> init[i] == xs[i];
    }
  }

  /** Counting distributes over concatenation. */
  lemma {:induction false} CountAppend<A>(xs: seq<A>, ys: seq<A>, keep: A -> bool)
    ensures Count(xs + ys, keep) == Count(xs, keep) + Count(ys, keep)
    decreases |ys|
  {
    if ys == [] {
      assert xs + ys == xs;
    } else {
      var ys' := ys[..|ys| - 1];
      assert xs + ys == (xs + ys') + [ys[|ys| - 1]];
      assert (xs + ys)[..|xs + ys| - 1] == xs + ys';
      CountAppend(xs, ys', keep);
    }
  }

  /** Counting from the front: the form used by right-to-left recursions. */
  lemma CountCons<A>(x: A, xs: seq<A>, keep: A -> bool)
    ensures Count([x] + xs, keep) == (if keep(x) then 1 else 0) + Count(xs, keep)
  {
    CountAppend([x], xs, keep);
    assert [x][..0] == [];
  }
}
