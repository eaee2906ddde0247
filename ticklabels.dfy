/** The tick labels of a matplotlib axis, as the two exploration scripts
    thin them out with reduceLabels: only every twentieth label stays
    visible. A label is an object whose visibility set_visible changes in
    place; its text never changes. */
module TickLabels {

  class Label {
    const text: string
    var visible: bool

    constructor (text: string, visible: bool)
      ensures this.text == text && this.visible == visible
    {
      this.text := text;
      this.visible := visible;
    }
  }

  /** The labels are distinct objects, as the tick labels of one axis are. */
  predicate Distinct(labels: seq<Label>) {
    forall i, j :: 0 <= i < j < |labels| ==> labels[i] != labels[j]
  }

  /** The visibility of each label, in list order. */
  function Flags(labels: seq<Label>): (fs: seq<bool>)
    reads set l | l in labels
    ensures |fs| == |labels|
    ensures forall i :: 0 <= i < |labels| ==> fs[i] == labels[i].visible
  {
    seq(|labels|, i reads labels requires 0 <= i < |labels| => labels[i].visible)
  }

  /** The visibilities reduceLabels leaves on n labels: position i is
      shown exactly when i is a multiple of 20. */
  function Shown(n: nat): (fs: seq<bool>)
    ensures |fs| == n
    ensures n > 0 ==> fs[0]
    ensures forall i :: 0 < i < 20 && i < n ==> !fs[i]
    ensures forall i :: 0 <= i < n - 20 ==> fs[i + 20] == fs[i]
  {
    seq(n, i => i % 20 == 0)
  }

  /** The number of true flags. */
  function CountTrue(fs: seq<bool>): (c: nat)
    ensures c <= |fs|
  {
    if fs == [] then 0 else CountTrue(fs[..|fs| - 1]) + (if fs[|fs| - 1] then 1 else 0)
  }

  /** Of n labels, (n + 19) / 20 stay visible, and the first one always
      does. */
  lemma {:induction false} ShownCount(n: nat)
    ensures CountTrue(Shown(n)) == (n + 19) / 20
    ensures n > 0 ==> Shown(n)[0]
  {
    if n > 0 {
      assert Shown(n)[..n - 1] == Shown(n - 1);
      ShownCount(n - 1);
    }
  }
}

/** reduceLabels of analysis/python/explore.py:19-23, where each label's
    visibility is `not bool(i % 20)`. */
module ExploreNotebook {
  import opened TickLabels

  /** Python's bool() of an int: False exactly for 0. */
  function Truth(n: int): bool {
    n != 0
  }

  /** The flag the loop hands to set_visible for counter value i. */
  function Visibility(i: nat): (v: bool)
    ensures v <==> i % 20 == 0
  {
    !Truth(i % 20)
  }

  /** Every label visited once, in list order; the counter i keeps pace
      with the position reached. Afterwards the label at position i is
      visible exactly when i % 20 == 0, and nothing but the visibilities
      of these labels has changed. */
  method ReduceLabels(labels: seq<Label>)
    requires Distinct(labels)
    modifies set l | l in labels
    ensures Flags(labels) == Shown(|labels|)
  {
    var i := 0;
    for k := 0 to |labels|
      invariant i == k
      invariant forall j :: 0 <= j < k ==> labels[j].visible == (j % 20 == 0)
      invariant forall j :: k <= j < |labels| ==> labels[j].visible == old(labels[j].visible)
    {
      labels[k].visible := Visibility(i);
      i := i + 1;
    }
  }
}

/** reduceLabels of analysis/explore.py:19-26, where an if/else on
    `i % 20 == 0` picks the visibility. */
module ExploreScript {
  import opened TickLabels
  import ExploreNotebook

  /** Every label visited once, in list order, and given a visibility by
      one of the two branches. The outcome is the same as that of the
      notebook's `not bool(i % 20)` version: the label at position i is
      visible exactly when i % 20 == 0. */
  method ReduceLabels(labels: seq<Label>)
    requires Distinct(labels)
    modifies set l | l in labels
    ensures Flags(labels) == Shown(|labels|)
  {
    var i := 0;
    for k := 0 to |labels|
      invariant i == k
      invariant forall j :: 0 <= j < k ==> labels[j].visible == (j % 20 == 0)
      invariant forall j :: k <= j < |labels| ==> labels[j].visible == old(labels[j].visible)
    {
      if i % 20 == 0 {
        labels[k].visible := true;
      } else {
        labels[k].visible := false;
      }
      i := i + 1;
    }
  }

  /** The branch taken for counter value i sets the flag the notebook's
      version computes. */
  lemma SameFlag(i: nat)
    ensures (if i % 20 == 0 then true else false) == ExploreNotebook.Visibility(i)
  {
  }
}
