/** Values shared by every stage of the collage builder: an optional value
    (an operation of the imaging library that either succeeds or raises),
    an image's pixel size, and the "keep what succeeded" filter that both
    passes over the input paths perform. */
module Common {

  /** The outcome of an operation that may fail: `None` stands for an
      exception that the caller catches and skips. */
  datatype Option<T> = None | Some(value: T)

  /** Width and height of an image, in pixels. */
  datatype Dim = Dim(w: nat, h: nat)

  /** The successful outcomes, in input order: what a loop that appends
      on success and `continue`s on an exception collects. */
  function Kept<T>(outcomes: seq<Option<T>>): (kept: seq<T>)
    ensures |kept| <= |outcomes|
  {
    if outcomes == [] then []
    else
      var last := outcomes[|outcomes| - 1];
      Kept(outcomes[..|outcomes| - 1]) + (if last.Some? then [last.value] else [])
  }

  /** Nothing is kept exactly when every outcome failed. */
  lemma {:induction false} KeptEmptyIff<T>(outcomes: seq<Option<T>>)
    ensures Kept(outcomes) == [] <==> forall i :: 0 <= i < |outcomes| ==> outcomes[i].None?
  {
    if outcomes != [] {
      var init := outcomes[..|outcomes| - 1];
      KeptEmptyIff(init);
      assert forall i :: 0 <= i < |init| ==> init[i] == outcomes[i];
    }
  }

  /** A value is kept exactly when it is the value of some successful outcome. */
  lemma {:induction false} KeptMembers<T>(outcomes: seq<Option<T>>, v: T)
    ensures v in Kept(outcomes) <==> Some(v) in outcomes
  {
    if outcomes != [] {
      var init := outcomes[..|outcomes| - 1];
      KeptMembers(init, v);
      assert outcomes == init + [outcomes[|outcomes| - 1]];
    }
  }

  /** Each successful outcome contributes exactly one kept value. */
  lemma {:induction false} KeptCount<T>(outcomes: seq<Option<T>>)
    ensures |Kept(outcomes)| == |set i | 0 <= i < |outcomes| && outcomes[i].Some?|
  {
    var ok := set i | 0 <= i < |outcomes| && outcomes[i].Some?;
    if outcomes != [] {
      var n := |outcomes| - 1;
      var init := outcomes[..n];
      KeptCount(init);
      var okInit := set i | 0 <= i < n && init[i].Some?;
      if outcomes[n].Some? {
        assert ok == okInit + {n};
      } else {
        assert ok == okInit;
      }
    }
  }

  /** Appending the outcome at index `k` extends what is kept from the first `k`. */
  lemma KeptStep<T>(outcomes: seq<Option<T>>, k: nat)
    requires k < |outcomes|
    ensures Kept(outcomes[..k + 1]) ==
      Kept(outcomes[..k]) + (if outcomes[k].Some? then [outcomes[k].value] else [])
  {
    assert outcomes[..k + 1][..k] == outcomes[..k];
  }

  /** `a <= b` scales by a non-negative factor. */
  lemma MulLe(a: int, b: int, k: nat)
    requires a <= b
    ensures a * k <= b * k
  {
    assert b * k - a * k == (b - a) * k;
  }
}
