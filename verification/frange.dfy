/** The meaning of a frame-range ("frange") expression such as `5-26:3,75-100`:
    a comma-separated list of clauses, each a single frame `N`, an inclusive
    range `N-M`, or a strided range `N-M:S`. Evaluating the clauses gives the
    set of frames to write and the last frame the simulation must reach. */
module Frange {
  import opened Wrappers

  /** One clause; `N-M` is `Span(N, M, 1)`. */
  datatype Clause = Single(frame: nat) | Span(first: nat, last: nat, stride: int)

  datatype FrangeError = EmptyExpression | Descending(first: nat, last: nat) | NonPositiveStride(stride: int)

  /** The frames to output and the frame the simulation marches to. */
  datatype FrameSet = FrameSet(frames: set<nat>, end: nat)

  /** Why a clause is malformed, if it is. */
  function ClauseError(c: Clause): Option<FrangeError> {
    match c
    case Single(_) => None
    case Span(a, b, s) =>
      if a > b then Some(Descending(a, b))
      else if s <= 0 then Some(NonPositiveStride(s))
      else None
  }

  /** Frame `k` is a whole number of strides past `first`. */
  predicate OnStride(first: nat, stride: int, k: nat)
    requires stride > 0
  {
    (k - first) % stride == 0
  }

  /** The frames a clause lists: every `stride`-th frame from `first` up to `last`. */
  function Members(c: Clause): set<nat> {
    match c
    case Single(n) => {n}
    case Span(a, b, s) => if s <= 0 then {} else set k: nat | a <= k <= b && OnStride(a, s, k)
  }

  /** The clause's upper endpoint, whether or not the stride reaches it. */
  function EndOf(c: Clause): nat {
    match c
    case Single(n) => n
    case Span(_, b, _) => b
  }

  /** Every frame a well-formed clause lists lies between its endpoints, and the first endpoint is listed. */
  lemma ClauseBounds(c: Clause)
    requires ClauseError(c).None?
    ensures forall f :: f in Members(c) ==> f <= EndOf(c)
    ensures c.Span? ==> c.first in Members(c)
  {
  }

  /** Evaluates a clause list. It succeeds exactly when the list is non-empty and
      every clause is well formed; the frames are then the union of the clauses'
      frames and the end is the largest clause endpoint, which bounds every frame. */
  function Evaluate(cs: seq<Clause>): (r: Result<FrameSet, FrangeError>)
    ensures r.Success? <==> |cs| > 0 && forall i :: 0 <= i < |cs| ==> ClauseError(cs[i]).None?
    ensures r.Success? ==> forall f :: f in r.value.frames <==> exists i :: 0 <= i < |cs| && f in Members(cs[i])
    ensures r.Success? ==> forall i :: 0 <= i < |cs| ==> EndOf(cs[i]) <= r.value.end
    ensures r.Success? ==> exists i :: 0 <= i < |cs| && EndOf(cs[i]) == r.value.end
    ensures r.Success? ==> forall f :: f in r.value.frames ==> f <= r.value.end
    ensures r.Failure? && |cs| == 0 ==> r.error == EmptyExpression
    ensures r.Failure? && |cs| > 0 ==> exists i :: 0 <= i < |cs| && ClauseError(cs[i]) == Some(r.error)
  {
    if |cs| == 0 then Failure(EmptyExpression) else Combine(cs)
  }

  function Combine(cs: seq<Clause>): (r: Result<FrameSet, FrangeError>)
    requires |cs| > 0
    ensures r.Success? <==> forall i :: 0 <= i < |cs| ==> ClauseError(cs[i]).None?
    ensures r.Success? ==> forall f :: f in r.value.frames <==> exists i :: 0 <= i < |cs| && f in Members(cs[i])
    ensures r.Success? ==> forall i :: 0 <= i < |cs| ==> EndOf(cs[i]) <= r.value.end
    ensures r.Success? ==> exists i :: 0 <= i < |cs| && EndOf(cs[i]) == r.value.end
    ensures r.Success? ==> forall f :: f in r.value.frames ==> f <= r.value.end
    ensures r.Failure? ==> exists i :: 0 <= i < |cs| && ClauseError(cs[i]) == Some(r.error)
    decreases |cs|
  {
    var c := cs[0];
    match ClauseError(c)
    case Some(e) => Failure(e)
    case None =>
      ClauseBounds(c);
      if |cs| == 1 then Success(FrameSet(Members(c), EndOf(c)))
      else
        match Combine(cs[1..])
        case Failure(e) => Failure(e)
        case Success(rest) =>
          Success(FrameSet(Members(c) + rest.frames, if EndOf(c) >= rest.end then EndOf(c) else rest.end))
  }

  /** The documented example `5-26:3,75-100`: every third frame from 5 to 26,
      then 75 to 100; the simulation runs to 100. */
  lemma DocumentedExample()
    ensures var r := Evaluate([Span(5, 26, 3), Span(75, 100, 1)]);
      && r.Success?
      && r.value.end == 100
      && (forall f :: 0 <= f < 75 ==> (f in r.value.frames <==> f in {5, 8, 11, 14, 17, 20, 23, 26}))
      && (forall f :: 75 <= f <= 100 ==> f in r.value.frames)
      && (forall f :: f > 100 ==> f !in r.value.frames)
  {
    var cs := [Span(5, 26, 3), Span(75, 100, 1)];
    var r := Evaluate(cs);
    forall f | 0 <= f < 75
      ensures f in r.value.frames <==> f in {5, 8, 11, 14, 17, 20, 23, 26}
    {
      assert f in r.value.frames <==> f in Members(cs[0]) || f in Members(cs[1]);
    }
    forall f | 75 <= f <= 100
      ensures f in r.value.frames
    {
      assert f in Members(cs[1]);
    }
  }

  /** A strided range `5-9:2` lists 5, 7 and 9 and still ends at 9. */
  lemma StridedRange()
    ensures Evaluate([Span(5, 9, 2)]) == Success(FrameSet({5, 7, 9}, 9))
  {
    var m := Members(Span(5, 9, 2));
    assert m == {5, 7, 9} by {
      forall k: nat
        ensures k in m <==> k in {5, 7, 9}
      {
      }
    }
  }

  /** A descending range such as `10-2` is rejected. */
  lemma DescendingRejected()
    ensures Evaluate([Span(10, 2, 1)]) == Failure(Descending(10, 2))
  {
  }
}
