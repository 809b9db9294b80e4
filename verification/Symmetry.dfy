/** The 2^n parts of the order-b curve are copies of the order-(b-1) curve: each is moved by one
    signed axis permutation that depends on the digit of the part alone. */
module Symmetry {
  import opened Words
  import opened Transform
  import opened Packing
  import opened Curve
  import opened Refinement

  /** A signed axis permutation: coordinate i is taken from axis[i] and reflected if flip[i]. */
  datatype Frame = Frame(axis: seq<nat>, flip: seq<bool>)

  ghost predicate IsFrame(f: Frame, n: nat) {
    && |f.axis| == |f.flip| == n
    && (forall i :: 0 <= i < n ==> f.axis[i] < n)
    && forall i, j :: 0 <= i < j < n ==> f.axis[i] != f.axis[j]
  }

  function Apply(f: Frame, k: nat, p: seq<nat>): (q: seq<nat>)
    requires IsFrame(f, |p|)
    ensures |q| == |p|
  {
    seq(|p|, i requires 0 <= i < |p| => if f.flip[i] then Mirror(p[f.axis[i]], k) else p[f.axis[i]])
  }

  function FrameStep(g: seq<bool>, f: Frame, i: nat): (r: Frame)
    requires i < |g| && IsFrame(f, |g|)
    ensures IsFrame(r, |g|)
  {
    if g[i] then f.(flip := f.flip[0 := !f.flip[0]])
    else Frame(f.axis[0 := f.axis[i]][i := f.axis[0]], f.flip[0 := f.flip[i]][i := f.flip[0]])
  }

  function FrameDown(g: seq<bool>, f: Frame, i: nat): (r: Frame)
    requires i < |g| && IsFrame(f, |g|)
    ensures IsFrame(r, |g|)
    decreases i
  {
    if i == 0 then FrameStep(g, f, 0) else FrameDown(g, FrameStep(g, f, i), i - 1)
  }

  /** The frame of the part with digit h. */
  function FrameOf(n: nat, h: nat): (f: Frame)
    requires n >= 1
    ensures IsFrame(f, n)
  {
    FrameDown(Corner(n, h), Frame(seq(n, i => i), seq(n, _ => false)), n - 1)
  }

  lemma ApplyStep(g: seq<bool>, k: nat, f: Frame, p: seq<nat>, i: nat)
    requires i < |p| == |g| && IsFrame(f, |p|)
    ensures TurnStep(g, k, Apply(f, k, p), i) == Apply(FrameStep(g, f, i), k, p)
  {
    var q, r := TurnStep(g, k, Apply(f, k, p), i), Apply(FrameStep(g, f, i), k, p);
    assert forall j :: 0 <= j < |p| ==> q[j] == r[j];
  }

  lemma {:induction false} ApplyDown(g: seq<bool>, k: nat, f: Frame, p: seq<nat>, i: nat)
    requires i < |p| == |g| && IsFrame(f, |p|)
    ensures Turn(g, k, Apply(f, k, p), i) == Apply(FrameDown(g, f, i), k, p)
    decreases i
  {
    hide Apply, FrameStep, TurnStep, IsFrame;
    ApplyStep(g, k, f, p, i);
    if i > 0 { ApplyDown(g, k, FrameStep(g, f, i), p, i - 1); }
  }

  lemma IdentityFrame(k: nat, p: seq<nat>)
    ensures var id := Frame(seq(|p|, i => i), seq(|p|, _ => false));
      IsFrame(id, |p|) && Apply(id, k, p) == p
  {}

  lemma FitIsFramed(h: nat, p: seq<nat>, k: nat)
    requires p != []
    ensures Fit(h, p, k) == PlaceAll(Corner(|p|, h), Apply(FrameOf(|p|, h), k, p), k)
  {
    hide Turn, Corner, IsFrame;
    var n := |p|;
    var id := Frame(seq(n, i => i), seq(n, _ => false));
    assert IsFrame(id, n) && Apply(id, k, p) == p by { IdentityFrame(k, p); }
    ApplyDown(Corner(n, h), k, id, p, n - 1);
  }

  /** Self-similarity of what the code computes: in part h of the order-(k+1) curve, position l lies
      where frame h puts the order-k curve's position l, counted backwards if h is odd. */
  lemma SelfSimilar(n: nat, k: nat, h: nat, l: nat)
    requires n >= 1 && h < Pow2(n) && l < Vol(n, k)
    ensures var v := Vol(n, k);
      && h * v + l < Vol(n, k + 1)
      && AxesOf(Unpack(n, k + 1, h * v + l), k + 1)
         == PlaceAll(Corner(n, h), Apply(FrameOf(n, h), k, AxesOf(Unpack(n, k, Inner(h, l, v)), k)), k)
  {
    hide AxesOf, Unpack, Hilbert, Fit, FrameOf, Corner, PlaceAll, Apply, IsFrame;
    var v := Vol(n, k);
    var m := Inner(h, l, v);
    HilbertFit(n, k + 1, h * v + l, h, l, v);
    ComputesHilbert(n, k + 1, h * v + l);
    ComputesHilbert(n, k, m);
    FitIsFramed(h, Hilbert(n, k, m), k);
  }
}
