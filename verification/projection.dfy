/** Coordinates and the three ways a coarse-grained bead takes its position
    from an all-atom frame: a copied column, a mass-weighted mean, or a fixed
    linear combination. */
module Projection {
  import opened Common

  datatype Vec3 = Vec3(x: real, y: real, z: real)

  const Origin: Vec3 := Vec3(0.0, 0.0, 0.0)

  function Plus(a: Vec3, b: Vec3): Vec3
  {
    Vec3(a.x + b.x, a.y + b.y, a.z + b.z)
  }

  function Scale(c: real, a: Vec3): Vec3
  {
    Vec3(c * a.x, c * a.y, c * a.z)
  }

  /** An mdtraj trajectory: `n_atoms` and one row of coordinates per frame. */
  datatype Trajectory = Trajectory(nAtoms: nat, frames: seq<seq<Vec3>>)

  /** The (frames, n_atoms, 3) shape numpy gives `traj.xyz`. */
  ghost predicate WellShaped(t: Trajectory)
  {
    forall f :: 0 <= f < |t.frames| ==> |t.frames[f]| == t.nAtoms
  }

  function AllBelow(s: seq<nat>, n: nat): (b: bool)
    ensures b <==> forall k :: 0 <= k < |s| ==> s[k] < n
  {
    forall k :: 0 <= k < |s| ==> s[k] < n
  }

  /** `traj.xyz[:, srcs, :]` where `srcs` is column 0 of an index array:
      `np.array([])[:, 0]` raises, so an empty table is an error, and so is a
      column past `n_atoms`. */
  function Gather(srcs: seq<nat>, t: Trajectory): (r: Result<Trajectory>)
    requires WellShaped(t)
    ensures r.Ok? <==> |srcs| > 0 && forall k :: 0 <= k < |srcs| ==> srcs[k] < t.nAtoms
    ensures |srcs| == 0 ==> r == Err(EmptyIndexTable)
    ensures r.Ok? ==> WellShaped(r.value) && r.value.nAtoms == |srcs|
                      && |r.value.frames| == |t.frames|
                      && forall f, k :: 0 <= f < |t.frames| && 0 <= k < |srcs| ==>
                           r.value.frames[f][k] == t.frames[f][srcs[k]]
  {
    if |srcs| == 0 then Err(EmptyIndexTable)
    else if !AllBelow(srcs, t.nAtoms) then Err(IndexOutOfRange)
    else
      Ok(Trajectory(|srcs|, seq(|t.frames|, f requires 0 <= f < |t.frames| =>
           seq(|srcs|, k requires 0 <= k < |srcs| => t.frames[f][srcs[k]]))))
  }

  /** A position written into an output frame at a bead index. */
  type Write = (nat, Vec3)

  function Targets(ws: seq<Write>): (ts: seq<nat>)
    ensures |ts| == |ws|
    ensures forall j :: 0 <= j < |ws| ==> ts[j] == ws[j].0
  {
    seq(|ws|, j requires 0 <= j < |ws| => ws[j].0)
  }

  ghost predicate Distinct(s: seq<nat>)
  {
    forall i, j :: 0 <= i < j < |s| ==> s[i] != s[j]
  }

  /** `out = np.zeros(n); out[t] = v` for each write in order. */
  function Scatter(n: nat, ws: seq<Write>): (out: seq<Vec3>)
    requires forall j :: 0 <= j < |ws| ==> ws[j].0 < n
    ensures |out| == n
  {
    if |ws| == 0 then seq(n, _ => Origin)
    else Scatter(n, ws[..|ws| - 1])[ws[|ws| - 1].0 := ws[|ws| - 1].1]
  }

  /** With distinct targets every write survives, and every other bead stays
      at the origin. */
  lemma {:induction false} ScatterReads(n: nat, ws: seq<Write>)
    requires forall j :: 0 <= j < |ws| ==> ws[j].0 < n
    requires Distinct(Targets(ws))
    ensures forall j :: 0 <= j < |ws| ==> Scatter(n, ws)[ws[j].0] == ws[j].1
    ensures forall i :: 0 <= i < n && i !in Targets(ws) ==> Scatter(n, ws)[i] == Origin
    decreases |ws|
  {
    if |ws| > 0 {
      var pre := ws[..|ws| - 1];
      assert Targets(pre) == Targets(ws)[..|ws| - 1];
      ScatterReads(n, pre);
      forall i | 0 <= i < n && i !in Targets(ws) ensures Scatter(n, ws)[i] == Origin {
        assert i != ws[|ws| - 1].0 by { assert Targets(ws)[|ws| - 1] == ws[|ws| - 1].0; }
        assert i !in Targets(pre);
      }
      forall j | 0 <= j < |ws| ensures Scatter(n, ws)[ws[j].0] == ws[j].1 {
        if j < |ws| - 1 {
          assert Targets(ws)[j] != Targets(ws)[|ws| - 1];
          assert pre[j] == ws[j];
        }
      }
    }
  }

  /** A bead that some write targets ends up with value `v` when every write
      to it carries `v`, whatever the order and multiplicity of writes. */
  lemma {:induction false} ScatterAgreeing(n: nat, ws: seq<Write>, i: nat, v: Vec3)
    requires forall j :: 0 <= j < |ws| ==> ws[j].0 < n
    requires exists j :: 0 <= j < |ws| && ws[j].0 == i
    requires forall j :: 0 <= j < |ws| && ws[j].0 == i ==> ws[j].1 == v
    ensures i < n && Scatter(n, ws)[i] == v
    decreases |ws|
  {
    var last := |ws| - 1;
    if ws[last].0 != i {
      var pre := ws[..last];
      var j :| 0 <= j < |ws| && ws[j].0 == i;
      assert pre[j] == ws[j];
      ScatterAgreeing(n, pre, i, v);
    }
  }

  /** `sum_k w_k * p_k`, left to right. */
  function WeightedSum(ps: seq<Vec3>, ws: seq<real>): Vec3
    requires |ps| == |ws|
  {
    if |ps| == 0 then Origin
    else Plus(WeightedSum(ps[..|ps| - 1], ws[..|ws| - 1]), Scale(ws[|ws| - 1], ps[|ps| - 1]))
  }

  /** Weights `m_k / M`, M the total mass. */
  function Normalized(masses: seq<real>): (ws: seq<real>)
    requires Sum(masses) != 0.0
    ensures |ws| == |masses|
    ensures forall k :: 0 <= k < |ws| ==> ws[k] == masses[k] / Sum(masses)
  {
    seq(|masses|, k requires 0 <= k < |masses| => masses[k] / Sum(masses))
  }

  /** `np.sum(frm.T * mass / tot_mass, axis=1)`: the mass-weighted mean. With
      no atoms numpy sums an empty array to the origin; that case (and only
      that case) has total mass zero when masses are positive. */
  function MassWeightedMean(ps: seq<Vec3>, masses: seq<real>): Vec3
    requires |ps| == |masses|
  {
    if Sum(masses) == 0.0 then Origin else WeightedSum(ps, Normalized(masses))
  }

  lemma {:induction false} WeightedSumConstant(ps: seq<Vec3>, ws: seq<real>, p: Vec3)
    requires |ps| == |ws|
    requires forall k :: 0 <= k < |ps| ==> ps[k] == p
    ensures WeightedSum(ps, ws) == Scale(Sum(ws), p)
    decreases |ps|
  {
    if |ps| > 0 {
      WeightedSumConstant(ps[..|ps| - 1], ws[..|ws| - 1], p);
    }
  }

  lemma {:induction false} SumDivided(masses: seq<real>, m: real)
    requires m != 0.0
    ensures Sum(seq(|masses|, k requires 0 <= k < |masses| => masses[k] / m)) == Sum(masses) / m
    decreases |masses|
  {
    var d := seq(|masses|, k requires 0 <= k < |masses| => masses[k] / m);
    if |masses| > 0 {
      var pre := masses[..|masses| - 1];
      var dpre := seq(|pre|, k requires 0 <= k < |pre| => pre[k] / m);
      assert d[..|d| - 1] == dpre;
      SumDivided(pre, m);
      assert Sum(masses) / m == Sum(pre) / m + masses[|masses| - 1] / m;
    }
  }

  /** When every atom sits at `p` (and the mass is not zero) the mean is `p`:
      the weights `m_k / M` sum to one. */
  lemma {:induction false} MeanOfCoincidentPoints(ps: seq<Vec3>, masses: seq<real>, p: Vec3)
    requires |ps| == |masses|
    requires Sum(masses) != 0.0
    requires forall k :: 0 <= k < |ps| ==> ps[k] == p
    ensures MassWeightedMean(ps, masses) == p
  {
    var ws := Normalized(masses);
    WeightedSumConstant(ps, ws, p);
    SumDivided(masses, Sum(masses));
    assert ws == seq(|masses|, k requires 0 <= k < |masses| => masses[k] / Sum(masses));
    DivideBySelf(Sum(masses));
  }

  lemma {:induction false} DivideBySelf(m: real)
    requires m != 0.0
    ensures m / m == 1.0
  {
  }

  /** `cN * n + cCA * ca + cO * o`, evaluated left to right. */
  function Combine(cN: real, cCA: real, cO: real, n: Vec3, ca: Vec3, o: Vec3): Vec3
  {
    Plus(Plus(Scale(cN, n), Scale(cCA, ca)), Scale(cO, o))
  }
}
