/** The heavy-atom mapping: every atom that is not a hydrogen becomes a bead,
    numbered in traversal order; a bond survives exactly when both of its
    atoms do; projection copies the kept atoms' coordinates. */
module HeavyAtomMapping {
  import opened Common
  import opened Structure
  import opened Projection

  datatype HeavyMapping = HeavyMapping(top: Topology<Bead>, heavyIdxs: seq<IndexPair>)

  /** What the residues of one chain contribute: their beads and the rows
      `[atom.index, new_atom.index]` of the index table. */
  datatype Emitted = Emitted(residues: seq<Residue<Bead>>, table: seq<IndexPair>)

  /** The chains built so far and the whole index table. */
  datatype HeavyState = HeavyState(chains: seq<Chain<Bead>>, table: seq<IndexPair>)

  predicate IsHeavy(a: Atom)
  {
    a.element != "H"
  }

  /** The atoms that are not hydrogens, in order. */
  function Kept(atoms: seq<Atom>): (ks: seq<Atom>)
    ensures |ks| <= |atoms|
    ensures forall k :: 0 <= k < |ks| ==> IsHeavy(ks[k])
  {
    if |atoms| == 0 then []
    else Kept(atoms[..|atoms| - 1]) + (if IsHeavy(atoms[|atoms| - 1]) then [atoms[|atoms| - 1]] else [])
  }

  /** Beads copying `atoms`, numbered from `k`. */
  function Renumber(atoms: seq<Atom>, k: nat): (bs: seq<Bead>)
    ensures |bs| == |atoms|
  {
    seq(|atoms|, j requires 0 <= j < |atoms| => Bead(k + j, atoms[j].name, atoms[j].element))
  }

  /** Table rows for `atoms` copied into beads numbered from `k`. */
  function Rows(atoms: seq<Atom>, k: nat): (rows: seq<IndexPair>)
    ensures |rows| == |atoms|
  {
    seq(|atoms|, j requires 0 <= j < |atoms| => (atoms[j].index, k + j))
  }

  /** The residues of one chain; `pos` is the number of residues and `k` the
      number of beads emitted before it (`res_idx - 1` and `atm_idx`). */
  function EmitResidues(rs: seq<Residue<Atom>>, pos: nat, k: nat): (e: Emitted)
    ensures |e.residues| == |rs|
  {
    if |rs| == 0 then Emitted([], [])
    else
      var pre := EmitResidues(rs[..|rs| - 1], pos, k);
      var res := rs[|rs| - 1];
      var at := k + |pre.table|;
      var heavy := Kept(res.atoms);
      Emitted(pre.residues + [Residue(res.name, pos + |rs|, Renumber(heavy, at))],
              pre.table + Rows(heavy, at))
  }

  function EmitChains(chains: seq<Chain<Atom>>): HeavyState
  {
    if |chains| == 0 then HeavyState([], [])
    else
      var pre := EmitChains(chains[..|chains| - 1]);
      var e := EmitResidues(chains[|chains| - 1].residues, |ResiduesOf(pre.chains)|, |pre.table|);
      HeavyState(pre.chains + [Chain(e.residues)], pre.table + e.table)
  }

  /** `atom_mapping` as a map from source atom index to bead index; a later
      row for the same source atom wins, as a dict assignment does. */
  function TableMap(table: seq<IndexPair>): map<nat, nat>
  {
    if |table| == 0 then map[]
    else TableMap(table[..|table| - 1])[table[|table| - 1].0 := table[|table| - 1].1]
  }

  /** The source bonds whose two atoms are both mapped, renamed to beads, in
      order. */
  function HeavyBonds(bonds: seq<Bond>, mp: map<nat, nat>): (out: seq<Bond>)
    ensures |out| <= |bonds|
  {
    if |bonds| == 0 then []
    else
      var b := bonds[|bonds| - 1];
      HeavyBonds(bonds[..|bonds| - 1], mp) + if b.0 in mp && b.1 in mp then [(mp[b.0], mp[b.1])] else []
  }

  /** `HeavyAtomMapping(topology)`. */
  function Build(top: Topology<Atom>): HeavyMapping
  {
    var s := EmitChains(top.chains);
    HeavyMapping(Topology(s.chains, HeavyBonds(top.bonds, TableMap(s.table))), s.table)
  }

  function Sources(m: HeavyMapping): (srcs: seq<nat>)
    ensures |srcs| == |m.heavyIdxs|
    ensures forall k :: 0 <= k < |srcs| ==> srcs[k] == m.heavyIdxs[k].0
  {
    seq(|m.heavyIdxs|, k requires 0 <= k < |m.heavyIdxs| => m.heavyIdxs[k].0)
  }

  /** `map_traj`: `traj.xyz[:, _heavy_atom_idxs[:, 0], :]`. */
  function MapTraj(m: HeavyMapping, t: Trajectory): Result<Trajectory>
    requires WellShaped(t)
  {
    Gather(Sources(m), t)
  }

  // ---- What the build promises ------------------------------------------

  /** `beads` and `rows` copy `kept` one to one, numbered from `k`. */
  ghost predicate Copies(kept: seq<Atom>, beads: seq<Bead>, rows: seq<IndexPair>, k: nat)
  {
    && |beads| == |kept| && |rows| == |kept|
    && forall j :: 0 <= j < |kept| ==>
         && beads[j].index == k + j && beads[j].name == kept[j].name && beads[j].element == kept[j].element
         && rows[j].0 == kept[j].index && rows[j].1 == k + j
  }

  /** Residue `r` keeps its name, has one bead per heavy atom and is
      numbered `base + r + 1`, where `base` residues come before `rs`. */
  ghost predicate ResidueKept(rs: seq<Residue<Atom>>, out: seq<Residue<Bead>>, r: int, base: nat)
  {
    && 0 <= r < |rs| && r < |out| && out[r].name == rs[r].name && |out[r].atoms| == |Kept(rs[r].atoms)|
    && out[r].resSeq == base + r + 1
  }

  ghost predicate ResiduesKept(rs: seq<Residue<Atom>>, out: seq<Residue<Bead>>, base: nat)
  {
    |out| == |rs| && forall r :: 0 <= r < |rs| ==> ResidueKept(rs, out, r, base)
  }

  /** The output of `HeavyAtomMapping(topology)`: the chain and residue
      structure is kept, the beads copy the heavy atoms one to one in
      traversal order, and the table pairs each heavy atom with its bead. */
  ghost predicate HeavyBuilt(chains: seq<Chain<Atom>>, s: HeavyState)
  {
    && ShapeKept(chains, s.chains)
    && ResiduesKept(ResiduesOf(chains), ResiduesOf(s.chains), 0)
    && Copies(Kept(AtomsOf(chains)), AtomsOf(s.chains), s.table, 0)
  }

  // ---- Proof of the build -----------------------------------------------

  lemma {:induction false} KeptAppend(a: seq<Atom>, b: seq<Atom>)
    ensures Kept(a + b) == Kept(a) + Kept(b)
    decreases |b|
  {
    if |b| == 0 {
      assert a + b == a;
    } else {
      assert (a + b)[..|a + b| - 1] == a + b[..|b| - 1];
      KeptAppend(a, b[..|b| - 1]);
    }
  }

  lemma {:induction false} CopiesAppend(k1: seq<Atom>, b1: seq<Bead>, r1: seq<IndexPair>,
                     k2: seq<Atom>, b2: seq<Bead>, r2: seq<IndexPair>, k: nat)
    requires Copies(k1, b1, r1, k)
    requires Copies(k2, b2, r2, k + |k1|)
    ensures Copies(k1 + k2, b1 + b2, r1 + r2, k)
  {
    var kk, bb, rr := k1 + k2, b1 + b2, r1 + r2;
    forall j | 0 <= j < |kk|
      ensures && bb[j].index == k + j && bb[j].name == kk[j].name && bb[j].element == kk[j].element
              && rr[j].0 == kk[j].index && rr[j].1 == k + j
    {
      if j >= |k1| {
        var i := j - |k1|;
        assert kk[j] == k2[i] && bb[j] == b2[i] && rr[j] == r2[i];
      } else {
        assert kk[j] == k1[j] && bb[j] == b1[j] && rr[j] == r1[j];
      }
    }
  }

  lemma {:induction false} ResidueCopies(res: Residue<Atom>, at: nat)
    ensures Copies(Kept(res.atoms), Renumber(Kept(res.atoms), at), Rows(Kept(res.atoms), at), at)
  {
  }

  lemma {:induction false} ResiduesKeptSnoc(p: seq<Residue<Atom>>, res: Residue<Atom>, op: seq<Residue<Bead>>, o: Residue<Bead>, base: nat)
    requires ResiduesKept(p, op, base)
    requires o.name == res.name && |o.atoms| == |Kept(res.atoms)| && o.resSeq == base + |p| + 1
    ensures ResiduesKept(p + [res], op + [o], base)
  {
    var rs, out := p + [res], op + [o];
    forall r | 0 <= r < |rs| ensures ResidueKept(rs, out, r, base) {
      if r < |p| {
        assert ResidueKept(p, op, r, base);
        assert rs[r] == p[r] && out[r] == op[r];
      }
    }
  }

  lemma {:induction false} ResiduesKeptAppend(a: seq<Residue<Atom>>, b: seq<Residue<Atom>>, oa: seq<Residue<Bead>>, ob: seq<Residue<Bead>>, base: nat)
    requires ResiduesKept(a, oa, base) && ResiduesKept(b, ob, base + |a|)
    ensures ResiduesKept(a + b, oa + ob, base)
  {
    var rs, out := a + b, oa + ob;
    forall r | 0 <= r < |rs| ensures ResidueKept(rs, out, r, base) {
      if r < |a| {
        assert ResidueKept(a, oa, r, base);
        assert rs[r] == a[r] && out[r] == oa[r];
      } else {
        assert ResidueKept(b, ob, r - |a|, base + |a|);
        assert rs[r] == b[r - |a|] && out[r] == ob[r - |a|];
      }
    }
  }

  lemma {:induction false} EmitResiduesSpec(rs: seq<Residue<Atom>>, pos: nat, k: nat)
    ensures ResiduesKept(rs, EmitResidues(rs, pos, k).residues, pos)
    ensures Copies(Kept(AtomsIn(rs)), AtomsIn(EmitResidues(rs, pos, k).residues), EmitResidues(rs, pos, k).table, k)
    decreases |rs|
  {
    if |rs| > 0 {
      var p := rs[..|rs| - 1];
      var res := rs[|rs| - 1];
      var pre := EmitResidues(p, pos, k);
      EmitResiduesSpec(p, pos, k);
      var at := k + |pre.table|;
      var o := Residue(res.name, pos + |rs|, Renumber(Kept(res.atoms), at));
      var e := EmitResidues(rs, pos, k);
      assert e == Emitted(pre.residues + [o], pre.table + Rows(Kept(res.atoms), at));
      assert rs == p + [res];
      ResiduesKeptSnoc(p, res, pre.residues, o, pos);
      assert e.residues[..|e.residues| - 1] == pre.residues;
      assert AtomsIn(e.residues) == AtomsIn(pre.residues) + o.atoms;
      assert AtomsIn(rs) == AtomsIn(p) + res.atoms;
      KeptAppend(AtomsIn(p), res.atoms);
      ResidueCopies(res, at);
      CopiesAppend(Kept(AtomsIn(p)), AtomsIn(pre.residues), pre.table,
                   Kept(res.atoms), o.atoms, Rows(Kept(res.atoms), at), k);
    }
  }

  lemma {:induction false} EmitChainsSpec(chains: seq<Chain<Atom>>)
    ensures HeavyBuilt(chains, EmitChains(chains))
    decreases |chains|
  {
    if |chains| > 0 {
      var p := chains[..|chains| - 1];
      var last := chains[|chains| - 1];
      var pre := EmitChains(p);
      EmitChainsSpec(p);
      var e := EmitResidues(last.residues, |ResiduesOf(pre.chains)|, |pre.table|);
      assert EmitChains(chains) == HeavyState(pre.chains + [Chain(e.residues)], pre.table + e.table);
      EmitChainsStep(p, last, pre);
    }
  }

  lemma {:induction false} EmitChainsStep(p: seq<Chain<Atom>>, last: Chain<Atom>, pre: HeavyState)
    requires HeavyBuilt(p, pre)
    ensures var e := EmitResidues(last.residues, |ResiduesOf(pre.chains)|, |pre.table|);
      HeavyBuilt(p + [last], HeavyState(pre.chains + [Chain(e.residues)], pre.table + e.table))
  {
    var e := EmitResidues(last.residues, |ResiduesOf(pre.chains)|, |pre.table|);
    EmitResiduesSpec(last.residues, |ResiduesOf(pre.chains)|, |pre.table|);
    var chains := p + [last];
    var out := pre.chains + [Chain(e.residues)];
    assert chains[..|chains| - 1] == p;
    assert out[..|out| - 1] == pre.chains;
    ShapeAppend(p, last, pre.chains, Chain(e.residues));
    assert ResiduesOf(out) == ResiduesOf(pre.chains) + e.residues;
    assert ResiduesOf(chains) == ResiduesOf(p) + last.residues;
    ResiduesKeptAppend(ResiduesOf(p), last.residues, ResiduesOf(pre.chains), e.residues, 0);
    AtomsOfLast(chains);
    AtomsOfLast(out);
    KeptAppend(AtomsOf(p), ChainAtoms(last));
    CopiesAppend(Kept(AtomsOf(p)), AtomsOf(pre.chains), pre.table,
                 Kept(ChainAtoms(last)), AtomsIn(e.residues), e.table, 0);
  }

  // ---- Bonds -------------------------------------------------------------

  /** Source atom indices strictly increase along `atoms`, as mdtraj numbers
      a topology's atoms. */
  ghost predicate Increasing(atoms: seq<Atom>)
  {
    forall i, j :: 0 <= i < j < |atoms| ==> atoms[i].index < atoms[j].index
  }

  /** The positions in `atoms` of the atoms that are not hydrogens. */
  function KeptPositions(atoms: seq<Atom>): (ps: seq<nat>)
    ensures forall k :: 0 <= k < |ps| ==> ps[k] < |atoms|
  {
    if |atoms| == 0 then []
    else KeptPositions(atoms[..|atoms| - 1]) + (if IsHeavy(atoms[|atoms| - 1]) then [|atoms| - 1] else [])
  }

  /** The heavy positions come in increasing order and are exactly the
      positions of heavy atoms. */
  lemma {:induction false} KeptPositionsSpec(atoms: seq<Atom>)
    ensures forall k, l :: 0 <= k < l < |KeptPositions(atoms)| ==> KeptPositions(atoms)[k] < KeptPositions(atoms)[l]
    ensures forall i :: 0 <= i < |atoms| ==> (i in KeptPositions(atoms) <==> IsHeavy(atoms[i]))
    decreases |atoms|
  {
    if |atoms| > 0 {
      var n := |atoms| - 1;
      var p := atoms[..n];
      KeptPositionsSpec(p);
      var ps, pp := KeptPositions(atoms), KeptPositions(p);
      assert ps == pp + (if IsHeavy(atoms[n]) then [n] else []);
      forall k, l | 0 <= k < l < |ps| ensures ps[k] < ps[l] {
        assert ps[k] == pp[k];
        if l < |pp| {
          assert ps[l] == pp[l];
        }
      }
      forall i | 0 <= i < n ensures i in ps <==> IsHeavy(atoms[i]) {
        assert atoms[i] == p[i];
      }
    }
  }

  /** `Kept` is the in-order filter: it reads `atoms` at strictly increasing
      positions, and those positions are exactly the heavy atoms'. */
  lemma {:induction false} KeptInOrder(atoms: seq<Atom>)
    ensures |KeptPositions(atoms)| == |Kept(atoms)|
    ensures forall k :: 0 <= k < |Kept(atoms)| ==> Kept(atoms)[k] == atoms[KeptPositions(atoms)[k]]
    ensures forall k, l :: 0 <= k < l < |KeptPositions(atoms)| ==> KeptPositions(atoms)[k] < KeptPositions(atoms)[l]
    ensures forall i :: 0 <= i < |atoms| ==> (i in KeptPositions(atoms) <==> IsHeavy(atoms[i]))
    decreases |atoms|
  {
    KeptPositionsSpec(atoms);
    if |atoms| > 0 {
      var n := |atoms| - 1;
      var p := atoms[..n];
      KeptInOrder(p);
      var ks, ps := Kept(atoms), KeptPositions(atoms);
      var kp, pp := Kept(p), KeptPositions(p);
      assert ks == kp + (if IsHeavy(atoms[n]) then [atoms[n]] else []);
      assert ps == pp + (if IsHeavy(atoms[n]) then [n] else []);
      forall k | 0 <= k < |kp| ensures ks[k] == atoms[ps[k]] {
        assert ks[k] == kp[k] && ps[k] == pp[k];
        assert atoms[pp[k]] == p[pp[k]];
      }
    }
  }

  /** Every heavy atom is kept and nothing else is. */
  lemma {:induction false} KeptMembers(atoms: seq<Atom>)
    ensures forall a :: a in Kept(atoms) <==> a in atoms && IsHeavy(a)
  {
    KeptInOrder(atoms);
    var ks, ps := Kept(atoms), KeptPositions(atoms);
    forall a | a in ks ensures a in atoms {
      var k :| 0 <= k < |ks| && ks[k] == a;
      assert a == atoms[ps[k]];
    }
    forall a | a in atoms && IsHeavy(a) ensures a in ks {
      var i :| 0 <= i < |atoms| && atoms[i] == a;
      assert i in ps;
      var k :| 0 <= k < |ps| && ps[k] == i;
      assert ks[k] == a;
    }
  }

  lemma {:induction false} KeptIncreasing(atoms: seq<Atom>)
    requires Increasing(atoms)
    ensures Increasing(Kept(atoms))
    decreases |atoms|
  {
    if |atoms| > 0 {
      var p := atoms[..|atoms| - 1];
      var last := atoms[|atoms| - 1];
      KeptIncreasing(p);
      KeptMembers(p);
      var ks := Kept(atoms);
      forall i, j | 0 <= i < j < |ks| ensures ks[i].index < ks[j].index {
        if j >= |Kept(p)| {
          assert ks[j] == last;
          assert ks[i] == Kept(p)[i];
        } else {
          assert ks[i] == Kept(p)[i] && ks[j] == Kept(p)[j];
        }
      }
    }
  }

  ghost predicate DistinctSources(table: seq<IndexPair>)
  {
    forall i, j :: 0 <= i < j < |table| ==> table[i].0 != table[j].0
  }

  lemma {:induction false} TableMapHas(table: seq<IndexPair>, j: nat)
    requires DistinctSources(table)
    requires j < |table|
    ensures table[j].0 in TableMap(table) && TableMap(table)[table[j].0] == table[j].1
    decreases |table|
  {
    var p := table[..|table| - 1];
    if j < |table| - 1 {
      assert p[j] == table[j];
      TableMapHas(p, j);
    }
  }

  lemma {:induction false} TableMapFrom(table: seq<IndexPair>, a: nat)
    requires a in TableMap(table)
    ensures exists j :: 0 <= j < |table| && table[j].0 == a && TableMap(table)[a] == table[j].1
    decreases |table|
  {
    var p := table[..|table| - 1];
    if a != table[|table| - 1].0 {
      TableMapFrom(p, a);
      var j :| 0 <= j < |p| && p[j].0 == a && TableMap(p)[a] == p[j].1;
      assert table[j] == p[j];
    }
  }

  /** A bond `b` of the source renamed through `mp`. */
  ghost predicate Renamed(b: Bond, mp: map<nat, nat>, x: nat, y: nat)
  {
    b.0 in mp && b.1 in mp && mp[b.0] == x && mp[b.1] == y
  }

  lemma {:induction false} HeavyBondsSpec(bonds: seq<Bond>, mp: map<nat, nat>, x: nat, y: nat)
    ensures (x, y) in HeavyBonds(bonds, mp) <==> exists q :: 0 <= q < |bonds| && Renamed(bonds[q], mp, x, y)
    decreases |bonds|
  {
    if |bonds| > 0 {
      var p := bonds[..|bonds| - 1];
      var b := bonds[|bonds| - 1];
      HeavyBondsSpec(p, mp, x, y);
      if exists q :: 0 <= q < |p| && Renamed(p[q], mp, x, y) {
        var q :| 0 <= q < |p| && Renamed(p[q], mp, x, y);
        assert bonds[q] == p[q];
      }
      if q :| 0 <= q < |bonds| && Renamed(bonds[q], mp, x, y) {
        if q < |p| {
          assert p[q] == bonds[q];
        }
      }
    }
  }

  /** With source atoms numbered in increasing order, a bead pair `(x, y)` is
      bonded exactly when `x` and `y` are beads and the heavy atoms they copy
      are bonded in the source (`(atm1, atm2) in topology.bonds` with both in
      `atom_mapping`). */
  lemma {:induction false} BondsSpec(top: Topology<Atom>, x: nat, y: nat)
    requires Increasing(AtomsOf(top.chains))
    ensures var kept := Kept(AtomsOf(top.chains));
      (x, y) in Build(top).top.bonds <==>
        x < |kept| && y < |kept| && (kept[x].index, kept[y].index) in top.bonds
  {
    var kept := Kept(AtomsOf(top.chains));
    var s := EmitChains(top.chains);
    var mp := TableMap(s.table);
    EmitChainsSpec(top.chains);
    KeptIncreasing(AtomsOf(top.chains));
    assert DistinctSources(s.table) by {
      forall i, j | 0 <= i < j < |s.table| ensures s.table[i].0 != s.table[j].0 {
        assert kept[i].index < kept[j].index;
      }
    }
    HeavyBondsSpec(top.bonds, mp, x, y);
    if (x, y) in Build(top).top.bonds {
      var q :| 0 <= q < |top.bonds| && Renamed(top.bonds[q], mp, x, y);
      TableMapFrom(s.table, top.bonds[q].0);
      TableMapFrom(s.table, top.bonds[q].1);
    }
    if x < |kept| && y < |kept| && (kept[x].index, kept[y].index) in top.bonds {
      var q :| 0 <= q < |top.bonds| && top.bonds[q] == (kept[x].index, kept[y].index);
      TableMapHas(s.table, x);
      TableMapHas(s.table, y);
      assert Renamed(top.bonds[q], mp, x, y);
    }
  }

  /** `HeavyAtomMapping(topology)` keeps every chain and residue, gives each
      residue one bead per heavy atom, numbers the beads `0, 1, ...` in
      traversal order copying the heavy atoms' names and elements, and pairs
      each heavy atom's index with its bead in the table. */
  lemma {:induction false} BuildSpec(top: Topology<Atom>)
    ensures HeavyBuilt(top.chains, EmitChains(top.chains))
    ensures Build(top).top.chains == EmitChains(top.chains).chains
    ensures Build(top).heavyIdxs == EmitChains(top.chains).table
  {
    EmitChainsSpec(top.chains);
  }

  /** Projection keeps the frames and makes bead `j` of every frame the
      position of the `j`-th heavy atom; it fails for a topology without heavy
      atoms (an empty index table) or a trajectory missing one of them. */
  lemma {:induction false} MapTrajSpec(top: Topology<Atom>, t: Trajectory)
    requires WellShaped(t)
    ensures var kept := Kept(AtomsOf(top.chains));
      MapTraj(Build(top), t).Ok? <==>
        |kept| > 0 && forall j :: 0 <= j < |kept| ==> kept[j].index < t.nAtoms
    ensures var kept := Kept(AtomsOf(top.chains));
      MapTraj(Build(top), t).Ok? ==>
        && MapTraj(Build(top), t).value.nAtoms == |kept|
        && |MapTraj(Build(top), t).value.frames| == |t.frames|
        && forall f, j :: 0 <= f < |t.frames| && 0 <= j < |kept| ==>
             MapTraj(Build(top), t).value.frames[f][j] == t.frames[f][kept[j].index]
  {
    EmitChainsSpec(top.chains);
  }
}
