/** The C-alpha mapping: one CA bead per residue, CA-CA bonds between
    neighbours of one chain, and the default structure-based angles,
    dihedrals, contacts and disulfide terms over those beads. */
module CalphaMapping {
  import opened Common
  import opened Structure
  import opened Projection

  datatype CaMapping = CaMapping(top: Topology<Bead>, caIdxs: seq<IndexPair>)

  /** What one chain contributes while the topology is being built. */
  datatype Emitted = Emitted(residues: seq<Residue<Bead>>, bonds: seq<Bond>, caIdxs: seq<IndexPair>)

  /** `getattr(residue, 'resSeq', None) or residue.index`. */
  function ResSeqOr(resSeq: int, index: nat): int
  {
    if resSeq != 0 then resSeq else index
  }

  /** The coarse-grained residue made for source residue `r` at position `k`. */
  function CaResidue(r: Residue<Atom>, k: nat): Residue<Bead>
  {
    Residue(r.name, ResSeqOr(r.resSeq, k), [Bead(k, "CA", "C")])
  }

  /** The residues of one chain; `offset` is the number of beads (and of
      residues) emitted before it. The previous CA is in the same chain
      exactly when this is not the chain's first residue. */
  function EmitResidues(rs: seq<Residue<Atom>>, offset: nat): Result<Emitted>
  {
    if |rs| == 0 then Ok(Emitted([], [], []))
    else
      var pre :- EmitResidues(rs[..|rs| - 1], offset);
      var res := rs[|rs| - 1];
      var ca :- OptionToResult(FindAtom(res.atoms, "CA"), MissingAtom("CA"));
      var k := offset + |rs| - 1;
      var bond := if |rs| > 1 then [(k - 1, k)] else [];
      Ok(Emitted(pre.residues + [CaResidue(res, k)], pre.bonds + bond, pre.caIdxs + [(ca, k)]))
  }

  function EmitChains(chains: seq<Chain<Atom>>): Result<CaMapping>
  {
    if |chains| == 0 then Ok(CaMapping(Topology([], []), []))
    else
      var pre :- EmitChains(chains[..|chains| - 1]);
      var e :- EmitResidues(chains[|chains| - 1].residues, |pre.caIdxs|);
      Ok(CaMapping(Topology(pre.top.chains + [Chain(e.residues)], pre.top.bonds + e.bonds),
                   pre.caIdxs + e.caIdxs))
  }

  /** `CalphaMapping(topology)`: fails when some residue has no CA atom. */
  function Build(top: Topology<Atom>): Result<CaMapping>
  {
    EmitChains(top.chains)
  }

  /** Residue `k` of one chain becomes the CA residue at bead `offset + k`,
      and table row `k` records its CA atom. */
  ghost predicate RowsEmitted(rs: seq<Residue<Atom>>, offset: nat, e: Emitted)
  {
    && (forall k :: 0 <= k < |rs| ==> HasCa(rs[k]))
    && |e.residues| == |rs| && |e.caIdxs| == |rs|
    && (forall k :: 0 <= k < |rs| ==> e.residues[k] == CaResidue(rs[k], offset + k))
    && (forall k :: 0 <= k < |rs| ==> e.caIdxs[k] == (CaOf(rs[k]), offset + k))
  }

  /** Bonds join exactly the consecutive beads of a chain of `n` beads
      starting at `offset`. */
  ghost predicate BondsEmitted(n: nat, offset: nat, bonds: seq<Bond>)
  {
    forall b: Bond :: b in bonds <==> offset <= b.0 && b.1 == b.0 + 1 && b.1 < offset + n
  }

  /** The `n` residues hold one bead each, numbered on from `offset`. */
  ghost predicate AtomsEmitted(n: nat, offset: nat, os: seq<Residue<Bead>>)
  {
    |os| == n && |AtomsIn(os)| == n && DenseFrom(AtomsIn(os), offset)
  }

  /** What one chain's emission promises. */
  ghost predicate ResiduesEmitted(rs: seq<Residue<Atom>>, offset: nat, e: Emitted)
  {
    RowsEmitted(rs, offset, e) && BondsEmitted(|rs|, offset, e.bonds) && AtomsEmitted(|rs|, offset, e.residues)
  }

  lemma {:induction false} EmitResiduesSpec(rs: seq<Residue<Atom>>, offset: nat)
    ensures EmitResidues(rs, offset).Ok? <==> forall k :: 0 <= k < |rs| ==> HasCa(rs[k])
    ensures EmitResidues(rs, offset).Ok? ==> ResiduesEmitted(rs, offset, EmitResidues(rs, offset).value)
  {
    EmitRowsSpec(rs, offset);
    EmitBondsSpec(rs, offset);
    EmitAtomsSpec(rs, offset);
  }

  /** Appending one residue to the chain either fails or extends every
      component of the emission by that residue's share. */
  lemma {:induction false} EmitResiduesLast(p: seq<Residue<Atom>>, res: Residue<Atom>, offset: nat)
    ensures EmitResidues(p, offset).Err? ==> EmitResidues(p + [res], offset).Err?
    ensures EmitResidues(p, offset).Ok? && !HasCa(res) ==> EmitResidues(p + [res], offset).Err?
    ensures EmitResidues(p, offset).Ok? && HasCa(res) ==>
      EmitResidues(p + [res], offset) ==
        Ok(Emitted(EmitResidues(p, offset).value.residues + [CaResidue(res, offset + |p|)],
                   EmitResidues(p, offset).value.bonds
                     + (if |p| > 0 then [(offset + |p| - 1, offset + |p|)] else []),
                   EmitResidues(p, offset).value.caIdxs + [(CaOf(res), offset + |p|)]))
  {
    assert (p + [res])[..|p|] == p;
  }

  lemma {:induction false} EmitRowsSpec(rs: seq<Residue<Atom>>, offset: nat)
    ensures EmitResidues(rs, offset).Ok? <==> forall k :: 0 <= k < |rs| ==> HasCa(rs[k])
    ensures EmitResidues(rs, offset).Ok? ==> RowsEmitted(rs, offset, EmitResidues(rs, offset).value)
    decreases |rs|
  {
    if |rs| > 0 {
      var p := rs[..|rs| - 1];
      var res := rs[|rs| - 1];
      EmitRowsSpec(p, offset);
      assert rs == p + [res];
      EmitRowsSnoc(p, res, offset);
    }
  }

  lemma {:induction false} EmitRowsSnoc(p: seq<Residue<Atom>>, res: Residue<Atom>, offset: nat)
    requires EmitResidues(p, offset).Ok? <==> forall k :: 0 <= k < |p| ==> HasCa(p[k])
    requires EmitResidues(p, offset).Ok? ==> RowsEmitted(p, offset, EmitResidues(p, offset).value)
    ensures EmitResidues(p + [res], offset).Ok? <==> forall k :: 0 <= k < |p + [res]| ==> HasCa((p + [res])[k])
    ensures EmitResidues(p + [res], offset).Ok? ==>
      RowsEmitted(p + [res], offset, EmitResidues(p + [res], offset).value)
  {
    EmitResiduesLast(p, res, offset);
    AllHasCaSnoc(p, res);
    if EmitResidues(p, offset).Ok? && HasCa(res) {
      RowsStep(p, res, offset, EmitResidues(p, offset).value);
    }
  }

  lemma {:induction false} EmitBondsSpec(rs: seq<Residue<Atom>>, offset: nat)
    ensures EmitResidues(rs, offset).Ok? ==> BondsEmitted(|rs|, offset, EmitResidues(rs, offset).value.bonds)
    decreases |rs|
  {
    if |rs| > 0 {
      var p := rs[..|rs| - 1];
      var res := rs[|rs| - 1];
      EmitBondsSpec(p, offset);
      assert rs == p + [res];
      EmitResiduesLast(p, res, offset);
      if EmitResidues(p, offset).Ok? && HasCa(res) {
        BondsStep(EmitResidues(p, offset).value.bonds,
                  if |p| > 0 then [(offset + |p| - 1, offset + |p|)] else [], offset, |p|);
      }
    }
  }

  lemma {:induction false} EmitAtomsSpec(rs: seq<Residue<Atom>>, offset: nat)
    ensures EmitResidues(rs, offset).Ok? ==> AtomsEmitted(|rs|, offset, EmitResidues(rs, offset).value.residues)
    decreases |rs|
  {
    if |rs| > 0 {
      var p := rs[..|rs| - 1];
      var res := rs[|rs| - 1];
      EmitAtomsSpec(p, offset);
      assert rs == p + [res];
      EmitAtomsSnoc(p, res, offset);
    }
  }

  lemma {:induction false} EmitAtomsSnoc(p: seq<Residue<Atom>>, res: Residue<Atom>, offset: nat)
    requires EmitResidues(p, offset).Ok? ==> AtomsEmitted(|p|, offset, EmitResidues(p, offset).value.residues)
    ensures EmitResidues(p + [res], offset).Ok? ==>
      AtomsEmitted(|p| + 1, offset, EmitResidues(p + [res], offset).value.residues)
  {
    EmitResiduesLast(p, res, offset);
    if EmitResidues(p, offset).Ok? && HasCa(res) {
      AtomsStep(EmitResidues(p, offset).value.residues, CaResidue(res, offset + |p|), offset);
    }
  }

  lemma {:induction false} AllHasCaSnoc(p: seq<Residue<Atom>>, res: Residue<Atom>)
    ensures (forall k :: 0 <= k < |p + [res]| ==> HasCa((p + [res])[k])) <==>
            (forall k :: 0 <= k < |p| ==> HasCa(p[k])) && HasCa(res)
  {
    var rs := p + [res];
    assert rs[|p|] == res;
    assert forall k :: 0 <= k < |p| ==> rs[k] == p[k];
  }

  lemma {:induction false} AllHasCaAppend(a: seq<Residue<Atom>>, b: seq<Residue<Atom>>)
    ensures (forall k :: 0 <= k < |a + b| ==> HasCa((a + b)[k])) <==>
            (forall k :: 0 <= k < |a| ==> HasCa(a[k])) && (forall k :: 0 <= k < |b| ==> HasCa(b[k]))
  {
    var rs := a + b;
    assert forall k :: 0 <= k < |a| ==> rs[k] == a[k];
    assert forall k :: 0 <= k < |b| ==> rs[|a| + k] == b[k];
  }

  lemma {:induction false} RowsStep(p: seq<Residue<Atom>>, res: Residue<Atom>, offset: nat, pre: Emitted)
    requires HasCa(res) && forall k :: 0 <= k < |p| ==> HasCa(p[k])
    requires |pre.residues| == |p| && |pre.caIdxs| == |p|
    requires forall k :: 0 <= k < |p| ==> pre.residues[k] == CaResidue(p[k], offset + k)
    requires forall k :: 0 <= k < |p| ==> pre.caIdxs[k] == (CaOf(p[k]), offset + k)
    ensures forall k :: 0 <= k < |p + [res]| ==>
      (pre.residues + [CaResidue(res, offset + |p|)])[k] == CaResidue((p + [res])[k], offset + k)
    ensures forall k :: 0 <= k < |p + [res]| ==>
      HasCa((p + [res])[k]) && (pre.caIdxs + [(CaOf(res), offset + |p|)])[k] == (CaOf((p + [res])[k]), offset + k)
  {
    var rs := p + [res];
    var out := pre.residues + [CaResidue(res, offset + |p|)];
    var ci := pre.caIdxs + [(CaOf(res), offset + |p|)];
    forall j | 0 <= j < |rs|
      ensures HasCa(rs[j]) && out[j] == CaResidue(rs[j], offset + j)
      ensures HasCa(rs[j]) && ci[j] == (CaOf(rs[j]), offset + j)
    {
      if j < |p| { assert rs[j] == p[j]; }
    }
  }

  lemma {:induction false} BondsStep(bs: seq<Bond>, bond: seq<Bond>, offset: nat, n: nat)
    requires BondsEmitted(n, offset, bs)
    requires bond == if n > 0 then [(offset + n - 1, offset + n)] else []
    ensures BondsEmitted(n + 1, offset, bs + bond)
  {
  }

  lemma {:induction false} AtomsStep(rs: seq<Residue<Bead>>, r: Residue<Bead>, offset: nat)
    requires AtomsEmitted(|rs|, offset, rs)
    requires r.atoms == [Bead(offset + |rs|, "CA", "C")]
    ensures AtomsEmitted(|rs| + 1, offset, rs + [r])
  {
    assert (rs + [r])[..|rs|] == rs;
    assert AtomsIn(rs + [r]) == AtomsIn(rs) + r.atoms;
  }

  /** Every residue becomes the CA residue at its own position, and the
      table row `r` records residue `r`'s CA atom. */
  ghost predicate ResiduesMapped(rs: seq<Residue<Atom>>, out: seq<Residue<Bead>>, caIdxs: seq<IndexPair>)
  {
    && (forall r :: 0 <= r < |rs| ==> HasCa(rs[r]))
    && |out| == |rs| && |caIdxs| == |rs|
    && (forall r :: 0 <= r < |rs| ==> out[r] == CaResidue(rs[r], r))
    && (forall r :: 0 <= r < |rs| ==> caIdxs[r] == (CaOf(rs[r]), r))
  }

  /** A bond joins beads `i` and `i+1` exactly when both lie in one chain. */
  ghost predicate ChainBonds(out: seq<Chain<Bead>>, bonds: seq<Bond>)
  {
    forall b: Bond :: b in bonds <==>
      b.1 == b.0 + 1 && b.1 < |AtomsOf(out)| && ChainOfAtom(out)[b.0] == ChainOfAtom(out)[b.1]
  }

  /** Everything `CalphaMapping.__init__` promises about its output. */
  ghost predicate CaBuilt(chains: seq<Chain<Atom>>, m: CaMapping)
  {
    var rs := ResiduesOf(chains);
    var out := m.top.chains;
    && ResiduesMapped(rs, ResiduesOf(out), m.caIdxs)
    && ShapeKept(chains, out)
    && |AtomsOf(out)| == |rs| && Dense(AtomsOf(out))
    && ChainBonds(out, m.top.bonds)
  }

  lemma {:induction false} EmitChainsSpec(chains: seq<Chain<Atom>>)
    ensures EmitChains(chains).Ok? <==>
      forall r :: 0 <= r < |ResiduesOf(chains)| ==> HasCa(ResiduesOf(chains)[r])
    ensures EmitChains(chains).Ok? ==> CaBuilt(chains, EmitChains(chains).value)
  {
    EmitChainsOk(chains);
    EmitChainsValue(chains);
  }

  lemma {:induction false} EmitChainsOk(chains: seq<Chain<Atom>>)
    ensures EmitChains(chains).Ok? <==>
      forall r :: 0 <= r < |ResiduesOf(chains)| ==> HasCa(ResiduesOf(chains)[r])
    decreases |chains|
  {
    if |chains| > 0 {
      EmitChainsOk(chains[..|chains| - 1]);
      EmitChainsOkStep(chains, chains[..|chains| - 1]);
    }
  }

  lemma {:induction false} EmitChainsOkStep(chains: seq<Chain<Atom>>, p: seq<Chain<Atom>>)
    requires |chains| > 0 && p == chains[..|chains| - 1]
    requires EmitChains(p).Ok? <==> forall r :: 0 <= r < |ResiduesOf(p)| ==> HasCa(ResiduesOf(p)[r])
    ensures EmitChains(chains).Ok? <==>
      forall r :: 0 <= r < |ResiduesOf(chains)| ==> HasCa(ResiduesOf(chains)[r])
  {
    var last := chains[|chains| - 1];
    assert ResiduesOf(chains) == ResiduesOf(p) + last.residues;
    AllHasCaAppend(ResiduesOf(p), last.residues);
    if EmitChains(p).Ok? {
      EmitRowsSpec(last.residues, |EmitChains(p).value.caIdxs|);
    }
  }

  lemma {:induction false} EmitChainsValue(chains: seq<Chain<Atom>>)
    ensures EmitChains(chains).Ok? ==> CaBuilt(chains, EmitChains(chains).value)
    decreases |chains|
  {
    if |chains| > 0 {
      EmitChainsValue(chains[..|chains| - 1]);
      EmitChainsValueStep(chains);
    }
  }

  lemma {:induction false} EmitChainsValueStep(chains: seq<Chain<Atom>>)
    requires |chains| > 0
    requires EmitChains(chains[..|chains| - 1]).Ok? ==>
      CaBuilt(chains[..|chains| - 1], EmitChains(chains[..|chains| - 1]).value)
    ensures EmitChains(chains).Ok? ==> CaBuilt(chains, EmitChains(chains).value)
  {
    var p := chains[..|chains| - 1];
    var last := chains[|chains| - 1];
    if EmitChains(p).Ok? {
      var pre := EmitChains(p).value;
      EmitResiduesSpec(last.residues, |pre.caIdxs|);
      if EmitResidues(last.residues, |pre.caIdxs|).Ok? {
        EmitChainsStep(chains, pre, EmitResidues(last.residues, |pre.caIdxs|).value, EmitChains(chains).value);
      }
    }
  }

  lemma {:induction false} EmitChainsStep(chains: seq<Chain<Atom>>, pre: CaMapping, e: Emitted, m: CaMapping)
    requires |chains| > 0
    requires CaBuilt(chains[..|chains| - 1], pre)
    requires ResiduesEmitted(chains[|chains| - 1].residues, |pre.caIdxs|, e)
    requires m == CaMapping(Topology(pre.top.chains + [Chain(e.residues)], pre.top.bonds + e.bonds),
                            pre.caIdxs + e.caIdxs)
    ensures CaBuilt(chains, m)
  {
    var p := chains[..|chains| - 1];
    var last := chains[|chains| - 1];
    var out := m.top.chains;
    assert chains == p + [last];
    assert out[..|out| - 1] == pre.top.chains;
    assert ResiduesOf(chains) == ResiduesOf(p) + last.residues;
    assert ResiduesOf(out) == ResiduesOf(pre.top.chains) + e.residues;
    MappedAppend(ResiduesOf(p), last.residues, ResiduesOf(pre.top.chains), pre.caIdxs, e);
    ShapeAppend(p, last, pre.top.chains, Chain(e.residues));
    DenseAppendChain(pre.top.chains, e.residues);
    BondsAppendChain(pre.top.chains, e.residues, pre.top.bonds, e.bonds);
  }

  lemma {:induction false} MappedAppend(a: seq<Residue<Atom>>, b: seq<Residue<Atom>>, oa: seq<Residue<Bead>>,
                     ia: seq<IndexPair>, e: Emitted)
    requires ResiduesMapped(a, oa, ia)
    requires ResiduesEmitted(b, |a|, e)
    ensures ResiduesMapped(a + b, oa + e.residues, ia + e.caIdxs)
  {
    AllHasCaAppend(a, b);
    var rs := a + b;
    forall r | 0 <= r < |rs|
      ensures (oa + e.residues)[r] == CaResidue(rs[r], r)
      ensures (ia + e.caIdxs)[r] == (CaOf(rs[r]), r)
    {
      if r < |a| {
        assert rs[r] == a[r];
      } else {
        assert rs[r] == b[r - |a|];
      }
    }
  }

  lemma {:induction false} BondsAppendChain(cs: seq<Chain<Bead>>, es: seq<Residue<Bead>>, bs: seq<Bond>, eb: seq<Bond>)
    requires forall b: Bond :: b in bs <==>
      b.1 == b.0 + 1 && b.1 < |AtomsOf(cs)| && ChainOfAtom(cs)[b.0] == ChainOfAtom(cs)[b.1]
    requires forall b: Bond :: b in eb <==>
      |AtomsOf(cs)| <= b.0 && b.1 == b.0 + 1 && b.1 < |AtomsOf(cs)| + |AtomsIn(es)|
    ensures var out := cs + [Chain(es)];
      forall b: Bond :: b in bs + eb <==>
        b.1 == b.0 + 1 && b.1 < |AtomsOf(out)| && ChainOfAtom(out)[b.0] == ChainOfAtom(out)[b.1]
  {
    var out := cs + [Chain(es)];
    assert out[..|out| - 1] == cs;
    AtomsOfLast(out);
    var np := |AtomsOf(cs)|;
    var ca := ChainOfAtom(out);
    assert ca == ChainOfAtom(cs) + seq(|AtomsIn(es)|, _ => |cs|);
    forall b: Bond ensures b in bs + eb <==>
      b.1 == b.0 + 1 && b.1 < |AtomsOf(out)| && ca[b.0] == ca[b.1]
    {
      if b.1 == b.0 + 1 && b.1 < |AtomsOf(out)| {
        if b.1 < np {
          assert ca[b.0] == ChainOfAtom(cs)[b.0];
          assert ca[b.1] == ChainOfAtom(cs)[b.1];
        } else if b.0 < np {
          assert ca[b.0] == ChainOfAtom(cs)[b.0] < |cs|;
          assert ca[b.1] == |cs|;
        }
      }
    }
  }

  /** `CalphaMapping(topology)` succeeds exactly when every residue has a CA;
      then each residue becomes one CA bead whose index is its position, the
      table records that residue's CA, bead indices are dense, and a bond
      joins beads `i` and `i+1` exactly when they lie in the same chain. */
  lemma {:induction false} BuildSpec(top: Topology<Atom>)
    ensures Build(top).Ok? <==>
      forall r :: 0 <= r < |ResiduesOf(top.chains)| ==> HasCa(ResiduesOf(top.chains)[r])
    ensures Build(top).Ok? ==> CaBuilt(top.chains, Build(top).value)
  {
    EmitChainsSpec(top.chains);
  }

  function Sources(m: CaMapping): (srcs: seq<nat>)
    ensures |srcs| == |m.caIdxs|
    ensures forall k :: 0 <= k < |srcs| ==> srcs[k] == m.caIdxs[k].0
  {
    seq(|m.caIdxs|, k requires 0 <= k < |m.caIdxs| => m.caIdxs[k].0)
  }

  /** `map_traj`: `traj.xyz[:, _ca_idxs[:, 0], :]`. */
  function MapTraj(m: CaMapping, t: Trajectory): Result<Trajectory>
    requires WellShaped(t)
  {
    Gather(Sources(m), t)
  }

  /** Projecting a trajectory keeps its frames, and bead `r` of every frame is
      exactly the source CA of residue `r`. It fails only for an empty
      topology or a trajectory too small for the topology. */
  lemma {:induction false} MapTrajCopiesCa(top: Topology<Atom>, t: Trajectory)
    requires Build(top).Ok?
    requires WellShaped(t)
    ensures var rs := ResiduesOf(top.chains);
      MapTraj(Build(top).value, t).Ok? <==>
        |rs| > 0 && forall r :: 0 <= r < |rs| ==> HasCa(rs[r]) && CaOf(rs[r]) < t.nAtoms
    ensures var rs := ResiduesOf(top.chains);
      MapTraj(Build(top).value, t).Ok? ==>
        var out := MapTraj(Build(top).value, t).value;
        && out.nAtoms == |rs| && |out.frames| == |t.frames|
        && forall f, r :: 0 <= f < |t.frames| && 0 <= r < |rs| ==>
             HasCa(rs[r]) && out.frames[f][r] == t.frames[f][CaOf(rs[r])]
  {
    BuildSpec(top);
  }

  /** `_residue_to_atom_contacts`: each residue contact `(n, k)` becomes the
      pair of the two residues' first beads (`residue(n).atom(0)`). */
  function ResidueToAtomContacts(m: CaMapping, contacts: seq<(int, int)>): Result<seq<Bond>>
  {
    if |contacts| == 0 then Ok([])
    else
      var pre :- ResidueToAtomContacts(m, contacts[..|contacts| - 1]);
      var (n, k) := contacts[|contacts| - 1];
      var rs := ResiduesOf(m.top.chains);
      var caN :- OptionToResult(BeadOf(rs, n, 0), IndexOutOfRange);
      var caK :- OptionToResult(BeadOf(rs, k, 0), IndexOutOfRange);
      Ok(pre + [(caN, caK)])
  }

  /** Residue `r`'s first bead is bead `r`, as in every C-alpha topology. */
  ghost predicate OwnsFirstBead(rs: seq<Residue<Bead>>)
  {
    forall r :: 0 <= r < |rs| ==> |rs[r].atoms| > 0 && rs[r].atoms[0].index == r
  }

  lemma {:induction false} CaOwnsFirstBead(chains: seq<Chain<Atom>>, m: CaMapping)
    requires CaBuilt(chains, m)
    ensures OwnsFirstBead(ResiduesOf(m.top.chains))
    ensures |ResiduesOf(m.top.chains)| == |ResiduesOf(chains)|
  {
    var rs := ResiduesOf(chains);
    var out := ResiduesOf(m.top.chains);
    forall r | 0 <= r < |out| ensures |out[r].atoms| > 0 && out[r].atoms[0].index == r {
      assert out[r] == CaResidue(rs[r], r);
    }
  }

  /** `topology.residue(i).atom(0).index` is `i`, read as a Python index. */
  lemma {:induction false} FirstBeadOf(rs: seq<Residue<Bead>>, i: int)
    requires OwnsFirstBead(rs)
    ensures BeadOf(rs, i, 0) == if InPyRange(i, |rs|) then Some(Wrap(i, |rs|) as nat) else None
  {
  }

  /** One bead pair per residue pair, in order, each naming the residues'
      own beads. */
  ghost predicate PairsTranslated(ps: seq<(int, int)>, n: nat, out: seq<Bond>)
  {
    && |out| == |ps|
    && forall q :: 0 <= q < |ps| ==> out[q].0 == Wrap(ps[q].0, n) && out[q].1 == Wrap(ps[q].1, n)
  }

  lemma {:induction false} ContactsOwned(m: CaMapping, contacts: seq<(int, int)>)
    requires OwnsFirstBead(ResiduesOf(m.top.chains))
    ensures var n := |ResiduesOf(m.top.chains)|;
      ResidueToAtomContacts(m, contacts).Ok? <==> PairsInRange(contacts, n)
    ensures ResidueToAtomContacts(m, contacts).Ok? ==>
      PairsTranslated(contacts, |ResiduesOf(m.top.chains)|, ResidueToAtomContacts(m, contacts).value)
    decreases |contacts|
  {
    if |contacts| > 0 {
      var rs := ResiduesOf(m.top.chains);
      var p := contacts[..|contacts| - 1];
      var c := contacts[|contacts| - 1];
      ContactsOwned(m, p);
      FirstBeadOf(rs, c.0);
      FirstBeadOf(rs, c.1);
      assert contacts == p + [c];
      PairsInRangeSnoc(p, c, |rs|);
      if ResidueToAtomContacts(m, contacts).Ok? {
        PairsTranslatedSnoc(p, c, |rs|, ResidueToAtomContacts(m, p).value);
      }
    }
  }

  lemma {:induction false} PairsTranslatedSnoc(p: seq<(int, int)>, c: (int, int), n: nat, out: seq<Bond>)
    requires PairsTranslated(p, n, out)
    requires 0 <= Wrap(c.0, n) && 0 <= Wrap(c.1, n)
    ensures PairsTranslated(p + [c], n, out + [(Wrap(c.0, n) as nat, Wrap(c.1, n) as nat)])
  {
    var ps := p + [c];
    assert forall q :: 0 <= q < |p| ==> ps[q] == p[q];
  }

  /** Contact translation gives exactly one CA-CA pair per residue contact, in
      input order, naming the contacted residues' own beads; it fails exactly
      when a residue index is out of Python's range. */
  lemma {:induction false} ContactsSpec(top: Topology<Atom>, contacts: seq<(int, int)>)
    requires Build(top).Ok?
    ensures var n := |ResiduesOf(top.chains)|;
      ResidueToAtomContacts(Build(top).value, contacts).Ok? <==>
        forall q :: 0 <= q < |contacts| ==> InPyRange(contacts[q].0, n) && InPyRange(contacts[q].1, n)
    ensures var n := |ResiduesOf(top.chains)|;
      ResidueToAtomContacts(Build(top).value, contacts).Ok? ==>
        var out := ResidueToAtomContacts(Build(top).value, contacts).value;
        && |out| == |contacts|
        && forall q :: 0 <= q < |contacts| ==>
             out[q].0 == Wrap(contacts[q].0, n) && out[q].1 == Wrap(contacts[q].1, n)
  {
    BuildSpec(top);
    CaOwnsFirstBead(top.chains, Build(top).value);
    ContactsOwned(Build(top).value, contacts);
  }

  /** `_assign_sbm_angles`: consecutive bead triples of each chain. */
  function AssignSbmAngles(m: CaMapping): seq<Triple>
  {
    ChainTriples(m.top.chains)
  }

  /** `_assign_sbm_dihedrals`: consecutive bead quadruples of each chain; the
      C-alpha model has no improper dihedrals. */
  function AssignSbmDihedrals(m: CaMapping): (d: SbmDihedrals)
    ensures d.improper == []
  {
    SbmDihedrals(ChainQuads(m.top.chains), [])
  }

  /** The default angles are exactly the triples of consecutive beads of one
      chain, and the default dihedrals exactly such quadruples; they come
      chain by chain, and a chain of `n` beads gives, in bead order, its
      `n - 2` triples and `n - 3` quadruples. */
  lemma {:induction false} SbmTermsSpec(top: Topology<Atom>)
    requires Build(top).Ok?
    ensures var out := Build(top).value.top.chains;
      && AssignSbmAngles(Build(top).value) == Flatten(TripleRows(out))
      && AssignSbmDihedrals(Build(top).value).proper == Flatten(QuadRows(out))
    ensures var out := Build(top).value.top.chains;
      forall a: Triple :: a in AssignSbmAngles(Build(top).value) <==>
        a.1 == a.0 + 1 && a.2 == a.1 + 1 && a.2 < |AtomsOf(out)|
        && ChainOfAtom(out)[a.0] == ChainOfAtom(out)[a.2]
    ensures var out := Build(top).value.top.chains;
      forall q: Quad :: q in AssignSbmDihedrals(Build(top).value).proper <==>
        q.1 == q.0 + 1 && q.2 == q.1 + 1 && q.3 == q.2 + 1 && q.3 < |AtomsOf(out)|
        && ChainOfAtom(out)[q.0] == ChainOfAtom(out)[q.3]
  {
    BuildSpec(top);
    ChainTriplesRows(Build(top).value.top.chains);
    ChainQuadsRows(Build(top).value.top.chains);
    ChainTriplesConsecutive(Build(top).value.top.chains);
    ChainQuadsConsecutive(Build(top).value.top.chains);
  }

  /** `add_disulfides`: for each residue pair, a CA-CA bond between the two
      cysteines, angles (pre, cys1, cys2) and (cys1, cys2, post), and the
      dihedral (pre, cys1, cys2, post), where `pre` is residue `pair[0]-1` and
      `post` is residue `pair[1]-1`, looked up as Python list indices. */
  function AddDisulfides(s: SbmState, pairs: seq<(int, int)>): Result<SbmState>
  {
    if |pairs| == 0 then Ok(s)
    else
      var pre :- AddDisulfides(s, pairs[..|pairs| - 1]);
      AddDisulfide(pre, pairs[|pairs| - 1])
  }

  /** One pass of the loop in `add_disulfides`, for the residue pair `(a, b)`. */
  function AddDisulfide(pre: SbmState, pair: (int, int)): Result<SbmState>
  {
    var (a, b) := pair;
    var rs := ResiduesOf(pre.top.chains);
    var cys1 :- OptionToResult(BeadOf(rs, a, 0), IndexOutOfRange);
    var cys2 :- OptionToResult(BeadOf(rs, b, 0), IndexOutOfRange);
    var ca1 :- OptionToResult(BeadOf(rs, a - 1, 0), IndexOutOfRange);
    var ca2 :- OptionToResult(BeadOf(rs, b - 1, 0), IndexOutOfRange);
    Ok(SbmState(Topology(pre.top.chains, pre.top.bonds + [(cys1, cys2)]),
                pre.angles + [(ca1, cys1, cys2), (cys1, cys2, ca2)],
                pre.dihedrals + [(ca1, cys1, cys2, ca2)]))
  }

  ghost predicate DisulfidesInRange(ps: seq<(int, int)>, n: nat)
  {
    forall q :: 0 <= q < |ps| ==>
      InPyRange(ps[q].0, n) && InPyRange(ps[q].1, n)
      && InPyRange(ps[q].0 - 1, n) && InPyRange(ps[q].1 - 1, n)
  }

  /** `r` is `s` with, for each pair, one bond, two angles and one dihedral
      over the beads of the named residues appended, and nothing else changed. */
  ghost predicate DisulfidesAdded(s: SbmState, ps: seq<(int, int)>, n: nat, r: SbmState)
  {
    && r.top.chains == s.top.chains
    && |r.top.bonds| == |s.top.bonds| + |ps|
    && |r.angles| == |s.angles| + 2 * |ps|
    && |r.dihedrals| == |s.dihedrals| + |ps|
    && r.top.bonds[..|s.top.bonds|] == s.top.bonds
    && r.angles[..|s.angles|] == s.angles
    && r.dihedrals[..|s.dihedrals|] == s.dihedrals
    && forall q :: 0 <= q < |ps| ==>
         var c1 := Wrap(ps[q].0, n);
         var c2 := Wrap(ps[q].1, n);
         var pre := Wrap(ps[q].0 - 1, n);
         var post := Wrap(ps[q].1 - 1, n);
         && r.top.bonds[|s.top.bonds| + q] == (c1, c2)
         && r.angles[|s.angles| + 2 * q] == (pre, c1, c2)
         && r.angles[|s.angles| + 2 * q + 1] == (c1, c2, post)
         && r.dihedrals[|s.dihedrals| + q] == (pre, c1, c2, post)
  }

  lemma {:induction false} DisulfidesOwned(s: SbmState, pairs: seq<(int, int)>)
    requires OwnsFirstBead(ResiduesOf(s.top.chains))
    ensures AddDisulfides(s, pairs).Ok? <==> DisulfidesInRange(pairs, |ResiduesOf(s.top.chains)|)
    ensures AddDisulfides(s, pairs).Ok? ==>
      DisulfidesAdded(s, pairs, |ResiduesOf(s.top.chains)|, AddDisulfides(s, pairs).value)
  {
    DisulfidesOk(s, pairs);
    DisulfidesValue(s, pairs);
  }

  /** The pair succeeds exactly when its four residues exist, and then adds
      the bond, angles and dihedral over their first beads. */
  lemma {:induction false} AddDisulfideShape(pre: SbmState, c: (int, int), n: nat)
    requires OwnsFirstBead(ResiduesOf(pre.top.chains)) && n == |ResiduesOf(pre.top.chains)|
    ensures AddDisulfide(pre, c).Ok? <==>
      InPyRange(c.0, n) && InPyRange(c.1, n) && InPyRange(c.0 - 1, n) && InPyRange(c.1 - 1, n)
    ensures AddDisulfide(pre, c).Ok? ==>
      0 <= Wrap(c.0, n) && 0 <= Wrap(c.1, n) && 0 <= Wrap(c.0 - 1, n) && 0 <= Wrap(c.1 - 1, n)
      && AddDisulfide(pre, c).value ==
           SbmState(Topology(pre.top.chains, pre.top.bonds + [(Wrap(c.0, n) as nat, Wrap(c.1, n) as nat)]),
                    pre.angles + [(Wrap(c.0 - 1, n) as nat, Wrap(c.0, n) as nat, Wrap(c.1, n) as nat),
                                  (Wrap(c.0, n) as nat, Wrap(c.1, n) as nat, Wrap(c.1 - 1, n) as nat)],
                    pre.dihedrals + [(Wrap(c.0 - 1, n) as nat, Wrap(c.0, n) as nat,
                                      Wrap(c.1, n) as nat, Wrap(c.1 - 1, n) as nat)])
  {
    var rs := ResiduesOf(pre.top.chains);
    FirstBeadOf(rs, c.0);
    FirstBeadOf(rs, c.1);
    FirstBeadOf(rs, c.0 - 1);
    FirstBeadOf(rs, c.1 - 1);
  }

  lemma {:induction false} DisulfidesOk(s: SbmState, pairs: seq<(int, int)>)
    requires OwnsFirstBead(ResiduesOf(s.top.chains))
    ensures AddDisulfides(s, pairs).Ok? <==> DisulfidesInRange(pairs, |ResiduesOf(s.top.chains)|)
    ensures AddDisulfides(s, pairs).Ok? ==> AddDisulfides(s, pairs).value.top.chains == s.top.chains
    decreases |pairs|
  {
    if |pairs| > 0 {
      DisulfidesOk(s, pairs[..|pairs| - 1]);
      DisulfidesOkStep(s, pairs);
    }
  }

  lemma {:induction false} DisulfidesOkStep(s: SbmState, pairs: seq<(int, int)>)
    requires |pairs| > 0 && OwnsFirstBead(ResiduesOf(s.top.chains))
    requires AddDisulfides(s, pairs[..|pairs| - 1]).Ok? <==>
      DisulfidesInRange(pairs[..|pairs| - 1], |ResiduesOf(s.top.chains)|)
    requires AddDisulfides(s, pairs[..|pairs| - 1]).Ok? ==>
      AddDisulfides(s, pairs[..|pairs| - 1]).value.top.chains == s.top.chains
    ensures AddDisulfides(s, pairs).Ok? <==> DisulfidesInRange(pairs, |ResiduesOf(s.top.chains)|)
    ensures AddDisulfides(s, pairs).Ok? ==> AddDisulfides(s, pairs).value.top.chains == s.top.chains
  {
    var p := pairs[..|pairs| - 1];
    var c := pairs[|pairs| - 1];
    assert pairs == p + [c];
    DisulfidesInRangeSnoc(p, c, |ResiduesOf(s.top.chains)|);
    if AddDisulfides(s, p).Ok? {
      AddDisulfideShape(AddDisulfides(s, p).value, c, |ResiduesOf(s.top.chains)|);
    }
  }

  lemma {:induction false} DisulfidesValue(s: SbmState, pairs: seq<(int, int)>)
    requires OwnsFirstBead(ResiduesOf(s.top.chains))
    ensures AddDisulfides(s, pairs).Ok? ==>
      DisulfidesAdded(s, pairs, |ResiduesOf(s.top.chains)|, AddDisulfides(s, pairs).value)
    decreases |pairs|
  {
    if |pairs| > 0 {
      DisulfidesValue(s, pairs[..|pairs| - 1]);
      DisulfidesValueStep(s, pairs);
    }
  }

  lemma {:induction false} DisulfidesValueStep(s: SbmState, pairs: seq<(int, int)>)
    requires |pairs| > 0 && OwnsFirstBead(ResiduesOf(s.top.chains))
    requires AddDisulfides(s, pairs[..|pairs| - 1]).Ok? ==>
      DisulfidesAdded(s, pairs[..|pairs| - 1], |ResiduesOf(s.top.chains)|, AddDisulfides(s, pairs[..|pairs| - 1]).value)
    ensures AddDisulfides(s, pairs).Ok? ==>
      DisulfidesAdded(s, pairs, |ResiduesOf(s.top.chains)|, AddDisulfides(s, pairs).value)
  {
    var p := pairs[..|pairs| - 1];
    var c := pairs[|pairs| - 1];
    if AddDisulfides(s, p).Ok? {
      var pre := AddDisulfides(s, p).value;
      AddDisulfideShape(pre, c, |ResiduesOf(s.top.chains)|);
      if AddDisulfide(pre, c).Ok? {
        DisulfidesAddedSnoc(s, pairs, |ResiduesOf(s.top.chains)|, pre, AddDisulfide(pre, c).value);
      }
    }
  }

  lemma {:induction false} DisulfidesInRangeSnoc(p: seq<(int, int)>, c: (int, int), n: nat)
    ensures DisulfidesInRange(p + [c], n) <==>
      DisulfidesInRange(p, n) && InPyRange(c.0, n) && InPyRange(c.1, n)
      && InPyRange(c.0 - 1, n) && InPyRange(c.1 - 1, n)
  {
    var ps := p + [c];
    assert ps[|p|] == c;
    assert forall q :: 0 <= q < |p| ==> ps[q] == p[q];
  }

  lemma {:induction false} DisulfidesAddedSnoc(s: SbmState, pairs: seq<(int, int)>, n: nat, pre: SbmState, r: SbmState)
    requires |pairs| > 0
    requires DisulfidesAdded(s, pairs[..|pairs| - 1], n, pre)
    requires var c := pairs[|pairs| - 1];
      0 <= Wrap(c.0, n) && 0 <= Wrap(c.1, n) && 0 <= Wrap(c.0 - 1, n) && 0 <= Wrap(c.1 - 1, n)
    requires var c := pairs[|pairs| - 1];
      var c1, c2 := Wrap(c.0, n) as nat, Wrap(c.1, n) as nat;
      var ca1, ca2 := Wrap(c.0 - 1, n) as nat, Wrap(c.1 - 1, n) as nat;
      r == SbmState(Topology(pre.top.chains, pre.top.bonds + [(c1, c2)]),
                    pre.angles + [(ca1, c1, c2), (c1, c2, ca2)],
                    pre.dihedrals + [(ca1, c1, c2, ca2)])
    ensures DisulfidesAdded(s, pairs, n, r)
  {
    var p := pairs[..|pairs| - 1];
    assert forall q :: 0 <= q < |p| ==> pairs[q] == p[q];
    assert r.top.bonds[..|s.top.bonds|] == pre.top.bonds[..|s.top.bonds|];
    assert r.angles[..|s.angles|] == pre.angles[..|s.angles|];
    assert r.dihedrals[..|s.dihedrals|] == pre.dihedrals[..|s.dihedrals|];
  }

  /** On a C-alpha topology of `n` residues, `add_disulfides` succeeds exactly
      when residues `a`, `b`, `a-1` and `b-1` all exist (as Python indices);
      then each pair adds one bond, two angles and one dihedral over the beads
      of those residues, after the existing terms, and changes nothing else. */
  lemma {:induction false} AddDisulfidesSpec(chains: seq<Chain<Atom>>, m: CaMapping, s: SbmState, pairs: seq<(int, int)>)
    requires CaBuilt(chains, m)
    requires s.top.chains == m.top.chains
    ensures AddDisulfides(s, pairs).Ok? <==> DisulfidesInRange(pairs, |ResiduesOf(chains)|)
    ensures AddDisulfides(s, pairs).Ok? ==>
      DisulfidesAdded(s, pairs, |ResiduesOf(chains)|, AddDisulfides(s, pairs).value)
  {
    CaOwnsFirstBead(chains, m);
    DisulfidesOwned(s, pairs);
  }
}
