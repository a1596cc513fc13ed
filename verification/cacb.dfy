/** The C-alpha/C-beta mapping: a CA bead per residue and, for every residue
    but glycine, a CB bead placed at the mass-weighted centre of the
    residue's heavy sidechain atoms. */
module CalphaCbetaMapping {
  import opened Common
  import opened Structure
  import opened Projection

  /** A row of `_sidechain_idxs` with its `_sidechain_mass` entry: nothing for
      glycine, otherwise the heavy sidechain atoms, the CB bead and the atoms'
      masses. */
  datatype Sidechain = NoSidechain | Sidechain(atoms: seq<nat>, bead: nat, masses: seq<real>)

  datatype CbMapping = CbMapping(top: Topology<Bead>, caIdxs: seq<IndexPair>, sidechains: seq<Sidechain>)

  /** `atom_types.residue_code`: residue name to one-letter code. The table
      itself is not part of this model. */
  type Codes = map<string, string>

  /** What one chain contributes while the topology is being built. */
  datatype Emitted = Emitted(residues: seq<Residue<Bead>>, bonds: seq<Bond>,
                             caIdxs: seq<IndexPair>, sidechains: seq<Sidechain>)

  /** The residue can be mapped: it has a CA and, unless it is glycine, a
      one-letter code. */
  predicate Mappable(r: Residue<Atom>, codes: Codes)
  {
    HasCa(r) && HasCode(r, codes)
  }

  /** Glycine needs no code; every other residue needs one. */
  predicate HasCode(r: Residue<Atom>, codes: Codes)
  {
    r.name == GLY || r.name in codes
  }

  /** The heavy sidechain atoms: `is_sidechain` and not hydrogen, in order. */
  function HeavySidechain(atoms: seq<Atom>): (hs: seq<Atom>)
    ensures |hs| <= |atoms|
    ensures forall a :: a in hs <==> a in atoms && a.sidechain && a.element != "H"
  {
    if |atoms| == 0 then []
    else
      var pre := HeavySidechain(atoms[..|atoms| - 1]);
      var a := atoms[|atoms| - 1];
      assert atoms == atoms[..|atoms| - 1] + [a];
      if a.sidechain && a.element != "H" then pre + [a] else pre
  }

  /** The filter keeps each heavy sidechain atom as often as it occurs and
      drops every other atom, so the centre of mass weighs each atom once. */
  lemma {:induction false} HeavySidechainCounts(atoms: seq<Atom>)
    ensures forall a :: multiset(HeavySidechain(atoms))[a] == if a.sidechain && a.element != "H" then multiset(atoms)[a] else 0
    decreases |atoms|
  {
    if |atoms| > 0 {
      var p := atoms[..|atoms| - 1];
      HeavySidechainCounts(p);
      assert atoms == p + [atoms[|atoms| - 1]];
    }
  }

  function AtomIndices(atoms: seq<Atom>): (ix: seq<nat>)
    ensures |ix| == |atoms|
    ensures forall k :: 0 <= k < |atoms| ==> ix[k] == atoms[k].index
  {
    seq(|atoms|, k requires 0 <= k < |atoms| => atoms[k].index)
  }

  function Masses(atoms: seq<Atom>): (ms: seq<real>)
    ensures |ms| == |atoms|
    ensures forall k :: 0 <= k < |atoms| ==> ms[k] == atoms[k].mass
  {
    seq(|atoms|, k requires 0 <= k < |atoms| => atoms[k].mass)
  }

  /** The coarse-grained residue made for source residue `r` at global
      position `pos` whose CA bead is `k`: `resSeq` counts residues from 1. */
  function CbResidue(r: Residue<Atom>, pos: nat, k: nat, codes: Codes): Residue<Bead>
    requires HasCode(r, codes)
  {
    Residue(r.name, pos + 1,
            [Bead(k, "CA", "C")] + if r.name == GLY then [] else [Bead(k + 1, "CB" + codes[r.name], "C")])
  }

  /** The sidechain table row of residue `r` whose CA bead is `k`. */
  function SidechainOf(r: Residue<Atom>, k: nat): Sidechain
  {
    if r.name == GLY then NoSidechain
    else Sidechain(AtomIndices(HeavySidechain(r.atoms)), k + 1, Masses(HeavySidechain(r.atoms)))
  }

  function CodeOf(codes: Codes, name: string): (r: Result<string>)
    ensures r.Ok? <==> name in codes
    ensures r.Ok? ==> r.value == codes[name]
    ensures r.Err? ==> r.error == UnknownResidueCode(name)
  {
    if name in codes then Ok(codes[name]) else Err(UnknownResidueCode(name))
  }

  /** One residue of a chain, at position `pos` of the topology, given what
      the chain's earlier residues emitted: its CA bead `k` comes next,
      bonded to the previous CA when there is one in this chain, and for all
      but glycine the CB bead `k + 1` follows, bonded to the CA. */
  function EmitResidue(pre: Emitted, res: Residue<Atom>, offset: nat, pos: nat, codes: Codes): Result<Emitted>
  {
    var k := offset + |AtomsIn(pre.residues)|;
    var ca :- OptionToResult(FindAtom(res.atoms, "CA"), MissingAtom("CA"));
    var caBond := if |pre.caIdxs| > 0 then [(pre.caIdxs[|pre.caIdxs| - 1].1, k)] else [];
    var cbBond := if res.name == GLY then [] else [(k + 1, k)];
    var _ :- if res.name == GLY then Ok("") else CodeOf(codes, res.name);
    Ok(Emitted(pre.residues + [CbResidue(res, pos, k, codes)], pre.bonds + caBond + cbBond,
               pre.caIdxs + [(ca, k)], pre.sidechains + [SidechainOf(res, k)]))
  }

  /** The residues of one chain; `offset` counts the beads and `pos` the
      residues emitted before the chain. */
  function EmitResidues(rs: seq<Residue<Atom>>, offset: nat, pos: nat, codes: Codes): Result<Emitted>
  {
    if |rs| == 0 then Ok(Emitted([], [], [], []))
    else
      var pre :- EmitResidues(rs[..|rs| - 1], offset, pos, codes);
      EmitResidue(pre, rs[|rs| - 1], offset, pos + |rs| - 1, codes)
  }

  function EmitChains(chains: seq<Chain<Atom>>, codes: Codes): Result<CbMapping>
  {
    if |chains| == 0 then Ok(CbMapping(Topology([], []), [], []))
    else
      var pre :- EmitChains(chains[..|chains| - 1], codes);
      var e :- EmitResidues(chains[|chains| - 1].residues, |AtomsOf(pre.top.chains)|, |pre.caIdxs|, codes);
      Ok(CbMapping(Topology(pre.top.chains + [Chain(e.residues)], pre.top.bonds + e.bonds),
                   pre.caIdxs + e.caIdxs, pre.sidechains + e.sidechains))
  }

  /** `CalphaCbetaMapping(topology)`: fails when a residue has no CA atom or
      a non-glycine residue has no one-letter code. */
  function Build(top: Topology<Atom>, codes: Codes): Result<CbMapping>
  {
    EmitChains(top.chains, codes)
  }


  // ---- What the build promises ------------------------------------------

  /** The index of a coarse-grained residue's first bead, its CA. */
  function CaBead(o: Residue<Bead>): nat
  {
    if |o.atoms| == 0 then 0 else o.atoms[0].index
  }

  /** Source residue `r` of `rs` (numbered from `pos`) became `out[r]`: a CA
      bead and, unless glycine, a CB bead right after it; its CA row pairs
      the residue's CA atom with that CA bead and its sidechain row names the
      heavy sidechain atoms and the CB bead. */
  ghost predicate RowMapped(rs: seq<Residue<Atom>>, pos: nat, codes: Codes,
                            out: seq<Residue<Bead>>, ci: seq<IndexPair>, scs: seq<Sidechain>, r: int)
  {
    && 0 <= r < |rs| && r < |out| && r < |ci| && r < |scs|
    && HasCa(rs[r]) && HasCode(rs[r], codes)
    && out[r] == CbResidue(rs[r], pos + r, CaBead(out[r]), codes)
    && ci[r].0 == CaOf(rs[r]) && ci[r].1 == CaBead(out[r])
    && scs[r] == SidechainOf(rs[r], CaBead(out[r]))
  }

  /** Every residue of `rs` was mapped, and nothing else was emitted. */
  ghost predicate Mapped(rs: seq<Residue<Atom>>, pos: nat, codes: Codes,
                         out: seq<Residue<Bead>>, ci: seq<IndexPair>, scs: seq<Sidechain>)
  {
    && |out| == |rs| && |ci| == |rs| && |scs| == |rs|
    && forall r :: 0 <= r < |rs| ==> RowMapped(rs, pos, codes, out, ci, scs, r)
  }

  /** `x` is the CB-CA bond of coarse-grained residue `r`. */
  ghost predicate CbBondAt(os: seq<Residue<Bead>>, r: int, x: Bond)
  {
    0 <= r < |os| && os[r].name != GLY && x.0 == CaBead(os[r]) + 1 && x.1 == CaBead(os[r])
  }

  /** `x` is the CA-CA bond from residue `r - 1` to residue `r`. */
  ghost predicate CaBondAt(os: seq<Residue<Bead>>, r: int, x: Bond)
  {
    0 < r < |os| && x.0 == CaBead(os[r - 1]) && x.1 == CaBead(os[r])
  }

  /** Within one chain: every CB is bonded to its CA and every CA to the
      previous one, and there is no other bond. */
  ghost predicate ChainBonds(os: seq<Residue<Bead>>, bonds: seq<Bond>)
  {
    forall x: Bond :: x in bonds <==> (exists r :: CbBondAt(os, r, x)) || (exists r :: CaBondAt(os, r, x))
  }

  /** Over the whole topology (`cr` gives each residue's chain): CB-CA bonds,
      and CA-CA bonds only between neighbours in one chain. */
  ghost predicate TopologyBonds(os: seq<Residue<Bead>>, cr: seq<nat>, bonds: seq<Bond>)
    requires |cr| == |os|
  {
    forall x: Bond :: x in bonds <==>
      (exists r :: CbBondAt(os, r, x)) || (exists r :: CaBondAt(os, r, x) && cr[r - 1] == cr[r])
  }

  ghost predicate ChainEmitted(rs: seq<Residue<Atom>>, offset: nat, pos: nat, codes: Codes, e: Emitted)
  {
    && Mapped(rs, pos, codes, e.residues, e.caIdxs, e.sidechains)
    && DenseFrom(AtomsIn(e.residues), offset)
    && ChainBonds(e.residues, e.bonds)
  }

  /** Everything `CalphaCbetaMapping.__init__` promises about its output. */
  ghost predicate CbBuilt(chains: seq<Chain<Atom>>, codes: Codes, m: CbMapping)
  {
    var out := m.top.chains;
    && Mapped(ResiduesOf(chains), 0, codes, ResiduesOf(out), m.caIdxs, m.sidechains)
    && ShapeKept(chains, out)
    && Dense(AtomsOf(out))
    && TopologyBonds(ResiduesOf(out), ChainOfResidue(chains), m.top.bonds)
  }

  // ---- Proof of the build -----------------------------------------------

  lemma {:induction false} CbBondSnoc(os: seq<Residue<Bead>>, o: Residue<Bead>, x: Bond)
    ensures (exists r :: CbBondAt(os + [o], r, x)) <==>
      (exists r :: CbBondAt(os, r, x)) || (o.name != GLY && x.0 == CaBead(o) + 1 && x.1 == CaBead(o))
  {
    var s := os + [o];
    if r :| CbBondAt(s, r, x) {
      if r < |os| {
        assert s[r] == os[r];
        assert CbBondAt(os, r, x);
      }
    }
    if r :| CbBondAt(os, r, x) {
      assert s[r] == os[r];
      assert CbBondAt(s, r, x);
    }
    if o.name != GLY && x.0 == CaBead(o) + 1 && x.1 == CaBead(o) {
      assert CbBondAt(s, |os|, x);
    }
  }

  lemma {:induction false} CaBondSnoc(os: seq<Residue<Bead>>, o: Residue<Bead>, x: Bond)
    ensures (exists r :: CaBondAt(os + [o], r, x)) <==>
      (exists r :: CaBondAt(os, r, x)) || (|os| > 0 && x.0 == CaBead(os[|os| - 1]) && x.1 == CaBead(o))
  {
    var s := os + [o];
    if r :| CaBondAt(s, r, x) {
      if r < |os| {
        assert s[r] == os[r] && s[r - 1] == os[r - 1];
        assert CaBondAt(os, r, x);
      }
    }
    if r :| CaBondAt(os, r, x) {
      assert s[r] == os[r] && s[r - 1] == os[r - 1];
      assert CaBondAt(s, r, x);
    }
    if |os| > 0 && x.0 == CaBead(os[|os| - 1]) && x.1 == CaBead(o) {
      assert CaBondAt(s, |os|, x);
    }
  }

  lemma {:induction false} ChainBondsSnoc(os: seq<Residue<Bead>>, o: Residue<Bead>, bonds: seq<Bond>, caBond: seq<Bond>, cbBond: seq<Bond>)
    requires ChainBonds(os, bonds)
    requires |os| == 0 ==> caBond == []
    requires |os| > 0 ==> |caBond| == 1 && caBond[0].0 == CaBead(os[|os| - 1]) && caBond[0].1 == CaBead(o)
    requires o.name == GLY ==> cbBond == []
    requires o.name != GLY ==> |cbBond| == 1 && cbBond[0].0 == CaBead(o) + 1 && cbBond[0].1 == CaBead(o)
    ensures ChainBonds(os + [o], bonds + caBond + cbBond)
  {
    forall x: Bond ensures x in bonds + caBond + cbBond <==>
      (exists r :: CbBondAt(os + [o], r, x)) || (exists r :: CaBondAt(os + [o], r, x))
    {
      CbBondSnoc(os, o, x);
      CaBondSnoc(os, o, x);
    }
  }

  lemma {:induction false} MappedSnoc(p: seq<Residue<Atom>>, res: Residue<Atom>, pos: nat, codes: Codes,
                   out: seq<Residue<Bead>>, ci: seq<IndexPair>, scs: seq<Sidechain>, k: nat)
    requires Mapped(p, pos, codes, out, ci, scs)
    requires Mappable(res, codes)
    ensures Mapped(p + [res], pos, codes, out + [CbResidue(res, pos + |p|, k, codes)],
                   ci + [(CaOf(res), k)], scs + [SidechainOf(res, k)])
  {
    var rs := p + [res];
    var o := CbResidue(res, pos + |p|, k, codes);
    assert CaBead(o) == k;
    var out', ci', scs' := out + [o], ci + [(CaOf(res), k)], scs + [SidechainOf(res, k)];
    forall r | 0 <= r < |rs| ensures RowMapped(rs, pos, codes, out', ci', scs', r) {
      if r < |p| {
        assert RowMapped(p, pos, codes, out, ci, scs, r);
        assert rs[r] == p[r] && out'[r] == out[r] && ci'[r] == ci[r] && scs'[r] == scs[r];
      } else {
        assert rs[r] == res && out'[r] == o;
      }
    }
  }

  lemma {:induction false} DenseSnoc(out: seq<Residue<Bead>>, r: Residue<Bead>, offset: nat)
    requires DenseFrom(AtomsIn(out), offset)
    requires DenseFrom(r.atoms, offset + |AtomsIn(out)|)
    ensures AtomsIn(out + [r]) == AtomsIn(out) + r.atoms
    ensures DenseFrom(AtomsIn(out + [r]), offset)
  {
    assert (out + [r])[..|out|] == out;
  }

  lemma {:induction false} AllMappableSnoc(p: seq<Residue<Atom>>, res: Residue<Atom>, codes: Codes)
    ensures (forall r :: 0 <= r < |p + [res]| ==> Mappable((p + [res])[r], codes)) <==>
            (forall r :: 0 <= r < |p| ==> Mappable(p[r], codes)) && Mappable(res, codes)
  {
    var rs := p + [res];
    assert rs[|p|] == res;
    assert forall r :: 0 <= r < |p| ==> rs[r] == p[r];
  }

  lemma {:induction false} EmitResiduesOk(rs: seq<Residue<Atom>>, offset: nat, pos: nat, codes: Codes)
    ensures EmitResidues(rs, offset, pos, codes).Ok? <==> forall r :: 0 <= r < |rs| ==> Mappable(rs[r], codes)
    decreases |rs|
  {
    if |rs| > 0 {
      var p := rs[..|rs| - 1];
      var res := rs[|rs| - 1];
      EmitResiduesOk(p, offset, pos, codes);
      assert rs == p + [res];
      AllMappableSnoc(p, res, codes);
      EmitResiduesLast(p, res, offset, pos, codes);
      if EmitResidues(p, offset, pos, codes).Ok? {
        var pre := EmitResidues(p, offset, pos, codes).value;
        EmitResidueShape(pre, res, offset, pos + |p|, codes, offset + |AtomsIn(pre.residues)|);
      }
    }
  }

  lemma {:induction false} EmitResiduesSpec(rs: seq<Residue<Atom>>, offset: nat, pos: nat, codes: Codes)
    ensures EmitResidues(rs, offset, pos, codes).Ok? ==>
      ChainEmitted(rs, offset, pos, codes, EmitResidues(rs, offset, pos, codes).value)
    decreases |rs|
  {
    if |rs| > 0 {
      var p := rs[..|rs| - 1];
      var res := rs[|rs| - 1];
      EmitResiduesSpec(p, offset, pos, codes);
      assert rs == p + [res];
      EmitResiduesSnoc(p, res, offset, pos, codes);
    }
  }

  lemma {:induction false} EmitResiduesSnoc(p: seq<Residue<Atom>>, res: Residue<Atom>, offset: nat, pos: nat, codes: Codes)
    requires EmitResidues(p, offset, pos, codes).Ok? ==>
      ChainEmitted(p, offset, pos, codes, EmitResidues(p, offset, pos, codes).value)
    ensures EmitResidues(p + [res], offset, pos, codes).Ok? ==>
      ChainEmitted(p + [res], offset, pos, codes, EmitResidues(p + [res], offset, pos, codes).value)
  {
    EmitResiduesLast(p, res, offset, pos, codes);
    if EmitResidues(p, offset, pos, codes).Ok? {
      var pre := EmitResidues(p, offset, pos, codes).value;
      var k := offset + |AtomsIn(pre.residues)|;
      EmitResidueShape(pre, res, offset, pos + |p|, codes, k);
      if Mappable(res, codes) {
        ChainEmittedSnoc(p, res, offset, pos, codes, pre, k);
      }
    }
  }

  /** The step succeeds exactly for a mappable residue, and then appends
      that residue's coarse-grained residue, bonds and table rows. */
  lemma {:induction false} EmitResidueShape(pre: Emitted, res: Residue<Atom>, offset: nat, pos: nat, codes: Codes, k: nat)
    requires k == offset + |AtomsIn(pre.residues)|
    ensures !Mappable(res, codes) ==> EmitResidue(pre, res, offset, pos, codes).Err?
    ensures Mappable(res, codes) ==>
      EmitResidue(pre, res, offset, pos, codes) ==
        Ok(Emitted(pre.residues + [CbResidue(res, pos, k, codes)],
                   pre.bonds + (if |pre.caIdxs| > 0 then [(pre.caIdxs[|pre.caIdxs| - 1].1, k)] else [])
                             + (if res.name == GLY then [] else [(k + 1, k)]),
                   pre.caIdxs + [(CaOf(res), k)], pre.sidechains + [SidechainOf(res, k)]))
  {
  }

  lemma {:induction false} EmitResiduesLast(p: seq<Residue<Atom>>, res: Residue<Atom>, offset: nat, pos: nat, codes: Codes)
    ensures EmitResidues(p, offset, pos, codes).Err? ==> EmitResidues(p + [res], offset, pos, codes).Err?
    ensures EmitResidues(p, offset, pos, codes).Ok? ==>
      EmitResidues(p + [res], offset, pos, codes)
        == EmitResidue(EmitResidues(p, offset, pos, codes).value, res, offset, pos + |p|, codes)
  {
    assert (p + [res])[..|p|] == p;
  }

  lemma {:induction false} ChainEmittedSnoc(p: seq<Residue<Atom>>, res: Residue<Atom>, offset: nat, pos: nat, codes: Codes,
                         pre: Emitted, k: nat)
    requires Mappable(res, codes)
    requires ChainEmitted(p, offset, pos, codes, pre)
    requires k == offset + |AtomsIn(pre.residues)|
    ensures ChainEmitted(p + [res], offset, pos, codes,
      Emitted(pre.residues + [CbResidue(res, pos + |p|, k, codes)],
              pre.bonds + (if |pre.caIdxs| > 0 then [(pre.caIdxs[|pre.caIdxs| - 1].1, k)] else [])
                        + (if res.name == GLY then [] else [(k + 1, k)]),
              pre.caIdxs + [(CaOf(res), k)], pre.sidechains + [SidechainOf(res, k)]))
  {
    var o := CbResidue(res, pos + |p|, k, codes);
    var caBond: seq<Bond> := if |pre.caIdxs| > 0 then [(pre.caIdxs[|pre.caIdxs| - 1].1, k)] else [];
    var cbBond: seq<Bond> := if res.name == GLY then [] else [(k + 1, k)];
    if |p| > 0 {
      assert RowMapped(p, pos, codes, pre.residues, pre.caIdxs, pre.sidechains, |p| - 1);
    }
    MappedSnoc(p, res, pos, codes, pre.residues, pre.caIdxs, pre.sidechains, k);
    DenseSnoc(pre.residues, o, offset);
    ChainBondsSnoc(pre.residues, o, pre.bonds, caBond, cbBond);
  }

  lemma {:induction false} AllMappableAppend(a: seq<Residue<Atom>>, b: seq<Residue<Atom>>, codes: Codes)
    ensures (forall r :: 0 <= r < |a + b| ==> Mappable((a + b)[r], codes)) <==>
            (forall r :: 0 <= r < |a| ==> Mappable(a[r], codes)) && (forall r :: 0 <= r < |b| ==> Mappable(b[r], codes))
  {
    var s := a + b;
    assert forall r :: 0 <= r < |a| ==> s[r] == a[r];
    assert forall r :: 0 <= r < |b| ==> s[|a| + r] == b[r];
    if forall r :: 0 <= r < |a| ==> Mappable(a[r], codes) {
      if forall r :: 0 <= r < |b| ==> Mappable(b[r], codes) {
        forall r | 0 <= r < |s| ensures Mappable(s[r], codes) {
          if r >= |a| { assert s[r] == b[r - |a|]; }
        }
      }
    }
  }

  lemma {:induction false} EmitChainsOk(chains: seq<Chain<Atom>>, codes: Codes)
    ensures EmitChains(chains, codes).Ok? <==>
      forall r :: 0 <= r < |ResiduesOf(chains)| ==> Mappable(ResiduesOf(chains)[r], codes)
    decreases |chains|
  {
    if |chains| > 0 {
      var p := chains[..|chains| - 1];
      var last := chains[|chains| - 1];
      EmitChainsOk(p, codes);
      var all := ResiduesOf(chains);
      assert all == ResiduesOf(p) + last.residues;
      AllMappableAppend(ResiduesOf(p), last.residues, codes);
      if EmitChains(p, codes).Ok? {
        var pre := EmitChains(p, codes).value;
        EmitResiduesOk(last.residues, |AtomsOf(pre.top.chains)|, |pre.caIdxs|, codes);
        if EmitChains(chains, codes).Ok? {
          forall r | 0 <= r < |all| ensures Mappable(all[r], codes) {
            assert all[r] == (ResiduesOf(p) + last.residues)[r];
          }
        }
      }
    }
  }

  lemma {:induction false} EmitChainsSpec(chains: seq<Chain<Atom>>, codes: Codes)
    ensures EmitChains(chains, codes).Ok? ==> CbBuilt(chains, codes, EmitChains(chains, codes).value)
    decreases |chains|
  {
    if |chains| > 0 {
      var p := chains[..|chains| - 1];
      var last := chains[|chains| - 1];
      EmitChainsSpec(p, codes);
      if EmitChains(p, codes).Ok? {
        var pre := EmitChains(p, codes).value;
        var offset, pos := |AtomsOf(pre.top.chains)|, |pre.caIdxs|;
        EmitResiduesSpec(last.residues, offset, pos, codes);
        if EmitResidues(last.residues, offset, pos, codes).Ok? {
          var e := EmitResidues(last.residues, offset, pos, codes).value;
          var m := CbMapping(Topology(pre.top.chains + [Chain(e.residues)], pre.top.bonds + e.bonds),
                             pre.caIdxs + e.caIdxs, pre.sidechains + e.sidechains);
          assert EmitChains(chains, codes) == Ok(m);
          assert chains == p + [last];
          EmitChainsStep(p, last, codes, pre, e, m);
        }
      }
    }
  }

  lemma {:induction false} EmitChainsStep(p: seq<Chain<Atom>>, last: Chain<Atom>, codes: Codes, pre: CbMapping, e: Emitted, m: CbMapping)
    requires CbBuilt(p, codes, pre)
    requires ChainEmitted(last.residues, |AtomsOf(pre.top.chains)|, |pre.caIdxs|, codes, e)
    requires m == CbMapping(Topology(pre.top.chains + [Chain(e.residues)], pre.top.bonds + e.bonds),
                            pre.caIdxs + e.caIdxs, pre.sidechains + e.sidechains)
    ensures CbBuilt(p + [last], codes, m)
  {
    var chains := p + [last];
    var out := m.top.chains;
    assert chains[..|chains| - 1] == p;
    assert out[..|out| - 1] == pre.top.chains;
    assert ResiduesOf(chains) == ResiduesOf(p) + last.residues;
    assert ResiduesOf(out) == ResiduesOf(pre.top.chains) + e.residues;
    MappedAppend(ResiduesOf(p), last.residues, 0, codes, ResiduesOf(pre.top.chains), pre.caIdxs, pre.sidechains, e);
    ShapeAppend(p, last, pre.top.chains, Chain(e.residues));
    DenseAppendChain(pre.top.chains, e.residues);
    assert ChainOfResidue(chains) == ChainOfResidue(p) + seq(|last.residues|, _ => |p|);
    TopologyBondsAppend(ResiduesOf(pre.top.chains), e.residues, ChainOfResidue(p), |p|, pre.top.bonds, e.bonds);
  }

  lemma {:induction false} MappedAppend(a: seq<Residue<Atom>>, b: seq<Residue<Atom>>, pos: nat, codes: Codes,
                     oa: seq<Residue<Bead>>, ia: seq<IndexPair>, sa: seq<Sidechain>, e: Emitted)
    requires Mapped(a, pos, codes, oa, ia, sa)
    requires Mapped(b, pos + |a|, codes, e.residues, e.caIdxs, e.sidechains)
    ensures Mapped(a + b, pos, codes, oa + e.residues, ia + e.caIdxs, sa + e.sidechains)
  {
    var rs, out, ci, scs := a + b, oa + e.residues, ia + e.caIdxs, sa + e.sidechains;
    forall r | 0 <= r < |rs| ensures RowMapped(rs, pos, codes, out, ci, scs, r) {
      if r < |a| {
        assert RowMapped(a, pos, codes, oa, ia, sa, r);
        assert rs[r] == a[r] && out[r] == oa[r] && ci[r] == ia[r] && scs[r] == sa[r];
      } else {
        var j := r - |a|;
        assert RowMapped(b, pos + |a|, codes, e.residues, e.caIdxs, e.sidechains, j);
        assert rs[r] == b[j] && out[r] == e.residues[j] && ci[r] == e.caIdxs[j] && scs[r] == e.sidechains[j];
      }
    }
  }

  lemma {:induction false} CbBondAppend(oa: seq<Residue<Bead>>, ob: seq<Residue<Bead>>, x: Bond)
    ensures (exists r :: CbBondAt(oa + ob, r, x)) <==> (exists r :: CbBondAt(oa, r, x)) || (exists r :: CbBondAt(ob, r, x))
  {
    var s := oa + ob;
    if r :| CbBondAt(s, r, x) {
      if r < |oa| {
        assert s[r] == oa[r];
        assert CbBondAt(oa, r, x);
      } else {
        assert s[r] == ob[r - |oa|];
        assert CbBondAt(ob, r - |oa|, x);
      }
    }
    if r :| CbBondAt(oa, r, x) {
      assert s[r] == oa[r];
      assert CbBondAt(s, r, x);
    }
    if r :| CbBondAt(ob, r, x) {
      assert s[|oa| + r] == ob[r];
      assert CbBondAt(s, |oa| + r, x);
    }
  }

  lemma {:induction false} CaBondAppend(oa: seq<Residue<Bead>>, ob: seq<Residue<Bead>>, cra: seq<nat>, c: nat, cr: seq<nat>, x: Bond)
    requires |cra| == |oa| && forall r :: 0 <= r < |cra| ==> cra[r] < c
    requires cr == cra + seq(|ob|, _ => c)
    ensures (exists r :: CaBondAt(oa + ob, r, x) && cr[r - 1] == cr[r]) <==>
      (exists r :: CaBondAt(oa, r, x) && cra[r - 1] == cra[r]) || (exists r :: CaBondAt(ob, r, x))
  {
    var s := oa + ob;
    if r :| CaBondAt(s, r, x) && cr[r - 1] == cr[r] {
      if r < |oa| {
        assert s[r] == oa[r] && s[r - 1] == oa[r - 1];
        assert CaBondAt(oa, r, x) && cra[r - 1] == cra[r];
      } else if r > |oa| {
        assert s[r] == ob[r - |oa|] && s[r - 1] == ob[r - 1 - |oa|];
        assert CaBondAt(ob, r - |oa|, x);
      }
    }
    if r :| CaBondAt(oa, r, x) && cra[r - 1] == cra[r] {
      assert s[r] == oa[r] && s[r - 1] == oa[r - 1];
      assert CaBondAt(s, r, x) && cr[r - 1] == cr[r];
    }
    if r :| CaBondAt(ob, r, x) {
      var j := |oa| + r;
      assert s[j] == ob[r] && s[j - 1] == ob[r - 1];
      assert CaBondAt(s, j, x) && cr[j - 1] == cr[j];
    }
  }

  lemma {:induction false} TopologyBondsAppend(oa: seq<Residue<Bead>>, ob: seq<Residue<Bead>>, cra: seq<nat>, c: nat,
                            ba: seq<Bond>, bb: seq<Bond>)
    requires |cra| == |oa| && forall r :: 0 <= r < |cra| ==> cra[r] < c
    requires TopologyBonds(oa, cra, ba)
    requires ChainBonds(ob, bb)
    ensures TopologyBonds(oa + ob, cra + seq(|ob|, _ => c), ba + bb)
  {
    var cr := cra + seq(|ob|, _ => c);
    forall x: Bond ensures x in ba + bb <==>
      (exists r :: CbBondAt(oa + ob, r, x)) || (exists r :: CaBondAt(oa + ob, r, x) && cr[r - 1] == cr[r])
    {
      CbBondAppend(oa, ob, x);
      CaBondAppend(oa, ob, cra, c, cr, x);
    }
  }

  /** `CalphaCbetaMapping(topology)` succeeds exactly when every residue has
      a CA atom and every non-glycine residue a one-letter code. Then residue
      `r` becomes a CA bead and, unless glycine, a CB bead right after it,
      numbered `r + 1`; the beads are numbered densely in emission order; the
      CA table pairs each residue's CA atom with its CA bead; and the bonds
      are exactly each CB to its CA plus each CA to the previous CA of the
      same chain. */
  lemma {:induction false} BuildSpec(top: Topology<Atom>, codes: Codes)
    ensures Build(top, codes).Ok? <==>
      forall r :: 0 <= r < |ResiduesOf(top.chains)| ==> Mappable(ResiduesOf(top.chains)[r], codes)
    ensures Build(top, codes).Ok? ==> CbBuilt(top.chains, codes, Build(top, codes).value)
  {
    EmitChainsOk(top.chains, codes);
    EmitChainsSpec(top.chains, codes);
  }

  // ---- Projecting a trajectory ------------------------------------------

  /** What `map_traj` does for one coarse-grained residue: copy atom `caSrc`
      to bead `caDst`, and when `sc` is a sidechain row, put the row's bead
      at the mass-weighted mean of its atoms. */
  datatype Plan = Plan(caSrc: nat, caDst: nat, sc: Sidechain)

  /** The table lookups `map_traj` makes for residue `r`, failing as numpy
      does: a missing row or an index past the trajectory or the output is an
      IndexError, masses that do not match the atoms a broadcasting error. */
  function PlanRow(m: CbMapping, r: nat, res: Residue<Bead>, nAtoms: nat, nBeads: nat): (p: Result<Plan>)
    ensures p.Ok? ==> p.value.caSrc < nAtoms && p.value.caDst < nBeads
    ensures p.Ok? ==> (p.value.sc.Sidechain? <==> res.name != GLY)
    ensures p.Ok? && p.value.sc.Sidechain? ==>
      && p.value.sc.bead < nBeads && |p.value.sc.masses| == |p.value.sc.atoms|
      && forall k :: 0 <= k < |p.value.sc.atoms| ==> p.value.sc.atoms[k] < nAtoms
  {
    if r >= |m.caIdxs| || m.caIdxs[r].0 >= nAtoms || m.caIdxs[r].1 >= nBeads then Err(IndexOutOfRange)
    else if res.name == GLY then Ok(Plan(m.caIdxs[r].0, m.caIdxs[r].1, NoSidechain))
    else if r >= |m.sidechains| || m.sidechains[r].NoSidechain? then Err(IndexOutOfRange)
    else
      var sc := m.sidechains[r];
      if !AllBelow(sc.atoms, nAtoms) then Err(IndexOutOfRange)
      else if |sc.masses| != |sc.atoms| then Err(ShapeMismatch)
      else if sc.bead >= nBeads then Err(IndexOutOfRange)
      else Ok(Plan(m.caIdxs[r].0, m.caIdxs[r].1, sc))
  }

  /** A plan whose sources fit a frame of `nAtoms` atoms. */
  ghost predicate SourcesFit(p: Plan, nAtoms: nat)
  {
    && p.caSrc < nAtoms
    && (p.sc.Sidechain? ==>
          |p.sc.masses| == |p.sc.atoms| && forall k :: 0 <= k < |p.sc.atoms| ==> p.sc.atoms[k] < nAtoms)
  }

  /** A plan whose every index fits a frame of `nAtoms` atoms and an output
      of `nBeads` beads. */
  ghost predicate PlanFits(p: Plan, nAtoms: nat, nBeads: nat)
  {
    SourcesFit(p, nAtoms) && p.caDst < nBeads && (p.sc.Sidechain? ==> p.sc.bead < nBeads)
  }

  /** The plans for `topology.residues`, residue by residue. */
  function Plans(m: CbMapping, os: seq<Residue<Bead>>, nAtoms: nat, nBeads: nat): (ps: Result<seq<Plan>>)
    ensures ps.Ok? ==> |ps.value| == |os|
    ensures ps.Ok? ==> forall i :: 0 <= i < |ps.value| ==> PlanFits(ps.value[i], nAtoms, nBeads)
  {
    if |os| == 0 then Ok([])
    else
      var pre :- Plans(m, os[..|os| - 1], nAtoms, nBeads);
      var p :- PlanRow(m, |os| - 1, os[|os| - 1], nAtoms, nBeads);
      Ok(pre + [p])
  }

  /** The atoms of `frame` at `idxs`: `frame[idxs, :]`. */
  function Pick(frame: seq<Vec3>, idxs: seq<nat>): (ps: seq<Vec3>)
    requires forall k :: 0 <= k < |idxs| ==> idxs[k] < |frame|
    ensures |ps| == |idxs|
    ensures forall k :: 0 <= k < |idxs| ==> ps[k] == frame[idxs[k]]
  {
    seq(|idxs|, k requires 0 <= k < |idxs| => frame[idxs[k]])
  }

  /** The writes one plan makes into an output frame. */
  function RowWrites(p: Plan, frame: seq<Vec3>): (ws: seq<Write>)
    requires SourcesFit(p, |frame|)
    ensures forall j :: 0 <= j < |ws| ==> ws[j].0 == p.caDst || (p.sc.Sidechain? && ws[j].0 == p.sc.bead)
  {
    [(p.caDst, frame[p.caSrc])]
      + if p.sc.Sidechain? then [(p.sc.bead, MassWeightedMean(Pick(frame, p.sc.atoms), p.sc.masses))] else []
  }

  /** The writes of all plans, in residue order. */
  function Writes(ps: seq<Plan>, frame: seq<Vec3>, nBeads: nat): (ws: seq<Write>)
    requires forall i :: 0 <= i < |ps| ==> PlanFits(ps[i], |frame|, nBeads)
    ensures forall j :: 0 <= j < |ws| ==> ws[j].0 < nBeads
  {
    if |ps| == 0 then []
    else
      var p := ps[|ps| - 1];
      assert PlanFits(p, |frame|, nBeads);
      Writes(ps[..|ps| - 1], frame, nBeads) + RowWrites(p, frame)
  }

  /** `CalphaCbetaMapping.map_traj`: every frame starts at the origin, then
      each residue's CA is copied and each CB placed at the mass-weighted
      mean of its sidechain atoms. */
  function MapTraj(m: CbMapping, t: Trajectory): Result<Trajectory>
    requires WellShaped(t)
  {
    var n := |AtomsOf(m.top.chains)|;
    var ps :- Plans(m, ResiduesOf(m.top.chains), t.nAtoms, n);
    Ok(Trajectory(n, seq(|t.frames|, f requires 0 <= f < |t.frames| => Scatter(n, Writes(ps, t.frames[f], n)))))
  }

  // ---- What the projection promises -------------------------------------

  /** The trajectory has the atoms `map_traj` reads for source residue `src`:
      its CA and, unless glycine, its heavy sidechain atoms. */
  ghost predicate SourceFits(src: Residue<Atom>, nAtoms: nat)
  {
    && HasCa(src) && CaOf(src) < nAtoms
    && (src.name != GLY ==>
          forall k :: 0 <= k < |HeavySidechain(src.atoms)| ==> HeavySidechain(src.atoms)[k].index < nAtoms)
  }

  /** The plan the build's tables give residue `src` whose CA bead is `k`. */
  function PlanOf(src: Residue<Atom>, k: nat): Plan
    requires HasCa(src)
  {
    Plan(CaOf(src), k, SidechainOf(src, k))
  }

  /** Output frame `out` of source frame `frame`: the CA bead of residue `r`
      sits on the residue's CA atom and its CB bead at the mass-weighted
      mean of its heavy sidechain atoms. */
  ghost predicate FrameProjected(rs: seq<Residue<Atom>>, os: seq<Residue<Bead>>, frame: seq<Vec3>, out: seq<Vec3>)
  {
    forall r :: 0 <= r < |rs| && r < |os| && SourceFits(rs[r], |frame|) ==>
      && CaBead(os[r]) < |out| && out[CaBead(os[r])] == frame[CaOf(rs[r])]
      && (rs[r].name != GLY ==>
            && CaBead(os[r]) + 1 < |out|
            && out[CaBead(os[r]) + 1] == MassWeightedMean(Pick(frame, AtomIndices(HeavySidechain(rs[r].atoms))),
                                                          Masses(HeavySidechain(rs[r].atoms))))
  }

  // ---- Proof of the projection ------------------------------------------

  lemma {:induction false} AtomsInSingle<A>(r: Residue<A>)
    ensures AtomsIn([r]) == r.atoms
  {
    assert [r][..0] == [];
  }

  lemma {:induction false} AtomsInSplit<A>(os: seq<Residue<A>>, r: nat)
    requires r < |os|
    ensures AtomsIn(os) == AtomsIn(os[..r]) + os[r].atoms + AtomsIn(os[r + 1..])
  {
    var left := os[..r + 1];
    assert left[..r] == os[..r];
    assert left[r] == os[r];
    assert AtomsIn(left) == AtomsIn(os[..r]) + os[r].atoms;
    assert left + os[r + 1..] == os;
    AtomsInAppend(left, os[r + 1..]);
  }

  /** In a dense numbering, residue `r`'s beads follow those of the residues
      before it. */
  lemma {:induction false} BeadsOfResidue(os: seq<Residue<Bead>>, r: nat)
    requires r < |os|
    requires Dense(AtomsIn(os))
    ensures |AtomsIn(os[..r])| + |os[r].atoms| <= |AtomsIn(os)|
    ensures forall j :: 0 <= j < |os[r].atoms| ==> os[r].atoms[j].index == |AtomsIn(os[..r])| + j
  {
    AtomsInSplit(os, r);
    var a := AtomsIn(os[..r]);
    forall j | 0 <= j < |os[r].atoms| ensures os[r].atoms[j].index == |a| + j {
      assert AtomsIn(os)[|a| + j] == os[r].atoms[j];
    }
  }

  lemma {:induction false} PlanRowSpec(rs: seq<Residue<Atom>>, codes: Codes, m: CbMapping, os: seq<Residue<Bead>>,
                    nAtoms: nat, r: nat)
    requires Mapped(rs, 0, codes, os, m.caIdxs, m.sidechains)
    requires Dense(AtomsIn(os))
    requires r < |rs|
    ensures PlanRow(m, r, os[r], nAtoms, |AtomsIn(os)|).Ok? <==> SourceFits(rs[r], nAtoms)
    ensures PlanRow(m, r, os[r], nAtoms, |AtomsIn(os)|).Ok? ==>
      HasCa(rs[r]) && PlanRow(m, r, os[r], nAtoms, |AtomsIn(os)|).value == PlanOf(rs[r], CaBead(os[r]))
  {
    assert RowMapped(rs, 0, codes, os, m.caIdxs, m.sidechains, r);
    BeadsOfResidue(os, r);
    var k := CaBead(os[r]);
    assert os[r].atoms[0].index == k;
    if rs[r].name != GLY {
      assert os[r].atoms[1].index == k + 1;
      var h := HeavySidechain(rs[r].atoms);
      assert AllBelow(AtomIndices(h), nAtoms) <==> forall j :: 0 <= j < |h| ==> h[j].index < nAtoms;
    }
  }

  lemma {:induction false} PlansPrefix(rs: seq<Residue<Atom>>, codes: Codes, m: CbMapping, os: seq<Residue<Bead>>,
                                       nAtoms: nat, n: nat)
    requires n <= |rs|
    requires Mapped(rs, 0, codes, os, m.caIdxs, m.sidechains)
    requires Dense(AtomsIn(os))
    ensures Plans(m, os[..n], nAtoms, |AtomsIn(os)|).Ok? <==> forall r :: 0 <= r < n ==> SourceFits(rs[r], nAtoms)
    ensures Plans(m, os[..n], nAtoms, |AtomsIn(os)|).Ok? ==>
      forall r :: 0 <= r < n ==>
        HasCa(rs[r]) && Plans(m, os[..n], nAtoms, |AtomsIn(os)|).value[r] == PlanOf(rs[r], CaBead(os[r]))
  {
    if n > 0 {
      PlansPrefix(rs, codes, m, os, nAtoms, n - 1);
      assert os[..n][..n - 1] == os[..n - 1];
      assert os[..n][n - 1] == os[n - 1];
      PlanRowSpec(rs, codes, m, os, nAtoms, n - 1);
    }
  }

  /** Residue `r`'s writes target its own beads, in order. */
  lemma {:induction false} RowCover(rs: seq<Residue<Atom>>, codes: Codes, os: seq<Residue<Bead>>, ci: seq<IndexPair>,
                 scs: seq<Sidechain>, p: Plan, frame: seq<Vec3>, r: nat)
    requires RowMapped(rs, 0, codes, os, ci, scs, r)
    requires Dense(AtomsIn(os))
    requires SourcesFit(p, |frame|)
    requires HasCa(rs[r]) && p == PlanOf(rs[r], CaBead(os[r]))
    ensures |RowWrites(p, frame)| == |os[r].atoms|
    ensures forall j :: 0 <= j < |os[r].atoms| ==> RowWrites(p, frame)[j].0 == |AtomsIn(os[..r])| + j
  {
    BeadsOfResidue(os, r);
    var k := CaBead(os[r]);
    assert os[r].atoms[0].index == k;
  }

  lemma {:induction false} DenseConcat(pre: seq<Write>, row: seq<Write>)
    requires forall j :: 0 <= j < |pre| ==> pre[j].0 == j
    requires forall j :: 0 <= j < |row| ==> row[j].0 == |pre| + j
    ensures forall j :: 0 <= j < |pre + row| ==> (pre + row)[j].0 == j
  {
  }

  /** The targets of the writes are the bead indices `0, 1, 2, ...` in order:
      residue `r` writes the beads that follow those of the residues before
      it. */
  lemma {:induction false} WritesDense(rs: seq<Residue<Atom>>, codes: Codes, m: CbMapping, os: seq<Residue<Bead>>,
                                       ps: seq<Plan>, frame: seq<Vec3>, n: nat)
    requires n <= |ps|
    requires Mapped(rs, 0, codes, os, m.caIdxs, m.sidechains)
    requires Dense(AtomsIn(os))
    requires |ps| == |rs|
    requires forall i :: 0 <= i < |ps| ==> PlanFits(ps[i], |frame|, |AtomsIn(os)|)
    requires forall r :: 0 <= r < |ps| ==> HasCa(rs[r]) && ps[r] == PlanOf(rs[r], CaBead(os[r]))
    ensures |Writes(ps[..n], frame, |AtomsIn(os)|)| == |AtomsIn(os[..n])|
    ensures forall j :: 0 <= j < |Writes(ps[..n], frame, |AtomsIn(os)|)| ==> Writes(ps[..n], frame, |AtomsIn(os)|)[j].0 == j
  {
    if n > 0 {
      var nb := |AtomsIn(os)|;
      WritesDense(rs, codes, m, os, ps, frame, n - 1);
      assert ps[..n][..n - 1] == ps[..n - 1];
      assert os[..n][..n - 1] == os[..n - 1];
      var pre := Writes(ps[..n - 1], frame, nb);
      var row := RowWrites(ps[n - 1], frame);
      assert Writes(ps[..n], frame, nb) == pre + row;
      assert AtomsIn(os[..n]) == AtomsIn(os[..n - 1]) + os[n - 1].atoms;
      assert RowMapped(rs, 0, codes, os, m.caIdxs, m.sidechains, n - 1);
      RowCover(rs, codes, os, m.caIdxs, m.sidechains, ps[n - 1], frame, n - 1);
      DenseConcat(pre, row);
    }
  }

  lemma {:induction false} WritesHave(ps: seq<Plan>, frame: seq<Vec3>, nb: nat, r: nat)
    requires forall i :: 0 <= i < |ps| ==> PlanFits(ps[i], |frame|, nb)
    requires r < |ps|
    ensures PlanFits(ps[r], |frame|, nb) && forall w :: w in RowWrites(ps[r], frame) ==> w in Writes(ps, frame, nb)
  {
    var p := ps[..|ps| - 1];
    if r < |ps| - 1 {
      WritesHave(p, frame, nb, r);
      assert p[r] == ps[r];
    }
  }

  lemma {:induction false} WrittenValue(ws: seq<Write>, nb: nat, w: Write)
    requires forall j :: 0 <= j < |ws| ==> ws[j].0 == j
    requires |ws| == nb
    requires w in ws
    ensures w.0 < nb && Scatter(nb, ws)[w.0] == w.1
  {
    var j :| 0 <= j < |ws| && ws[j] == w;
    ScatterReads(nb, ws);
  }

  lemma {:induction false} MapTrajOk(chains: seq<Chain<Atom>>, codes: Codes, m: CbMapping, t: Trajectory)
    requires CbBuilt(chains, codes, m)
    requires WellShaped(t)
    ensures MapTraj(m, t).Ok? <==>
      forall r :: 0 <= r < |ResiduesOf(chains)| ==> SourceFits(ResiduesOf(chains)[r], t.nAtoms)
  {
    assert ResiduesOf(m.top.chains)[..|ResiduesOf(chains)|] == ResiduesOf(m.top.chains);
    PlansPrefix(ResiduesOf(chains), codes, m, ResiduesOf(m.top.chains), t.nAtoms, |ResiduesOf(chains)|);
  }

  /** Residue `r`'s beads in a frame whose writes cover the beads in order. */
  lemma {:induction false} ResidueWritten(rs: seq<Residue<Atom>>, os: seq<Residue<Bead>>, ps: seq<Plan>, frame: seq<Vec3>,
                       nb: nat, r: nat)
    requires forall i :: 0 <= i < |ps| ==> PlanFits(ps[i], |frame|, nb)
    requires |Writes(ps, frame, nb)| == nb
    requires forall j :: 0 <= j < |Writes(ps, frame, nb)| ==> Writes(ps, frame, nb)[j].0 == j
    requires r < |ps| && r < |rs| && r < |os| && HasCa(rs[r]) && ps[r] == PlanOf(rs[r], CaBead(os[r]))
    requires SourceFits(rs[r], |frame|)
    ensures CaBead(os[r]) < nb && Scatter(nb, Writes(ps, frame, nb))[CaBead(os[r])] == frame[CaOf(rs[r])]
    ensures rs[r].name != GLY ==>
      && CaBead(os[r]) + 1 < nb
      && Scatter(nb, Writes(ps, frame, nb))[CaBead(os[r]) + 1]
           == MassWeightedMean(Pick(frame, AtomIndices(HeavySidechain(rs[r].atoms))), Masses(HeavySidechain(rs[r].atoms)))
  {
    var ws := Writes(ps, frame, nb);
    WritesHave(ps, frame, nb, r);
    var row := RowWrites(ps[r], frame);
    WrittenValue(ws, nb, row[0]);
    if rs[r].name != GLY {
      WrittenValue(ws, nb, row[1]);
    }
  }

  /** The writes of all plans target the beads `0 .. nb - 1`, in order. */
  lemma {:induction false} WritesCover(rs: seq<Residue<Atom>>, codes: Codes, m: CbMapping, os: seq<Residue<Bead>>,
                    ps: seq<Plan>, frame: seq<Vec3>)
    requires Mapped(rs, 0, codes, os, m.caIdxs, m.sidechains)
    requires Dense(AtomsIn(os))
    requires |ps| == |rs|
    requires forall i :: 0 <= i < |ps| ==> PlanFits(ps[i], |frame|, |AtomsIn(os)|)
    requires forall r :: 0 <= r < |ps| ==> HasCa(rs[r]) && ps[r] == PlanOf(rs[r], CaBead(os[r]))
    ensures |Writes(ps, frame, |AtomsIn(os)|)| == |AtomsIn(os)|
    ensures forall j :: 0 <= j < |Writes(ps, frame, |AtomsIn(os)|)| ==> Writes(ps, frame, |AtomsIn(os)|)[j].0 == j
  {
    assert ps[..|ps|] == ps;
    assert os[..|ps|] == os;
    WritesDense(rs, codes, m, os, ps, frame, |ps|);
  }

  /** A frame whose writes cover the beads in order, built from the build's
      plans, is projected. */
  lemma {:induction false} FrameFromPlans(rs: seq<Residue<Atom>>, os: seq<Residue<Bead>>, ps: seq<Plan>, frame: seq<Vec3>, nb: nat)
    requires |ps| == |rs| && |os| == |rs|
    requires forall i :: 0 <= i < |ps| ==> PlanFits(ps[i], |frame|, nb)
    requires forall r :: 0 <= r < |ps| ==> HasCa(rs[r]) && ps[r] == PlanOf(rs[r], CaBead(os[r]))
    requires |Writes(ps, frame, nb)| == nb
    requires forall j :: 0 <= j < |Writes(ps, frame, nb)| ==> Writes(ps, frame, nb)[j].0 == j
    ensures FrameProjected(rs, os, frame, Scatter(nb, Writes(ps, frame, nb)))
  {
    forall r | 0 <= r < |rs| && r < |os| && SourceFits(rs[r], |frame|)
      ensures CaBead(os[r]) < nb && Scatter(nb, Writes(ps, frame, nb))[CaBead(os[r])] == frame[CaOf(rs[r])]
      ensures rs[r].name != GLY ==>
        && CaBead(os[r]) + 1 < nb
        && Scatter(nb, Writes(ps, frame, nb))[CaBead(os[r]) + 1]
             == MassWeightedMean(Pick(frame, AtomIndices(HeavySidechain(rs[r].atoms))), Masses(HeavySidechain(rs[r].atoms)))
    {
      ResidueWritten(rs, os, ps, frame, nb, r);
    }
  }

  lemma {:induction false} MapTrajFrames(chains: seq<Chain<Atom>>, codes: Codes, m: CbMapping, t: Trajectory, f: nat)
    requires CbBuilt(chains, codes, m)
    requires WellShaped(t)
    requires MapTraj(m, t).Ok?
    requires f < |t.frames|
    ensures |MapTraj(m, t).value.frames| == |t.frames|
    ensures FrameProjected(ResiduesOf(chains), ResiduesOf(m.top.chains), t.frames[f], MapTraj(m, t).value.frames[f])
  {
    var ps := Plans(m, ResiduesOf(m.top.chains), t.nAtoms, |AtomsIn(ResiduesOf(m.top.chains))|).value;
    assert ResiduesOf(m.top.chains)[..|ResiduesOf(chains)|] == ResiduesOf(m.top.chains);
    PlansPrefix(ResiduesOf(chains), codes, m, ResiduesOf(m.top.chains), t.nAtoms, |ResiduesOf(chains)|);
    assert MapTraj(m, t).value.frames[f] == Scatter(|AtomsIn(ResiduesOf(m.top.chains))|,
                                                    Writes(ps, t.frames[f], |AtomsIn(ResiduesOf(m.top.chains))|));
    WritesCover(ResiduesOf(chains), codes, m, ResiduesOf(m.top.chains), ps, t.frames[f]);
    FrameFromPlans(ResiduesOf(chains), ResiduesOf(m.top.chains), ps, t.frames[f], |AtomsIn(ResiduesOf(m.top.chains))|);
  }

  /** `map_traj` on the output of `CalphaCbetaMapping(topology)` succeeds
      exactly when the trajectory has every CA atom and every heavy
      sidechain atom the tables name; then it has one bead per coarse-grained
      atom, one frame per input frame, and each frame is projected. */
  lemma {:induction false} MapTrajSpec(chains: seq<Chain<Atom>>, codes: Codes, m: CbMapping, t: Trajectory)
    requires CbBuilt(chains, codes, m)
    requires WellShaped(t)
    ensures MapTraj(m, t).Ok? <==>
      forall r :: 0 <= r < |ResiduesOf(chains)| ==> SourceFits(ResiduesOf(chains)[r], t.nAtoms)
    ensures MapTraj(m, t).Ok? ==>
      && MapTraj(m, t).value.nAtoms == |AtomsOf(m.top.chains)|
      && |MapTraj(m, t).value.frames| == |t.frames|
      && forall f :: 0 <= f < |t.frames| ==>
           FrameProjected(ResiduesOf(chains), ResiduesOf(m.top.chains), t.frames[f], MapTraj(m, t).value.frames[f])
  {
    MapTrajOk(chains, codes, m, t);
    if MapTraj(m, t).Ok? {
      forall f | 0 <= f < |t.frames|
        ensures FrameProjected(ResiduesOf(chains), ResiduesOf(m.top.chains), t.frames[f], MapTraj(m, t).value.frames[f])
      {
        MapTrajFrames(chains, codes, m, t, f);
      }
    }
  }
}
