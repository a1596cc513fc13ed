/** The structure-based-model terms of the C-alpha/C-beta mapping: residue
    contacts as bead pairs, the default angles and dihedrals, and disulfide
    terms. */
module CalphaCbetaTerms {
  import opened Common
  import opened Structure
  import opened CalphaCbetaMapping

  // ---- The shape of an emitted residue ----------------------------------

  /** A residue as the build emits it: its CA bead first and, unless it is a
      glycine, its CB bead numbered right after it under a name other than
      "CA". */
  ghost predicate CbShaped(r: Residue<Bead>)
  {
    && |r.atoms| == (if r.name == GLY then 1 else 2)
    && r.atoms[0].name == "CA"
    && (r.name != GLY ==> r.atoms[1].name != "CA" && r.atoms[1].index == r.atoms[0].index + 1)
  }

  ghost predicate AllShaped(rs: seq<Residue<Bead>>)
  {
    forall r :: 0 <= r < |rs| ==> CbShaped(rs[r])
  }

  ghost predicate ChainsShaped(chains: seq<Chain<Bead>>)
  {
    forall c :: 0 <= c < |chains| ==> AllShaped(chains[c].residues)
  }

  lemma {:induction false} ShapedByChain(chains: seq<Chain<Bead>>)
    requires AllShaped(ResiduesOf(chains))
    ensures ChainsShaped(chains)
  {
    forall c, i | 0 <= c < |chains| && 0 <= i < |chains[c].residues|
      ensures CbShaped(chains[c].residues[i])
    {
      ResidueInChain(chains, c, i);
    }
  }

  /** Every residue the build emits has the C-alpha/C-beta shape. */
  lemma {:induction false} BuiltShaped(chains: seq<Chain<Atom>>, codes: Codes, m: CbMapping)
    requires CbBuilt(chains, codes, m)
    ensures AllShaped(ResiduesOf(m.top.chains))
    ensures ChainsShaped(m.top.chains)
  {
    var rs, os := ResiduesOf(chains), ResiduesOf(m.top.chains);
    forall r | 0 <= r < |os| ensures CbShaped(os[r]) {
      assert RowMapped(rs, 0, codes, os, m.caIdxs, m.sidechains, r);
      if rs[r].name != GLY {
        assert os[r].atoms[1].name[1] == 'B';
      }
    }
    ShapedByChain(m.top.chains);
  }

  /** The CA bead of each residue, in order. */
  function CaBeads(rs: seq<Residue<Bead>>): (ix: seq<nat>)
    ensures |ix| == |rs|
  {
    seq(|rs|, i requires 0 <= i < |rs| => CaBead(rs[i]))
  }

  /** `[atom for atom in chain.atoms if atom.name == "CA"]`, as indices. */
  function CaIndices(atoms: seq<Bead>): seq<nat>
  {
    if |atoms| == 0 then []
    else CaIndices(atoms[..|atoms| - 1]) + (if atoms[|atoms| - 1].name == "CA" then [atoms[|atoms| - 1].index] else [])
  }

  lemma {:induction false} CaIndicesAppend(a: seq<Bead>, b: seq<Bead>)
    ensures CaIndices(a + b) == CaIndices(a) + CaIndices(b)
    decreases |b|
  {
    if |b| == 0 {
      assert a + b == a;
    } else {
      assert (a + b)[..|a + b| - 1] == a + b[..|b| - 1];
      CaIndicesAppend(a, b[..|b| - 1]);
    }
  }

  lemma {:induction false} CaIndicesOfResidue(r: Residue<Bead>)
    requires CbShaped(r)
    ensures CaIndices(r.atoms) == [CaBead(r)]
  {
    var one := r.atoms[..1];
    assert one[..0] == [];
    assert CaIndices(one) == [CaBead(r)];
    if r.name != GLY {
      assert r.atoms[..|r.atoms| - 1] == one;
    } else {
      assert r.atoms == one;
    }
  }

  /** On emitted residues the beads named "CA" are exactly the residues' CA
      beads, one per residue, in order. */
  lemma {:induction false} CaIndicesOfShaped(rs: seq<Residue<Bead>>)
    requires AllShaped(rs)
    ensures CaIndices(AtomsIn(rs)) == CaBeads(rs)
    decreases |rs|
  {
    if |rs| > 0 {
      var p := rs[..|rs| - 1];
      var r := rs[|rs| - 1];
      assert forall i :: 0 <= i < |p| ==> p[i] == rs[i];
      CaIndicesOfShaped(p);
      CaIndicesAppend(AtomsIn(p), r.atoms);
      CaIndicesOfResidue(r);
      assert CaBeads(rs) == CaBeads(p) + [CaBead(r)];
    }
  }

  // ---- Contacts ----------------------------------------------------------

  /** The bead pairs of one residue contact `(n, k)`: the two residues' CA
      beads (`atom(0)`) and, when neither is a glycine, their CB beads
      (`atom(1)`), all read as Python list indices. */
  function ContactBonds(rs: seq<Residue<Bead>>, n: int, k: int): Result<seq<Bond>>
  {
    var nres :- OptionToResult(PyIndex(rs, n), IndexOutOfRange);
    var kres :- OptionToResult(PyIndex(rs, k), IndexOutOfRange);
    var caN :- OptionToResult(PyIndex(nres.atoms, 0), IndexOutOfRange);
    var caK :- OptionToResult(PyIndex(kres.atoms, 0), IndexOutOfRange);
    if nres.name != GLY && kres.name != GLY then
      var cbN :- OptionToResult(PyIndex(nres.atoms, 1), IndexOutOfRange);
      var cbK :- OptionToResult(PyIndex(kres.atoms, 1), IndexOutOfRange);
      Ok([(caN.index, caK.index), (cbN.index, cbK.index)])
    else
      Ok([(caN.index, caK.index)])
  }

  /** `_residue_to_atom_contacts`: the bead pairs of every contact, in order. */
  function ResidueToAtomContacts(m: CbMapping, contacts: seq<(int, int)>): Result<seq<Bond>>
  {
    if |contacts| == 0 then Ok([])
    else
      var pre :- ResidueToAtomContacts(m, contacts[..|contacts| - 1]);
      var row :- ContactBonds(ResiduesOf(m.top.chains), contacts[|contacts| - 1].0, contacts[|contacts| - 1].1);
      Ok(pre + row)
  }

  /** What a contact between residues `c.0` and `c.1` contributes: their CA
      beads and, when neither is a glycine, the beads right after them. */
  function ContactRow(os: seq<Residue<Bead>>, c: (int, int)): seq<Bond>
    requires InPyRange(c.0, |os|) && InPyRange(c.1, |os|)
  {
    var i, j := Wrap(c.0, |os|), Wrap(c.1, |os|);
    [(CaBead(os[i]), CaBead(os[j]))]
      + if os[i].name != GLY && os[j].name != GLY then [(CaBead(os[i]) + 1, CaBead(os[j]) + 1)] else []
  }

  function ContactRows(os: seq<Residue<Bead>>, cs: seq<(int, int)>): (rows: seq<seq<Bond>>)
    requires PairsInRange(cs, |os|)
    ensures |rows| == |cs|
  {
    seq(|cs|, q requires 0 <= q < |cs| => ContactRow(os, cs[q]))
  }

  lemma {:induction false} ContactBondsShaped(os: seq<Residue<Bead>>, c: (int, int))
    requires AllShaped(os)
    ensures ContactBonds(os, c.0, c.1).Ok? <==> InPyRange(c.0, |os|) && InPyRange(c.1, |os|)
    ensures ContactBonds(os, c.0, c.1).Ok? ==> ContactBonds(os, c.0, c.1).value == ContactRow(os, c)
  {
    if InPyRange(c.0, |os|) && InPyRange(c.1, |os|) {
      var i, j := Wrap(c.0, |os|), Wrap(c.1, |os|);
      assert PyIndex(os, c.0) == Some(os[i]);
      assert PyIndex(os, c.1) == Some(os[j]);
      assert CbShaped(os[i]) && CbShaped(os[j]);
    }
  }

  lemma {:induction false} ContactsShaped(m: CbMapping, contacts: seq<(int, int)>)
    requires AllShaped(ResiduesOf(m.top.chains))
    ensures ResidueToAtomContacts(m, contacts).Ok? <==> PairsInRange(contacts, |ResiduesOf(m.top.chains)|)
    ensures ResidueToAtomContacts(m, contacts).Ok? ==>
      ResidueToAtomContacts(m, contacts).value == Flatten(ContactRows(ResiduesOf(m.top.chains), contacts))
    decreases |contacts|
  {
    if |contacts| > 0 {
      var os := ResiduesOf(m.top.chains);
      var p := contacts[..|contacts| - 1];
      var c := contacts[|contacts| - 1];
      ContactsShaped(m, p);
      assert contacts == p + [c];
      PairsInRangeSnoc(p, c, |os|);
      ContactBondsShaped(os, c);
      if ResidueToAtomContacts(m, contacts).Ok? {
        var rows := ContactRows(os, contacts);
        assert rows[..|p|] == ContactRows(os, p);
        assert rows[|p|] == ContactRow(os, c);
      }
    }
  }

  /** On a C-alpha/C-beta topology, contact translation fails exactly when a
      residue index is outside Python's range; otherwise it gives, contact by
      contact, the CA-CA pair and, when neither residue is a glycine, the
      CB-CB pair. */
  lemma {:induction false} ContactsSpec(chains: seq<Chain<Atom>>, codes: Codes, m: CbMapping, contacts: seq<(int, int)>)
    requires CbBuilt(chains, codes, m)
    ensures ResidueToAtomContacts(m, contacts).Ok? <==> PairsInRange(contacts, |ResiduesOf(chains)|)
    ensures ResidueToAtomContacts(m, contacts).Ok? ==>
      ResidueToAtomContacts(m, contacts).value == Flatten(ContactRows(ResiduesOf(m.top.chains), contacts))
  {
    BuiltShaped(chains, codes, m);
    ContactsShaped(m, contacts);
  }

  // ---- Default angles ----------------------------------------------------

  /** `chain.residue(i).atom(0).index`, read as Python list indices. */
  function ChainCa(rs: seq<Residue<Bead>>, i: int): Result<nat>
  {
    OptionToResult(BeadOf(rs, i, 0), IndexOutOfRange)
  }

  /** The CA-CA-CB and CB-CA-CA angles of residue `i` of a chain, with `i`
      its position in the chain: (previous CA, CA, CB) when there is a
      previous residue and (CB, CA, next CA) when there is a next one. */
  function SideAnglesAt(rs: seq<Residue<Bead>>, i: nat): Result<seq<Triple>>
    requires i < |rs|
  {
    if rs[i].name == GLY then Ok([])
    else
      var ca :- OptionToResult(PyIndex(rs[i].atoms, 0), IndexOutOfRange);
      var cb :- OptionToResult(PyIndex(rs[i].atoms, 1), IndexOutOfRange);
      var before: seq<Triple> :- if i > 0 then (var pv :- ChainCa(rs, i - 1); Ok([(pv, ca.index, cb.index)]))
                                 else Ok([]);
      var after: seq<Triple> :- if i + 1 < |rs| then (var nx :- ChainCa(rs, i + 1); Ok([(cb.index, ca.index, nx)]))
                                else Ok([]);
      Ok(before + after)
  }

  /** The side angles of the first `n` residues of a chain. */
  function SideAngles(rs: seq<Residue<Bead>>, n: nat): Result<seq<Triple>>
    requires n <= |rs|
  {
    if n == 0 then Ok([])
    else
      var pre :- SideAngles(rs, n - 1);
      var row :- SideAnglesAt(rs, n - 1);
      Ok(pre + row)
  }

  /** The angles of one chain: CA-CA-CA over the chain's atoms named "CA",
      then the side angles. */
  function ChainAngles(c: Chain<Bead>): Result<seq<Triple>>
  {
    var side :- SideAngles(c.residues, |c.residues|);
    Ok(Triples(CaIndices(ChainAtoms(c))) + side)
  }

  function ChainsAngles(chains: seq<Chain<Bead>>): Result<seq<Triple>>
  {
    if |chains| == 0 then Ok([])
    else
      var pre :- ChainsAngles(chains[..|chains| - 1]);
      var a :- ChainAngles(chains[|chains| - 1]);
      Ok(pre + a)
  }

  /** `_assign_sbm_angles` with each residue located by its position in its
      chain. */
  function AssignSbmAngles(m: CbMapping): Result<seq<Triple>>
  {
    ChainsAngles(m.top.chains)
  }

  /** The side angles of residue `i` as `_assign_sbm_angles` computes them:
      the residue's topology-wide index `g = first + i` decides whether it is
      a terminus and is used to look up its neighbours inside the chain. */
  function SideAnglesAsWrittenAt(rs: seq<Residue<Bead>>, first: nat, i: nat): Result<seq<Triple>>
    requires i < |rs|
  {
    var g := first + i;
    if rs[i].name == GLY then Ok([])
    else
      var ca :- OptionToResult(PyIndex(rs[i].atoms, 0), IndexOutOfRange);
      var cb :- OptionToResult(PyIndex(rs[i].atoms, 1), IndexOutOfRange);
      if g == 0 then
        var nx :- ChainCa(rs, g + 1);
        Ok([(cb.index, ca.index, nx)])
      else if g + 1 == |rs| then
        var pv :- ChainCa(rs, g - 1);
        Ok([(pv, ca.index, cb.index)])
      else
        var pv :- ChainCa(rs, g - 1);
        var nx :- ChainCa(rs, g + 1);
        Ok([(pv, ca.index, cb.index), (cb.index, ca.index, nx)])
  }

  function SideAnglesAsWritten(rs: seq<Residue<Bead>>, first: nat, n: nat): Result<seq<Triple>>
    requires n <= |rs|
  {
    if n == 0 then Ok([])
    else
      var pre :- SideAnglesAsWritten(rs, first, n - 1);
      var row :- SideAnglesAsWrittenAt(rs, first, n - 1);
      Ok(pre + row)
  }

  function ChainAnglesAsWritten(c: Chain<Bead>, first: nat): Result<seq<Triple>>
  {
    var side :- SideAnglesAsWritten(c.residues, first, |c.residues|);
    Ok(Triples(CaIndices(ChainAtoms(c))) + side)
  }

  function ChainsAnglesAsWritten(chains: seq<Chain<Bead>>): Result<seq<Triple>>
  {
    if |chains| == 0 then Ok([])
    else
      var pre :- ChainsAnglesAsWritten(chains[..|chains| - 1]);
      var a :- ChainAnglesAsWritten(chains[|chains| - 1], |ResiduesOf(chains[..|chains| - 1])|);
      Ok(pre + a)
  }

  /** `_assign_sbm_angles` as written. */
  function AssignSbmAnglesAsWritten(m: CbMapping): Result<seq<Triple>>
  {
    ChainsAnglesAsWritten(m.top.chains)
  }

  /** The side angles residue `i` of a chain should have, in terms of the
      residues' CA beads and the CB bead right after a CA bead. */
  function SideRow(rs: seq<Residue<Bead>>, i: nat): seq<Triple>
    requires i < |rs|
  {
    if rs[i].name == GLY then []
    else
      (if i > 0 then [(CaBead(rs[i - 1]), CaBead(rs[i]), CaBead(rs[i]) + 1)] else [])
      + (if i + 1 < |rs| then [(CaBead(rs[i]) + 1, CaBead(rs[i]), CaBead(rs[i + 1]))] else [])
  }

  function SideRows(rs: seq<Residue<Bead>>, n: nat): (rows: seq<seq<Triple>>)
    requires n <= |rs|
    ensures |rows| == n
  {
    seq(n, i requires 0 <= i < n => SideRow(rs, i))
  }

  /** The angles a chain should have: CA-CA-CA over consecutive residues,
      then each residue's side angles. */
  function ChainAngleTerms(rs: seq<Residue<Bead>>): seq<Triple>
  {
    Triples(CaBeads(rs)) + Flatten(SideRows(rs, |rs|))
  }

  function AngleRows(chains: seq<Chain<Bead>>): (rows: seq<seq<Triple>>)
    ensures |rows| == |chains|
  {
    seq(|chains|, c requires 0 <= c < |chains| => ChainAngleTerms(chains[c].residues))
  }

  lemma {:induction false} ChainCaShaped(rs: seq<Residue<Bead>>, i: nat)
    requires AllShaped(rs)
    requires i < |rs|
    ensures ChainCa(rs, i) == Ok(CaBead(rs[i]))
  {
    assert CbShaped(rs[i]);
  }

  lemma {:induction false} SideAnglesAtShaped(rs: seq<Residue<Bead>>, i: nat)
    requires AllShaped(rs)
    requires i < |rs|
    ensures SideAnglesAt(rs, i) == Ok(SideRow(rs, i))
  {
    assert CbShaped(rs[i]);
    if i > 0 {
      ChainCaShaped(rs, i - 1);
    }
    if i + 1 < |rs| {
      ChainCaShaped(rs, i + 1);
    }
  }

  lemma {:induction false} SideAnglesShaped(rs: seq<Residue<Bead>>, n: nat)
    requires AllShaped(rs)
    requires n <= |rs|
    ensures SideAngles(rs, n) == Ok(Flatten(SideRows(rs, n)))
    decreases n
  {
    if n > 0 {
      SideAnglesShaped(rs, n - 1);
      SideAnglesAtShaped(rs, n - 1);
      assert SideRows(rs, n)[..n - 1] == SideRows(rs, n - 1);
    }
  }

  lemma {:induction false} ChainAnglesShaped(c: Chain<Bead>)
    requires AllShaped(c.residues)
    ensures ChainAngles(c) == Ok(ChainAngleTerms(c.residues))
  {
    CaIndicesOfShaped(c.residues);
    SideAnglesShaped(c.residues, |c.residues|);
  }

  lemma {:induction false} ChainsAnglesShaped(chains: seq<Chain<Bead>>)
    requires ChainsShaped(chains)
    ensures ChainsAngles(chains) == Ok(Flatten(AngleRows(chains)))
    decreases |chains|
  {
    if |chains| > 0 {
      ChainsShapedPrefix(chains);
      ChainsAnglesShaped(chains[..|chains| - 1]);
      ChainsAnglesStep(chains);
    }
  }

  lemma {:induction false} ChainsAnglesStep(chains: seq<Chain<Bead>>)
    requires |chains| > 0 && AllShaped(chains[|chains| - 1].residues)
    requires ChainsAngles(chains[..|chains| - 1]) == Ok(Flatten(AngleRows(chains[..|chains| - 1])))
    ensures ChainsAngles(chains) == Ok(Flatten(AngleRows(chains)))
  {
    var p := chains[..|chains| - 1];
    ChainAnglesShaped(chains[|chains| - 1]);
    assert AngleRows(chains)[..|p|] == AngleRows(p);
  }

  /** On every C-alpha/C-beta topology the angles are, chain by chain, the
      CA-CA-CA triples of consecutive residues followed by, for each residue
      other than glycine, (previous CA, CA, CB) and (CB, CA, next CA) where
      that neighbour exists in the chain. */
  lemma {:induction false} AssignSbmAnglesSpec(chains: seq<Chain<Atom>>, codes: Codes, m: CbMapping)
    requires CbBuilt(chains, codes, m)
    ensures AssignSbmAngles(m) == Ok(Flatten(AngleRows(m.top.chains)))
  {
    BuiltShaped(chains, codes, m);
    ChainsAnglesShaped(m.top.chains);
  }

  lemma {:induction false} SideAnglesAgree(rs: seq<Residue<Bead>>, n: nat)
    requires 2 <= |rs|
    requires n <= |rs|
    ensures SideAnglesAsWritten(rs, 0, n) == SideAngles(rs, n)
    decreases n
  {
    if n > 0 {
      SideAnglesAgree(rs, n - 1);
      SideAnglesAtAgree(rs, n - 1);
    }
  }

  lemma {:induction false} SideAnglesAtAgree(rs: seq<Residue<Bead>>, i: nat)
    requires 2 <= |rs|
    requires i < |rs|
    ensures SideAnglesAsWrittenAt(rs, 0, i) == SideAnglesAt(rs, i)
  {
    if rs[i].name != GLY && |rs[i].atoms| >= 2 {
      var ca, cb := rs[i].atoms[0].index, rs[i].atoms[1].index;
      if i == 0 {
        if ChainCa(rs, 1).Ok? {
          var nx := ChainCa(rs, 1).value;
          assert [] + [(cb, ca, nx)] == [(cb, ca, nx)];
        }
      } else if i + 1 == |rs| {
        if ChainCa(rs, i - 1).Ok? {
          var pv := ChainCa(rs, i - 1).value;
          assert [(pv, ca, cb)] + [] == [(pv, ca, cb)];
        }
      } else if ChainCa(rs, i - 1).Ok? && ChainCa(rs, i + 1).Ok? {
        var pv, nx := ChainCa(rs, i - 1).value, ChainCa(rs, i + 1).value;
        assert [(pv, ca, cb)] + [(cb, ca, nx)] == [(pv, ca, cb), (cb, ca, nx)];
      }
    }
  }

  /** On a single chain of at least two residues the code as written and the
      corrected one agree: global and chain positions coincide there. */
  lemma {:induction false} AnglesAgreeOnOneChain(m: CbMapping)
    requires |m.top.chains| == 1 && 2 <= |m.top.chains[0].residues|
    ensures AssignSbmAnglesAsWritten(m) == AssignSbmAngles(m)
  {
    var c := m.top.chains[0];
    assert m.top.chains[..0] == [];
    assert |ResiduesOf(m.top.chains[..0])| == 0;
    SideAnglesAgree(c.residues, |c.residues|);
    assert ChainAnglesAsWritten(c, 0) == ChainAngles(c);
    assert ChainsAnglesAsWritten(m.top.chains[..0]) == Ok([]);
    assert ChainsAngles(m.top.chains[..0]) == Ok([]);
    assert ChainsAnglesAsWritten(m.top.chains) == if ChainAngles(c).Ok? then Ok([] + ChainAngles(c).value) else Err(ChainAngles(c).error);
    assert ChainsAngles(m.top.chains) == if ChainAngles(c).Ok? then Ok([] + ChainAngles(c).value) else Err(ChainAngles(c).error);
  }

  // ---- Default dihedrals -------------------------------------------------

  /** The improper dihedral of residue `i` of a chain, `i` its position in
      the chain: (CA, previous CA, next CA, CB) for every residue other than
      glycine and the two ends. */
  function ImproperAt(rs: seq<Residue<Bead>>, i: nat): Result<seq<Quad>>
    requires i < |rs|
  {
    if i == 0 || i == |rs| - 1 || rs[i].name == GLY then Ok([])
    else
      var cj :- ChainCa(rs, i - 1);
      var ck :- ChainCa(rs, i + 1);
      var ca :- OptionToResult(PyIndex(rs[i].atoms, 0), IndexOutOfRange);
      var cb :- OptionToResult(PyIndex(rs[i].atoms, 1), IndexOutOfRange);
      Ok([(ca.index, cj, ck, cb.index)])
  }

  function Impropers(rs: seq<Residue<Bead>>, n: nat): Result<seq<Quad>>
    requires n <= |rs|
  {
    if n == 0 then Ok([])
    else
      var pre :- Impropers(rs, n - 1);
      var row :- ImproperAt(rs, n - 1);
      Ok(pre + row)
  }

  /** The dihedrals of one chain: CA-CA-CA-CA over the chain's atoms named
      "CA", and the impropers. */
  function ChainDihedrals(c: Chain<Bead>): Result<SbmDihedrals>
  {
    var imp :- Impropers(c.residues, |c.residues|);
    Ok(SbmDihedrals(Quads(CaIndices(ChainAtoms(c))), imp))
  }

  function ChainsDihedrals(chains: seq<Chain<Bead>>): Result<SbmDihedrals>
  {
    if |chains| == 0 then Ok(SbmDihedrals([], []))
    else
      var pre :- ChainsDihedrals(chains[..|chains| - 1]);
      var d :- ChainDihedrals(chains[|chains| - 1]);
      Ok(SbmDihedrals(pre.proper + d.proper, pre.improper + d.improper))
  }

  /** `_assign_sbm_dihedrals` with each residue located by its position in
      its chain. */
  function AssignSbmDihedrals(m: CbMapping): Result<SbmDihedrals>
  {
    ChainsDihedrals(m.top.chains)
  }

  /** The improper of residue `i` as `_assign_sbm_dihedrals` computes it:
      the topology-wide index `g = first + i` is compared with `last`, the
      topology-wide index of the chain's last residue, and used to look up
      the neighbours inside the chain. */
  function ImproperAsWrittenAt(rs: seq<Residue<Bead>>, first: nat, last: nat, i: nat): Result<seq<Quad>>
    requires i < |rs|
  {
    var g := first + i;
    if g == 0 || g == last || rs[i].name == GLY then Ok([])
    else
      var cj :- ChainCa(rs, g - 1);
      var ck :- ChainCa(rs, g + 1);
      var ca :- OptionToResult(PyIndex(rs[i].atoms, 0), IndexOutOfRange);
      var cb :- OptionToResult(PyIndex(rs[i].atoms, 1), IndexOutOfRange);
      Ok([(ca.index, cj, ck, cb.index)])
  }

  function ImpropersAsWritten(rs: seq<Residue<Bead>>, first: nat, last: nat, n: nat): Result<seq<Quad>>
    requires n <= |rs|
  {
    if n == 0 then Ok([])
    else
      var pre :- ImpropersAsWritten(rs, first, last, n - 1);
      var row :- ImproperAsWrittenAt(rs, first, last, n - 1);
      Ok(pre + row)
  }

  /** `chain.residue(-1).index` raises on an empty chain. */
  function ChainDihedralsAsWritten(c: Chain<Bead>, first: nat): Result<SbmDihedrals>
  {
    if |c.residues| == 0 then Err(IndexOutOfRange)
    else
      var imp :- ImpropersAsWritten(c.residues, first, first + |c.residues| - 1, |c.residues|);
      Ok(SbmDihedrals(Quads(CaIndices(ChainAtoms(c))), imp))
  }

  function ChainsDihedralsAsWritten(chains: seq<Chain<Bead>>): Result<SbmDihedrals>
  {
    if |chains| == 0 then Ok(SbmDihedrals([], []))
    else
      var pre :- ChainsDihedralsAsWritten(chains[..|chains| - 1]);
      var d :- ChainDihedralsAsWritten(chains[|chains| - 1], |ResiduesOf(chains[..|chains| - 1])|);
      Ok(SbmDihedrals(pre.proper + d.proper, pre.improper + d.improper))
  }

  /** `_assign_sbm_dihedrals` as written. */
  function AssignSbmDihedralsAsWritten(m: CbMapping): Result<SbmDihedrals>
  {
    ChainsDihedralsAsWritten(m.top.chains)
  }

  /** The improper residue `i` of a chain should have. */
  function ImproperRow(rs: seq<Residue<Bead>>, i: nat): seq<Quad>
    requires i < |rs|
  {
    if 0 < i < |rs| - 1 && rs[i].name != GLY then
      [(CaBead(rs[i]), CaBead(rs[i - 1]), CaBead(rs[i + 1]), CaBead(rs[i]) + 1)]
    else []
  }

  function ImproperRows(rs: seq<Residue<Bead>>, n: nat): (rows: seq<seq<Quad>>)
    requires n <= |rs|
    ensures |rows| == n
  {
    seq(n, i requires 0 <= i < n => ImproperRow(rs, i))
  }

  function ProperRows(chains: seq<Chain<Bead>>): (rows: seq<seq<Quad>>)
    ensures |rows| == |chains|
  {
    seq(|chains|, c requires 0 <= c < |chains| => Quads(CaBeads(chains[c].residues)))
  }

  function ImproperChainRows(chains: seq<Chain<Bead>>): (rows: seq<seq<Quad>>)
    ensures |rows| == |chains|
  {
    seq(|chains|, c requires 0 <= c < |chains| =>
      Flatten(ImproperRows(chains[c].residues, |chains[c].residues|)))
  }

  lemma {:induction false} ImproperAtShaped(rs: seq<Residue<Bead>>, i: nat)
    requires AllShaped(rs)
    requires i < |rs|
    ensures ImproperAt(rs, i) == Ok(ImproperRow(rs, i))
  {
    assert CbShaped(rs[i]);
    if 0 < i < |rs| - 1 {
      ChainCaShaped(rs, i - 1);
      ChainCaShaped(rs, i + 1);
    }
  }

  lemma {:induction false} ImpropersShaped(rs: seq<Residue<Bead>>, n: nat)
    requires AllShaped(rs)
    requires n <= |rs|
    ensures Impropers(rs, n) == Ok(Flatten(ImproperRows(rs, n)))
    decreases n
  {
    if n > 0 {
      ImpropersShaped(rs, n - 1);
      ImproperAtShaped(rs, n - 1);
      assert ImproperRows(rs, n)[..n - 1] == ImproperRows(rs, n - 1);
    }
  }

  lemma {:induction false} ChainsDihedralsShaped(chains: seq<Chain<Bead>>)
    requires ChainsShaped(chains)
    ensures ChainsDihedrals(chains) == Ok(SbmDihedrals(Flatten(ProperRows(chains)), Flatten(ImproperChainRows(chains))))
    decreases |chains|
  {
    if |chains| > 0 {
      var p := chains[..|chains| - 1];
      ChainsShapedPrefix(chains);
      ChainsDihedralsShaped(p);
      ChainsDihedralsSnoc(chains);
    }
  }

  lemma {:induction false} ChainsShapedPrefix(chains: seq<Chain<Bead>>)
    requires |chains| > 0 && ChainsShaped(chains)
    ensures ChainsShaped(chains[..|chains| - 1]) && AllShaped(chains[|chains| - 1].residues)
  {
    var p := chains[..|chains| - 1];
    assert forall k :: 0 <= k < |p| ==> p[k] == chains[k];
  }

  lemma {:induction false} ChainDihedralsShaped(c: Chain<Bead>)
    requires AllShaped(c.residues)
    ensures ChainDihedrals(c) == Ok(SbmDihedrals(Quads(CaBeads(c.residues)), Flatten(ImproperRows(c.residues, |c.residues|))))
  {
    CaIndicesOfShaped(c.residues);
    ImpropersShaped(c.residues, |c.residues|);
  }

  lemma {:induction false} ChainsDihedralsSnoc(chains: seq<Chain<Bead>>)
    requires |chains| > 0 && AllShaped(chains[|chains| - 1].residues)
    requires ChainsDihedrals(chains[..|chains| - 1]) ==
      Ok(SbmDihedrals(Flatten(ProperRows(chains[..|chains| - 1])), Flatten(ImproperChainRows(chains[..|chains| - 1]))))
    ensures ChainsDihedrals(chains) ==
      Ok(SbmDihedrals(Flatten(ProperRows(chains)), Flatten(ImproperChainRows(chains))))
  {
    var p := chains[..|chains| - 1];
    ChainDihedralsShaped(chains[|chains| - 1]);
    assert ProperRows(chains)[..|p|] == ProperRows(p);
    assert ImproperChainRows(chains)[..|p|] == ImproperChainRows(p);
  }

  /** On every C-alpha/C-beta topology the proper dihedrals are, chain by
      chain, the CA quadruples of consecutive residues, and the impropers
      are, chain by chain, (CA, previous CA, next CA, CB) for every residue
      other than glycine and the chain's two ends. */
  lemma {:induction false} AssignSbmDihedralsSpec(chains: seq<Chain<Atom>>, codes: Codes, m: CbMapping)
    requires CbBuilt(chains, codes, m)
    ensures AssignSbmDihedrals(m) ==
      Ok(SbmDihedrals(Flatten(ProperRows(m.top.chains)), Flatten(ImproperChainRows(m.top.chains))))
  {
    BuiltShaped(chains, codes, m);
    ChainsDihedralsShaped(m.top.chains);
  }

  lemma {:induction false} ImpropersAgree(rs: seq<Residue<Bead>>, n: nat)
    requires 1 <= |rs|
    requires n <= |rs|
    ensures ImpropersAsWritten(rs, 0, |rs| - 1, n) == Impropers(rs, n)
    decreases n
  {
    if n > 0 {
      ImpropersAgree(rs, n - 1);
    }
  }

  /** On a single non-empty chain the code as written and the corrected one
      agree. */
  lemma {:induction false} DihedralsAgreeOnOneChain(m: CbMapping)
    requires |m.top.chains| == 1 && 1 <= |m.top.chains[0].residues|
    ensures AssignSbmDihedralsAsWritten(m) == AssignSbmDihedrals(m)
  {
    var c := m.top.chains[0];
    assert m.top.chains[..0] == [];
    assert |ResiduesOf(m.top.chains[..0])| == 0;
    ImpropersAgree(c.residues, |c.residues|);
    assert ChainDihedralsAsWritten(c, 0) == ChainDihedrals(c);
    assert ChainsDihedralsAsWritten(m.top.chains[..0]) == Ok(SbmDihedrals([], []));
    assert ChainsDihedrals(m.top.chains[..0]) == Ok(SbmDihedrals([], []));
  }

  // ---- Disulfides -------------------------------------------------------

  /** `add_disulfides`: for each residue pair, a bond between the two CB
      beads (`atom(1)`), angles (CA1, CB1, CB2) and (CB1, CB2, CA2), and the
      dihedral (CA1, CB1, CB2, CA2), with residues and atoms looked up as
      Python list indices; a glycine has no `atom(1)` and raises. */
  function AddDisulfides(s: SbmState, pairs: seq<(int, int)>): Result<SbmState>
  {
    if |pairs| == 0 then Ok(s)
    else
      var pre :- AddDisulfides(s, pairs[..|pairs| - 1]);
      AddDisulfide(pre, pairs[|pairs| - 1].0, pairs[|pairs| - 1].1)
  }

  /** The terms of one disulfide between residues `a` and `b`. */
  function AddDisulfide(pre: SbmState, a: int, b: int): Result<SbmState>
  {
    var rs := ResiduesOf(pre.top.chains);
    var res1 :- OptionToResult(PyIndex(rs, a), IndexOutOfRange);
    var res2 :- OptionToResult(PyIndex(rs, b), IndexOutOfRange);
    var ca1 :- OptionToResult(PyIndex(res1.atoms, 0), IndexOutOfRange);
    var ca2 :- OptionToResult(PyIndex(res2.atoms, 0), IndexOutOfRange);
    var cb1 :- OptionToResult(PyIndex(res1.atoms, 1), IndexOutOfRange);
    var cb2 :- OptionToResult(PyIndex(res2.atoms, 1), IndexOutOfRange);
    Ok(SbmState(Topology(pre.top.chains, pre.top.bonds + [(cb1.index, cb2.index)]),
                pre.angles + [(ca1.index, cb1.index, cb2.index), (cb1.index, cb2.index, ca2.index)],
                pre.dihedrals + [(ca1.index, cb1.index, cb2.index, ca2.index)]))
  }

  /** Both residues of every pair exist and neither is a glycine. */
  ghost predicate CysPairsValid(os: seq<Residue<Bead>>, ps: seq<(int, int)>)
  {
    forall q :: 0 <= q < |ps| ==>
      && InPyRange(ps[q].0, |os|) && InPyRange(ps[q].1, |os|)
      && os[Wrap(ps[q].0, |os|)].name != GLY && os[Wrap(ps[q].1, |os|)].name != GLY
  }

  /** `r` is `s` with, for each pair, the CB-CB bond, the two angles and the
      dihedral over the two residues' CA and CB beads appended, and nothing
      else changed. */
  ghost predicate CysTermsAdded(s: SbmState, ps: seq<(int, int)>, os: seq<Residue<Bead>>, r: SbmState)
    requires PairsInRange(ps, |os|)
  {
    && r.top.chains == s.top.chains
    && |r.top.bonds| == |s.top.bonds| + |ps|
    && |r.angles| == |s.angles| + 2 * |ps|
    && |r.dihedrals| == |s.dihedrals| + |ps|
    && r.top.bonds[..|s.top.bonds|] == s.top.bonds
    && r.angles[..|s.angles|] == s.angles
    && r.dihedrals[..|s.dihedrals|] == s.dihedrals
    && forall q :: 0 <= q < |ps| ==>
         var ca1 := CaBead(os[Wrap(ps[q].0, |os|)]);
         var ca2 := CaBead(os[Wrap(ps[q].1, |os|)]);
         && r.top.bonds[|s.top.bonds| + q] == (ca1 + 1, ca2 + 1)
         && r.angles[|s.angles| + 2 * q] == (ca1, ca1 + 1, ca2 + 1)
         && r.angles[|s.angles| + 2 * q + 1] == (ca1 + 1, ca2 + 1, ca2)
         && r.dihedrals[|s.dihedrals| + q] == (ca1, ca1 + 1, ca2 + 1, ca2)
  }

  lemma {:induction false} CysPairsValidSnoc(os: seq<Residue<Bead>>, p: seq<(int, int)>, c: (int, int))
    ensures CysPairsValid(os, p + [c]) <==>
      && CysPairsValid(os, p) && InPyRange(c.0, |os|) && InPyRange(c.1, |os|)
      && os[Wrap(c.0, |os|)].name != GLY && os[Wrap(c.1, |os|)].name != GLY
  {
    var ps := p + [c];
    assert ps[|p|] == c;
    assert forall q :: 0 <= q < |p| ==> ps[q] == p[q];
  }

  lemma {:induction false} CysTermsAddedSnoc(s: SbmState, pairs: seq<(int, int)>, os: seq<Residue<Bead>>,
                          pre: SbmState, r: SbmState, ca1: nat, ca2: nat)
    requires |pairs| > 0
    requires PairsInRange(pairs, |os|)
    requires PairsInRange(pairs[..|pairs| - 1], |os|)
    requires CysTermsAdded(s, pairs[..|pairs| - 1], os, pre)
    requires ca1 == CaBead(os[Wrap(pairs[|pairs| - 1].0, |os|)]) && ca2 == CaBead(os[Wrap(pairs[|pairs| - 1].1, |os|)])
    requires r == SbmState(Topology(pre.top.chains, pre.top.bonds + [(ca1 + 1, ca2 + 1)]),
                           pre.angles + [(ca1, ca1 + 1, ca2 + 1), (ca1 + 1, ca2 + 1, ca2)],
                           pre.dihedrals + [(ca1, ca1 + 1, ca2 + 1, ca2)])
    ensures CysTermsAdded(s, pairs, os, r)
  {
    var p := pairs[..|pairs| - 1];
    assert forall q :: 0 <= q < |p| ==> pairs[q] == p[q];
    assert r.top.bonds[..|s.top.bonds|] == pre.top.bonds[..|s.top.bonds|];
    assert r.angles[..|s.angles|] == pre.angles[..|s.angles|];
    assert r.dihedrals[..|s.dihedrals|] == pre.dihedrals[..|s.dihedrals|];
  }

  /** One disulfide on a C-alpha/C-beta topology. */
  lemma {:induction false} AddDisulfideShaped(pre: SbmState, os: seq<Residue<Bead>>, c: (int, int))
    requires os == ResiduesOf(pre.top.chains)
    requires AllShaped(os)
    ensures AddDisulfide(pre, c.0, c.1).Ok? <==>
      InPyRange(c.0, |os|) && InPyRange(c.1, |os|)
      && os[Wrap(c.0, |os|)].name != GLY && os[Wrap(c.1, |os|)].name != GLY
  {
    if InPyRange(c.0, |os|) && InPyRange(c.1, |os|) {
      var i, j := Wrap(c.0, |os|), Wrap(c.1, |os|);
      assert PyIndex(os, c.0) == Some(os[i]);
      assert PyIndex(os, c.1) == Some(os[j]);
      assert CbShaped(os[i]) && CbShaped(os[j]);
    }
  }

  lemma {:induction false} AddDisulfideValue(pre: SbmState, os: seq<Residue<Bead>>, c: (int, int), ca1: nat, ca2: nat)
    requires os == ResiduesOf(pre.top.chains)
    requires AllShaped(os)
    requires InPyRange(c.0, |os|) && InPyRange(c.1, |os|)
    requires os[Wrap(c.0, |os|)].name != GLY && os[Wrap(c.1, |os|)].name != GLY
    requires ca1 == CaBead(os[Wrap(c.0, |os|)]) && ca2 == CaBead(os[Wrap(c.1, |os|)])
    ensures AddDisulfide(pre, c.0, c.1) ==
      Ok(SbmState(Topology(pre.top.chains, pre.top.bonds + [(ca1 + 1, ca2 + 1)]),
                  pre.angles + [(ca1, ca1 + 1, ca2 + 1), (ca1 + 1, ca2 + 1, ca2)],
                  pre.dihedrals + [(ca1, ca1 + 1, ca2 + 1, ca2)]))
  {
    var i, j := Wrap(c.0, |os|), Wrap(c.1, |os|);
    assert PyIndex(os, c.0) == Some(os[i]);
    assert PyIndex(os, c.1) == Some(os[j]);
    assert CbShaped(os[i]) && CbShaped(os[j]);
  }

  lemma {:induction false} DisulfidesOk(s: SbmState, pairs: seq<(int, int)>)
    requires AllShaped(ResiduesOf(s.top.chains))
    ensures AddDisulfides(s, pairs).Ok? <==> CysPairsValid(ResiduesOf(s.top.chains), pairs)
    ensures AddDisulfides(s, pairs).Ok? ==> AddDisulfides(s, pairs).value.top.chains == s.top.chains
    decreases |pairs|
  {
    if |pairs| > 0 {
      var p := pairs[..|pairs| - 1];
      DisulfidesOk(s, p);
      assert pairs == p + [pairs[|pairs| - 1]];
      CysPairsValidSnoc(ResiduesOf(s.top.chains), p, pairs[|pairs| - 1]);
      if AddDisulfides(s, p).Ok? {
        AddDisulfideShaped(AddDisulfides(s, p).value, ResiduesOf(s.top.chains), pairs[|pairs| - 1]);
      }
    }
  }

  lemma {:induction false} DisulfidesShaped(s: SbmState, pairs: seq<(int, int)>)
    requires AllShaped(ResiduesOf(s.top.chains))
    requires CysPairsValid(ResiduesOf(s.top.chains), pairs)
    ensures AddDisulfides(s, pairs).Ok?
    ensures PairsInRange(pairs, |ResiduesOf(s.top.chains)|)
    ensures CysTermsAdded(s, pairs, ResiduesOf(s.top.chains), AddDisulfides(s, pairs).value)
    decreases |pairs|
  {
    DisulfidesOk(s, pairs);
    if |pairs| > 0 {
      CysPairsValidPrefix(ResiduesOf(s.top.chains), pairs);
      DisulfidesShaped(s, pairs[..|pairs| - 1]);
      DisulfidesShapedStep(s, pairs);
    }
  }

  lemma {:induction false} CysPairsValidPrefix(os: seq<Residue<Bead>>, pairs: seq<(int, int)>)
    requires |pairs| > 0 && CysPairsValid(os, pairs)
    ensures CysPairsValid(os, pairs[..|pairs| - 1])
    ensures var c := pairs[|pairs| - 1];
      && InPyRange(c.0, |os|) && InPyRange(c.1, |os|)
      && os[Wrap(c.0, |os|)].name != GLY && os[Wrap(c.1, |os|)].name != GLY
  {
    assert pairs == pairs[..|pairs| - 1] + [pairs[|pairs| - 1]];
    CysPairsValidSnoc(os, pairs[..|pairs| - 1], pairs[|pairs| - 1]);
  }

  lemma {:induction false} DisulfidesShapedStep(s: SbmState, pairs: seq<(int, int)>)
    requires |pairs| > 0 && AllShaped(ResiduesOf(s.top.chains))
    requires var c := pairs[|pairs| - 1]; var os := ResiduesOf(s.top.chains);
      && InPyRange(c.0, |os|) && InPyRange(c.1, |os|)
      && os[Wrap(c.0, |os|)].name != GLY && os[Wrap(c.1, |os|)].name != GLY
    requires AddDisulfides(s, pairs[..|pairs| - 1]).Ok?
    requires PairsInRange(pairs[..|pairs| - 1], |ResiduesOf(s.top.chains)|)
    requires CysTermsAdded(s, pairs[..|pairs| - 1], ResiduesOf(s.top.chains), AddDisulfides(s, pairs[..|pairs| - 1]).value)
    ensures AddDisulfides(s, pairs).Ok?
    ensures PairsInRange(pairs, |ResiduesOf(s.top.chains)|)
    ensures CysTermsAdded(s, pairs, ResiduesOf(s.top.chains), AddDisulfides(s, pairs).value)
  {
    var os := ResiduesOf(s.top.chains);
    var c := pairs[|pairs| - 1];
    var pre := AddDisulfides(s, pairs[..|pairs| - 1]).value;
    PairsInRangeLast(pairs, |os|);
    var ca1, ca2 := CaBead(os[Wrap(c.0, |os|)]), CaBead(os[Wrap(c.1, |os|)]);
    AddDisulfideValue(pre, os, c, ca1, ca2);
    CysTermsAddedSnoc(s, pairs, os, pre, AddDisulfides(s, pairs).value, ca1, ca2);
  }

  lemma {:induction false} PairsInRangeLast(pairs: seq<(int, int)>, n: nat)
    requires |pairs| > 0
    ensures PairsInRange(pairs, n) <==>
      PairsInRange(pairs[..|pairs| - 1], n) && InPyRange(pairs[|pairs| - 1].0, n) && InPyRange(pairs[|pairs| - 1].1, n)
  {
    assert pairs == pairs[..|pairs| - 1] + [pairs[|pairs| - 1]];
    PairsInRangeSnoc(pairs[..|pairs| - 1], pairs[|pairs| - 1], n);
  }

  /** On a C-alpha/C-beta topology `add_disulfides` succeeds exactly when
      both residues of every pair exist and neither is a glycine; then each
      pair adds the CB-CB bond, the angles (CA1, CB1, CB2) and (CB1, CB2, CA2)
      and the dihedral (CA1, CB1, CB2, CA2) after the existing terms, and
      changes nothing else. */
  lemma {:induction false} AddDisulfidesSpec(chains: seq<Chain<Atom>>, codes: Codes, m: CbMapping, s: SbmState, pairs: seq<(int, int)>)
    requires CbBuilt(chains, codes, m)
    requires s.top.chains == m.top.chains
    ensures AddDisulfides(s, pairs).Ok? <==> CysPairsValid(ResiduesOf(m.top.chains), pairs)
    ensures AddDisulfides(s, pairs).Ok? ==>
      PairsInRange(pairs, |ResiduesOf(m.top.chains)|)
      && CysTermsAdded(s, pairs, ResiduesOf(m.top.chains), AddDisulfides(s, pairs).value)
  {
    BuiltShaped(chains, codes, m);
    DisulfidesOk(s, pairs);
    if CysPairsValid(ResiduesOf(m.top.chains), pairs) {
      DisulfidesShaped(s, pairs);
    }
  }

  // ---- Two chains: where the code as written goes wrong ------------------

  /** Residue `r` (topology-wide) of an alanine-only topology as the build
      emits it: CA bead `2r`, CB bead `2r + 1`. */
  function Ala(r: nat): Residue<Bead>
  {
    Residue("ALA", r + 1, [Bead(2 * r, "CA", "C"), Bead(2 * r + 1, "CBA", "C")])
  }

  /** Two chains of three alanines. */
  function TwoAlaChains(): seq<Chain<Bead>>
  {
    [Chain([Ala(0), Ala(1), Ala(2)]), Chain([Ala(3), Ala(4), Ala(5)])]
  }

  lemma {:induction false} TwoAlaChainsShaped()
    ensures ChainsShaped(TwoAlaChains())
  {
    forall r: nat ensures CbShaped(Ala(r)) {
      assert Ala(r).atoms[1].name[1] == 'B';
    }
  }

  /** The first residue of the second chain has topology-wide index 3, so
      the code as written looks up `chain.residue(4)` in a chain of three
      and raises; the corrected angles exist. */
  lemma {:induction false} AnglesAsWrittenFailOnSecondChain(m: CbMapping)
    requires m.top.chains == TwoAlaChains()
    ensures AssignSbmAnglesAsWritten(m).Err?
    ensures AssignSbmAngles(m).Ok?
  {
    var cs := TwoAlaChains();
    var rs := cs[1].residues;
    assert cs[..1] == [cs[0]];
    assert cs[..1][..0] == [];
    assert |ResiduesOf(cs[..1])| == 3;
    assert ChainCa(rs, 4).Err?;
    assert SideAnglesAsWrittenAt(rs, 3, 0).Err?;
    assert SideAnglesAsWritten(rs, 3, 1).Err?;
    assert SideAnglesAsWritten(rs, 3, 2).Err?;
    assert SideAnglesAsWritten(rs, 3, 3).Err?;
    assert ChainAnglesAsWritten(cs[1], 3).Err?;
    TwoAlaChainsShaped();
    ChainsAnglesShaped(cs);
  }

  /** Likewise for the impropers: the second chain's first residue is not
      taken for a chain end, and its neighbour lookup `chain.residue(4)`
      raises. */
  lemma {:induction false} DihedralsAsWrittenFailOnSecondChain(m: CbMapping)
    requires m.top.chains == TwoAlaChains()
    ensures AssignSbmDihedralsAsWritten(m).Err?
    ensures AssignSbmDihedrals(m).Ok?
  {
    var cs := TwoAlaChains();
    var rs := cs[1].residues;
    assert cs[..1] == [cs[0]];
    assert cs[..1][..0] == [];
    assert |ResiduesOf(cs[..1])| == 3;
    assert ChainCa(rs, 4).Err?;
    assert ImproperAsWrittenAt(rs, 3, 5, 0).Err?;
    assert ImpropersAsWritten(rs, 3, 5, 1).Err?;
    assert ImpropersAsWritten(rs, 3, 5, 2).Err?;
    assert ImpropersAsWritten(rs, 3, 5, 3).Err?;
    assert ChainDihedralsAsWritten(cs[1], 3).Err?;
    TwoAlaChainsShaped();
    ChainsDihedralsShaped(cs);
  }
}
