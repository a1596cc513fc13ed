/** The AWSEM mapping: every residue becomes three beads, CA, O and either CB
    or, for a glycine, a hydrogen HB placed by interpolation from the
    residue's N, CA and O atoms. Bead numbering runs three per residue over
    the whole topology, and consecutive residues are bonded whether or not
    they share a chain. */
module AwsemMapping {
  import opened Common
  import opened Structure
  import opened Projection

  /** A row of the HB table: the source N, CA and O atoms of a glycine and
      the HB bead placed from them. */
  datatype HbRow = HbRow(n: nat, ca: nat, o: nat, hb: nat)

  /** The coarse topology, the CA/CB/O table `[atom.index, bead.index]` and
      the glycine HB table. */
  datatype AwMapping = AwMapping(top: Topology<Bead>, cacboIdxs: seq<IndexPair>, hbIdxs: seq<HbRow>)

  /** The bonds and both index tables built so far. */
  datatype Emitted = Emitted(bonds: seq<Bond>, cacbo: seq<IndexPair>, hb: seq<HbRow>)

  /** Interpolation weights of the glycine HB bead. */
  const HbCoeffN: real := -0.946747
  const HbCoeffCA: real := 2.50352
  const HbCoeffO: real := -0.620388

  /** `[a.index for a in residue.atoms if a.name == name][0]`. */
  function AtomNamed(res: Residue<Atom>, name: string): (r: Result<nat>)
    ensures r.Ok? <==> FindAtom(res.atoms, name).Some?
    ensures r.Ok? ==> r.value == FindAtom(res.atoms, name).value
    ensures r.Err? ==> r.error == MissingAtom(name)
  {
    OptionToResult(FindAtom(res.atoms, name), MissingAtom(name))
  }

  predicate Has(res: Residue<Atom>, name: string)
  {
    FindAtom(res.atoms, name).Some?
  }

  function Idx(res: Residue<Atom>, name: string): nat
    requires Has(res, name)
  {
    FindAtom(res.atoms, name).value
  }

  /** The atoms a residue must have: CA and O, and N for a glycine or CB
      for any other residue. */
  predicate Complete(res: Residue<Atom>)
  {
    Has(res, "CA") && Has(res, "O") && (if res.name == GLY then Has(res, "N") else Has(res, "CB"))
  }

  /** The three beads of the residue at topology position `r`. */
  function AwsemResidue(res: Residue<Atom>, r: nat): Residue<Bead>
  {
    Residue(res.name, r + 1,
            [Bead(3 * r, "CA", "C"), Bead(3 * r + 1, "O", "O"),
             if res.name == GLY then Bead(3 * r + 2, "HB", "H") else Bead(3 * r + 2, "CB", "C")])
  }

  /** One pass of the residue loop for the residue at topology position `r`:
      its bead counter is `3 * r`, since every residue adds three beads. */
  function EmitResidue(pre: Emitted, res: Residue<Atom>, r: nat): Result<Emitted>
  {
    var k := 3 * r;
    var ca :- AtomNamed(res, "CA");
    var o :- AtomNamed(res, "O");
    var links := if r == 0 then [] else [(k - 3, k), (k - 2, k)];
    if res.name == GLY then
      var n :- AtomNamed(res, "N");
      Ok(Emitted(pre.bonds + [(k, k + 1), (k, k + 2)] + links,
                 pre.cacbo + [(ca, k), (o, k + 1)],
                 pre.hb + [HbRow(n, ca, o, k + 2)]))
    else
      var cb :- AtomNamed(res, "CB");
      Ok(Emitted(pre.bonds + [(k, k + 1), (k, k + 2)] + links,
                 pre.cacbo + [(ca, k), (o, k + 1), (cb, k + 2)],
                 pre.hb))
  }

  /** The residue loop over `topology.residues`, stopping at the first
      residue that lacks an atom. */
  function Sweep(rs: seq<Residue<Atom>>): Result<Emitted>
  {
    if |rs| == 0 then Ok(Emitted([], [], []))
    else
      var pre :- Sweep(rs[..|rs| - 1]);
      EmitResidue(pre, rs[|rs| - 1], |rs| - 1)
  }

  /** The new chains: chain by chain, each residue replaced by its beads. */
  function OutChains(chains: seq<Chain<Atom>>): seq<Chain<Bead>>
  {
    if |chains| == 0 then []
    else
      var p := chains[..|chains| - 1];
      var last := chains[|chains| - 1];
      var first := |ResiduesOf(p)|;
      OutChains(p) + [Chain(seq(|last.residues|, i requires 0 <= i < |last.residues| =>
                                  AwsemResidue(last.residues[i], first + i)))]
  }

  /** `AwsemMapping(topology)`. */
  function Build(top: Topology<Atom>): Result<AwMapping>
  {
    var e :- Sweep(ResiduesOf(top.chains));
    Ok(AwMapping(Topology(OutChains(top.chains), e.bonds), e.cacbo, e.hb))
  }

  // ---------------------------------------------------------------------
  // What the build produces

  /** Bond `b` is one the residue at position `r` adds: CA-O, CA-CB (or
      CA-HB), and, after the first residue of the topology, previous CA to
      CA and previous O to CA. */
  ghost predicate BondOf(r: nat, b: Bond)
  {
    || (b.0 == 3 * r && (b.1 == 3 * r + 1 || b.1 == 3 * r + 2))
    || (0 < r && b.1 == 3 * r && (b.0 + 3 == 3 * r || b.0 + 2 == 3 * r))
  }

  /** Row `p` of the CA/CB/O table is one for residue `res` at position `r`:
      its CA, its O, or (not a glycine) its CB, to the matching bead. */
  ghost predicate CacboOf(res: Residue<Atom>, r: nat, p: IndexPair)
  {
    || (FindAtom(res.atoms, "CA") == Some(p.0) && p.1 == 3 * r)
    || (FindAtom(res.atoms, "O") == Some(p.0) && p.1 == 3 * r + 1)
    || (res.name != GLY && FindAtom(res.atoms, "CB") == Some(p.0) && p.1 == 3 * r + 2)
  }

  /** Row `h` of the HB table is the one of glycine `res` at position `r`. */
  ghost predicate HbOf(res: Residue<Atom>, r: nat, h: HbRow)
  {
    && res.name == GLY
    && FindAtom(res.atoms, "N") == Some(h.n)
    && FindAtom(res.atoms, "CA") == Some(h.ca)
    && FindAtom(res.atoms, "O") == Some(h.o)
    && h.hb == 3 * r + 2
  }

  function ResidueBonds(r: nat): seq<Bond>
  {
    [(3 * r, 3 * r + 1), (3 * r, 3 * r + 2)] + (if r == 0 then [] else [(3 * r - 3, 3 * r), (3 * r - 2, 3 * r)])
  }

  function CacboRows(res: Residue<Atom>, r: nat): seq<IndexPair>
    requires Complete(res)
  {
    [(Idx(res, "CA"), 3 * r), (Idx(res, "O"), 3 * r + 1)]
      + (if res.name == GLY then [] else [(Idx(res, "CB"), 3 * r + 2)])
  }

  function HbRows(res: Residue<Atom>, r: nat): seq<HbRow>
    requires Complete(res)
  {
    if res.name == GLY then [HbRow(Idx(res, "N"), Idx(res, "CA"), Idx(res, "O"), 3 * r + 2)] else []
  }

  /** One residue succeeds exactly when it is complete, and then appends its
      bonds and table rows. */
  lemma {:induction false} EmitResidueStep(pre: Emitted, res: Residue<Atom>, r: nat)
    ensures EmitResidue(pre, res, r).Ok? <==> Complete(res)
    ensures Complete(res) ==>
      EmitResidue(pre, res, r) == Ok(Emitted(pre.bonds + ResidueBonds(r), pre.cacbo + CacboRows(res, r),
                                             pre.hb + HbRows(res, r)))
  {
    if Complete(res) {
      var own := [(3 * r, 3 * r + 1), (3 * r, 3 * r + 2)];
      var links := if r == 0 then [] else [(3 * r - 3, 3 * r), (3 * r - 2, 3 * r)];
      assert ResidueBonds(r) == own + links;
      assert pre.bonds + own + links == pre.bonds + (own + links);
      if res.name == GLY {
        assert [(Idx(res, "CA"), 3 * r), (Idx(res, "O"), 3 * r + 1)] + []
            == [(Idx(res, "CA"), 3 * r), (Idx(res, "O"), 3 * r + 1)];
      } else {
        assert pre.hb + [] == pre.hb;
        assert [(Idx(res, "CA"), 3 * r), (Idx(res, "O"), 3 * r + 1)] + [(Idx(res, "CB"), 3 * r + 2)]
            == [(Idx(res, "CA"), 3 * r), (Idx(res, "O"), 3 * r + 1), (Idx(res, "CB"), 3 * r + 2)];
      }
    }
  }

  lemma {:induction false} ResidueRowsOf(res: Residue<Atom>, r: nat, b: Bond, p: IndexPair, h: HbRow)
    requires Complete(res)
    ensures b in ResidueBonds(r) <==> BondOf(r, b)
    ensures p in CacboRows(res, r) <==> CacboOf(res, r, p)
    ensures h in HbRows(res, r) <==> HbOf(res, r, h)
  {
  }

  /** The sweep succeeds exactly when every residue is complete. */
  lemma {:induction false} SweepOk(rs: seq<Residue<Atom>>)
    ensures Sweep(rs).Ok? <==> forall r :: 0 <= r < |rs| ==> Complete(rs[r])
    decreases |rs|
  {
    if |rs| > 0 {
      var pre := rs[..|rs| - 1];
      SweepOk(pre);
      assert forall r :: 0 <= r < |pre| ==> pre[r] == rs[r];
      if Sweep(pre).Ok? {
        EmitResidueStep(Sweep(pre).value, rs[|rs| - 1], |rs| - 1);
      }
    }
  }

  /** The sweep's value, one residue further. */
  lemma {:induction false} SweepStep(rs: seq<Residue<Atom>>)
    requires |rs| > 0 && Sweep(rs).Ok?
    ensures Sweep(rs[..|rs| - 1]).Ok? && Complete(rs[|rs| - 1])
    ensures Sweep(rs).value.bonds == Sweep(rs[..|rs| - 1]).value.bonds + ResidueBonds(|rs| - 1)
    ensures Sweep(rs).value.cacbo == Sweep(rs[..|rs| - 1]).value.cacbo + CacboRows(rs[|rs| - 1], |rs| - 1)
    ensures Sweep(rs).value.hb == Sweep(rs[..|rs| - 1]).value.hb + HbRows(rs[|rs| - 1], |rs| - 1)
  {
    EmitResidueStep(Sweep(rs[..|rs| - 1]).value, rs[|rs| - 1], |rs| - 1);
  }

  /** The bonds are exactly those some residue adds, four per residue after
      the first. */
  lemma {:induction false} SweepBonds(rs: seq<Residue<Atom>>, b: Bond)
    requires Sweep(rs).Ok?
    ensures b in Sweep(rs).value.bonds <==> exists r :: 0 <= r < |rs| && BondOf(r, b)
    ensures |Sweep(rs).value.bonds| == if |rs| == 0 then 0 else 4 * |rs| - 2
    decreases |rs|
  {
    if |rs| > 0 {
      var n := |rs| - 1;
      SweepStep(rs);
      SweepBonds(rs[..n], b);
      ResidueRowsOf(rs[n], n, b, (0, 0), HbRow(0, 0, 0, 0));
      if BondOf(n, b) {
        assert exists r :: 0 <= r < |rs| && BondOf(r, b);
      }
    }
  }

  /** The CA/CB/O table holds exactly the rows of the residues, and each row
      names a bead of the new topology. */
  lemma {:induction false} SweepCacbo(rs: seq<Residue<Atom>>, p: IndexPair)
    requires Sweep(rs).Ok?
    ensures p in Sweep(rs).value.cacbo <==> exists r :: 0 <= r < |rs| && CacboOf(rs[r], r, p)
    decreases |rs|
  {
    if |rs| > 0 {
      var n := |rs| - 1;
      SweepStep(rs);
      SweepCacbo(rs[..n], p);
      ResidueRowsOf(rs[n], n, (0, 0), p, HbRow(0, 0, 0, 0));
      assert forall r :: 0 <= r < n ==> rs[..n][r] == rs[r];
      if CacboOf(rs[n], n, p) {
        assert exists r :: 0 <= r < |rs| && CacboOf(rs[r], r, p);
      }
    }
  }

  /** The HB table holds exactly one row per glycine. */
  lemma {:induction false} SweepHb(rs: seq<Residue<Atom>>, h: HbRow)
    requires Sweep(rs).Ok?
    ensures h in Sweep(rs).value.hb <==> exists r :: 0 <= r < |rs| && HbOf(rs[r], r, h)
    decreases |rs|
  {
    if |rs| > 0 {
      var n := |rs| - 1;
      SweepStep(rs);
      SweepHb(rs[..n], h);
      ResidueRowsOf(rs[n], n, (0, 0), (0, 0), h);
      assert forall r :: 0 <= r < n ==> rs[..n][r] == rs[r];
      if HbOf(rs[n], n, h) {
        assert exists r :: 0 <= r < |rs| && HbOf(rs[r], r, h);
      }
    }
  }

  /** Every residue of the new topology is the three-bead image of the
      residue at the same position, chain by chain. */
  lemma {:induction false} OutChainsSpec(chains: seq<Chain<Atom>>)
    ensures ShapeKept(chains, OutChains(chains))
    ensures |ResiduesOf(OutChains(chains))| == |ResiduesOf(chains)|
    ensures forall r :: 0 <= r < |ResiduesOf(chains)| ==>
      ResiduesOf(OutChains(chains))[r] == AwsemResidue(ResiduesOf(chains)[r], r)
    decreases |chains|
  {
    if |chains| > 0 {
      var p := chains[..|chains| - 1];
      var last := chains[|chains| - 1];
      var first := |ResiduesOf(p)|;
      var c := Chain(seq(|last.residues|, i requires 0 <= i < |last.residues| =>
                           AwsemResidue(last.residues[i], first + i)));
      OutChainsSpec(p);
      assert OutChains(chains) == OutChains(p) + [c];
      ShapeAppend(p, last, OutChains(p), c);
      assert ResiduesOf(OutChains(chains)) == ResiduesOf(OutChains(p)) + c.residues by {
        assert (OutChains(p) + [c])[..|OutChains(p) + [c]| - 1] == OutChains(p);
      }
      forall r | 0 <= r < |ResiduesOf(chains)|
        ensures ResiduesOf(OutChains(chains))[r] == AwsemResidue(ResiduesOf(chains)[r], r)
      {
        if r >= first {
          assert ResiduesOf(chains)[r] == last.residues[r - first];
        }
      }
    }
  }

  /** Residue `r` carries beads `3r`, `3r+1` and `3r+2`. */
  ghost predicate Beaded(os: seq<Residue<Bead>>)
  {
    forall r :: 0 <= r < |os| ==>
      && |os[r].atoms| == 3
      && os[r].atoms[0].index == 3 * r
      && os[r].atoms[1].index == 3 * r + 1
      && os[r].atoms[2].index == 3 * r + 2
  }

  /** Three beads per residue numbered in order: the beads are numbered
      0, 1, 2, ... in traversal order. */
  lemma {:induction false} BeadedDense(os: seq<Residue<Bead>>)
    requires Beaded(os)
    ensures |AtomsIn(os)| == 3 * |os|
    ensures Dense(AtomsIn(os))
    decreases |os|
  {
    if |os| > 0 {
      var pre := os[..|os| - 1];
      assert Beaded(pre) by {
        forall r | 0 <= r < |pre| ensures pre[r] == os[r] { }
      }
      BeadedDense(pre);
    }
  }

  /** What a successful `AwsemMapping(topology)` holds for the source
      chains: the chains keep their shape, residue `r` becomes beads `3r`
      (CA), `3r+1` (O) and `3r+2` (CB or HB) with residue number `r+1`, the
      bonds are those the residues add, and the tables list exactly the
      residues' rows. */
  ghost predicate AwBuilt(chains: seq<Chain<Atom>>, m: AwMapping)
  {
    && ShapeKept(chains, m.top.chains)
    && |ResiduesOf(m.top.chains)| == |ResiduesOf(chains)|
    && (forall r :: 0 <= r < |ResiduesOf(chains)| ==>
          ResiduesOf(m.top.chains)[r] == AwsemResidue(ResiduesOf(chains)[r], r))
    && |AtomsOf(m.top.chains)| == 3 * |ResiduesOf(chains)|
    && Dense(AtomsOf(m.top.chains))
    && (forall b :: b in m.top.bonds <==> exists r :: 0 <= r < |ResiduesOf(chains)| && BondOf(r, b))
    && (forall p :: p in m.cacboIdxs <==>
          exists r :: 0 <= r < |ResiduesOf(chains)| && CacboOf(ResiduesOf(chains)[r], r, p))
    && (forall h :: h in m.hbIdxs <==>
          exists r :: 0 <= r < |ResiduesOf(chains)| && HbOf(ResiduesOf(chains)[r], r, h))
  }

  /** What `AwsemMapping(topology)` builds: it fails exactly when some
      residue lacks CA, O, or N (glycine) or CB (other residues); otherwise
      it holds `AwBuilt`. */
  lemma {:induction false} BuildSpec(top: Topology<Atom>)
    ensures Build(top).Ok? <==> forall r :: 0 <= r < |ResiduesOf(top.chains)| ==> Complete(ResiduesOf(top.chains)[r])
    ensures Build(top).Ok? ==> AwBuilt(top.chains, Build(top).value)
  {
    SweepOk(ResiduesOf(top.chains));
    if Sweep(ResiduesOf(top.chains)).Err? {
      assert Build(top).Err?;
    }
    if Build(top).Ok? {
      BuildShape(top);
      BuildTables(top);
    }
  }

  /** The beads of a successful build: shape, numbering and density. */
  lemma {:induction false} BuildShape(top: Topology<Atom>)
    requires Build(top).Ok?
    ensures var m := Build(top).value;
      && ShapeKept(top.chains, m.top.chains)
      && |ResiduesOf(m.top.chains)| == |ResiduesOf(top.chains)|
      && (forall r :: 0 <= r < |ResiduesOf(top.chains)| ==>
            ResiduesOf(m.top.chains)[r] == AwsemResidue(ResiduesOf(top.chains)[r], r))
      && |AtomsOf(m.top.chains)| == 3 * |ResiduesOf(top.chains)|
      && Dense(AtomsOf(m.top.chains))
  {
    OutChainsSpec(top.chains);
    assert Beaded(ResiduesOf(OutChains(top.chains)));
    BeadedDense(ResiduesOf(OutChains(top.chains)));
  }

  /** The bonds and tables of a successful build. */
  lemma {:induction false} BuildTables(top: Topology<Atom>)
    requires Build(top).Ok?
    ensures var m := Build(top).value;
      && (forall b :: b in m.top.bonds <==> exists r :: 0 <= r < |ResiduesOf(top.chains)| && BondOf(r, b))
      && (forall p :: p in m.cacboIdxs <==>
            exists r :: 0 <= r < |ResiduesOf(top.chains)| && CacboOf(ResiduesOf(top.chains)[r], r, p))
      && (forall h :: h in m.hbIdxs <==>
            exists r :: 0 <= r < |ResiduesOf(top.chains)| && HbOf(ResiduesOf(top.chains)[r], r, h))
  {
    SweepTables(ResiduesOf(top.chains));
  }

  /** The bonds and tables of a successful sweep, each as a membership
      condition. */
  lemma {:induction false} SweepTables(rs: seq<Residue<Atom>>)
    requires Sweep(rs).Ok?
    ensures var e := Sweep(rs).value;
      && (forall b :: b in e.bonds <==> exists r :: 0 <= r < |rs| && BondOf(r, b))
      && (forall p :: p in e.cacbo <==> exists r :: 0 <= r < |rs| && CacboOf(rs[r], r, p))
      && (forall h :: h in e.hb <==> exists r :: 0 <= r < |rs| && HbOf(rs[r], r, h))
  {
    forall b ensures b in Sweep(rs).value.bonds <==> exists r :: 0 <= r < |rs| && BondOf(r, b) {
      SweepBonds(rs, b);
    }
    forall p ensures p in Sweep(rs).value.cacbo <==> exists r :: 0 <= r < |rs| && CacboOf(rs[r], r, p) {
      SweepCacbo(rs, p);
    }
    forall h ensures h in Sweep(rs).value.hb <==> exists r :: 0 <= r < |rs| && HbOf(rs[r], r, h) {
      SweepHb(rs, h);
    }
  }



  // ---------------------------------------------------------------------
  // Projection

  predicate CacboSourcesBelow(ps: seq<IndexPair>, n: nat)
  {
    forall j :: 0 <= j < |ps| ==> ps[j].0 < n
  }

  predicate CacboTargetsBelow(ps: seq<IndexPair>, n: nat)
  {
    forall j :: 0 <= j < |ps| ==> ps[j].1 < n
  }

  predicate HbSourcesBelow(hs: seq<HbRow>, n: nat)
  {
    forall j :: 0 <= j < |hs| ==> hs[j].n < n && hs[j].ca < n && hs[j].o < n
  }

  predicate HbTargetsBelow(hs: seq<HbRow>, n: nat)
  {
    forall j :: 0 <= j < |hs| ==> hs[j].hb < n
  }

  /** The HB bead interpolated from a glycine's N, CA and O positions. */
  function HbPosition(n: Vec3, ca: Vec3, o: Vec3): Vec3
  {
    Combine(HbCoeffN, HbCoeffCA, HbCoeffO, n, ca, o)
  }

  /** `out[:, CACBO[:,1]] = xyz[:, CACBO[:,0]]` for one frame, as writes. */
  function CacboWrites(ps: seq<IndexPair>, frame: seq<Vec3>): (ws: seq<Write>)
    requires CacboSourcesBelow(ps, |frame|)
    ensures |ws| == |ps|
    ensures forall j :: 0 <= j < |ps| ==> ws[j] == (ps[j].1, frame[ps[j].0])
  {
    seq(|ps|, j requires 0 <= j < |ps| => (ps[j].1, frame[ps[j].0]))
  }

  /** `out[:, HB[:,3]] = cN*xyz[:, HB[:,0]] + cCA*xyz[:, HB[:,1]] + cO*xyz[:, HB[:,2]]`
      for one frame, as writes. */
  function HbWrites(hs: seq<HbRow>, frame: seq<Vec3>): (ws: seq<Write>)
    requires HbSourcesBelow(hs, |frame|)
    ensures |ws| == |hs|
    ensures forall j :: 0 <= j < |hs| ==>
      ws[j] == (hs[j].hb, HbPosition(frame[hs[j].n], frame[hs[j].ca], frame[hs[j].o]))
  {
    seq(|hs|, j requires 0 <= j < |hs| => (hs[j].hb, HbPosition(frame[hs[j].n], frame[hs[j].ca], frame[hs[j].o])))
  }

  /** One frame of the new trajectory: zeros, then the CA/CB/O copies, then
      the HB interpolations. */
  function ProjectFrame(m: AwMapping, n: nat, frame: seq<Vec3>): (out: seq<Vec3>)
    requires CacboTargetsBelow(m.cacboIdxs, n) && CacboSourcesBelow(m.cacboIdxs, |frame|)
    requires HbTargetsBelow(m.hbIdxs, n) && HbSourcesBelow(m.hbIdxs, |frame|)
  {
    TableTargets(m.cacboIdxs, m.hbIdxs, frame, n);
    Scatter(n, TableWrites(m.cacboIdxs, m.hbIdxs, frame))
  }

  /** Both tables' writes for one frame, CA/CB/O rows first. */
  function TableWrites(ps: seq<IndexPair>, hs: seq<HbRow>, frame: seq<Vec3>): (ws: seq<Write>)
    requires CacboSourcesBelow(ps, |frame|) && HbSourcesBelow(hs, |frame|)
    ensures |ws| == |ps| + |hs|
    ensures forall j :: 0 <= j < |ps| ==> ws[j] == (ps[j].1, frame[ps[j].0])
    ensures forall j :: 0 <= j < |hs| ==>
      ws[|ps| + j] == (hs[j].hb, HbPosition(frame[hs[j].n], frame[hs[j].ca], frame[hs[j].o]))
  {
    var ws := CacboWrites(ps, frame) + HbWrites(hs, frame);
    assert forall j :: 0 <= j < |hs| ==> ws[|ps| + j] == HbWrites(hs, frame)[j];
    ws
  }

  /** Every write lands on a bead below `n` when both tables' targets do. */
  lemma {:induction false} TableTargets(ps: seq<IndexPair>, hs: seq<HbRow>, frame: seq<Vec3>, n: nat)
    requires CacboSourcesBelow(ps, |frame|) && HbSourcesBelow(hs, |frame|)
    requires CacboTargetsBelow(ps, n) && HbTargetsBelow(hs, n)
    ensures forall j :: 0 <= j < |ps| + |hs| ==> TableWrites(ps, hs, frame)[j].0 < n
  {
    var ws := TableWrites(ps, hs, frame);
    forall j | 0 <= j < |ws| ensures ws[j].0 < n {
      if j >= |ps| { assert ws[|ps| + (j - |ps|)].0 == hs[j - |ps|].hb; }
    }
  }

  /** `map_traj` as written: `np.array([])[:, k]` raises for an empty table,
      and the HB table is empty whenever the topology has no glycine. */
  function MapTrajAsWritten(m: AwMapping, t: Trajectory): Result<Trajectory>
    requires WellShaped(t)
  {
    var n := |AtomsOf(m.top.chains)|;
    if |m.cacboIdxs| == 0 then Err(EmptyIndexTable)
    else if !CacboTargetsBelow(m.cacboIdxs, n) || !CacboSourcesBelow(m.cacboIdxs, t.nAtoms) then Err(IndexOutOfRange)
    else if |m.hbIdxs| == 0 then Err(EmptyIndexTable)
    else if !HbTargetsBelow(m.hbIdxs, n) || !HbSourcesBelow(m.hbIdxs, t.nAtoms) then Err(IndexOutOfRange)
    else Ok(Trajectory(n, seq(|t.frames|, f requires 0 <= f < |t.frames| => ProjectFrame(m, n, t.frames[f]))))
  }

  /** `map_traj` with the HB step skipped when there is no glycine, which
      is what the interpolation evidently means: an empty table places no
      HB bead. */
  function MapTraj(m: AwMapping, t: Trajectory): Result<Trajectory>
    requires WellShaped(t)
  {
    var n := |AtomsOf(m.top.chains)|;
    if |m.cacboIdxs| == 0 then Err(EmptyIndexTable)
    else if !CacboTargetsBelow(m.cacboIdxs, n) || !CacboSourcesBelow(m.cacboIdxs, t.nAtoms) then Err(IndexOutOfRange)
    else if !HbTargetsBelow(m.hbIdxs, n) || !HbSourcesBelow(m.hbIdxs, t.nAtoms) then Err(IndexOutOfRange)
    else Ok(Trajectory(n, seq(|t.frames|, f requires 0 <= f < |t.frames| => ProjectFrame(m, n, t.frames[f]))))
  }

  /** The source atom called `name` exists and lies inside the trajectory. */
  predicate Fits(res: Residue<Atom>, name: string, nAtoms: nat)
  {
    FindAtom(res.atoms, name).Some? && FindAtom(res.atoms, name).value < nAtoms
  }

  /** Every atom the residue's beads are read from lies inside the
      trajectory. */
  predicate SourcesFit(res: Residue<Atom>, nAtoms: nat)
  {
    Fits(res, "CA", nAtoms) && Fits(res, "O", nAtoms)
    && (if res.name == GLY then Fits(res, "N", nAtoms) else Fits(res, "CB", nAtoms))
  }

  /** Where the third bead of a residue goes: the source CB, or for a
      glycine the interpolated HB. */
  function SideBead(res: Residue<Atom>, frame: seq<Vec3>): Vec3
    requires SourcesFit(res, |frame|)
  {
    if res.name == GLY then HbPosition(frame[Idx(res, "N")], frame[Idx(res, "CA")], frame[Idx(res, "O")])
    else frame[Idx(res, "CB")]
  }

  /** The value bead `3r + c` of residue `res` takes in one frame. */
  function Expected(res: Residue<Atom>, frame: seq<Vec3>, c: nat): Vec3
    requires SourcesFit(res, |frame|) && c < 3
  {
    if c == 0 then frame[Idx(res, "CA")] else if c == 1 then frame[Idx(res, "O")] else SideBead(res, frame)
  }

  /** Write `w` is one of the three writes of the residue at position `r`. */
  ghost predicate ExpectedWrite(res: Residue<Atom>, r: nat, frame: seq<Vec3>, w: Write)
  {
    SourcesFit(res, |frame|) && 3 * r <= w.0 < 3 * r + 3 && w.1 == Expected(res, frame, w.0 - 3 * r)
  }

  /** One output frame: residue `r`'s beads hold its CA, its O and its CB
      (or interpolated HB). */
  ghost predicate FrameProjected(rs: seq<Residue<Atom>>, frame: seq<Vec3>, out: seq<Vec3>)
  {
    && |out| == 3 * |rs|
    && forall r :: 0 <= r < |rs| ==>
         && SourcesFit(rs[r], |frame|)
         && out[3 * r] == frame[Idx(rs[r], "CA")]
         && out[3 * r + 1] == frame[Idx(rs[r], "O")]
         && out[3 * r + 2] == SideBead(rs[r], frame)
  }

  ghost predicate AllFit(rs: seq<Residue<Atom>>, nAtoms: nat)
  {
    forall r :: 0 <= r < |rs| ==> SourcesFit(rs[r], nAtoms)
  }

  /** The tables of a successful sweep: their targets are beads of the new
      topology, their sources fit a trajectory exactly when every residue's
      do, the CA/CB/O table is empty only for an empty topology and the HB
      table only when there is no glycine. */
  lemma {:induction false} TablesFit(rs: seq<Residue<Atom>>, e: Emitted, nAtoms: nat)
    requires Sweep(rs) == Ok(e)
    ensures CacboTargetsBelow(e.cacbo, 3 * |rs|) && HbTargetsBelow(e.hb, 3 * |rs|)
    ensures (CacboSourcesBelow(e.cacbo, nAtoms) && HbSourcesBelow(e.hb, nAtoms)) <==> AllFit(rs, nAtoms)
    ensures |e.cacbo| > 0 <==> |rs| > 0
    ensures |e.hb| > 0 <==> exists r :: 0 <= r < |rs| && rs[r].name == GLY
  {
    SweepOk(rs);
    forall j | 0 <= j < |e.cacbo|
      ensures e.cacbo[j].1 < 3 * |rs|
      ensures AllFit(rs, nAtoms) ==> e.cacbo[j].0 < nAtoms
    {
      SweepCacbo(rs, e.cacbo[j]);
    }
    forall j | 0 <= j < |e.hb|
      ensures e.hb[j].hb < 3 * |rs|
      ensures AllFit(rs, nAtoms) ==> e.hb[j].n < nAtoms && e.hb[j].ca < nAtoms && e.hb[j].o < nAtoms
    {
      SweepHb(rs, e.hb[j]);
    }
    if CacboSourcesBelow(e.cacbo, nAtoms) && HbSourcesBelow(e.hb, nAtoms) {
      forall r | 0 <= r < |rs| ensures SourcesFit(rs[r], nAtoms) {
        RowsPresent(rs, e, r);
      }
    }
    if |rs| > 0 {
      RowsPresent(rs, e, 0);
    }
    if |e.cacbo| > 0 {
      SweepCacbo(rs, e.cacbo[0]);
    }
    if |e.hb| > 0 {
      SweepHb(rs, e.hb[0]);
    }
    if r :| 0 <= r < |rs| && rs[r].name == GLY {
      RowsPresent(rs, e, r);
    }
  }

  /** The rows of residue `r` are in the tables. */
  lemma {:induction false} RowsPresent(rs: seq<Residue<Atom>>, e: Emitted, r: nat)
    requires Sweep(rs) == Ok(e) && r < |rs|
    ensures Complete(rs[r])
    ensures (Idx(rs[r], "CA"), 3 * r) in e.cacbo
    ensures (Idx(rs[r], "O"), 3 * r + 1) in e.cacbo
    ensures rs[r].name != GLY ==> (Idx(rs[r], "CB"), 3 * r + 2) in e.cacbo
    ensures rs[r].name == GLY ==> HbRow(Idx(rs[r], "N"), Idx(rs[r], "CA"), Idx(rs[r], "O"), 3 * r + 2) in e.hb
  {
    SweepOk(rs);
    SweepCacbo(rs, (Idx(rs[r], "CA"), 3 * r));
    SweepCacbo(rs, (Idx(rs[r], "O"), 3 * r + 1));
    if rs[r].name != GLY {
      SweepCacbo(rs, (Idx(rs[r], "CB"), 3 * r + 2));
    } else {
      SweepHb(rs, HbRow(Idx(rs[r], "N"), Idx(rs[r], "CA"), Idx(rs[r], "O"), 3 * r + 2));
    }
  }

  /** A CA/CB/O row of residue `res` writes one of its three expected
      values. */
  lemma {:induction false} CacboRowExpected(res: Residue<Atom>, r: nat, frame: seq<Vec3>, p: IndexPair)
    requires SourcesFit(res, |frame|) && CacboOf(res, r, p)
    ensures p.0 < |frame| && ExpectedWrite(res, r, frame, (p.1, frame[p.0]))
  {
  }

  /** The HB row of glycine `res` writes its expected third bead. */
  lemma {:induction false} HbRowExpected(res: Residue<Atom>, r: nat, frame: seq<Vec3>, h: HbRow)
    requires SourcesFit(res, |frame|) && HbOf(res, r, h)
    ensures h.n < |frame| && h.ca < |frame| && h.o < |frame|
    ensures ExpectedWrite(res, r, frame, (h.hb, HbPosition(frame[h.n], frame[h.ca], frame[h.o])))
  {
  }

  /** Every write of a frame is one of some residue's three writes. */
  lemma {:induction false} WritesExpected(rs: seq<Residue<Atom>>, e: Emitted, frame: seq<Vec3>, j: nat)
    requires Sweep(rs) == Ok(e) && AllFit(rs, |frame|)
    requires CacboSourcesBelow(e.cacbo, |frame|) && HbSourcesBelow(e.hb, |frame|)
    requires j < |e.cacbo| + |e.hb|
    ensures exists r :: 0 <= r < |rs| && ExpectedWrite(rs[r], r, frame, TableWrites(e.cacbo, e.hb, frame)[j])
  {
    var ws := TableWrites(e.cacbo, e.hb, frame);
    if j < |e.cacbo| {
      SweepCacbo(rs, e.cacbo[j]);
      var r :| 0 <= r < |rs| && CacboOf(rs[r], r, e.cacbo[j]);
      CacboRowExpected(rs[r], r, frame, e.cacbo[j]);
    } else {
      var h := e.hb[j - |e.cacbo|];
      SweepHb(rs, h);
      var r :| 0 <= r < |rs| && HbOf(rs[r], r, h);
      HbRowExpected(rs[r], r, frame, h);
      assert ws[|e.cacbo| + (j - |e.cacbo|)] == (h.hb, HbPosition(frame[h.n], frame[h.ca], frame[h.o]));
    }
  }

  /** Some write of a frame targets bead `3r + c`. */
  lemma {:induction false} BeadWritten(rs: seq<Residue<Atom>>, e: Emitted, frame: seq<Vec3>, r: nat, c: nat)
    requires Sweep(rs) == Ok(e) && r < |rs| && c < 3
    requires CacboSourcesBelow(e.cacbo, |frame|) && HbSourcesBelow(e.hb, |frame|)
    ensures exists j :: 0 <= j < |e.cacbo| + |e.hb| && TableWrites(e.cacbo, e.hb, frame)[j].0 == 3 * r + c
  {
    var ws := TableWrites(e.cacbo, e.hb, frame);
    RowsPresent(rs, e, r);
    if c == 0 {
      var j :| 0 <= j < |e.cacbo| && e.cacbo[j] == (Idx(rs[r], "CA"), 3 * r);
      assert ws[j].0 == 3 * r + c;
    } else if c == 1 {
      var j :| 0 <= j < |e.cacbo| && e.cacbo[j] == (Idx(rs[r], "O"), 3 * r + 1);
      assert ws[j].0 == 3 * r + c;
    } else if rs[r].name != GLY {
      var j :| 0 <= j < |e.cacbo| && e.cacbo[j] == (Idx(rs[r], "CB"), 3 * r + 2);
      assert ws[j].0 == 3 * r + c;
    } else {
      var j :| 0 <= j < |e.hb| && e.hb[j] == HbRow(Idx(rs[r], "N"), Idx(rs[r], "CA"), Idx(rs[r], "O"), 3 * r + 2);
      assert ws[|e.cacbo| + j].0 == 3 * r + c;
    }
  }

  /** Every write of a frame to bead `3r + c` carries the value residue `r`
      promises it. */
  lemma {:induction false} BeadWritesAgree(rs: seq<Residue<Atom>>, e: Emitted, frame: seq<Vec3>, r: nat, c: nat)
    requires Sweep(rs) == Ok(e) && AllFit(rs, |frame|) && r < |rs| && c < 3
    requires CacboSourcesBelow(e.cacbo, |frame|) && HbSourcesBelow(e.hb, |frame|)
    ensures forall j :: 0 <= j < |e.cacbo| + |e.hb| && TableWrites(e.cacbo, e.hb, frame)[j].0 == 3 * r + c ==>
      TableWrites(e.cacbo, e.hb, frame)[j].1 == Expected(rs[r], frame, c)
  {
    var ws := TableWrites(e.cacbo, e.hb, frame);
    forall j | 0 <= j < |ws| && ws[j].0 == 3 * r + c ensures ws[j].1 == Expected(rs[r], frame, c) {
      WritesExpected(rs, e, frame, j);
      var r' :| 0 <= r' < |rs| && ExpectedWrite(rs[r'], r', frame, ws[j]);
      assert r' == r;
    }
  }

  /** Bead `3r + c` of a projected frame holds the value residue `r`
      promises it. */
  lemma {:induction false} BeadValue(rs: seq<Residue<Atom>>, m: AwMapping, e: Emitted, frame: seq<Vec3>, r: nat, c: nat)
    requires Sweep(rs) == Ok(e) && m.cacboIdxs == e.cacbo && m.hbIdxs == e.hb
    requires AllFit(rs, |frame|) && r < |rs| && c < 3
    requires CacboTargetsBelow(m.cacboIdxs, 3 * |rs|) && CacboSourcesBelow(m.cacboIdxs, |frame|)
    requires HbTargetsBelow(m.hbIdxs, 3 * |rs|) && HbSourcesBelow(m.hbIdxs, |frame|)
    ensures 3 * r + c < 3 * |rs|
    ensures ProjectFrame(m, 3 * |rs|, frame)[3 * r + c] == Expected(rs[r], frame, c)
  {
    BeadWritten(rs, e, frame, r, c);
    BeadWritesAgree(rs, e, frame, r, c);
    ScatterAgreeing(3 * |rs|, TableWrites(e.cacbo, e.hb, frame), 3 * r + c, Expected(rs[r], frame, c));
  }

  /** Every frame a successful sweep's tables produce is the projection of
      the source frame. */
  lemma {:induction false} FrameSpec(rs: seq<Residue<Atom>>, m: AwMapping, e: Emitted, frame: seq<Vec3>)
    requires Sweep(rs) == Ok(e) && m.cacboIdxs == e.cacbo && m.hbIdxs == e.hb
    requires AllFit(rs, |frame|)
    requires CacboTargetsBelow(m.cacboIdxs, 3 * |rs|) && CacboSourcesBelow(m.cacboIdxs, |frame|)
    requires HbTargetsBelow(m.hbIdxs, 3 * |rs|) && HbSourcesBelow(m.hbIdxs, |frame|)
    ensures FrameProjected(rs, frame, ProjectFrame(m, 3 * |rs|, frame))
  {
    forall r | 0 <= r < |rs|
      ensures ProjectFrame(m, 3 * |rs|, frame)[3 * r] == frame[Idx(rs[r], "CA")]
      ensures ProjectFrame(m, 3 * |rs|, frame)[3 * r + 1] == frame[Idx(rs[r], "O")]
      ensures ProjectFrame(m, 3 * |rs|, frame)[3 * r + 2] == SideBead(rs[r], frame)
    {
      BeadValue(rs, m, e, frame, r, 0);
      BeadValue(rs, m, e, frame, r, 1);
      BeadValue(rs, m, e, frame, r, 2);
    }
  }

  /** The trajectory the fixed `map_traj` returns for a mapping built from
      `top`: it fails exactly when the topology is empty or some source atom
      lies outside the trajectory; otherwise it has three beads per residue,
      one frame per source frame, and every frame is the projection of the
      source frame. */
  lemma {:induction false} MapTrajSpec(top: Topology<Atom>, m: AwMapping, t: Trajectory)
    requires Build(top) == Ok(m) && WellShaped(t)
    ensures MapTraj(m, t).Ok? <==> |ResiduesOf(top.chains)| > 0 && AllFit(ResiduesOf(top.chains), t.nAtoms)
    ensures MapTraj(m, t).Ok? ==>
      && MapTraj(m, t).value.nAtoms == 3 * |ResiduesOf(top.chains)|
      && |MapTraj(m, t).value.frames| == |t.frames|
      && forall f :: 0 <= f < |t.frames| ==>
           FrameProjected(ResiduesOf(top.chains), t.frames[f], MapTraj(m, t).value.frames[f])
  {
    var rs := ResiduesOf(top.chains);
    var e := Sweep(rs).value;
    BuildSpec(top);
    TablesFit(rs, e, t.nAtoms);
    if MapTraj(m, t).Ok? {
      forall f | 0 <= f < |t.frames|
        ensures FrameProjected(rs, t.frames[f], MapTraj(m, t).value.frames[f])
      {
        FrameSpec(rs, m, e, t.frames[f]);
      }
    }
  }

  /** `map_traj` as written agrees with the fixed one whenever the topology
      has a glycine, and fails on the empty HB table when it has none. */
  lemma {:induction false} MapTrajAsWrittenAgrees(top: Topology<Atom>, m: AwMapping, t: Trajectory)
    requires Build(top) == Ok(m) && WellShaped(t)
    ensures (exists r :: 0 <= r < |ResiduesOf(top.chains)| && ResiduesOf(top.chains)[r].name == GLY) ==>
      MapTrajAsWritten(m, t) == MapTraj(m, t)
    ensures MapTraj(m, t).Ok? && (forall r :: 0 <= r < |ResiduesOf(top.chains)| ==> ResiduesOf(top.chains)[r].name != GLY) ==>
      MapTrajAsWritten(m, t) == Err(EmptyIndexTable)
  {
    var rs := ResiduesOf(top.chains);
    TablesFit(rs, Sweep(rs).value, t.nAtoms);
  }

  /** A single alanine with its CA, O and CB at atoms 0, 1 and 2. */
  function Alanine(): Topology<Atom>
  {
    Topology([Chain([Residue("ALA", 1, [Atom(0, "CA", "C", 12.0, false), Atom(1, "O", "O", 16.0, false),
                                        Atom(2, "CB", "C", 12.0, true)])])], [])
  }

  /** The topology without a glycine: `map_traj` as written raises on it
      although every source atom is present, while the fixed version maps
      it. */
  lemma {:induction false} AlanineTrajectoryFails(m: AwMapping, t: Trajectory)
    requires Build(Alanine()) == Ok(m) && WellShaped(t) && t.nAtoms == 3
    ensures MapTrajAsWritten(m, t) == Err(EmptyIndexTable)
    ensures MapTraj(m, t).Ok? && MapTraj(m, t).value.nAtoms == 3
  {
    var rs := ResiduesOf(Alanine().chains);
    assert ResiduesOf(Alanine().chains[..0]) == [];
    assert rs == Alanine().chains[0].residues;
    assert AllFit(rs, 3);
    MapTrajSpec(Alanine(), m, t);
    MapTrajAsWrittenAgrees(Alanine(), m, t);
  }
}
