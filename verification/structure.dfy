/** Topologies as immutable sequences: chains of residues of atoms, in the
    chain -> residue -> atom traversal order of an mdtraj topology. The same
    shape holds all-atom structures (`Atom`) and coarse-grained ones (`Bead`). */
module Structure {
  import opened Common

  /** An all-atom atom: its mdtraj index, name, element symbol, element mass
      and whether mdtraj classes it as a sidechain atom. */
  datatype Atom = Atom(index: nat, name: string, element: string, mass: real, sidechain: bool)

  /** A coarse-grained atom as created by `Topology.add_atom`. */
  datatype Bead = Bead(index: nat, name: string, element: string)

  datatype Residue<A> = Residue(name: string, resSeq: int, atoms: seq<A>)

  datatype Chain<A> = Chain(residues: seq<Residue<A>>)

  /** A bond between two atom indices, in the order given to `add_bond`. */
  type Bond = (nat, nat)

  datatype Topology<A> = Topology(chains: seq<Chain<A>>, bonds: seq<Bond>)

  type Triple = (nat, nat, nat)
  type Quad = (nat, nat, nat, nat)

  /** A row of an index table: (source atom index, bead index). */
  type IndexPair = (nat, nat)

  /** The structure-based-model terms a mapping derives: `_angles`, and
      `_dihedrals` with `_improper_dihedrals`. */
  datatype SbmDihedrals = SbmDihedrals(proper: seq<Quad>, improper: seq<Quad>)

  /** The mutable state `add_disulfides` extends. */
  datatype SbmState = SbmState(top: Topology<Bead>, angles: seq<Triple>, dihedrals: seq<Quad>)

  const GLY: string := "GLY"

  /** `topology.residues`: every residue, chain by chain. */
  function ResiduesOf<A>(chains: seq<Chain<A>>): seq<Residue<A>>
  {
    if |chains| == 0 then []
    else ResiduesOf(chains[..|chains| - 1]) + chains[|chains| - 1].residues
  }

  /** The atoms of a run of residues, residue by residue. */
  function AtomsIn<A>(rs: seq<Residue<A>>): seq<A>
  {
    if |rs| == 0 then [] else AtomsIn(rs[..|rs| - 1]) + rs[|rs| - 1].atoms
  }

  /** `topology.atoms`: every atom in traversal order. */
  function AtomsOf<A>(chains: seq<Chain<A>>): seq<A>
  {
    AtomsIn(ResiduesOf(chains))
  }

  /** `chain.atoms`. */
  function ChainAtoms<A>(c: Chain<A>): seq<A>
  {
    AtomsIn(c.residues)
  }

  /** For each residue of `ResiduesOf(chains)`, the index of its chain. */
  function ChainOfResidue<A>(chains: seq<Chain<A>>): (cs: seq<nat>)
    ensures |cs| == |ResiduesOf(chains)|
    ensures forall r :: 0 <= r < |cs| ==> cs[r] < |chains|
  {
    if |chains| == 0 then []
    else
      var pre := ChainOfResidue(chains[..|chains| - 1]);
      pre + seq(|chains[|chains| - 1].residues|, _ => |chains| - 1)
  }

  lemma {:induction false} AtomsInAppend<A>(a: seq<Residue<A>>, b: seq<Residue<A>>)
    ensures AtomsIn(a + b) == AtomsIn(a) + AtomsIn(b)
    decreases |b|
  {
    if |b| == 0 {
      assert a + b == a;
    } else {
      assert (a + b)[..|a + b| - 1] == a + b[..|b| - 1];
      AtomsInAppend(a, b[..|b| - 1]);
    }
  }

  lemma {:induction false} AtomsOfLast<A>(chains: seq<Chain<A>>)
    requires |chains| > 0
    ensures AtomsOf(chains) == AtomsOf(chains[..|chains| - 1]) + ChainAtoms(chains[|chains| - 1])
  {
    AtomsInAppend(ResiduesOf(chains[..|chains| - 1]), chains[|chains| - 1].residues);
  }

  /** Residue `i` of chain `c` is residue `|ResiduesOf(chains[..c])| + i` of
      the topology. */
  lemma {:induction false} ResidueInChain<A>(chains: seq<Chain<A>>, c: nat, i: nat)
    requires c < |chains| && i < |chains[c].residues|
    ensures |ResiduesOf(chains[..c])| + i < |ResiduesOf(chains)|
    ensures ResiduesOf(chains)[|ResiduesOf(chains[..c])| + i] == chains[c].residues[i]
    decreases |chains|
  {
    var p := chains[..|chains| - 1];
    if c < |chains| - 1 {
      ResidueInChain(p, c, i);
      assert p[..c] == chains[..c];
    }
  }

  function Indices(bs: seq<Bead>): (ix: seq<nat>)
    ensures |ix| == |bs|
    ensures forall k :: 0 <= k < |bs| ==> ix[k] == bs[k].index
  {
    seq(|bs|, k requires 0 <= k < |bs| => bs[k].index)
  }

  /** Bead indices are exactly 0 .. |bs|-1, in order. */
  ghost predicate Dense(bs: seq<Bead>)
  {
    forall k :: 0 <= k < |bs| ==> bs[k].index == k
  }

  /** Bead indices are exactly `from .. from + |bs| - 1`, in order. */
  ghost predicate DenseFrom(bs: seq<Bead>, from: nat)
  {
    forall k :: 0 <= k < |bs| ==> bs[k].index == from + k
  }

  lemma {:induction false} DenseFromAppend(a: seq<Bead>, b: seq<Bead>, from: nat)
    requires DenseFrom(a, from) && DenseFrom(b, from + |a|)
    ensures DenseFrom(a + b, from)
  {
  }

  /** Index of the first atom called `name`, as `[a.index for a in
      residue.atoms if a.name == name][0]`; None when that list is empty. */
  function FindAtom(atoms: seq<Atom>, name: string): Option<nat>
  {
    if |atoms| == 0 then None
    else if atoms[0].name == name then Some(atoms[0].index)
    else FindAtom(atoms[1..], name)
  }

  /** The lookup fails exactly when no atom has the name, and otherwise
      returns the index of the first atom that has it. */
  lemma {:induction false} FindAtomSpec(atoms: seq<Atom>, name: string)
    ensures FindAtom(atoms, name).None? <==> forall k :: 0 <= k < |atoms| ==> atoms[k].name != name
    ensures FindAtom(atoms, name).Some? ==>
      exists k :: 0 <= k < |atoms| && atoms[k].name == name && atoms[k].index == FindAtom(atoms, name).value
                  && forall j :: 0 <= j < k ==> atoms[j].name != name
    decreases |atoms|
  {
    if |atoms| > 0 && atoms[0].name != name {
      var rest := atoms[1..];
      FindAtomSpec(rest, name);
      assert forall k :: 0 < k < |atoms| ==> atoms[k] == rest[k - 1];
      if FindAtom(rest, name).Some? {
        var k :| 0 <= k < |rest| && rest[k].name == name && rest[k].index == FindAtom(rest, name).value
                 && forall j :: 0 <= j < k ==> rest[j].name != name;
        assert atoms[k + 1] == rest[k];
        assert forall j :: 0 <= j < k + 1 ==> atoms[j].name != name by {
          forall j | 0 <= j < k + 1 ensures atoms[j].name != name {
            if j > 0 { assert atoms[j] == rest[j - 1]; }
          }
        }
      }
    }
  }

  predicate HasCa(r: Residue<Atom>)
  {
    FindAtom(r.atoms, "CA").Some?
  }

  /** The index of the residue's (first) CA atom. */
  function CaOf(r: Residue<Atom>): nat
    requires HasCa(r)
  {
    FindAtom(r.atoms, "CA").value
  }

  /** `i` is a valid Python index into a list of length `n`. */
  ghost predicate InPyRange(i: int, n: int)
  {
    -n <= i < n
  }

  /** Every residue pair names residues that exist, as Python indices. */
  ghost predicate PairsInRange(ps: seq<(int, int)>, n: nat)
  {
    forall q :: 0 <= q < |ps| ==> InPyRange(ps[q].0, n) && InPyRange(ps[q].1, n)
  }

  lemma {:induction false} PairsInRangeSnoc(p: seq<(int, int)>, c: (int, int), n: nat)
    ensures PairsInRange(p + [c], n) <==> PairsInRange(p, n) && InPyRange(c.0, n) && InPyRange(c.1, n)
  {
    var ps := p + [c];
    assert ps[|p|] == c;
    assert forall q :: 0 <= q < |p| ==> ps[q] == p[q];
  }

  /** Consecutive triples `(s[i], s[i+1], s[i+2])` for `i in range(len(s) - 2)`. */
  function Triples(s: seq<nat>): (ts: seq<Triple>)
    ensures |ts| == if |s| < 2 then 0 else |s| - 2
    ensures forall i :: 0 <= i < |ts| ==> ts[i] == (s[i], s[i + 1], s[i + 2])
  {
    if |s| < 3 then [] else seq(|s| - 2, i requires 0 <= i < |s| - 2 => (s[i], s[i + 1], s[i + 2]))
  }

  /** Consecutive quadruples for `i in range(len(s) - 3)`. */
  function Quads(s: seq<nat>): (qs: seq<Quad>)
    ensures |qs| == if |s| < 3 then 0 else |s| - 3
    ensures forall i :: 0 <= i < |qs| ==> qs[i] == (s[i], s[i + 1], s[i + 2], s[i + 3])
  {
    if |s| < 4 then []
    else seq(|s| - 3, i requires 0 <= i < |s| - 3 => (s[i], s[i + 1], s[i + 2], s[i + 3]))
  }

  /** `topology.residue(i).atom(j).index` with Python list lookups. */
  function BeadOf(rs: seq<Residue<Bead>>, i: int, j: int): (r: Option<nat>)
    ensures r.Some? <==> PyIndex(rs, i).Some? && PyIndex(PyIndex(rs, i).value.atoms, j).Some?
    ensures r.Some? ==> r.value == PyIndex(PyIndex(rs, i).value.atoms, j).value.index
  {
    match PyIndex(rs, i)
    case None => None
    case Some(res) =>
      match PyIndex(res.atoms, j)
      case None => None
      case Some(b) => Some(b.index)
  }

  /** The index Python's `s[i]` reads for a list of length `n`. */
  function Wrap(i: int, n: nat): int
  {
    if i < 0 then n + i else i
  }

  /** For each atom of `AtomsOf(chains)`, the index of its chain. */
  function ChainOfAtom<A>(chains: seq<Chain<A>>): (cs: seq<nat>)
    ensures |cs| == |AtomsOf(chains)|
    ensures forall k :: 0 <= k < |cs| ==> cs[k] < |chains|
  {
    if |chains| == 0 then []
    else
      AtomsOfLast(chains);
      ChainOfAtom(chains[..|chains| - 1])
        + seq(|ChainAtoms(chains[|chains| - 1])|, _ => |chains| - 1)
  }

  /** `for chain in chains: for i in range(chain.n_atoms - 2): (atom(i), atom(i+1), atom(i+2))`. */
  function ChainTriples(chains: seq<Chain<Bead>>): seq<Triple>
  {
    if |chains| == 0 then []
    else ChainTriples(chains[..|chains| - 1]) + Triples(Indices(ChainAtoms(chains[|chains| - 1])))
  }

  /** The same with quadruples, `range(chain.n_atoms - 3)`. */
  function ChainQuads(chains: seq<Chain<Bead>>): seq<Quad>
  {
    if |chains| == 0 then []
    else ChainQuads(chains[..|chains| - 1]) + Quads(Indices(ChainAtoms(chains[|chains| - 1])))
  }

  lemma {:induction false} TriplesOfRun(s: seq<nat>, from: nat)
    requires forall i :: 0 <= i < |s| ==> s[i] == from + i
    ensures forall a: Triple :: a in Triples(s) <==>
      from <= a.0 && a.1 == a.0 + 1 && a.2 == a.1 + 1 && a.2 < from + |s|
  {
    forall a: Triple ensures a in Triples(s) <==>
      from <= a.0 && a.1 == a.0 + 1 && a.2 == a.1 + 1 && a.2 < from + |s|
    {
      if a in Triples(s) {
        TripleInRun(s, from, a);
      }
      if from <= a.0 && a.1 == a.0 + 1 && a.2 == a.1 + 1 && a.2 < from + |s| {
        RunInTriples(s, from, a);
      }
    }
  }

  lemma {:induction false} RunInTriples(s: seq<nat>, from: nat, a: Triple)
    requires forall i :: 0 <= i < |s| ==> s[i] == from + i
    requires from <= a.0 && a.1 == a.0 + 1 && a.2 == a.1 + 1 && a.2 < from + |s|
    ensures a in Triples(s)
  {
    var ts := Triples(s);
    var i := a.0 - from;
    assert ts[i] == a;
  }

  lemma {:induction false} TripleInRun(s: seq<nat>, from: nat, a: Triple)
    requires forall i :: 0 <= i < |s| ==> s[i] == from + i
    requires a in Triples(s)
    ensures from <= a.0 && a.1 == a.0 + 1 && a.2 == a.1 + 1 && a.2 < from + |s|
  {
    var ts := Triples(s);
    var i :| 0 <= i < |ts| && ts[i] == a;
    assert s[i] == from + i && s[i + 2] == from + i + 2;
  }

  lemma {:induction false} QuadsOfRun(s: seq<nat>, from: nat)
    requires forall i :: 0 <= i < |s| ==> s[i] == from + i
    ensures forall q: Quad :: q in Quads(s) <==>
      from <= q.0 && q.1 == q.0 + 1 && q.2 == q.1 + 1 && q.3 == q.2 + 1 && q.3 < from + |s|
  {
    forall q: Quad ensures q in Quads(s) <==>
      from <= q.0 && q.1 == q.0 + 1 && q.2 == q.1 + 1 && q.3 == q.2 + 1 && q.3 < from + |s|
    {
      QuadOfRun(s, from, q);
    }
  }

  lemma {:induction false} QuadOfRun(s: seq<nat>, from: nat, q: Quad)
    requires forall i :: 0 <= i < |s| ==> s[i] == from + i
    ensures q in Quads(s) ==>
      from <= q.0 && q.1 == q.0 + 1 && q.2 == q.1 + 1 && q.3 == q.2 + 1 && q.3 < from + |s|
    ensures (from <= q.0 && q.1 == q.0 + 1 && q.2 == q.1 + 1 && q.3 == q.2 + 1 && q.3 < from + |s|)
      ==> q in Quads(s)
  {
    if q in Quads(s) {
      QuadInRun(s, from, q);
    }
    if from <= q.0 && q.1 == q.0 + 1 && q.2 == q.1 + 1 && q.3 == q.2 + 1 && q.3 < from + |s| {
      RunInQuads(s, from, q);
    }
  }

  lemma {:induction false} RunInQuads(s: seq<nat>, from: nat, q: Quad)
    requires forall i :: 0 <= i < |s| ==> s[i] == from + i
    requires from <= q.0 && q.1 == q.0 + 1 && q.2 == q.1 + 1 && q.3 == q.2 + 1 && q.3 < from + |s|
    ensures q in Quads(s)
  {
    var qs := Quads(s);
    var i := q.0 - from;
    assert qs[i] == q;
  }

  lemma {:induction false} QuadInRun(s: seq<nat>, from: nat, q: Quad)
    requires forall i :: 0 <= i < |s| ==> s[i] == from + i
    requires q in Quads(s)
    ensures from <= q.0 && q.1 == q.0 + 1 && q.2 == q.1 + 1 && q.3 == q.2 + 1 && q.3 < from + |s|
  {
    var qs := Quads(s);
    var i :| 0 <= i < |qs| && qs[i] == q;
    assert s[i] == from + i && s[i + 3] == from + i + 3;
  }

  /** Facts about the last chain of a dense topology: the earlier chains are
      dense and the last chain's beads continue the numbering. */
  lemma {:induction false} DenseSplit(chains: seq<Chain<Bead>>)
    requires |chains| > 0
    requires Dense(AtomsOf(chains))
    ensures Dense(AtomsOf(chains[..|chains| - 1]))
    ensures DenseFrom(ChainAtoms(chains[|chains| - 1]), |AtomsOf(chains[..|chains| - 1])|)
    ensures ChainOfAtom(chains) == ChainOfAtom(chains[..|chains| - 1])
              + seq(|ChainAtoms(chains[|chains| - 1])|, _ => |chains| - 1)
  {
    AtomsOfLast(chains);
    var pre := AtomsOf(chains[..|chains| - 1]);
    var last := ChainAtoms(chains[|chains| - 1]);
    forall k | 0 <= k < |last| ensures last[k].index == |pre| + k {
      assert AtomsOf(chains)[|pre| + k] == last[k];
    }
    forall k | 0 <= k < |pre| ensures pre[k].index == k {
      assert AtomsOf(chains)[k] == pre[k];
    }
  }

  /** The chain walk's triples, one row per chain. */
  function TripleRows(chains: seq<Chain<Bead>>): (rows: seq<seq<Triple>>)
    ensures |rows| == |chains|
    ensures forall c :: 0 <= c < |chains| ==> rows[c] == Triples(Indices(ChainAtoms(chains[c])))
  {
    seq(|chains|, c requires 0 <= c < |chains| => Triples(Indices(ChainAtoms(chains[c]))))
  }

  /** The chain walk's quadruples, one row per chain. */
  function QuadRows(chains: seq<Chain<Bead>>): (rows: seq<seq<Quad>>)
    ensures |rows| == |chains|
    ensures forall c :: 0 <= c < |chains| ==> rows[c] == Quads(Indices(ChainAtoms(chains[c])))
  {
    seq(|chains|, c requires 0 <= c < |chains| => Quads(Indices(ChainAtoms(chains[c]))))
  }

  /** The walk emits each chain's triples in chain order, all of one chain
      before any of the next. */
  lemma {:induction false} ChainTriplesRows(chains: seq<Chain<Bead>>)
    ensures ChainTriples(chains) == Flatten(TripleRows(chains))
    decreases |chains|
  {
    if |chains| > 0 {
      var pre := chains[..|chains| - 1];
      ChainTriplesRows(pre);
      ChainTriplesRowsStep(chains);
    }
  }

  lemma {:induction false} ChainTriplesRowsStep(chains: seq<Chain<Bead>>)
    requires |chains| > 0
    requires ChainTriples(chains[..|chains| - 1]) == Flatten(TripleRows(chains[..|chains| - 1]))
    ensures ChainTriples(chains) == Flatten(TripleRows(chains))
  {
    var p := chains[..|chains| - 1];
    assert TripleRows(chains)[..|p|] == TripleRows(p);
  }

  /** The same for quadruples. */
  lemma {:induction false} ChainQuadsRows(chains: seq<Chain<Bead>>)
    ensures ChainQuads(chains) == Flatten(QuadRows(chains))
    decreases |chains|
  {
    if |chains| > 0 {
      var pre := chains[..|chains| - 1];
      ChainQuadsRows(pre);
      ChainQuadsRowsStep(chains);
    }
  }

  lemma {:induction false} ChainQuadsRowsStep(chains: seq<Chain<Bead>>)
    requires |chains| > 0
    requires ChainQuads(chains[..|chains| - 1]) == Flatten(QuadRows(chains[..|chains| - 1]))
    ensures ChainQuads(chains) == Flatten(QuadRows(chains))
  {
    var p := chains[..|chains| - 1];
    assert QuadRows(chains)[..|p|] == QuadRows(p);
  }

  /** In a dense topology the chain-walk triples are exactly the runs of three
      consecutive beads that lie in one chain. */
  lemma {:induction false} ChainTriplesConsecutive(chains: seq<Chain<Bead>>)
    requires Dense(AtomsOf(chains))
    ensures forall a: Triple :: a in ChainTriples(chains) <==>
      a.1 == a.0 + 1 && a.2 == a.1 + 1 && a.2 < |AtomsOf(chains)|
      && ChainOfAtom(chains)[a.0] == ChainOfAtom(chains)[a.2]
    decreases |chains|
  {
    if |chains| > 0 {
      var pre := chains[..|chains| - 1];
      DenseSplit(chains);
      AtomsOfLast(chains);
      ChainTriplesConsecutive(pre);
      var last := Indices(ChainAtoms(chains[|chains| - 1]));
      TriplesOfRun(last, |AtomsOf(pre)|);
      var ca := ChainOfAtom(chains);
      var np := |AtomsOf(pre)|;
      forall a: Triple ensures a in ChainTriples(chains) <==>
        a.1 == a.0 + 1 && a.2 == a.1 + 1 && a.2 < |AtomsOf(chains)| && ca[a.0] == ca[a.2]
      {
        if a.1 == a.0 + 1 && a.2 == a.1 + 1 && a.2 < |AtomsOf(chains)| {
          if a.2 < np {
            assert ca[a.0] == ChainOfAtom(pre)[a.0] && ca[a.2] == ChainOfAtom(pre)[a.2];
          } else if a.0 >= np {
            assert ca[a.0] == ca[a.2];
          } else {
            assert ca[a.0] == ChainOfAtom(pre)[a.0] < |pre|;
            assert ca[a.2] == |pre|;
          }
        }
      }
    }
  }

  /** The same for quadruples. */
  lemma {:induction false} ChainQuadsConsecutive(chains: seq<Chain<Bead>>)
    requires Dense(AtomsOf(chains))
    ensures forall q: Quad :: q in ChainQuads(chains) <==>
      q.1 == q.0 + 1 && q.2 == q.1 + 1 && q.3 == q.2 + 1 && q.3 < |AtomsOf(chains)|
      && ChainOfAtom(chains)[q.0] == ChainOfAtom(chains)[q.3]
    decreases |chains|
  {
    if |chains| > 0 {
      var pre := chains[..|chains| - 1];
      DenseSplit(chains);
      AtomsOfLast(chains);
      ChainQuadsConsecutive(pre);
      var last := Indices(ChainAtoms(chains[|chains| - 1]));
      QuadsOfRun(last, |AtomsOf(pre)|);
      var ca := ChainOfAtom(chains);
      var np := |AtomsOf(pre)|;
      forall q: Quad ensures q in ChainQuads(chains) <==>
        q.1 == q.0 + 1 && q.2 == q.1 + 1 && q.3 == q.2 + 1 && q.3 < |AtomsOf(chains)|
        && ca[q.0] == ca[q.3]
      {
        if q.1 == q.0 + 1 && q.2 == q.1 + 1 && q.3 == q.2 + 1 && q.3 < |AtomsOf(chains)| {
          if q.3 < np {
            assert ca[q.0] == ChainOfAtom(pre)[q.0] && ca[q.3] == ChainOfAtom(pre)[q.3];
          } else if q.0 >= np {
            assert ca[q.0] == ca[q.3];
          } else {
            assert ca[q.0] == ChainOfAtom(pre)[q.0] < |pre|;
            assert ca[q.3] == |pre|;
          }
        }
      }
    }
  }

  /** The chain structure is kept: as many chains, each as long. */
  ghost predicate ShapeKept<A, B>(chains: seq<Chain<A>>, out: seq<Chain<B>>)
  {
    && |out| == |chains|
    && (forall c :: 0 <= c < |chains| ==> |out[c].residues| == |chains[c].residues|)
  }

  lemma {:induction false} ShapeAppend<A, B>(p: seq<Chain<A>>, last: Chain<A>, op: seq<Chain<B>>, olast: Chain<B>)
    requires ShapeKept(p, op)
    requires |olast.residues| == |last.residues|
    ensures ShapeKept(p + [last], op + [olast])
  {
    var chains := p + [last];
    var out := op + [olast];
    forall c | 0 <= c < |chains| ensures |out[c].residues| == |chains[c].residues| {
      if c < |p| { assert chains[c] == p[c] && out[c] == op[c]; }
    }
  }

  lemma {:induction false} DenseAppendChain(cs: seq<Chain<Bead>>, es: seq<Residue<Bead>>)
    requires Dense(AtomsOf(cs)) && DenseFrom(AtomsIn(es), |AtomsOf(cs)|)
    ensures AtomsOf(cs + [Chain(es)]) == AtomsOf(cs) + AtomsIn(es)
    ensures Dense(AtomsOf(cs + [Chain(es)]))
  {
    var out := cs + [Chain(es)];
    assert out[..|out| - 1] == cs;
    AtomsOfLast(out);
    var np := |AtomsOf(cs)|;
    forall k | 0 <= k < |AtomsOf(out)| ensures AtomsOf(out)[k].index == k {
      if k >= np {
        assert AtomsOf(out)[k] == AtomsIn(es)[k - np];
      } else {
        assert AtomsOf(out)[k] == AtomsOf(cs)[k];
      }
    }
  }
}
