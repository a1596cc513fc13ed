/** The Hamiltonian: four ordered lists of interaction terms (bonds,
    angles, dihedrals, pairs), the adds that keep each list free of
    duplicates, the views over the lists (all potentials, the description,
    the atom index tables) and the energies of a trajectory. */
module Hamiltonian {
  import opened Common
  import opened Bonded

  // ---------------------------------------------------------------------
  // Pair terms

  /** An argument of a pair potential: a number, or (for the custom pair)
      the user's function, known only by its identity as Python compares
      functions. */
  datatype PairArg = Num(num: real) | Fn(id: nat)

  /** A pair interaction as the pairwise registry builds it: its code, its
      two atoms and the arguments it was given. */
  datatype PairTerm = PairTerm(code: string, atmi: TermAtom, atmj: TermAtom, args: seq<PairArg>)
  {
    function Atoms(): seq<TermAtom> { [atmi, atmj] }
  }

  /** The keys of `PAIR_POTENTIALS` and how many arguments past the two
      atoms each constructor takes. */
  datatype PairRegistry = PairRegistry(arity: map<string, nat>)

  /** `PAIR_POTENTIALS[code](atm1, atm2, *args)`. */
  function MakePair(reg: PairRegistry, code: string, a1: TermAtom, a2: TermAtom,
                    args: seq<PairArg>): (r: Result<PairTerm>)
    ensures r.Ok? <==> code in reg.arity && |args| == reg.arity[code]
    ensures code !in reg.arity ==> r == Err(UnknownPotential(code))
    ensures r.Ok? ==> r.value.code == code && r.value.Atoms() == [a1, a2] && r.value.args == args
  {
    if code !in reg.arity then Err(UnknownPotential(code))
    else if |args| != reg.arity[code] then Err(WrongArity(2 + reg.arity[code], 2 + |args|))
    else Ok(PairTerm(code, a1, a2, args))
  }

  // ---------------------------------------------------------------------
  // The store

  datatype Hamiltonian = Hamiltonian(bonds: seq<BondTerm>, angles: seq<AngleTerm>,
                                     dihedrals: seq<DihedralTerm>, pairs: seq<PairTerm>)

  /** No term occurs twice in a list. */
  predicate NoDup<T(==)>(s: seq<T>)
  {
    forall i, j :: 0 <= i < j < |s| ==> s[i] != s[j]
  }

  /** The invariant every add keeps: each list is free of duplicates. */
  predicate Wf(h: Hamiltonian)
  {
    NoDup(h.bonds) && NoDup(h.angles) && NoDup(h.dihedrals) && NoDup(h.pairs)
  }

  /** `Hamiltonian()`: every list empty, so every `n_*` count is zero. */
  function Empty(): (h: Hamiltonian)
    ensures Wf(h)
    ensures |h.bonds| + |h.angles| + |h.dihedrals| + |h.pairs| == 0
  {
    Hamiltonian([], [], [], [])
  }

  /** `if x not in s: s.append(x)`: the list grows by `x` exactly when `x`
      is new, and stays free of duplicates. */
  function AppendNew<T(==,!new)>(s: seq<T>, x: T): (r: seq<T>)
    ensures forall y :: y in r <==> y in s || y == x
    ensures |r| == if x in s then |s| else |s| + 1
    ensures |s| <= |r| && r[..|s|] == s
    ensures NoDup(s) ==> NoDup(r)
  {
    if x in s then s else s + [x]
  }

  /** One add: the constructor's error, or the list with the new term. */
  function AddTerm<T(==,!new)>(s: seq<T>, made: Result<T>): (r: Result<seq<T>>)
    ensures r.Ok? <==> made.Ok?
    ensures r.Err? ==> r.error == made.error
    ensures r.Ok? ==> r.value == AppendNew(s, made.value)
  {
    var x :- made;
    Ok(AppendNew(s, x))
  }

  /** `_add_bond(code, atm1, atm2, *args)`. */
  function AddBond(h: Hamiltonian, code: string, a1: TermAtom, a2: TermAtom, args: seq<real>): (r: Result<Hamiltonian>)
    ensures r.Ok? <==> BondCode(code) && |args| == 2
    ensures r.Err? ==> r.error == MakeBond(code, a1, a2, args).error
    ensures r.Ok? ==> var b := MakeBond(code, a1, a2, args).value;
      && (forall x :: x in r.value.bonds <==> x in h.bonds || x == b)
      && |h.bonds| <= |r.value.bonds| && r.value.bonds[..|h.bonds|] == h.bonds
      && |r.value.bonds| == |h.bonds| + (if b in h.bonds then 0 else 1)
      && r.value.angles == h.angles && r.value.dihedrals == h.dihedrals && r.value.pairs == h.pairs
      && (Wf(h) ==> Wf(r.value))
  {
    var s :- AddTerm(h.bonds, MakeBond(code, a1, a2, args));
    Ok(h.(bonds := s))
  }

  /** `_add_angle(code, atm1, atm2, atm3, *args)`. */
  function AddAngle(h: Hamiltonian, code: string, a1: TermAtom, a2: TermAtom, a3: TermAtom,
                    args: seq<real>): (r: Result<Hamiltonian>)
    ensures r.Ok? <==> AngleCode(code) && |args| == 2
    ensures r.Err? ==> r.error == MakeAngle(code, a1, a2, a3, args).error
    ensures r.Ok? ==> var a := MakeAngle(code, a1, a2, a3, args).value;
      && (forall x :: x in r.value.angles <==> x in h.angles || x == a)
      && |h.angles| <= |r.value.angles| && r.value.angles[..|h.angles|] == h.angles
      && |r.value.angles| == |h.angles| + (if a in h.angles then 0 else 1)
      && r.value.bonds == h.bonds && r.value.dihedrals == h.dihedrals && r.value.pairs == h.pairs
      && (Wf(h) ==> Wf(r.value))
  {
    var s :- AddTerm(h.angles, MakeAngle(code, a1, a2, a3, args));
    Ok(h.(angles := s))
  }

  /** `_add_dihedral(code, atm1, atm2, atm3, atm4, *args)`. */
  function AddDihedral(h: Hamiltonian, code: string, a1: TermAtom, a2: TermAtom, a3: TermAtom,
                       a4: TermAtom, args: seq<real>): (r: Result<Hamiltonian>)
    ensures r.Ok? <==> (code == "HARMONIC_DIHEDRAL" && |args| == 2) || (code == "COSINE_DIHEDRAL" && |args| == 3)
    ensures r.Err? ==> r.error == MakeDihedral(code, a1, a2, a3, a4, args).error
    ensures r.Ok? ==> var d := MakeDihedral(code, a1, a2, a3, a4, args).value;
      && (forall x :: x in r.value.dihedrals <==> x in h.dihedrals || x == d)
      && |h.dihedrals| <= |r.value.dihedrals| && r.value.dihedrals[..|h.dihedrals|] == h.dihedrals
      && |r.value.dihedrals| == |h.dihedrals| + (if d in h.dihedrals then 0 else 1)
      && r.value.bonds == h.bonds && r.value.angles == h.angles && r.value.pairs == h.pairs
      && (Wf(h) ==> Wf(r.value))
  {
    var s :- AddTerm(h.dihedrals, MakeDihedral(code, a1, a2, a3, a4, args));
    Ok(h.(dihedrals := s))
  }

  /** `_add_pair(code, atm1, atm2, *args)`. */
  function AddPair(reg: PairRegistry, h: Hamiltonian, code: string, a1: TermAtom, a2: TermAtom,
                   args: seq<PairArg>): (r: Result<Hamiltonian>)
    ensures r.Ok? <==> code in reg.arity && |args| == reg.arity[code]
    ensures r.Err? ==> r.error == MakePair(reg, code, a1, a2, args).error
    ensures r.Ok? ==> var p := PairTerm(code, a1, a2, args);
      && (forall x :: x in r.value.pairs <==> x in h.pairs || x == p)
      && |h.pairs| <= |r.value.pairs| && r.value.pairs[..|h.pairs|] == h.pairs
      && |r.value.pairs| == |h.pairs| + (if p in h.pairs then 0 else 1)
      && r.value.bonds == h.bonds && r.value.angles == h.angles && r.value.dihedrals == h.dihedrals
      && (Wf(h) ==> Wf(r.value))
  {
    var s :- AddTerm(h.pairs, MakePair(reg, code, a1, a2, args));
    Ok(h.(pairs := s))
  }

  /** `add_custom_pair(atm1, atm2, func, *args)`: the `"CUSTOM"` pair
      constructor, given the function ahead of its numeric arguments. */
  function AddCustomPair(reg: PairRegistry, h: Hamiltonian, a1: TermAtom, a2: TermAtom,
                         func: nat, args: seq<real>): (r: Result<Hamiltonian>)
    ensures "CUSTOM" !in reg.arity ==> r == Err(UnknownPotential("CUSTOM"))
    ensures r.Ok? <==> "CUSTOM" in reg.arity && 1 + |args| == reg.arity["CUSTOM"]
    ensures r.Ok? ==>
      && (forall x :: x in r.value.pairs <==> x in h.pairs || (x.code == "CUSTOM" && x.Atoms() == [a1, a2]
                                                             && |x.args| == 1 + |args| && x.args[0] == Fn(func)
                                                             && forall k :: 0 <= k < |args| ==> x.args[1 + k] == Num(args[k])))
      && |h.pairs| <= |r.value.pairs| && r.value.pairs[..|h.pairs|] == h.pairs
      && (var p := PairTerm("CUSTOM", a1, a2, [Fn(func)] + NumArgs(args));
          |r.value.pairs| == |h.pairs| + (if p in h.pairs then 0 else 1))
      && r.value.bonds == h.bonds && r.value.angles == h.angles && r.value.dihedrals == h.dihedrals
      && (Wf(h) ==> Wf(r.value))
  {
    AddPair(reg, h, "CUSTOM", a1, a2, [Fn(func)] + NumArgs(args))
  }

  /** Numbers as pair arguments, in order. */
  function NumArgs(xs: seq<real>): (r: seq<PairArg>)
    ensures |r| == |xs|
    ensures forall k :: 0 <= k < |xs| ==> r[k] == Num(xs[k])
  {
    seq(|xs|, k requires 0 <= k < |xs| => Num(xs[k]))
  }

  // ---------------------------------------------------------------------
  // Bulk adds

  /** One row of a bulk add: the code, the atoms, then the parameters. */
  datatype BondRow = BondRow(code: string, a1: TermAtom, a2: TermAtom, args: seq<real>)
  datatype AngleRow = AngleRow(code: string, a1: TermAtom, a2: TermAtom, a3: TermAtom, args: seq<real>)
  datatype DihedralRow = DihedralRow(code: string, a1: TermAtom, a2: TermAtom, a3: TermAtom, a4: TermAtom,
                                     args: seq<real>)
  datatype PairRow = PairRow(code: string, a1: TermAtom, a2: TermAtom, args: seq<PairArg>)

  /** A loop of single adds over `rows`: the first failing row's error, or
      the list with each new term appended in row order. */
  function AddAll<R, T(==,!new)>(s: seq<T>, rows: seq<R>, make: R -> Result<T>): Result<seq<T>>
    decreases |rows|
  {
    if |rows| == 0 then Ok(s)
    else
      var s' :- AddAll(s, rows[..|rows| - 1], make);
      AddTerm(s', make(rows[|rows| - 1]))
  }

  /** What the rows build, in row order. */
  function Made<R, T>(rows: seq<R>, make: R -> Result<T>): (r: seq<Result<T>>)
    ensures |r| == |rows|
    ensures forall i :: 0 <= i < |rows| ==> r[i] == make(rows[i])
    decreases |rows|
  {
    if |rows| == 0 then [] else Made(rows[..|rows| - 1], make) + [make(rows[|rows| - 1])]
  }

  /** The index of the first row that fails to build, or the number of
      rows when none does. */
  function FirstFailure<T>(made: seq<Result<T>>): (k: nat)
    ensures k <= |made|
    ensures forall j :: 0 <= j < k ==> made[j].Ok?
    ensures k < |made| ==> made[k].Err?
    decreases |made|
  {
    if |made| == 0 then 0
    else if made[0].Err? then 0
    else 1 + FirstFailure(made[1..])
  }

  /** A loop of single adds succeeds exactly when every row builds a term;
      on failure its error is that of the first failing row. */
  lemma {:induction false} AddAllOutcome<R(!new), T(!new)>(s: seq<T>, rows: seq<R>, make: R -> Result<T>)
    ensures AddAll(s, rows, make).Ok? <==> FirstFailure(Made(rows, make)) == |rows|
    ensures AddAll(s, rows, make).Err? ==>
      AddAll(s, rows, make).error == Made(rows, make)[FirstFailure(Made(rows, make))].error
    decreases |rows|
  {
    if |rows| > 0 {
      var n := |rows| - 1;
      AddAllOutcome(s, rows[..n], make);
      FirstFailureSnoc(Made(rows[..n], make), make(rows[n]));
    }
  }

  /** Appending one result moves the first failure only when there was none. */
  lemma {:induction false} FirstFailureSnoc<T>(made: seq<Result<T>>, x: Result<T>)
    ensures FirstFailure(made + [x]) == if FirstFailure(made) < |made| || x.Err? then FirstFailure(made) else |made| + 1
    decreases |made|
  {
    if |made| > 0 {
      assert (made + [x])[1..] == made[1..] + [x];
      FirstFailureSnoc(made[1..], x);
    }
  }

  /** A successful loop of single adds keeps the old list as a prefix,
      holds exactly the old terms and the built ones, and stays free of
      duplicates. */
  lemma {:induction false} AddAllGrows<R(!new), T(!new)>(s: seq<T>, rows: seq<R>, make: R -> Result<T>)
    requires AddAll(s, rows, make).Ok?
    ensures var r := AddAll(s, rows, make).value;
      && |s| <= |r| && r[..|s|] == s
      && (forall y :: y in r <==> y in s || Ok(y) in Made(rows, make))
      && (NoDup(s) ==> NoDup(r))
    decreases |rows|
  {
    if |rows| > 0 {
      var n := |rows| - 1;
      var pre := AddAll(s, rows[..n], make).value;
      AddAllGrows(s, rows[..n], make);
      var r := AddAll(s, rows, make).value;
      assert r == AppendNew(pre, make(rows[n]).value);
      assert r[..|s|] == pre[..|s|];
    }
  }

  /** The loop of single adds, stated row by row: it succeeds exactly when
      every row builds a term, and fails with the error of the first row
      that does not; on success the old list is kept in front, the list
      holds exactly the old terms and the built ones, and it stays free of
      duplicates. */
  lemma {:induction false} AddAllSpec<R(!new), T(!new)>(s: seq<T>, rows: seq<R>, make: R -> Result<T>)
    ensures AddAll(s, rows, make).Ok? <==> forall i :: 0 <= i < |rows| ==> make(rows[i]).Ok?
    ensures AddAll(s, rows, make).Err? ==>
      exists i :: (0 <= i < |rows| && make(rows[i]).Err?
                   && AddAll(s, rows, make).error == make(rows[i]).error
                   && forall j :: 0 <= j < i ==> make(rows[j]).Ok?)
    ensures AddAll(s, rows, make).Ok? ==> var r := AddAll(s, rows, make).value;
      && |s| <= |r| && r[..|s|] == s
      && (forall y :: y in r <==> y in s || exists i :: 0 <= i < |rows| && make(rows[i]) == Ok(y))
      && (NoDup(s) ==> NoDup(r))
  {
    var made := Made(rows, make);
    var k := FirstFailure(made);
    AddAllOutcome(s, rows, make);
    if AddAll(s, rows, make).Ok? {
      AddAllGrows(s, rows, make);
      var r := AddAll(s, rows, make).value;
      forall y ensures Ok(y) in made <==> exists i :: 0 <= i < |rows| && make(rows[i]) == Ok(y) {
        if Ok(y) in made {
          var i :| 0 <= i < |made| && made[i] == Ok(y);
          assert make(rows[i]) == Ok(y);
        }
      }
    } else {
      assert k < |rows| && make(rows[k]).Err?;
    }
  }

  function BondOf(row: BondRow): Result<BondTerm> { MakeBond(row.code, row.a1, row.a2, row.args) }

  function AngleOf(row: AngleRow): Result<AngleTerm> { MakeAngle(row.code, row.a1, row.a2, row.a3, row.args) }

  function DihedralOf(row: DihedralRow): Result<DihedralTerm>
  {
    MakeDihedral(row.code, row.a1, row.a2, row.a3, row.a4, row.args)
  }

  function PairOf(reg: PairRegistry, row: PairRow): Result<PairTerm> { MakePair(reg, row.code, row.a1, row.a2, row.args) }

  /** `_add_bonds` as evidently intended: `_add_bond(*b)` for each row. */
  function AddBonds(h: Hamiltonian, rows: seq<BondRow>): (r: Result<Hamiltonian>)
    ensures r.Ok? ==> r.value.angles == h.angles && r.value.dihedrals == h.dihedrals && r.value.pairs == h.pairs
  {
    var s :- AddAll(h.bonds, rows, BondOf);
    Ok(h.(bonds := s))
  }

  /** `_add_angles` as evidently intended. */
  function AddAngles(h: Hamiltonian, rows: seq<AngleRow>): (r: Result<Hamiltonian>)
    ensures r.Ok? ==> r.value.bonds == h.bonds && r.value.dihedrals == h.dihedrals && r.value.pairs == h.pairs
  {
    var s :- AddAll(h.angles, rows, AngleOf);
    Ok(h.(angles := s))
  }

  /** `_add_dihedrals` as evidently intended. */
  function AddDihedrals(h: Hamiltonian, rows: seq<DihedralRow>): (r: Result<Hamiltonian>)
    ensures r.Ok? ==> r.value.bonds == h.bonds && r.value.angles == h.angles && r.value.pairs == h.pairs
  {
    var s :- AddAll(h.dihedrals, rows, DihedralOf);
    Ok(h.(dihedrals := s))
  }

  /** `_add_pairs`: `_add_pair(p[0], p[1], p[2], *p[3:])` for each row. */
  function AddPairs(reg: PairRegistry, h: Hamiltonian, rows: seq<PairRow>): (r: Result<Hamiltonian>)
    ensures r.Ok? ==> r.value.bonds == h.bonds && r.value.angles == h.angles && r.value.dihedrals == h.dihedrals
  {
    var s :- AddAll(h.pairs, rows, row => PairOf(reg, row));
    Ok(h.(pairs := s))
  }

  /** A bulk bond add succeeds exactly when every row is a harmonic bond
      with two parameters; it then keeps the old bonds in front, holds
      exactly the old and the new bonds, and keeps the store well formed. */
  lemma {:induction false} AddBondsSpec(h: Hamiltonian, rows: seq<BondRow>)
    ensures AddBonds(h, rows).Ok? <==> forall i :: 0 <= i < |rows| ==> BondCode(rows[i].code) && |rows[i].args| == 2
    ensures AddBonds(h, rows).Ok? ==> var r := AddBonds(h, rows).value;
      && |h.bonds| <= |r.bonds| && r.bonds[..|h.bonds|] == h.bonds
      && (forall x :: x in r.bonds <==> x in h.bonds || exists i :: 0 <= i < |rows| && BondOf(rows[i]) == Ok(x))
      && (Wf(h) ==> Wf(r))
  {
    AddAllSpec(h.bonds, rows, BondOf);
  }

  /** A bulk dihedral add succeeds exactly when every row names a dihedral
      form and carries that form's parameters. */
  lemma {:induction false} AddDihedralsSpec(h: Hamiltonian, rows: seq<DihedralRow>)
    ensures AddDihedrals(h, rows).Ok? <==> forall i :: 0 <= i < |rows| ==>
      (rows[i].code == "HARMONIC_DIHEDRAL" && |rows[i].args| == 2) || (rows[i].code == "COSINE_DIHEDRAL" && |rows[i].args| == 3)
    ensures AddDihedrals(h, rows).Ok? ==> var r := AddDihedrals(h, rows).value;
      && |h.dihedrals| <= |r.dihedrals| && r.dihedrals[..|h.dihedrals|] == h.dihedrals
      && (forall x :: x in r.dihedrals <==> x in h.dihedrals || exists i :: 0 <= i < |rows| && DihedralOf(rows[i]) == Ok(x))
      && (Wf(h) ==> Wf(r))
  {
    AddAllSpec(h.dihedrals, rows, DihedralOf);
  }

  /** A bulk angle add succeeds exactly when every row is a harmonic angle
      with two parameters. */
  lemma {:induction false} AddAnglesSpec(h: Hamiltonian, rows: seq<AngleRow>)
    ensures AddAngles(h, rows).Ok? <==> forall i :: 0 <= i < |rows| ==> AngleCode(rows[i].code) && |rows[i].args| == 2
    ensures AddAngles(h, rows).Ok? ==> var r := AddAngles(h, rows).value;
      && |h.angles| <= |r.angles| && r.angles[..|h.angles|] == h.angles
      && (forall x :: x in r.angles <==> x in h.angles || exists i :: 0 <= i < |rows| && AngleOf(rows[i]) == Ok(x))
      && (Wf(h) ==> Wf(r))
  {
    AddAllSpec(h.angles, rows, AngleOf);
  }

  /** A bulk pair add succeeds exactly when every row's code is registered
      with that many arguments. */
  lemma {:induction false} AddPairsSpec(reg: PairRegistry, h: Hamiltonian, rows: seq<PairRow>)
    ensures AddPairs(reg, h, rows).Ok? <==> forall i :: 0 <= i < |rows| ==>
      rows[i].code in reg.arity && |rows[i].args| == reg.arity[rows[i].code]
    ensures AddPairs(reg, h, rows).Ok? ==> var r := AddPairs(reg, h, rows).value;
      && |h.pairs| <= |r.pairs| && r.pairs[..|h.pairs|] == h.pairs
      && (forall x :: x in r.pairs <==> x in h.pairs || exists i :: 0 <= i < |rows| && PairOf(reg, rows[i]) == Ok(x))
      && (Wf(h) ==> Wf(r))
  {
    AddAllSpec(h.pairs, rows, row => PairOf(reg, row));
  }

  // The bulk adders as written pass the parameter slice `b[3:]` (`a[4:]`,
  // `d[5:]`) as ONE argument, a tuple, where the constructor expects the
  // parameters themselves.

  /** `_add_bond(b[0], b[1], b[2], b[3:])`: the bond constructor receives
      three arguments. */
  function AddBondPacked(h: Hamiltonian, row: BondRow): Result<Hamiltonian>
  {
    if !BondCode(row.code) then Err(UnknownPotential(row.code)) else Err(WrongArity(4, 3))
  }

  function AddAnglePacked(h: Hamiltonian, row: AngleRow): Result<Hamiltonian>
  {
    if !AngleCode(row.code) then Err(UnknownPotential(row.code)) else Err(WrongArity(5, 4))
  }

  function AddDihedralPacked(h: Hamiltonian, row: DihedralRow): Result<Hamiltonian>
  {
    if row.code == "HARMONIC_DIHEDRAL" then Err(WrongArity(6, 5))
    else if row.code == "COSINE_DIHEDRAL" then Err(WrongArity(7, 5))
    else Err(UnknownPotential(row.code))
  }

  /** `_add_bonds` as written. */
  function AddBondsAsWritten(h: Hamiltonian, rows: seq<BondRow>): Result<Hamiltonian>
    decreases |rows|
  {
    if |rows| == 0 then Ok(h)
    else
      var h' :- AddBondsAsWritten(h, rows[..|rows| - 1]);
      AddBondPacked(h', rows[|rows| - 1])
  }

  function AddAnglesAsWritten(h: Hamiltonian, rows: seq<AngleRow>): Result<Hamiltonian>
    decreases |rows|
  {
    if |rows| == 0 then Ok(h)
    else
      var h' :- AddAnglesAsWritten(h, rows[..|rows| - 1]);
      AddAnglePacked(h', rows[|rows| - 1])
  }

  function AddDihedralsAsWritten(h: Hamiltonian, rows: seq<DihedralRow>): Result<Hamiltonian>
    decreases |rows|
  {
    if |rows| == 0 then Ok(h)
    else
      var h' :- AddDihedralsAsWritten(h, rows[..|rows| - 1]);
      AddDihedralPacked(h', rows[|rows| - 1])
  }

  /** As written, a bulk bond add succeeds only on an empty list; the first
      row always raises, a KeyError for an unknown code and otherwise a
      TypeError, even when the row is well formed. */
  lemma {:induction false} BulkBondsAsWrittenAlwaysFail(h: Hamiltonian, rows: seq<BondRow>)
    ensures AddBondsAsWritten(h, rows).Ok? <==> |rows| == 0
    ensures |rows| > 0 ==>
      AddBondsAsWritten(h, rows) ==
        if BondCode(rows[0].code) then Err(WrongArity(4, 3)) else Err(UnknownPotential(rows[0].code))
    decreases |rows|
  {
    if |rows| > 1 {
      BulkBondsAsWrittenAlwaysFail(h, rows[..|rows| - 1]);
      assert rows[..|rows| - 1][0] == rows[0];
    }
  }

  lemma {:induction false} BulkAnglesAsWrittenAlwaysFail(h: Hamiltonian, rows: seq<AngleRow>)
    ensures AddAnglesAsWritten(h, rows).Ok? <==> |rows| == 0
    ensures |rows| > 0 ==>
      AddAnglesAsWritten(h, rows) ==
        if AngleCode(rows[0].code) then Err(WrongArity(5, 4)) else Err(UnknownPotential(rows[0].code))
    decreases |rows|
  {
    if |rows| > 1 {
      BulkAnglesAsWrittenAlwaysFail(h, rows[..|rows| - 1]);
      assert rows[..|rows| - 1][0] == rows[0];
    }
  }

  lemma {:induction false} BulkDihedralsAsWrittenAlwaysFail(h: Hamiltonian, rows: seq<DihedralRow>)
    ensures AddDihedralsAsWritten(h, rows).Ok? <==> |rows| == 0
    ensures |rows| > 0 ==>
      AddDihedralsAsWritten(h, rows) ==
        if rows[0].code == "HARMONIC_DIHEDRAL" then Err(WrongArity(6, 5))
        else if rows[0].code == "COSINE_DIHEDRAL" then Err(WrongArity(7, 5))
        else Err(UnknownPotential(rows[0].code))
    decreases |rows|
  {
    if |rows| > 1 {
      BulkDihedralsAsWrittenAlwaysFail(h, rows[..|rows| - 1]);
      assert rows[..|rows| - 1][0] == rows[0];
    }
  }

  /** The discrepancy on one well-formed row: as written the bulk add
      raises, while the intended loop adds the bond. */
  lemma {:induction false} BulkBondWitness(h: Hamiltonian, a1: TermAtom, a2: TermAtom)
    ensures AddBondsAsWritten(h, [BondRow("HARMONIC_BOND", a1, a2, [1.0, 0.38])]) == Err(WrongArity(4, 3))
    ensures AddBonds(h, [BondRow("HARMONIC_BOND", a1, a2, [1.0, 0.38])]).Ok?
  {
    var rows := [BondRow("HARMONIC_BOND", a1, a2, [1.0, 0.38])];
    BulkBondsAsWrittenAlwaysFail(h, rows);
    AddBondsSpec(h, rows);
  }

  // ---------------------------------------------------------------------
  // Views

  /** One entry of `potentials`. */
  datatype Term = BondT(b: BondTerm) | AngleT(a: AngleTerm) | DihedralT(d: DihedralTerm) | PairT(p: PairTerm)

  /** `potentials`: `_bonds + _angles + _dihedrals + _pairs`. */
  function Potentials(h: Hamiltonian): (r: seq<Term>)
    ensures |r| == |h.bonds| + |h.angles| + |h.dihedrals| + |h.pairs|
    ensures forall i :: 0 <= i < |h.bonds| ==> r[i] == BondT(h.bonds[i])
    ensures forall i :: 0 <= i < |h.angles| ==> r[|h.bonds| + i] == AngleT(h.angles[i])
    ensures forall i :: 0 <= i < |h.dihedrals| ==> r[|h.bonds| + |h.angles| + i] == DihedralT(h.dihedrals[i])
    ensures forall i :: 0 <= i < |h.pairs| ==>
      r[|h.bonds| + |h.angles| + |h.dihedrals| + i] == PairT(h.pairs[i])
  {
    seq(|h.bonds|, i requires 0 <= i < |h.bonds| => BondT(h.bonds[i]))
    + seq(|h.angles|, i requires 0 <= i < |h.angles| => AngleT(h.angles[i]))
    + seq(|h.dihedrals|, i requires 0 <= i < |h.dihedrals| => DihedralT(h.dihedrals[i]))
    + seq(|h.pairs|, i requires 0 <= i < |h.pairs| => PairT(h.pairs[i]))
  }

  /** `pot.describe()`; the pair description comes from the pairwise
      module and is a parameter. */
  function TermDescribe(pairDescribe: PairTerm -> string, t: Term): string
  {
    match t
    case BondT(b) => BondDescribe(b)
    case AngleT(a) => AngleDescribe(a)
    case DihedralT(d) => DihedralDescribe(d)
    case PairT(p) => pairDescribe(p)
  }

  /** Each text followed by a newline, in order. */
  function Text(ls: seq<string>): string
    decreases |ls|
  {
    if |ls| == 0 then "" else ls[0] + "\n" + Text(ls[1..])
  }

  /** `describe()`: one line per potential. */
  function Describe(pairDescribe: PairTerm -> string, h: Hamiltonian): string
  {
    var ps := Potentials(h);
    Text(seq(|ps|, i requires 0 <= i < |ps| => TermDescribe(pairDescribe, ps[i])))
  }

  /** The lines of a text, each newline ending one. */
  function Lines(s: string): seq<string>
    decreases |s|
  {
    if |s| == 0 then []
    else
      var rest := Lines(s[1..]);
      if s[0] == '\n' then [""] + rest
      else if |rest| == 0 then [[s[0]]]
      else [[s[0]] + rest[0]] + rest[1..]
  }

  /** A line without a newline, then its newline, is the first line. */
  lemma {:induction false} LinesLine(x: string, t: string)
    requires '\n' !in x
    ensures Lines(x + "\n" + t) == [x] + Lines(t)
    decreases |x|
  {
    if |x| == 0 {
      assert x + "\n" + t == ['\n'] + t;
      assert (['\n'] + t)[1..] == t;
    } else {
      assert '\n' !in x[1..];
      LinesLine(x[1..], t);
      var s := x + "\n" + t;
      assert s[0] == x[0];
      assert s[1..] == x[1..] + "\n" + t;
      var rest := Lines(s[1..]);
      assert rest == [x[1..]] + Lines(t);
      assert rest[0] == x[1..] && rest[1..] == Lines(t);
      assert [x[0]] + x[1..] == x;
    }
  }

  /** Reading the lines back gives the texts, when none holds a newline. */
  lemma {:induction false} LinesOfText(ls: seq<string>)
    requires forall i :: 0 <= i < |ls| ==> '\n' !in ls[i]
    ensures Lines(Text(ls)) == ls
    decreases |ls|
  {
    if |ls| > 0 {
      LinesOfText(ls[1..]);
      LinesLine(ls[0], Text(ls[1..]));
    }
  }

  /** The description has one line per potential, in the order bonds,
      angles, dihedrals, pairs: line `i` is the description of potential
      `i`, provided no description holds a newline of its own. */
  lemma {:induction false} DescribeLines(pairDescribe: PairTerm -> string, h: Hamiltonian)
    requires forall t :: t in Potentials(h) ==> '\n' !in TermDescribe(pairDescribe, t)
    ensures |Lines(Describe(pairDescribe, h))| == |h.bonds| + |h.angles| + |h.dihedrals| + |h.pairs|
    ensures forall i :: 0 <= i < |Potentials(h)| ==>
      Lines(Describe(pairDescribe, h))[i] == TermDescribe(pairDescribe, Potentials(h)[i])
  {
    var ps := Potentials(h);
    var ls := seq(|ps|, i requires 0 <= i < |ps| => TermDescribe(pairDescribe, ps[i]));
    assert forall i :: 0 <= i < |ls| ==> '\n' !in ls[i] by {
      forall i | 0 <= i < |ls| ensures '\n' !in ls[i] {
        assert ps[i] in ps;
      }
    }
    LinesOfText(ls);
  }

  /** The atom indices of a term, in atom order. */
  function Indices(atoms: seq<TermAtom>): (r: seq<nat>)
    ensures |r| == |atoms|
    ensures forall k :: 0 <= k < |atoms| ==> r[k] == atoms[k].index
  {
    seq(|atoms|, k requires 0 <= k < |atoms| => atoms[k].index)
  }

  /** An index table: one row per term, in list order. */
  function Idxs<T>(terms: seq<T>, atoms: T -> seq<TermAtom>): (r: seq<seq<nat>>)
    ensures |r| == |terms|
    ensures forall i :: 0 <= i < |terms| ==> r[i] == Indices(atoms(terms[i]))
  {
    seq(|terms|, i requires 0 <= i < |terms| => Indices(atoms(terms[i])))
  }

  /** An index table grows by one row when its list grows by one term. */
  lemma {:induction false} IdxsAppend<T>(terms: seq<T>, x: T, atoms: T -> seq<TermAtom>)
    ensures Idxs(terms + [x], atoms) == Idxs(terms, atoms) + [Indices(atoms(x))]
  {
    var l := Idxs(terms + [x], atoms);
    var r := Idxs(terms, atoms) + [Indices(atoms(x))];
    assert |l| == |r|;
    forall i | 0 <= i < |l| ensures l[i] == r[i] {
      if i < |terms| {
        assert (terms + [x])[i] == terms[i];
      }
    }
  }

  function BondIdxs(h: Hamiltonian): seq<seq<nat>> { Idxs(h.bonds, (b: BondTerm) => b.Atoms()) }

  function AngleIdxs(h: Hamiltonian): seq<seq<nat>> { Idxs(h.angles, (a: AngleTerm) => a.Atoms()) }

  function DihedralIdxs(h: Hamiltonian): seq<seq<nat>> { Idxs(h.dihedrals, (d: DihedralTerm) => d.Atoms()) }

  function PairIdxs(h: Hamiltonian): seq<seq<nat>> { Idxs(h.pairs, (p: PairTerm) => p.Atoms()) }

  /** Adding a new bond appends its atom pair to `_bond_idxs`; adding one
      already present leaves the table as it was; no other table moves. */
  lemma {:induction false} BondIdxsAfterAdd(h: Hamiltonian, code: string, a1: TermAtom, a2: TermAtom, args: seq<real>)
    requires AddBond(h, code, a1, a2, args).Ok?
    ensures var r := AddBond(h, code, a1, a2, args).value;
      && BondIdxs(r) == (if MakeBond(code, a1, a2, args).value in h.bonds then BondIdxs(h)
                         else BondIdxs(h) + [[a1.index, a2.index]])
      && AngleIdxs(r) == AngleIdxs(h) && DihedralIdxs(r) == DihedralIdxs(h) && PairIdxs(r) == PairIdxs(h)
  {
    var r := AddBond(h, code, a1, a2, args).value;
    var b := MakeBond(code, a1, a2, args).value;
    if b !in h.bonds {
      assert r.bonds == h.bonds + [b];
      IdxsAppend(h.bonds, b, (b: BondTerm) => b.Atoms());
      assert Indices(b.Atoms()) == [a1.index, a2.index];
    }
  }

  /** Adding a new pair appends its atom pair to `_pair_idxs`. */
  lemma {:induction false} PairIdxsAfterAdd(reg: PairRegistry, h: Hamiltonian, code: string, a1: TermAtom,
                                            a2: TermAtom, args: seq<PairArg>)
    requires AddPair(reg, h, code, a1, a2, args).Ok?
    ensures var r := AddPair(reg, h, code, a1, a2, args).value;
      && PairIdxs(r) == (if PairTerm(code, a1, a2, args) in h.pairs then PairIdxs(h)
                         else PairIdxs(h) + [[a1.index, a2.index]])
      && BondIdxs(r) == BondIdxs(h) && AngleIdxs(r) == AngleIdxs(h) && DihedralIdxs(r) == DihedralIdxs(h)
  {
    var r := AddPair(reg, h, code, a1, a2, args).value;
    var p := PairTerm(code, a1, a2, args);
    if p !in h.pairs {
      assert r.pairs == h.pairs + [p];
      IdxsAppend(h.pairs, p, (p: PairTerm) => p.Atoms());
      assert Indices(p.Atoms()) == [a1.index, a2.index];
    }
  }

  // ---------------------------------------------------------------------
  // Energies

  /** The observables of a trajectory for a set of terms: one row per
      frame, one column per term (distances, angles or dihedrals as mdtraj
      computes them from the index table). */
  predicate Shaped(obs: seq<seq<real>>, n: nat)
  {
    forall f :: 0 <= f < |obs| ==> |obs[f]| == n
  }

  /** `calc_*_energy(traj, sum=False)`: column `i` is `terms[i].V` of
      observable column `i`. */
  function EnergyMatrix<T>(terms: seq<T>, v: (T, real) -> real, obs: seq<seq<real>>): (m: seq<seq<real>>)
    requires Shaped(obs, |terms|)
    ensures |m| == |obs| && Shaped(m, |terms|)
    ensures forall f, i :: 0 <= f < |obs| && 0 <= i < |terms| ==> m[f][i] == v(terms[i], obs[f][i])
  {
    seq(|obs|, f requires 0 <= f < |obs| =>
      seq(|terms|, i requires 0 <= i < |terms| => v(terms[i], obs[f][i])))
  }

  /** `calc_*_energy(traj, sum=True)`: a zero per frame, then each term's
      energy column added in term order. The totals are the row sums of
      the per-term matrix. */
  method EnergyTotals<T>(terms: seq<T>, v: (T, real) -> real, obs: seq<seq<real>>) returns (e: seq<real>)
    requires Shaped(obs, |terms|)
    ensures |e| == |obs|
    ensures forall f :: 0 <= f < |obs| ==> e[f] == Sum(EnergyMatrix(terms, v, obs)[f])
  {
    ghost var m := EnergyMatrix(terms, v, obs);
    e := seq(|obs|, f => 0.0);
    var i := 0;
    while i < |terms|
      invariant 0 <= i <= |terms|
      invariant |e| == |obs|
      invariant forall f :: 0 <= f < |obs| ==> e[f] == Sum(m[f][..i])
    {
      var prev := e;
      e := seq(|obs|, f requires 0 <= f < |obs| => prev[f] + v(terms[i], obs[f][i]));
      forall f | 0 <= f < |obs|
        ensures e[f] == Sum(m[f][..i + 1])
      {
        assert m[f][..i + 1][..i] == m[f][..i];
      }
      i := i + 1;
    }
    forall f | 0 <= f < |obs|
      ensures e[f] == Sum(m[f])
    {
      assert m[f][..|terms|] == m[f];
    }
  }

  /** The two shapes `calc_*_energy` returns. */
  datatype Energies = Totals(perFrame: seq<real>) | PerTerm(matrix: seq<seq<real>>)

  /** `calc_*_energy(traj, sum)` over a list of terms. */
  method CalcEnergy<T>(terms: seq<T>, v: (T, real) -> real, obs: seq<seq<real>>, sum: bool) returns (e: Energies)
    requires Shaped(obs, |terms|)
    ensures e.Totals? <==> sum
    ensures !sum ==> e.matrix == EnergyMatrix(terms, v, obs)
    ensures sum ==> (|e.perFrame| == |obs|
      && forall f :: 0 <= f < |obs| ==> e.perFrame[f] == Sum(EnergyMatrix(terms, v, obs)[f]))
  {
    if sum {
      var t := EnergyTotals(terms, v, obs);
      e := Totals(t);
    } else {
      e := PerTerm(EnergyMatrix(terms, v, obs));
    }
  }

  /** `calc_bond_energy`: `r` holds the bond lengths per frame. */
  method CalcBondEnergy(h: Hamiltonian, r: seq<seq<real>>, sum: bool) returns (e: Energies)
    requires Shaped(r, |h.bonds|)
    ensures e.Totals? <==> sum
    ensures !sum ==> |e.matrix| == |r| && Shaped(e.matrix, |h.bonds|)
    ensures !sum ==> forall f, i :: 0 <= f < |r| && 0 <= i < |h.bonds| ==>
      e.matrix[f][i] == BondV(h.bonds[i], r[f][i])
    ensures sum ==> (|e.perFrame| == |r|
      && forall f :: 0 <= f < |r| ==> e.perFrame[f] == Sum(EnergyMatrix(h.bonds, BondV, r)[f]))
  {
    e := CalcEnergy(h.bonds, BondV, r, sum);
  }

  /** `calc_angle_energy`: `theta` holds the angles per frame. */
  method CalcAngleEnergy(h: Hamiltonian, theta: seq<seq<real>>, sum: bool) returns (e: Energies)
    requires Shaped(theta, |h.angles|)
    ensures e.Totals? <==> sum
    ensures !sum ==> |e.matrix| == |theta| && Shaped(e.matrix, |h.angles|)
    ensures !sum ==> forall f, i :: 0 <= f < |theta| && 0 <= i < |h.angles| ==>
      e.matrix[f][i] == AngleV(h.angles[i], theta[f][i])
    ensures sum ==> (|e.perFrame| == |theta|
      && forall f :: 0 <= f < |theta| ==> e.perFrame[f] == Sum(EnergyMatrix(h.angles, AngleV, theta)[f]))
  {
    e := CalcEnergy(h.angles, AngleV, theta, sum);
  }

  /** `calc_dihedral_energy`: `phi` holds the dihedrals per frame; `cos`
      stands for `np.cos`. */
  method CalcDihedralEnergy(cos: real -> real, h: Hamiltonian, phi: seq<seq<real>>, sum: bool) returns (e: Energies)
    requires Shaped(phi, |h.dihedrals|)
    ensures e.Totals? <==> sum
    ensures !sum ==> |e.matrix| == |phi| && Shaped(e.matrix, |h.dihedrals|)
    ensures !sum ==> forall f, i :: 0 <= f < |phi| && 0 <= i < |h.dihedrals| ==>
      e.matrix[f][i] == DihedralV(cos, h.dihedrals[i], phi[f][i])
    ensures sum ==> (|e.perFrame| == |phi| && forall f :: 0 <= f < |phi| ==>
      e.perFrame[f] == Sum(EnergyMatrix(h.dihedrals, (d, x) => DihedralV(cos, d, x), phi)[f]))
  {
    e := CalcEnergy(h.dihedrals, (d, x) => DihedralV(cos, d, x), phi, sum);
  }

  /** `calc_pair_energy`: `r` holds the pair distances per frame; the pair
      energy comes from the pairwise module and is a parameter. */
  method CalcPairEnergy(pairV: (PairTerm, real) -> real, h: Hamiltonian, r: seq<seq<real>>, sum: bool)
    returns (e: Energies)
    requires Shaped(r, |h.pairs|)
    ensures e.Totals? <==> sum
    ensures !sum ==> |e.matrix| == |r| && Shaped(e.matrix, |h.pairs|)
    ensures !sum ==> forall f, i :: 0 <= f < |r| && 0 <= i < |h.pairs| ==>
      e.matrix[f][i] == pairV(h.pairs[i], r[f][i])
    ensures sum ==> (|e.perFrame| == |r|
      && forall f :: 0 <= f < |r| ==> e.perFrame[f] == Sum(EnergyMatrix(h.pairs, pairV, r)[f]))
  {
    e := CalcEnergy(h.pairs, pairV, r, sum);
  }

  /** A sum of non-negative terms is non-negative. */
  lemma {:induction false} SumNonNegative(s: seq<real>)
    requires forall k :: 0 <= k < |s| ==> s[k] >= 0.0
    ensures Sum(s) >= 0.0
    decreases |s|
  {
    if |s| > 0 {
      SumNonNegative(s[..|s| - 1]);
    }
  }

  /** With no negative force constant, every frame's total bond energy is
      non-negative, and with none at all it is zero. */
  lemma {:induction false} BondTotalsSign(h: Hamiltonian, r: seq<seq<real>>, f: nat)
    requires Shaped(r, |h.bonds|) && f < |r|
    ensures (forall i :: 0 <= i < |h.bonds| ==> h.bonds[i].kb >= 0.0) ==>
      Sum(EnergyMatrix(h.bonds, BondV, r)[f]) >= 0.0
    ensures |h.bonds| == 0 ==> Sum(EnergyMatrix(h.bonds, BondV, r)[f]) == 0.0
  {
    var row := EnergyMatrix(h.bonds, BondV, r)[f];
    if forall i :: 0 <= i < |h.bonds| ==> h.bonds[i].kb >= 0.0 {
      forall k | 0 <= k < |row| ensures row[k] >= 0.0 {
        BondEnergySign(h.bonds[k], r[f][k]);
      }
      SumNonNegative(row);
    }
  }

  /** Adding one new term adds one column, and each frame's total grows by
      that term's energy in the frame. */
  lemma {:induction false} TotalsAfterNewTerm<T>(terms: seq<T>, x: T, v: (T, real) -> real,
                                                 obs: seq<seq<real>>, f: nat)
    requires Shaped(obs, |terms| + 1) && f < |obs|
    ensures var before := seq(|obs|, g requires 0 <= g < |obs| => obs[g][..|terms|]);
      Shaped(before, |terms|)
      && Sum(EnergyMatrix(terms + [x], v, obs)[f]) == Sum(EnergyMatrix(terms, v, before)[f]) + v(x, obs[f][|terms|])
  {
    var before := seq(|obs|, g requires 0 <= g < |obs| => obs[g][..|terms|]);
    var row := EnergyMatrix(terms + [x], v, obs)[f];
    var old_row := EnergyMatrix(terms, v, before)[f];
    assert row[..|terms|] == old_row;
  }
}
