/** Bonded interaction terms: harmonic bonds, angles and dihedrals, the
    cosine dihedral, their descriptions, and the registries that build a
    term from a potential code and its arguments. */
module Bonded {
  import opened Common

  /** An atom as an interaction sees it: its `index`, which the index tables
      read, and its `str()` text, which `describe` prints. */
  datatype TermAtom = TermAtom(index: nat, text: string)

  // ---------------------------------------------------------------------
  // The harmonic form shared by bonds, angles and harmonic dihedrals

  /** `d**2`. */
  function Square(d: real): real
  {
    d * d
  }

  /** A square is never negative, and zero only at zero. */
  lemma {:induction false} SquareSign(d: real)
    ensures Square(d) >= 0.0
    ensures d != 0.0 ==> Square(d) > 0.0
  {
    if d > 0.0 {
      calc { Square(d); == d * d; > 0.0 * d; == 0.0; }
    } else if d < 0.0 {
      calc { Square(d); == (-d) * (-d); > 0.0 * (-d); == 0.0; }
    } else {
      calc { Square(d); == 0.0 * 0.0; == 0.0; }
    }
  }

  /** `dVdk(x) = 0.5 * (x - x0)**2`, the derivative of the energy in the
      force constant. */
  function HarmonicDk(x0: real, x: real): real
  {
    0.5 * Square(x - x0)
  }

  /** `d2Vdxdk(x) = x - x0`. */
  function HarmonicDxDk(x0: real, x: real): real
  {
    x - x0
  }

  /** `V(x) = k * dVdk(x)`. */
  function HarmonicV(k: real, x0: real, x: real): real
  {
    k * HarmonicDk(x0, x)
  }

  /** `dVdx(x) = k * d2Vdxdk(x)`. */
  function HarmonicDx(k: real, x0: real, x: real): real
  {
    k * HarmonicDxDk(x0, x)
  }

  /** The harmonic energy is zero at the rest value, never negative for a
      non-negative force constant, and for a positive one zero only at rest;
      `dVdk` is never negative and zero only at rest. */
  lemma {:induction false} HarmonicSign(k: real, x0: real, x: real)
    ensures HarmonicDk(x0, x) >= 0.0
    ensures HarmonicDk(x0, x) == 0.0 <==> x == x0
    ensures x == x0 ==> HarmonicV(k, x0, x) == 0.0
    ensures k >= 0.0 ==> HarmonicV(k, x0, x) >= 0.0
    ensures k > 0.0 ==> (HarmonicV(k, x0, x) == 0.0 <==> x == x0)
  {
    SquareSign(x - x0);
    var s := HarmonicDk(x0, x);
    if k > 0.0 && s > 0.0 {
      assert k * s > 0.0;
    } else if k >= 0.0 {
      assert k * s >= 0.0;
    }
  }

  /** `dVdx` is the derivative of `V`: the quadratic is its own second-order
      expansion around any point. */
  lemma {:induction false} HarmonicTaylor(k: real, x0: real, x: real, h: real)
    ensures HarmonicV(k, x0, x + h) == HarmonicV(k, x0, x) + HarmonicDx(k, x0, x) * h + 0.5 * k * (h * h)
  {
    var d := x - x0;
    calc {
      HarmonicV(k, x0, x + h);
      k * (0.5 * Square(d + h));
      k * (0.5 * ((d + h) * (d + h)));
      { assert (d + h) * (d + h) == d * d + 2.0 * d * h + h * h; }
      k * (0.5 * (d * d + 2.0 * d * h + h * h));
      k * (0.5 * (d * d)) + (k * d) * h + 0.5 * k * (h * h);
      k * (0.5 * Square(d)) + (k * d) * h + 0.5 * k * (h * h);
    }
  }

  /** `dVdk` and `d2Vdxdk` are the derivatives in the force constant: `V`
      and `dVdx` are linear in it. */
  lemma {:induction false} HarmonicLinearInK(k: real, dk: real, x0: real, x: real)
    ensures HarmonicV(k + dk, x0, x) == HarmonicV(k, x0, x) + dk * HarmonicDk(x0, x)
    ensures HarmonicDx(k + dk, x0, x) == HarmonicDx(k, x0, x) + dk * HarmonicDxDk(x0, x)
  {
    var d := HarmonicDk(x0, x);
    assert (k + dk) * d == k * d + dk * d;
    assert (k + dk) * (x - x0) == k * (x - x0) + dk * (x - x0);
  }

  // ---------------------------------------------------------------------
  // Terms

  datatype BondTerm = HarmonicBond(atmi: TermAtom, atmj: TermAtom, kb: real, r0: real)
  {
    function Label(): string { "HARMONIC_BOND" }

    function Atoms(): seq<TermAtom> { [atmi, atmj] }
  }

  datatype AngleTerm = HarmonicAngle(atmi: TermAtom, atmj: TermAtom, atmk: TermAtom, ka: real, theta0: real)
  {
    function Label(): string { "HARMONIC_ANGLE" }

    function Atoms(): seq<TermAtom> { [atmi, atmj, atmk] }
  }

  datatype DihedralTerm =
    | HarmonicDihedral(atmi: TermAtom, atmj: TermAtom, atmk: TermAtom, atml: TermAtom, kd: real, phi0: real)
    | CosineDihedral(atmi: TermAtom, atmj: TermAtom, atmk: TermAtom, atml: TermAtom, kd: real, phi0: real,
                     mult: real)
  {
    function Label(): string
    {
      if HarmonicDihedral? then "HARMONIC_DIHEDRAL" else "COSINE_DIHEDRAL"
    }

    function Atoms(): seq<TermAtom> { [atmi, atmj, atmk, atml] }
  }

  function BondV(b: BondTerm, r: real): real
  {
    HarmonicV(b.kb, b.r0, r)
  }

  function BondDVdr(b: BondTerm, r: real): real
  {
    HarmonicDx(b.kb, b.r0, r)
  }

  function AngleV(a: AngleTerm, theta: real): real
  {
    HarmonicV(a.ka, a.theta0, theta)
  }

  function AngleDVdtheta(a: AngleTerm, theta: real): real
  {
    HarmonicDx(a.ka, a.theta0, theta)
  }

  /** `dVdkd(phi) = 1 - cos(mult * (phi - phi0))`; `cos` is `np.cos`. */
  function CosineDk(cos: real -> real, mult: real, phi0: real, phi: real): real
  {
    1.0 - cos(mult * (phi - phi0))
  }

  /** A dihedral's energy at angle `phi`; the cosine form takes `np.cos` as
      `cos`. */
  function DihedralV(cos: real -> real, d: DihedralTerm, phi: real): real
  {
    match d
    case HarmonicDihedral(_, _, _, _, kd, phi0) => HarmonicV(kd, phi0, phi)
    case CosineDihedral(_, _, _, _, kd, phi0, mult) => kd * CosineDk(cos, mult, phi0, phi)
  }

  /** The cosine dihedral is zero at rest, where `cos(0) = 1`, and never
      negative for a non-negative force constant, since `cos <= 1`. */
  lemma {:induction false} CosineDihedralBounds(cos: real -> real, d: DihedralTerm, phi: real)
    requires d.CosineDihedral?
    ensures cos(0.0) == 1.0 ==> DihedralV(cos, d, d.phi0) == 0.0
    ensures (forall x :: cos(x) <= 1.0) && d.kd >= 0.0 ==> DihedralV(cos, d, phi) >= 0.0
  {
    assert d.mult * (d.phi0 - d.phi0) == 0.0;
    if (forall x :: cos(x) <= 1.0) && d.kd >= 0.0 {
      var c := CosineDk(cos, d.mult, d.phi0, phi);
      assert c >= 0.0;
      assert d.kd * c >= 0.0;
    }
  }

  /** With a `p`-periodic cosine the cosine dihedral repeats every `p / mult`
      in `phi`. */
  lemma {:induction false} CosineDihedralPeriodic(cos: real -> real, d: DihedralTerm, p: real, phi: real)
    requires d.CosineDihedral? && d.mult != 0.0
    requires forall x :: cos(x + p) == cos(x)
    ensures DihedralV(cos, d, phi + p / d.mult) == DihedralV(cos, d, phi)
  {
    var m := d.mult;
    assert m * (phi + p / m - d.phi0) == m * (phi - d.phi0) + p by {
      assert m * (p / m) == p;
    }
    assert cos(m * (phi - d.phi0) + p) == cos(m * (phi - d.phi0));
  }

  /** Every harmonic term is at rest at its reference value: zero energy
      there, never negative with a non-negative force constant, and with a
      positive one zero nowhere else. */
  lemma {:induction false} BondEnergySign(b: BondTerm, r: real)
    ensures BondV(b, b.r0) == 0.0
    ensures b.kb >= 0.0 ==> BondV(b, r) >= 0.0
    ensures b.kb > 0.0 ==> (BondV(b, r) == 0.0 <==> r == b.r0)
  {
    HarmonicSign(b.kb, b.r0, r);
    HarmonicSign(b.kb, b.r0, b.r0);
  }

  lemma {:induction false} AngleEnergySign(a: AngleTerm, theta: real)
    ensures AngleV(a, a.theta0) == 0.0
    ensures a.ka >= 0.0 ==> AngleV(a, theta) >= 0.0
    ensures a.ka > 0.0 ==> (AngleV(a, theta) == 0.0 <==> theta == a.theta0)
  {
    HarmonicSign(a.ka, a.theta0, theta);
    HarmonicSign(a.ka, a.theta0, a.theta0);
  }

  lemma {:induction false} HarmonicDihedralEnergySign(cos: real -> real, d: DihedralTerm, phi: real)
    requires d.HarmonicDihedral?
    ensures DihedralV(cos, d, d.phi0) == 0.0
    ensures d.kd >= 0.0 ==> DihedralV(cos, d, phi) >= 0.0
    ensures d.kd > 0.0 ==> (DihedralV(cos, d, phi) == 0.0 <==> phi == d.phi0)
  {
    HarmonicSign(d.kd, d.phi0, phi);
    HarmonicSign(d.kd, d.phi0, d.phi0);
  }

  // ---------------------------------------------------------------------
  // Descriptions

  /** `"{:>12}".format(s)`: right-aligned in a field of twelve, never cut. */
  function PadLeft(s: string, width: nat): (r: string)
    ensures |r| == if |s| < width then width else |s|
    ensures r[|r| - |s|..] == s
    ensures forall k :: 0 <= k < |r| - |s| ==> r[k] == ' '
  {
    if |s| < width then seq(width - |s|, _ => ' ') + s else s
  }

  /** Each atom's text right-aligned in twelve columns, in atom order. */
  function Padded(atoms: seq<TermAtom>): (r: seq<string>)
    ensures |r| == |atoms|
    ensures forall k :: 0 <= k < |atoms| ==> r[k] == PadLeft(atoms[k].text, 12)
  {
    seq(|atoms|, k requires 0 <= k < |atoms| => PadLeft(atoms[k].text, 12))
  }

  /** `describe()`: the prefix label, a colon, then the padded atoms. */
  function Describe(tag: string, atoms: seq<TermAtom>): string
  {
    tag + ":" + Flatten(Padded(atoms))
  }

  function BondDescribe(b: BondTerm): string { Describe(b.Label(), b.Atoms()) }

  function AngleDescribe(a: AngleTerm): string { Describe(a.Label(), a.Atoms()) }

  function DihedralDescribe(d: DihedralTerm): string { Describe(d.Label(), d.Atoms()) }

  /** Cutting a line into twelve-column fields from the right; a shorter
      remainder is dropped. */
  function Columns(s: seq<char>): seq<string>
    decreases |s|
  {
    if |s| < 12 then [] else Columns(s[..|s| - 12]) + [s[|s| - 12..]]
  }

  lemma {:induction false} ColumnsStep(x: seq<char>, p: seq<char>)
    requires |p| == 12
    ensures Columns(x + p) == Columns(x) + [p]
  {
    var s := x + p;
    assert s[..|s| - 12] == x;
    assert s[|s| - 12..] == p;
  }

  /** Fields of exactly twelve columns each cut back out of their
      concatenation. */
  lemma {:induction false} ColumnsOfFlatten(ps: seq<string>)
    requires forall k :: 0 <= k < |ps| ==> |ps[k]| == 12
    ensures |Flatten(ps)| == 12 * |ps|
    ensures Columns(Flatten(ps)) == ps
    decreases |ps|
  {
    if |ps| > 0 {
      var n := |ps| - 1;
      var pre := ps[..n];
      assert forall k :: 0 <= k < n ==> pre[k] == ps[k];
      ColumnsOfFlatten(pre);
      ColumnsStep(Flatten(pre), ps[n]);
      assert pre + [ps[n]] == ps;
    }
  }

  /** A description reads back as its label, a colon, and one twelve-column
      field per atom holding that atom's text right-aligned, provided no
      atom's text is wider than twelve (a wider one widens its field). */
  lemma {:induction false} DescribeLayout(tag: string, atoms: seq<TermAtom>)
    requires forall k :: 0 <= k < |atoms| ==> |atoms[k].text| <= 12
    ensures |Describe(tag, atoms)| == |tag| + 1 + 12 * |atoms|
    ensures Describe(tag, atoms)[..|tag| + 1] == tag + ":"
    ensures Columns(Describe(tag, atoms)[|tag| + 1..]) == Padded(atoms)
  {
    var ps := Padded(atoms);
    ColumnsOfFlatten(ps);
    var head := tag + ":";
    assert Describe(tag, atoms) == head + Flatten(ps);
    assert (head + Flatten(ps))[|head|..] == Flatten(ps);
    assert (head + Flatten(ps))[..|head|] == head;
  }

  // ---------------------------------------------------------------------
  // Registries

  /** The keys of `BOND_POTENTIALS`. */
  predicate BondCode(code: string) { code == "HARMONIC_BOND" }

  /** The keys of `ANGLE_POTENTIALS`. */
  predicate AngleCode(code: string) { code == "HARMONIC_ANGLE" }

  /** The keys of `DIHEDRAL_POTENTIALS`. */
  predicate DihedralCode(code: string) { code == "HARMONIC_DIHEDRAL" || code == "COSINE_DIHEDRAL" }

  /** `BOND_POTENTIALS[code](atm1, atm2, *args)`: a KeyError for an unknown
      code, a TypeError unless `args` is `(kb, r0)`. */
  function MakeBond(code: string, a1: TermAtom, a2: TermAtom, args: seq<real>): (r: Result<BondTerm>)
    ensures !BondCode(code) ==> r == Err(UnknownPotential(code))
    ensures BondCode(code) && |args| != 2 ==> r == Err(WrongArity(4, 2 + |args|))
  {
    if !BondCode(code) then Err(UnknownPotential(code))
    else if |args| != 2 then Err(WrongArity(4, 2 + |args|))
    else Ok(HarmonicBond(a1, a2, args[0], args[1]))
  }

  /** `ANGLE_POTENTIALS[code](atm1, atm2, atm3, *args)`, `args` being
      `(ka, theta0)`. */
  function MakeAngle(code: string, a1: TermAtom, a2: TermAtom, a3: TermAtom, args: seq<real>): (r: Result<AngleTerm>)
    ensures !AngleCode(code) ==> r == Err(UnknownPotential(code))
    ensures AngleCode(code) && |args| != 2 ==> r == Err(WrongArity(5, 3 + |args|))
  {
    if !AngleCode(code) then Err(UnknownPotential(code))
    else if |args| != 2 then Err(WrongArity(5, 3 + |args|))
    else Ok(HarmonicAngle(a1, a2, a3, args[0], args[1]))
  }

  /** `DIHEDRAL_POTENTIALS[code](atm1, atm2, atm3, atm4, *args)`, `args`
      being `(kd, phi0)` or, for the cosine form, `(kd, phi0, mult)`. */
  function MakeDihedral(code: string, a1: TermAtom, a2: TermAtom, a3: TermAtom, a4: TermAtom,
                        args: seq<real>): (r: Result<DihedralTerm>)
    ensures !DihedralCode(code) ==> r == Err(UnknownPotential(code))
    ensures code == "HARMONIC_DIHEDRAL" && |args| != 2 ==> r == Err(WrongArity(6, 4 + |args|))
    ensures code == "COSINE_DIHEDRAL" && |args| != 3 ==> r == Err(WrongArity(7, 4 + |args|))
  {
    if code == "HARMONIC_DIHEDRAL" then
      if |args| != 2 then Err(WrongArity(6, 4 + |args|))
      else Ok(HarmonicDihedral(a1, a2, a3, a4, args[0], args[1]))
    else if code == "COSINE_DIHEDRAL" then
      if |args| != 3 then Err(WrongArity(7, 4 + |args|))
      else Ok(CosineDihedral(a1, a2, a3, a4, args[0], args[1], args[2]))
    else Err(UnknownPotential(code))
  }

  /** The constructor arguments a term was built from. */
  function BondArgs(b: BondTerm): seq<real> { [b.kb, b.r0] }

  function AngleArgs(a: AngleTerm): seq<real> { [a.ka, a.theta0] }

  function DihedralArgs(d: DihedralTerm): seq<real>
  {
    match d
    case HarmonicDihedral(_, _, _, _, kd, phi0) => [kd, phi0]
    case CosineDihedral(_, _, _, _, kd, phi0, mult) => [kd, phi0, mult]
  }

  /** The registries build every term from its own label, atoms and
      arguments, and a term they build carries exactly what it was given:
      its label is the registry key and its arguments are `args`. */
  lemma {:induction false} RegistriesRoundTrip(b: BondTerm, a: AngleTerm, d: DihedralTerm,
                                               code: string, x: seq<TermAtom>, args: seq<real>)
    requires |x| == 4
    ensures MakeBond(b.Label(), b.atmi, b.atmj, BondArgs(b)) == Ok(b)
    ensures MakeAngle(a.Label(), a.atmi, a.atmj, a.atmk, AngleArgs(a)) == Ok(a)
    ensures MakeDihedral(d.Label(), d.atmi, d.atmj, d.atmk, d.atml, DihedralArgs(d)) == Ok(d)
    ensures MakeBond(code, x[0], x[1], args).Ok? ==>
      var t := MakeBond(code, x[0], x[1], args).value;
      t.Label() == code && [t.atmi, t.atmj] == x[..2] && BondArgs(t) == args
    ensures MakeAngle(code, x[0], x[1], x[2], args).Ok? ==>
      var t := MakeAngle(code, x[0], x[1], x[2], args).value;
      t.Label() == code && [t.atmi, t.atmj, t.atmk] == x[..3] && AngleArgs(t) == args
    ensures MakeDihedral(code, x[0], x[1], x[2], x[3], args).Ok? ==>
      var t := MakeDihedral(code, x[0], x[1], x[2], x[3], args).value;
      t.Label() == code && [t.atmi, t.atmj, t.atmk, t.atml] == x && DihedralArgs(t) == args
  {
    assert x == [x[0], x[1], x[2], x[3]];
    if MakeBond(code, x[0], x[1], args).Ok? {
      assert args == [args[0], args[1]];
    }
    if MakeAngle(code, x[0], x[1], x[2], args).Ok? {
      assert args == [args[0], args[1]];
    }
    if MakeDihedral(code, x[0], x[1], x[2], x[3], args).Ok? {
      if code == "HARMONIC_DIHEDRAL" {
        assert args == [args[0], args[1]];
      } else {
        assert args == [args[0], args[1], args[2]];
      }
    }
  }

  // ---------------------------------------------------------------------
  // Equality

  /** The duplicate test the adds use: the same kind of term on the same
      atoms, in the same order, with the same parameters. */
  predicate SameBond(a: BondTerm, b: BondTerm)
  {
    a == b
  }

  predicate SameAngle(a: AngleTerm, b: AngleTerm)
  {
    a == b
  }

  predicate SameDihedral(a: DihedralTerm, b: DihedralTerm)
  {
    a == b
  }

  /** A value in a term's `__dict__`. */
  datatype Attr = AtomAttr(atom: TermAtom) | NumAttr(num: real) | TextAttr(text: string)

  /** `frozenset(self.__dict__.items())` of a harmonic bond: its items have
      distinct names, so the set is a map from name to value. */
  function BondAttrs(b: BondTerm): map<string, Attr>
  {
    map["atmi" := AtomAttr(b.atmi), "atmj" := AtomAttr(b.atmj), "prefix_label" := TextAttr(b.Label()),
        "kb" := NumAttr(b.kb), "r0" := NumAttr(b.r0)]
  }

  /** A hash value as the set of its one bits, so that `^` is symmetric
      difference. */
  type Bits = set<nat>

  function Xor(a: Bits, b: Bits): (r: Bits)
    ensures forall x :: x in r <==> (x in a) != (x in b)
  {
    (a - b) + (b - a)
  }

  /** Python's `hash` on the values the terms' hashes combine. String hashes
      are salted per process, so the functions are left open. */
  datatype Hasher = Hasher(str: string -> Bits, atom: TermAtom -> Bits, num: real -> Bits,
                           attrs: map<string, Attr> -> Bits)

  /** `HarmonicBondPotential.__hash__`. */
  function BondHashAsWritten(h: Hasher, b: BondTerm): Bits
  {
    h.attrs(BondAttrs(b))
  }

  /** `__eq__`: equal hashes. */
  predicate BondEqualAsWritten(h: Hasher, a: BondTerm, b: BondTerm)
  {
    BondHashAsWritten(h, a) == BondHashAsWritten(h, b)
  }

  /** The bond's hash covers every attribute under its own name, so the
      structural key agrees with it: equal bonds hash alike under any hash,
      and when attribute sets never collide equal hashes mean equal bonds. */
  lemma {:induction false} BondEqualityIsStructural(h: Hasher, a: BondTerm, b: BondTerm)
    ensures SameBond(a, b) ==> BondEqualAsWritten(h, a, b)
    ensures (forall m1, m2 :: h.attrs(m1) == h.attrs(m2) ==> m1 == m2) ==>
              (BondEqualAsWritten(h, a, b) <==> SameBond(a, b))
  {
    if BondAttrs(a) == BondAttrs(b) {
      assert BondAttrs(a)["atmi"] == BondAttrs(b)["atmi"];
      assert BondAttrs(a)["atmj"] == BondAttrs(b)["atmj"];
      assert BondAttrs(a)["kb"] == BondAttrs(b)["kb"];
      assert BondAttrs(a)["r0"] == BondAttrs(b)["r0"];
    }
  }

  /** `AnglePotential.__hash__` extended by `HarmonicAnglePotential`: the
      label, the three atoms, `ka` and `theta0`, XORed together in turn. */
  function AngleHashAsWritten(h: Hasher, a: AngleTerm): Bits
  {
    Xor(Xor(Xor(Xor(Xor(h.str(a.Label()), h.atom(a.atmi)), h.atom(a.atmj)), h.atom(a.atmk)), h.num(a.ka)),
        h.num(a.theta0))
  }

  predicate AngleEqualAsWritten(h: Hasher, a: AngleTerm, b: AngleTerm)
  {
    AngleHashAsWritten(h, a) == AngleHashAsWritten(h, b)
  }

  /** Equal angles hash alike, but not conversely: whatever Python's hashes
      are, XOR makes an angle equal to the one with its first two atoms
      swapped, which is a different angle when those atoms differ, and the
      deduplicating add then drops it. The structural key keeps both. */
  lemma {:induction false} AngleEqualityIgnoresAtomOrder(h: Hasher, a: AngleTerm, b: AngleTerm, c: AngleTerm)
    requires c == a.(atmi := a.atmj, atmj := a.atmi)
    ensures SameAngle(a, b) ==> AngleEqualAsWritten(h, a, b)
    ensures AngleEqualAsWritten(h, a, c)
    ensures a.atmi != a.atmj ==> !SameAngle(a, c)
  {
    var s, i, j := h.str(a.Label()), h.atom(a.atmi), h.atom(a.atmj);
    assert Xor(Xor(s, i), j) == Xor(Xor(s, j), i);
  }

  /** `DihedralPotential.__hash__` followed by the subclass's own, which
      XORs the label in a second time. */
  function DihedralHashAsWritten(h: Hasher, d: DihedralTerm): Bits
  {
    var base := Xor(Xor(Xor(Xor(h.str(d.Label()), h.atom(d.atmi)), h.atom(d.atmj)), h.atom(d.atmk)), h.atom(d.atml));
    var again := Xor(Xor(Xor(base, h.str(d.Label())), h.num(d.kd)), h.num(d.phi0));
    match d
    case HarmonicDihedral(_, _, _, _, _, _) => again
    case CosineDihedral(_, _, _, _, _, _, mult) => Xor(again, h.num(mult))
  }

  predicate DihedralEqualAsWritten(h: Hasher, a: DihedralTerm, b: DihedralTerm)
  {
    DihedralHashAsWritten(h, a) == DihedralHashAsWritten(h, b)
  }

  /** The dihedral hash with the label left out: it reads only the atom and
      number hashes. */
  function DihedralCore(atom: TermAtom -> Bits, num: real -> Bits, d: DihedralTerm): Bits
  {
    var core := Xor(Xor(Xor(Xor(Xor(atom(d.atmi), atom(d.atmj)), atom(d.atmk)), atom(d.atml)), num(d.kd)),
                    num(d.phi0));
    match d
    case HarmonicDihedral(_, _, _, _, _, _) => core
    case CosineDihedral(_, _, _, _, _, _, mult) => Xor(core, num(mult))
  }

  /** The label XORed in twice drops out of the dihedral hash. */
  lemma {:induction false} DihedralHashStripped(h: Hasher, d: DihedralTerm)
    ensures DihedralHashAsWritten(h, d) == DihedralCore(h.atom, h.num, d)
  {
    var s := h.str(d.Label());
    var a1, a2, a3, a4 := h.atom(d.atmi), h.atom(d.atmj), h.atom(d.atmk), h.atom(d.atml);
    assert Xor(Xor(Xor(Xor(Xor(s, a1), a2), a3), a4), s) == Xor(Xor(Xor(a1, a2), a3), a4);
  }

  /** Equal dihedrals hash alike, and the hash of a dihedral is the same
      whatever string hash is used: the label drops out, so the as-written
      equality cannot see the label that the structural key compares. */
  lemma {:induction false} DihedralEqualityIgnoresLabel(h: Hasher, d: DihedralTerm, e: DihedralTerm,
                                                        str: string -> Bits)
    ensures SameDihedral(d, e) ==> DihedralEqualAsWritten(h, d, e)
    ensures DihedralHashAsWritten(h, d) == DihedralHashAsWritten(h.(str := str), d)
  {
    DihedralHashStripped(h, d);
    DihedralHashStripped(h.(str := str), d);
  }

  /** In particular a harmonic dihedral equals, as written, the cosine
      dihedral on the same atoms and parameters whose multiplicity hashes to
      no bits (`mult = 0`): a different term, which the structural key tells
      apart. */
  lemma {:induction false} DihedralEqualityIgnoresForm(h: Hasher, hd: DihedralTerm, mult: real)
    requires hd.HarmonicDihedral? && h.num(mult) == {}
    ensures DihedralEqualAsWritten(h, hd, CosineDihedral(hd.atmi, hd.atmj, hd.atmk, hd.atml, hd.kd, hd.phi0, mult))
    ensures !SameDihedral(hd, CosineDihedral(hd.atmi, hd.atmj, hd.atmk, hd.atml, hd.kd, hd.phi0, mult))
  {
    var cd := CosineDihedral(hd.atmi, hd.atmj, hd.atmk, hd.atml, hd.kd, hd.phi0, mult);
    DihedralHashStripped(h, hd);
    DihedralHashStripped(h, cd);
    assert DihedralCore(h.atom, h.num, cd) == Xor(DihedralCore(h.atom, h.num, hd), {});
  }
}
