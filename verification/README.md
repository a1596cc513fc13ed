# model_builder mappings and Hamiltonian, in Dafny

This project models the core of `model_builder`, a Python package that builds
coarse-grained protein models. It covers two things.

- **Mappings** turn an all-atom mdtraj topology into a coarse-grained one and
  project a trajectory onto it. There are four of them:
  - C-alpha (`CalphaMapping`);
  - C-alpha plus sidechain centre of mass (`CalphaCbetaMapping`);
  - heavy atoms (`HeavyAtomMapping`);
  - AWSEM's CA, O and CB/HB beads (`AwsemMapping`).
  The two structure-based mappings also produce the bonded terms: angles,
  dihedrals, contacts and disulfides. `assign_mapping` chooses a mapping by
  its code.
- **The Hamiltonian** stores bonded and pairwise terms without duplicates. It
  lists and describes those terms, builds the atom-index tables, and computes
  the per-frame or per-term energies. The bonded potentials are the harmonic
  bond, angle and dihedral and the cosine dihedral, each with a registry that
  maps a code to its class.

Modules, one per source concept:

| module | file | models |
|---|---|---|
| `Common` | common.dfy | errors, `Result`/`Option`, Python list indexing (negative wraps), real sums |
| `Structure` | structure.dfy | mdtraj topology (chains, residues, atoms, bonds); flattening; consecutive triples and quadruples per chain |
| `Projection` | projection.dfy | trajectories; gathering atom columns; scattering writes into a zeroed frame; mass-weighted mean; linear combination |
| `CalphaMapping` | calpha.dfy | `CalphaMapping` |
| `CalphaCbetaMapping` | cacb.dfy | `CalphaCbetaMapping.__init__` and `map_traj` |
| `CalphaCbetaTerms` | cacb_terms.dfy | the C-beta mapping's contacts, angles, dihedrals and disulfides |
| `HeavyAtomMapping` | heavy.dfy | `HeavyAtomMapping` |
| `AwsemMapping` | awsem_mapping.dfy | `AwsemMapping` |
| `Mappings` | mappings.dfy | `MAPPINGS` and `assign_mapping` |
| `Bonded` | bonded.dfy | the bonded potentials, `describe`, hashing and equality, the registries |
| `Hamiltonian` | hamiltonian.dfy | `Hamiltonian` |

How the model is written:

- **Immutable values.** A Python object that is mutated in place becomes an
  immutable value. Each mutating method returns the updated value in a
  `Result`, and a raised exception becomes an `Err`.
- **List indexing.** mdtraj's `topology.residue(i)`, `chain.residue(i)` and
  `residue.atom(i)` are Python list lookups. `Common.PyIndex` models them, so
  a negative index wraps around and an index out of range is an `Err`.
- **Bead references.** A coarse-grained bead is referred to by its index in
  the new topology, so a term is a tuple of bead indices.

## Model

| member | source | states |
|---|---|---|
| Common.PyIndex | models/structure/mappings.py:100-101 | a Python list lookup succeeds exactly for `-len <= i < len`, and reads position `i`, or `len + i` when `i` is negative |
| Structure.FindAtomSpec | models/structure/mappings.py:54-55 | the first atom with the name is found, with its mdtraj index, and none is found exactly when no atom has that name |
| Structure.Triples | models/structure/mappings.py:111-112 | a run of n beads gives n - 2 triples `(s[i], s[i+1], s[i+2])`, in order |
| Structure.Quads | models/structure/mappings.py:118-120 | a run of n beads gives n - 3 quadruples of consecutive beads, in order |
| Structure.BeadOf | models/structure/mappings.py:100-104 | `topology.residue(i).atom(j)` exists exactly when both list lookups succeed, and its value is that bead's index |
| Structure.ChainTriplesRows | models/structure/mappings.py:110-112 | the angles over all chains are the chains' triples concatenated in chain order |
| Structure.ChainQuadsRows | models/structure/mappings.py:117-120 | the dihedrals over all chains are the chains' quadruples concatenated in chain order |
| Structure.ChainTriplesConsecutive | models/structure/mappings.py:110-112 | in a densely numbered topology, a triple is present exactly when it is three consecutive beads of one chain |
| Structure.ChainQuadsConsecutive | models/structure/mappings.py:117-120 | in a densely numbered topology, a quadruple is present exactly when it is four consecutive beads of one chain |
| Projection.Gather | models/structure/mappings.py:72-75 | `traj.xyz[:, idxs, :]` succeeds exactly when the table is non-empty and every index is below `n_atoms`; output column k of every frame is source column `idxs[k]` |
| Projection.Scatter | models/structure/mappings.py:521-522 | a frame is `np.zeros((n_atoms, 3))` followed by assignments, with `n_atoms` rows |
| Projection.ScatterReads | models/structure/mappings.py:521-525 | with distinct targets, each written bead holds its value and every other bead stays at the origin |
| Projection.ScatterAgreeing | models/structure/mappings.py:230-244 | a bead that every write to it sets to the same value holds that value |
| Projection.Normalized | models/structure/mappings.py:237-242 | the weights are `m_k / M`, where M is the sidechain's total mass |
| Projection.WeightedSumConstant | models/structure/mappings.py:241-242 | a weighted sum of equal points is the sum of the weights times that point |
| Projection.MeanOfCoincidentPoints | models/structure/mappings.py:237-242 | the centre of mass of atoms that coincide is their common position |
| CalphaMapping.BuildSpec | models/structure/mappings.py:24-66 | the build succeeds exactly when every residue has a CA atom; then there is one CA bead per residue with the same chain shape, dense bead numbering, `ca_idxs` rows `[CA index, bead]`, and bonds exactly between consecutive beads of the same chain |
| CalphaMapping.Sources | models/structure/mappings.py:74 | the source column list is column 0 of `ca_idxs`, row by row |
| CalphaMapping.MapTrajCopiesCa | models/structure/mappings.py:72-75 | `map_traj` succeeds exactly when there are residues and every CA index is below `n_atoms`; bead r of frame f is the frame's CA of residue r |
| CalphaMapping.ContactsSpec | models/structure/mappings.py:97-106 | the contacts succeed exactly when every residue index passes Python list indexing; contact q is the CA-bead pair of the (wrapped) residues, in input order |
| CalphaMapping.AssignSbmDihedrals | models/structure/mappings.py:114-116 | the C-alpha mapping has no improper dihedrals |
| CalphaMapping.SbmTermsSpec | models/structure/mappings.py:108-120 | the angles and proper dihedrals are each chain's consecutive triples and quadruples concatenated in chain order, which gives n - 2 and n - 3 per chain of n beads; a term is present exactly when its beads are consecutive in one chain |
| CalphaMapping.AddDisulfidesSpec | models/structure/mappings.py:133-165 | the pairs are added exactly when every residue index and its predecessor pass list indexing; each pair appends one bond, two angles and one dihedral over the CA beads of the residues and their predecessors, and the earlier terms and chains are unchanged |
| CalphaCbetaMapping.HeavySidechain | models/structure/mappings.py:212-215 | an atom is in the sidechain table exactly when it is an `is_sidechain` atom of the residue whose element is not H, and the table is no longer than the residue's atoms |
| CalphaCbetaMapping.HeavySidechainCounts | models/structure/mappings.py:212-215 | the table holds each heavy sidechain atom exactly as many times as the residue does, and no other atom, so the centre of mass weighs every kept atom once |
| CalphaCbetaMapping.Masses | models/structure/mappings.py:214-215 | the mass table has one entry per kept atom: that atom's mass |
| CalphaCbetaMapping.CodeOf | models/structure/mappings.py:206 | `residue_code[name]` succeeds exactly for a known name, and a KeyError otherwise |
| CalphaCbetaMapping.BuildSpec | models/structure/mappings.py:170-220 | the build succeeds exactly when every residue has a CA and, unless it is GLY, a residue code; then each residue gets a CA bead and (non-GLY) a `CB<code>` bead, dense numbering, CA-CA bonds within a chain and one CB-CA bond per non-GLY residue, and the CA and sidechain tables |
| CalphaCbetaMapping.MapTrajOk | models/structure/mappings.py:226-246 | `map_traj` succeeds exactly when every CA index and heavy sidechain index is below `n_atoms` |
| CalphaCbetaMapping.MapTrajFrames | models/structure/mappings.py:230-244 | in each output frame the CA bead copies the source CA and the CB bead is the mass-weighted mean of the heavy sidechain atoms |
| CalphaCbetaMapping.MapTrajSpec | models/structure/mappings.py:226-246 | the success condition, plus: the output has the new topology's atom count, one frame per input frame, and every frame projected as above |
| CalphaCbetaTerms.ContactsSpec | models/structure/mappings.py:248-262 | the contacts succeed exactly when all residue indices pass list indexing; each contact gives a CA-CA pair, then a CB-CB pair when neither residue is GLY, in input order |
| CalphaCbetaTerms.AssignSbmAnglesSpec | models/structure/mappings.py:264-290 | for each chain in order: the CA-CA-CA triples, then for each non-GLY residue the angles (prev CA, CA, CB) and (CB, CA, next CA) that exist, with neighbours taken within the chain |
| CalphaCbetaTerms.AnglesAgreeOnOneChain | models/structure/mappings.py:264-290 | on a single chain of at least two residues the chain-local angles equal the source's as written |
| CalphaCbetaTerms.AssignSbmDihedralsSpec | models/structure/mappings.py:292-312 | the proper dihedrals are each chain's CA quadruples in chain order; the impropers are (CA, prev CA, next CA, CB) for every interior non-GLY residue of a chain |
| CalphaCbetaTerms.DihedralsAgreeOnOneChain | models/structure/mappings.py:292-312 | on a single non-empty chain the chain-local dihedrals equal the source's as written |
| CalphaCbetaTerms.AddDisulfidesSpec | models/structure/mappings.py:314-344 | the pairs are added exactly when every index passes list indexing and neither residue is GLY (GLY has no `atom(1)`); each pair appends the CB-CB bond, the angles (CA1, CB1, CB2) and (CB1, CB2, CA2), and the dihedral (CA1, CB1, CB2, CA2), and nothing else changes |
| CalphaCbetaTerms.AnglesAsWrittenFailOnSecondChain | models/structure/mappings.py:276-290 | on two chains of three alanines the source's angle pass raises at the second chain's first residue (`res.index` 3, so `chain.residue(4)`), while the chain-local one succeeds |
| CalphaCbetaTerms.DihedralsAsWrittenFailOnSecondChain | models/structure/mappings.py:302-312 | on two chains of three alanines the source's improper pass raises at the second chain's first residue (`chain.residue(4)`), while the chain-local one succeeds |
| HeavyAtomMapping.Kept | models/structure/mappings.py:412-413 | every kept atom's element is not H, and there are no more kept atoms than atoms |
| HeavyAtomMapping.KeptInOrder | models/structure/mappings.py:412-413 | the kept atoms are the atoms at strictly increasing positions, and those positions are exactly the ones whose element is not H: the in-order filter |
| HeavyAtomMapping.KeptMembers | models/structure/mappings.py:412-413 | an atom is kept exactly when it is in the residue and its element is not H |
| HeavyAtomMapping.BondsSpec | models/structure/mappings.py:423-427 | a bond (x, y) is in the new topology exactly when beads x and y are kept atoms whose source bond is in the topology |
| HeavyAtomMapping.BuildSpec | models/structure/mappings.py:391-430 | the same chain and residue shape, residues numbered 1, 2, ... across all chains (`res_idx`), each with its name and one bead per heavy atom, one bead per kept atom in order, and `_heavy_atom_idxs` rows `[source index, bead]` |
| HeavyAtomMapping.MapTrajSpec | models/structure/mappings.py:436-439 | `map_traj` succeeds exactly when there is a kept atom and every kept index is below `n_atoms`; bead j of each frame is the source's kept atom j |
| AwsemMapping.AtomNamed | models/structure/mappings.py:469 | the first atom with that name is found, and `[][0]` is an IndexError when there is none |
| AwsemMapping.BuildSpec | models/structure/mappings.py:444-512 | the build succeeds exactly when every residue has CA and O and, for GLY, N, otherwise CB; then each residue gets the beads CA, O and HB (GLY) or CB, numbered 3r.. 3r+2; bonds are CA-O, CA-HB/CB, and prev CA-CA and prev O-CA; the CACBO and HB tables are exactly the rows the loop emits |
| AwsemMapping.MapTrajSpec | models/structure/mappings.py:518-526 | with the HB step skipped when there is no GLY: success exactly when there are residues and all indices fit; CA, O and CB are copied, and HB is `-0.946747 N + 2.50352 CA - 0.620388 O` |
| AwsemMapping.MapTrajAsWrittenAgrees | models/structure/mappings.py:521-525 | with at least one GLY the source's `map_traj` equals the corrected one; with none, it raises where the corrected one succeeds |
| AwsemMapping.AlanineTrajectoryFails | models/structure/mappings.py:523 | a one-alanine topology makes the source's `map_traj` raise, while the corrected one gives three beads |
| Mappings.AssignMapping | models/structure/mappings.py:532-535 | an unregistered code is a KeyError |
| Mappings.AssignMappingSpec | models/structure/mappings.py:532-535 | each of "CA", "CACB", "All-Atom" and "AWSEM" builds its own kind of mapping, succeeds exactly when that constructor does, and gives that mapping's full build guarantee |
| Bonded.SquareSign | models/potentials/bonded.py:43 | `(r - r0)**2` is never negative and is positive off equilibrium |
| Bonded.HarmonicSign | models/potentials/bonded.py:36-46 | `dVdk` is never negative and is zero exactly at equilibrium; V is zero at equilibrium, non-negative for k >= 0, and for k > 0 zero only there |
| Bonded.HarmonicTaylor | models/potentials/bonded.py:36-46 | V(x + h) = V(x) + dV/dx h + k h^2 / 2: the derivative is the derivative of V, and the curvature is k |
| Bonded.HarmonicLinearInK | models/potentials/bonded.py:36-46 | V and dV/dx are linear in k, with slopes dV/dk and d2V/dxdk |
| Bonded.BondEnergySign | models/potentials/bonded.py:36-43 | a harmonic bond's energy is zero at r0, non-negative for kb >= 0, and for kb > 0 zero only at r0 |
| Bonded.AngleEnergySign | models/potentials/bonded.py:84-91 | the same for a harmonic angle and theta0 |
| Bonded.HarmonicDihedralEnergySign | models/potentials/bonded.py:137-144 | the same for a harmonic dihedral and phi0 |
| Bonded.CosineDihedralBounds | models/potentials/bonded.py:165-172 | the cosine dihedral is zero at phi0 and non-negative for kd >= 0 |
| Bonded.CosineDihedralPeriodic | models/potentials/bonded.py:165-172 | the cosine dihedral has period p / mult when the cosine has period p |
| Bonded.PadLeft | models/potentials/bonded.py:16 | `{:>12}` right-aligns: it pads with spaces to the width and ends with the text |
| Bonded.Padded | models/potentials/bonded.py:63-64 | each atom gets its own right-aligned 12-column field |
| Bonded.DescribeLayout | models/potentials/bonded.py:14-16 | `describe` is the label, ":", then one 12-character right-aligned field per atom, which can be read back column by column |
| Bonded.MakeBond | models/potentials/bonded.py:186 | an unknown bond code is a KeyError; the wrong number of parameters is a TypeError |
| Bonded.MakeAngle | models/potentials/bonded.py:188 | the same for the angle registry |
| Bonded.MakeDihedral | models/potentials/bonded.py:190-191 | the same for the dihedral registry, with two parameters for the harmonic form and three for the cosine form |
| Bonded.RegistriesRoundTrip | models/potentials/bonded.py:186-191 | building a term from its own label, atoms and parameters gives it back, and a built term carries the code, atoms and parameters it was given |
| Bonded.Xor | models/potentials/bonded.py:18-22 | `^` on hash values flips exactly the bits set in one operand |
| Bonded.BondEqualityIsStructural | models/potentials/bonded.py:24-25 | bond equality as written (the hash of `__dict__`) holds for equal bonds; it is exactly structural equality when the dictionary hash is injective |
| Bonded.AngleEqualityIgnoresAtomOrder | models/potentials/bonded.py:66-74 | the XOR hash makes an angle equal to the one with its first two atoms swapped, which is a different angle |
| Bonded.DihedralHashStripped | models/potentials/bonded.py:149-154 | the label is XORed in twice, so a harmonic dihedral's hash depends only on its atoms and parameters |
| Bonded.DihedralEqualityIgnoresLabel | models/potentials/bonded.py:118-154 | equal dihedrals hash equally, and the hash is the same under any string hash |
| Bonded.DihedralEqualityIgnoresForm | models/potentials/bonded.py:149-183 | a harmonic and a cosine dihedral with the same atoms and parameters and a multiplicity that hashes to 0 compare equal, though they are different terms |
| Hamiltonian.MakePair | models/potentials/hamiltonian.py:146 | a pair term is built exactly for a registered code with the registered arity, and carries the code, atoms and arguments |
| Hamiltonian.Empty | models/potentials/hamiltonian.py:30-33 | a new Hamiltonian holds no terms, so every `n_*` is 0, and it has no duplicates |
| Hamiltonian.AppendNew | models/potentials/hamiltonian.py:123-126 | "append unless present": the result holds the old terms plus the new one, grows by one only if the term was absent, keeps the old terms as a prefix, and keeps the list free of duplicates |
| Hamiltonian.AddBond | models/potentials/hamiltonian.py:120-126 | succeeds exactly for a known code and arity, and otherwise fails with the registry's error; membership is old-or-new, the old bonds are a prefix, the length grows only for a new bond, the other three lists are unchanged, and no duplicates appear |
| Hamiltonian.AddAngle | models/potentials/hamiltonian.py:128-134 | the same for angles |
| Hamiltonian.AddDihedral | models/potentials/hamiltonian.py:136-142 | the same for dihedrals |
| Hamiltonian.AddPair | models/potentials/hamiltonian.py:144-150 | the same for pairs, against the pair registry |
| Hamiltonian.AddCustomPair | models/potentials/hamiltonian.py:193-213 | through `_add_pair`, adds the "CUSTOM" pair whose first argument is the function and whose remaining arguments are the numbers given, unless it is already present: the old pairs stay a prefix and the list grows by one only for a new pair; it fails exactly when "CUSTOM" is unknown or the arity differs; the other lists are unchanged |
| Hamiltonian.AddAllSpec | models/potentials/hamiltonian.py:152-170 | a loop of single adds succeeds exactly when every row is valid, and otherwise fails with the first invalid row's error; on success the old list is a prefix, membership is old-or-built-from-a-row, and no duplicates appear |
| Hamiltonian.AddBondsSpec | models/potentials/hamiltonian.py:152-155 | bulk bonds (rows unpacked as intended) succeed exactly when every row is valid; on success the result is the old bonds followed by the rows' new bonds |
| Hamiltonian.AddAnglesSpec | models/potentials/hamiltonian.py:157-160 | the same for bulk angles |
| Hamiltonian.AddDihedralsSpec | models/potentials/hamiltonian.py:162-165 | the same for bulk dihedrals |
| Hamiltonian.AddPairsSpec | models/potentials/hamiltonian.py:167-170 | the same for bulk pairs, which the source unpacks with `*p[3:]` |
| Hamiltonian.BulkBondsAsWrittenAlwaysFail | models/potentials/hamiltonian.py:152-155 | as written, `_add_bonds` succeeds only on an empty list; otherwise the first row raises (KeyError, or a TypeError for three arguments where four are needed) |
| Hamiltonian.BulkAnglesAsWrittenAlwaysFail | models/potentials/hamiltonian.py:157-160 | the same for `_add_angles` |
| Hamiltonian.BulkDihedralsAsWrittenAlwaysFail | models/potentials/hamiltonian.py:162-165 | the same for `_add_dihedrals` |
| Hamiltonian.BulkBondWitness | models/potentials/hamiltonian.py:155 | one valid harmonic bond row raises as written and is added when unpacked |
| Hamiltonian.Potentials | models/potentials/hamiltonian.py:92-97 | all terms in the order bonds, angles, dihedrals, pairs, each at its list offset |
| Hamiltonian.DescribeLines | models/potentials/hamiltonian.py:113-118 | `describe` has one "\n"-terminated line per term, and line i is term i's own `describe` |
| Hamiltonian.Indices | models/potentials/hamiltonian.py:173-191 | a term's index row is the mdtraj index of each of its atoms, in order |
| Hamiltonian.BondIdxsAfterAdd | models/potentials/hamiltonian.py:120-126 | after a bond add, `_bond_idxs` gains the row `[i, j]` only when the bond is new, and the other tables are unchanged |
| Hamiltonian.PairIdxsAfterAdd | models/potentials/hamiltonian.py:144-150 | the same for pairs and `_pair_idxs` |
| Hamiltonian.EnergyTotals | models/potentials/hamiltonian.py:226-235 | the `sum=True` loop leaves frame f's total equal to the sum over terms of V_i(observable f, i) |
| Hamiltonian.CalcEnergy | models/potentials/hamiltonian.py:215-236 | `sum=False` gives the frames-by-terms matrix of V_i; `sum=True` gives the per-frame row sums |
| Hamiltonian.CalcBondEnergy | models/potentials/hamiltonian.py:215-236 | entry (f, i) is bond i's V at distance r[f][i]; totals are the row sums |
| Hamiltonian.CalcAngleEnergy | models/potentials/hamiltonian.py:238-259 | the same for angles |
| Hamiltonian.CalcDihedralEnergy | models/potentials/hamiltonian.py:261-288 | the same for dihedrals, with the cosine form using the given `cos` |
| Hamiltonian.CalcPairEnergy | models/potentials/hamiltonian.py:290-311 | the same for pairs, with each pair's V given as a function |
| Hamiltonian.SumNonNegative | models/potentials/hamiltonian.py:231-235 | a total of non-negative energies is non-negative |
| Hamiltonian.BondTotalsSign | models/potentials/hamiltonian.py:215-236 | with every kb >= 0 each frame's total bond energy is non-negative, and with no bonds it is 0 |
| Hamiltonian.TotalsAfterNewTerm | models/potentials/hamiltonian.py:231-233 | adding a term raises every frame's total by exactly that term's energy |

## Left out

- **Floating point.** Coordinates are float32 numpy arrays and energies are
  float64. Both are modelled as exact `real`s, so rounding and the
  accumulation order of `+=` are not modelled.
- **mdtraj geometry.** `md.compute_distances`, `compute_angles` and
  `compute_dihedrals` are not modelled. The energy functions take the
  observables as a frames-by-terms matrix. Their shape is a precondition
  (`Shaped`), because numpy's own shape is given by the term tables.
- **An empty index table given to mdtraj.** This happens when a Hamiltonian
  has no terms of a kind. It is not modelled: with no terms, the model's
  energies are rows of zeros or empty rows.
- **`np.cos`** is a parameter `cos` of the dihedral energy. Properties that
  need it assume only `cos(0) = 1`, `cos <= 1` or periodicity.
- **The cosine dihedral's `dVdphi` and `d2Vdphidkd`** (bonded.py:168-175)
  need `np.sin` and are not part of this model.
- **Term equality.** `_add_*` tests membership with `__eq__`, which compares
  hash values (bonded.py:18-25, 48-49, 66-74, 118-127). The model stores and
  deduplicates terms by structural equality of the term record instead: label,
  atoms in order, and parameters. The hashes are modelled separately, with
  Python's `hash` of strings, atoms, numbers and dictionaries as open
  functions and hash values as bit sets without a 64-bit bound. What the model
  does not follow:
  - hash collisions;
  - the order-insensitivity of the XOR hashes, including for the reversed
    angle (k, j, i), which is geometrically the angle (i, j, k): the hash
    merges the two and the structural key keeps them apart;
  - the cancelled dihedral label.
  `BondEqualityIsStructural`, `AngleEqualityIgnoresAtomOrder` and the
  dihedral lemmas state how the hash equality differs.
- **`util.interaction_exists_warning`** is not modelled. A duplicate add
  leaves the Hamiltonian unchanged.
- **Hamiltonian leftovers.** These are not modelled:
  - `__str__` and `__repr__`;
  - `_epsilons` and `_pair_function_type_labels`;
  - `_default_parameters` and `_default_potentials`;
  - the stubs `define_contact_group`, `calc_contact_group_energy`,
    `select_parameters` and `set_parameters` (hamiltonian.py:313-331).
  The iterators `bonds`, `angles`, `dihedrals`, `pairs` and `potentials` are
  sequences.
- **The pairwise module** is not part of this model. It appears as
  parameters:
  - the code-to-arity map `PairRegistry`;
  - the pair energy `pairV`;
  - the pair description `pairDescribe`.
  A custom pair's Python function is represented by a number that identifies
  it.
- **Python 2 `str.format`.** A term's `describe` formats atoms with
  `{:>12}`, and the model takes each atom's formatted text as given
  (`TermAtom.text`). How mdtraj turns an atom into text is not modelled.
- **Coarse-grained atom types** are not modelled. This covers:
  - `add_atoms`, `n_atomtypes` and `_add_atomtypes`, which build `atom_types`
    records with radii;
  - `_assign_sbm_contacts`, which calls the contacts module;
  - `_add_pairs` and `_atomidx_to_atom_contacts`;
  - `set_atom`.
  `atom_types.residue_code` is the parameter `codes` of the C-beta mapping.
- **Other files.** awsem.py, the `__main__` block of mappings.py, and the
  package `__init__` files are not part of this model.
- **Partial mutation before an exception.** The model returns `Err` and drops
  the partial state. This affects the builds (the new topology is
  half-built) and the adders.
- CalphaMapping.AddDisulfides: when pair k fails, the source has already
  appended the bonds, angles and dihedrals of pairs 0..k-1
  (mappings.py:144-165). The model returns an `Err` for the whole batch, so
  that partial state is not promised.
- CalphaMapping.AddDisulfides: the source needs `self._angles` and
  `self._dihedrals` to exist, which means `_assign_sbm_angles` and
  `_assign_sbm_dihedrals` must have run first. Otherwise it raises
  AttributeError. The model's `SbmState` always carries these lists, so the
  model does not promise that error.
- CalphaCbetaTerms.AddDisulfides: the same two points hold for the C-beta
  mapping (mappings.py:325-344). Pairs before the failing one stay appended
  in the source, and the angle and dihedral lists must already exist.
- CalphaCbetaMapping.MapTraj: the sidechain centre of mass relies on Python 2
  `map` returning a list (mappings.py:241). Two cases are not promised:
  - With zero frames, the model returns `Ok`. The source builds
    `np.array([])` of shape (0,), which does not broadcast into (0, 3), so it
    raises whenever some residue is not GLY.
  - With zero total sidechain mass, the model puts the bead at the origin.
    numpy gives NaN when there are sidechain atoms (0/0), and zeros when
    there are none.
- CalphaCbetaTerms.AssignSbmAngles: the corrected, chain-local definition
  differs from the source on one chain:
  on a single-residue non-GLY chain it emits no side angle, where the
  source's `chain.residue(1)` raises. `AnglesAgreeOnOneChain` therefore needs
  at least two residues.
- CalphaCbetaTerms.AssignSbmDihedrals: on an empty chain the corrected
  definition emits nothing, where the source's `chain.residue(-1)` raises.
  `DihedralsAgreeOnOneChain` therefore needs a non-empty chain.
- **mdtraj's `Trajectory` constructor** is not modelled beyond its atom
  count and frames. Unit cells and time are left out.

## Findings

| source | as written | input that shows it | evidently intended | confidence | as-written member | corrected member |
|---|---|---|---|---|---|---|
| models/structure/mappings.py:276-290 | the side angles of `CalphaCbetaMapping._assign_sbm_angles` use `res.index` (numbered over the whole topology) both as a position in `chain.residue()` (numbered within the chain) and to detect the chain's ends | two chains of three alanines: the second chain's first residue has `res.index` 3, which is neither 0 nor `n_residues - 1`, so the interior branch looks up `chain.residue(4)` in a chain of three and raises IndexError | neighbours and chain ends taken by position within the chain | high, not executed | CalphaCbetaTerms.AnglesAsWrittenFailOnSecondChain | CalphaCbetaTerms.AssignSbmAnglesSpec |
| models/structure/mappings.py:302-312 | `_assign_sbm_dihedrals` compares `res.index` (over the topology) with `chain.residue(-1).index` and looks up `chain.residue(idx - 1)` and `chain.residue(idx + 1)` by it | the same two chains of three alanines: `num_residues` is 5, and the second chain's first residue (`res.index` 3) is taken for an interior residue, so `chain.residue(4)` raises IndexError | impropers for the interior non-GLY residues of each chain, neighbours within the chain | high, not executed | CalphaCbetaTerms.DihedralsAsWrittenFailOnSecondChain | CalphaCbetaTerms.AssignSbmDihedralsSpec |
| models/structure/mappings.py:523 | `AwsemMapping.map_traj` indexes `self._HB_idxs[:,3]`, but with no glycine `_HB_idxs` is `np.array([])` of shape (0,) | a topology of one alanine: `[:,3]` raises IndexError | the HB interpolation places no bead when there is no glycine | high, not executed | AwsemMapping.AlanineTrajectoryFails | AwsemMapping.MapTrajSpec |
| models/potentials/hamiltonian.py:155 | `_add_bonds` passes `b[3:]` as one argument, so `HarmonicBondPotential` gets three arguments where it needs four; `_add_angles` (160) and `_add_dihedrals` (165) do the same | one row `("HARMONIC_BOND", a1, a2, 1.0, 0.38)`: TypeError | `*b[3:]`, as `_add_pairs` writes it at line 170 | high, not executed | Hamiltonian.BulkBondWitness | Hamiltonian.AddBondsSpec |
| models/potentials/bonded.py:66-74 | the angle hash XORs the atoms' hashes, which does not depend on their order, and `__eq__` compares hashes | `HarmonicAngle(i, j, k, ka, t0)` and `HarmonicAngle(j, i, k, ka, t0)` compare equal, so adding the second is taken as a duplicate | angles with a different central atom are different terms; the reversed angle (k, j, i) is geometrically the same angle, which the XOR hash merges with (i, j, k) but the model's structural key keeps apart | medium, not executed | Bonded.AngleEqualityIgnoresAtomOrder | Hamiltonian.AddAngle |
| models/potentials/bonded.py:149-154 | `HarmonicDihedralPotential.__hash__` XORs the label again after the base hash already did, which cancels it; the cosine hash does the same at 177-183 | a harmonic dihedral and a cosine dihedral with the same atoms, kd and phi0, and mult = 0 (hash 0), compare equal | the dihedral's form is part of its identity | medium, not executed | Bonded.DihedralEqualityIgnoresForm | Hamiltonian.AddDihedral |
