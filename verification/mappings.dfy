/** `assign_mapping`: the registry from a mapping code to the class that
    builds that coarse-grained representation of a topology. */
module Mappings {
  import opened Common
  import opened Structure
  import CalphaMapping
  import CalphaCbetaMapping
  import HeavyAtomMapping
  import AwsemMapping

  /** One instance of any of the registered mapping classes. */
  datatype Mapping =
    | Calpha(ca: CalphaMapping.CaMapping)
    | CalphaCbeta(cb: CalphaCbetaMapping.CbMapping)
    | HeavyAtom(heavy: HeavyAtomMapping.HeavyMapping)
    | Awsem(awsem: AwsemMapping.AwMapping)

  /** The keys of `MAPPINGS`. */
  predicate Registered(code: string)
  {
    code == "CA" || code == "CACB" || code == "All-Atom" || code == "AWSEM"
  }

  /** `MAPPINGS[code](topology)`: a KeyError for an unknown code, otherwise
      whatever the chosen constructor raises or builds. The C-beta mapping
      reads its residue codes from `codes`. */
  function AssignMapping(code: string, top: Topology<Atom>, codes: CalphaCbetaMapping.Codes): (r: Result<Mapping>)
    ensures !Registered(code) ==> r == Err(UnknownMapping(code))
  {
    if code == "CA" then
      var m :- CalphaMapping.Build(top);
      Ok(Calpha(m))
    else if code == "CACB" then
      var m :- CalphaCbetaMapping.Build(top, codes);
      Ok(CalphaCbeta(m))
    else if code == "All-Atom" then
      Ok(HeavyAtom(HeavyAtomMapping.Build(top)))
    else if code == "AWSEM" then
      var m :- AwsemMapping.Build(top);
      Ok(Awsem(m))
    else
      Err(UnknownMapping(code))
  }

  /** Each registered code builds its own kind of mapping, and succeeds
      exactly when that mapping's constructor does: every residue needs a CA
      for "CA", a CA and (unless glycine) a residue code for "CACB", nothing
      for "All-Atom", and CA, O and N or CB for "AWSEM". */
  lemma {:induction false} AssignMappingSpec(code: string, top: Topology<Atom>, codes: CalphaCbetaMapping.Codes)
    requires Registered(code)
    ensures code == "CA" ==>
      && (AssignMapping(code, top, codes).Ok? <==>
            forall r :: 0 <= r < |ResiduesOf(top.chains)| ==> HasCa(ResiduesOf(top.chains)[r]))
      && (AssignMapping(code, top, codes).Ok? ==>
            AssignMapping(code, top, codes).value.Calpha?
            && CalphaMapping.CaBuilt(top.chains, AssignMapping(code, top, codes).value.ca))
    ensures code == "CACB" ==>
      && (AssignMapping(code, top, codes).Ok? <==>
            forall r :: 0 <= r < |ResiduesOf(top.chains)| ==>
              CalphaCbetaMapping.Mappable(ResiduesOf(top.chains)[r], codes))
      && (AssignMapping(code, top, codes).Ok? ==>
            AssignMapping(code, top, codes).value.CalphaCbeta?
            && CalphaCbetaMapping.CbBuilt(top.chains, codes, AssignMapping(code, top, codes).value.cb))
    ensures code == "All-Atom" ==>
      && AssignMapping(code, top, codes).Ok?
      && AssignMapping(code, top, codes).value.HeavyAtom?
      && AssignMapping(code, top, codes).value.heavy.top.chains == HeavyAtomMapping.EmitChains(top.chains).chains
      && HeavyAtomMapping.HeavyBuilt(top.chains, HeavyAtomMapping.EmitChains(top.chains))
    ensures code == "AWSEM" ==>
      && (AssignMapping(code, top, codes).Ok? <==>
            forall r :: 0 <= r < |ResiduesOf(top.chains)| ==> AwsemMapping.Complete(ResiduesOf(top.chains)[r]))
      && (AssignMapping(code, top, codes).Ok? ==>
            AssignMapping(code, top, codes).value.Awsem?
            && AwsemMapping.AwBuilt(top.chains, AssignMapping(code, top, codes).value.awsem))
  {
    if code == "CA" {
      CalphaMapping.BuildSpec(top);
    } else if code == "CACB" {
      CalphaCbetaMapping.BuildSpec(top, codes);
    } else if code == "All-Atom" {
      HeavyAtomMapping.BuildSpec(top);
    } else {
      AwsemMapping.BuildSpec(top);
    }
  }
}
