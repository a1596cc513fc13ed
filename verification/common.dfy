/** Shared vocabulary: optional values, results carrying the errors the
    original raises (IndexError, KeyError, TypeError), Python list indexing
    and exact real sums. */
module Common {

  datatype Option<+T> = None | Some(value: T)

  /** The exceptions of the original, one constructor per cause. */
  datatype Error =
    | MissingAtom(atomName: string)       // `[a for a in res.atoms if a.name == X][0]` on no match
    | UnknownResidueCode(resName: string) // KeyError in the residue-code table
    | IndexOutOfRange                     // IndexError from a list or array lookup
    | EmptyIndexTable                     // IndexError from `np.array([])[:, k]`
    | ShapeMismatch                       // ValueError from numpy broadcasting
    | UnknownPotential(code: string)      // KeyError in a potential registry
    | WrongArity(expected: nat, given: nat) // TypeError from a term constructor
    | UnknownMapping(code: string)        // KeyError in the mapping registry

  datatype Result<+T> = Ok(value: T) | Err(error: Error) {
    predicate IsFailure() { Err? }

    function PropagateFailure<U>(): Result<U>
      requires Err?
    {
      Err(error)
    }

    function Extract(): T
      requires Ok?
    {
      value
    }
  }

  function OptionToResult<T>(o: Option<T>, e: Error): (r: Result<T>)
    ensures r.Ok? <==> o.Some?
    ensures r.Ok? ==> r.value == o.value
    ensures r.Err? ==> r.error == e
  {
    match o
    case Some(v) => Ok(v)
    case None => Err(e)
  }

  /** Python's `s[i]` on a list: negative indices count from the end, and
      anything outside `-|s| .. |s|-1` raises IndexError (here: None). */
  function PyIndex<T>(s: seq<T>, i: int): (r: Option<T>)
    ensures r.Some? <==> -|s| <= i < |s|
    ensures r.Some? && 0 <= i ==> r.value == s[i]
    ensures r.Some? && i < 0 ==> r.value == s[|s| + i]
  {
    if 0 <= i < |s| then Some(s[i])
    else if -|s| <= i < 0 then Some(s[|s| + i])
    else None
  }

  /** Sum accumulated left to right, as `E += v` in a loop over terms. */
  function Sum(s: seq<real>): real
  {
    if |s| == 0 then 0.0 else Sum(s[..|s| - 1]) + s[|s| - 1]
  }

  /** Sum of a concatenation is the sum of the parts. */
  lemma {:induction false} SumAppend(a: seq<real>, b: seq<real>)
    ensures Sum(a + b) == Sum(a) + Sum(b)
    decreases |b|
  {
    if |b| == 0 {
      assert a + b == a;
    } else {
      assert (a + b)[..|a + b| - 1] == a + b[..|b| - 1];
      SumAppend(a, b[..|b| - 1]);
    }
  }

  /** The sum of a sequence of zeros is zero. */
  lemma {:induction false} SumZeros(s: seq<real>)
    requires forall k :: 0 <= k < |s| ==> s[k] == 0.0
    ensures Sum(s) == 0.0
    decreases |s|
  {
    if |s| > 0 {
      SumZeros(s[..|s| - 1]);
    }
  }

  /** The rows of `ss` one after another. */
  function Flatten<T>(ss: seq<seq<T>>): seq<T>
  {
    if |ss| == 0 then [] else Flatten(ss[..|ss| - 1]) + ss[|ss| - 1]
  }
}
