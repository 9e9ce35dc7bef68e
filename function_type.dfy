/** src/module/function_type.rs: a function's signature, as the `Number`
    descriptors of src/module/number.rs, and its `inspect` string. */
module FunctionTypes {
  import opened NumberTypes
  import opened Strings

  datatype FunctionType = FunctionType(parameters: seq<Number>, results: seq<Number>)

  /** `FunctionType::default()`. */
  function Default(): (t: FunctionType)
    ensures |t.parameters| == 0 && |t.results| == 0
  {
    FunctionType([], [])
  }

  /** The `inspect` strings of a list of descriptors, in order. */
  function Names(ns: seq<Number>): (r: seq<string>)
    ensures |r| == |ns|
    ensures forall i :: 0 <= i < |ns| ==> r[i] == NumberTypes.Inspect(ns[i])
  {
    seq(|ns|, i requires 0 <= i < |ns| => NumberTypes.Inspect(ns[i]))
  }

  /** `FunctionType::inspect`. */
  function Inspect(t: FunctionType): string
  {
    "(" + Join(Names(t.parameters), ", ") + ") => (" + Join(Names(t.results), ", ") + ")"
  }

  /** The empty signature. */
  lemma InspectDefault()
    ensures Inspect(Default()) == "() => ()"
  {
    assert Names([]) == [];
  }

  /** A parameter added last is printed last, after ", " unless it is the
      only one; the results are printed the same way. */
  lemma InspectLastParameter(ps: seq<Number>, p: Number, rs: seq<Number>)
    ensures |ps| == 0 ==>
              Inspect(FunctionType(ps + [p], rs)) ==
              "(" + NumberTypes.Inspect(p) + ") => (" + Join(Names(rs), ", ") + ")"
    ensures |ps| > 0 ==>
              Inspect(FunctionType(ps + [p], rs)) ==
              "(" + Join(Names(ps), ", ") + ", " + NumberTypes.Inspect(p) + ") => (" + Join(Names(rs), ", ") + ")"
  {
    assert Names(ps + [p]) == Names(ps) + [NumberTypes.Inspect(p)];
    JoinAppend(Names(ps), NumberTypes.Inspect(p), ", ");
  }
}
