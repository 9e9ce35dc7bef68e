/** The frame both evaluators run a function in: the function, the
    position of its next opcode and its local variables.

    src/structure/frame.rs declares only `local_vars`, `new(local_vars)`
    and `reference_local_var`.  The evaluators also use a `function`
    field, a counter (`get_counter`, `set_counter`, `increment_counter`)
    and a `Frame::new(func, args)` that are not part of this model; they
    are given their evident meaning here: a new frame starts at the first
    opcode, and its locals are the arguments followed by one zero per
    declared local (`create_local_variables` of src/module/function.rs). */
module Frames {
  import opened Outcomes
  import Numbers
  import Functions

  datatype Frame = Frame(func: Functions.Function, counter: nat, localVars: seq<Numbers.Number>)

  /** `Frame::new(func, args)`. */
  function New(func: Functions.Function, args: seq<Numbers.Number>): (f: Frame)
    ensures f.func == func && f.counter == 0
    ensures |f.localVars| == |args| + |func.localVars|
    ensures f.localVars[..|args|] == args
    ensures forall i :: |args| <= i < |f.localVars| ==>
      Functions.TypeOf(f.localVars[i]) == Some(func.localVars[i - |args|]) && Functions.IsZero(f.localVars[i])
  {
    var zeros := Functions.CreateLocalVariables(func);
    assert (args + zeros)[..|args|] == args;
    Frame(func, 0, args + zeros)
  }

  /** `reference_local_var`: an index past the locals panics. */
  function LocalVar(f: Frame, idx: nat): (r: Result<Numbers.Number>)
    ensures r.Ok? <==> idx < |f.localVars|
    ensures r.Ok? ==> r.value == f.localVars[idx]
  {
    if idx < |f.localVars| then Ok(f.localVars[idx]) else Panic("index out of bounds")
  }

  /** `frame.local_vars[idx] = v`: only that local changes, and an index
      past the locals panics. */
  function SetLocalVar(f: Frame, idx: nat, v: Numbers.Number): (r: Result<Frame>)
    ensures r.Ok? <==> idx < |f.localVars|
    ensures r.Ok? ==> r.value.func == f.func && r.value.counter == f.counter
    ensures r.Ok? ==> |r.value.localVars| == |f.localVars| && r.value.localVars[idx] == v
    ensures r.Ok? ==> forall j :: 0 <= j < |f.localVars| && j != idx ==> r.value.localVars[j] == f.localVars[j]
  {
    if idx < |f.localVars| then Ok(f.(localVars := f.localVars[idx := v])) else Panic("index out of bounds")
  }
}
