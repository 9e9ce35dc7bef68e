/** src/instance.rs: an `Instance` of a parsed module, its function
    instances and the map from export names to exports.  The module's
    `funcs()` accessor is not part of this model: what it returns is given
    as `funcs`. */
module Instances {
  import opened Bytes
  import opened Outcomes
  import opened Nodes
  import opened ModuleNodes

  /** The function node src/instance.rs and src/runtime.rs use.  Its
      declaration is not part of this model; the fields are the ones
      src/runtime.rs reads. */
  datatype FunctionNode = FunctionNode(locals: seq<LocalEntryNode>, body: seq<InstructionNode>)

  datatype FunctionInstance = FunctionInstance(functionType: FunctionTypeNode, code: FunctionNode)

  /** `Export`: only function exports are ever built. */
  datatype Export =
      FunctionExport(name: seq<byte>, index: nat)
    | TableExport(name: seq<byte>, index: nat)
    | MemoryExport(name: seq<byte>, index: nat)
    | GlobalExport(name: seq<byte>, index: nat)

  datatype Instance = Instance(exportMap: map<seq<byte>, Export>, functions: seq<FunctionInstance>)

  /** The loop of `instantiate_functions` over the first `|indexes|` type
      indexes: each takes the function type and the function node at its
      type index, and an index past either list panics. */
  function Instances(types: seq<FunctionTypeNode>, indexes: seq<u32>, funcs: seq<FunctionNode>): Result<seq<FunctionInstance>>
    decreases |indexes|
  {
    if |indexes| == 0 then Ok([])
    else
      var before :- Instances(types, indexes[..|indexes| - 1], funcs);
      var ti := indexes[|indexes| - 1] as nat;
      if ti >= |types| || ti >= |funcs| then Panic("index out of bounds")
      else Ok(before + [FunctionInstance(types[ti], funcs[ti])])
  }

  /** `instantiate_functions`: the type section must be there; without
      function nodes nothing is instantiated, and with them the function
      section must be there too. */
  function InstantiatedFunctions(typeSection: Option<TypeSectionNode>, functionSection: Option<FunctionSectionNode>,
                                 funcs: Option<seq<FunctionNode>>): Result<seq<FunctionInstance>>
  {
    if typeSection.None? then Panic("Module does not have a type section")
    else if funcs.None? then Ok([])
    else if functionSection.None? then Panic("Module does not have a function section")
    else Instances(typeSection.value.functionTypes, functionSection.value.typeIndexes, funcs.value)
  }

  predicate IsFunctionExport(e: ExportNode)
  {
    e.exportDesc.exportType == Function
  }

  /** The loop of `instantiate_exports` over the first `|exports|` exports:
      a function export enters the map under its name, a second one with
      the same name panics, and the other kinds are skipped. */
  function ExportMap(exports: seq<ExportNode>): Result<map<seq<byte>, Export>>
    decreases |exports|
  {
    if |exports| == 0 then Ok(map[])
    else
      var before :- ExportMap(exports[..|exports| - 1]);
      var e := exports[|exports| - 1];
      if !IsFunctionExport(e) then Ok(before)
      else if e.name in before then Panic("")
      else Ok(before[e.name := FunctionExport(e.name, e.exportDesc.index as nat)])
  }

  /** `instantiate_exports`: without an export section it panics. */
  function InstantiatedExports(exportSection: Option<ExportSectionNode>): Result<map<seq<byte>, Export>>
  {
    if exportSection.None? then Panic("") else ExportMap(exportSection.value.exports)
  }

  /** `Instance::new`: the functions first, then the exports. */
  function NewInstance(typeSection: Option<TypeSectionNode>, functionSection: Option<FunctionSectionNode>,
                       exportSection: Option<ExportSectionNode>, funcs: Option<seq<FunctionNode>>): Result<Instance>
  {
    var functions :- InstantiatedFunctions(typeSection, functionSection, funcs);
    var exportMap :- InstantiatedExports(exportSection);
    Ok(Instance(exportMap, functions))
  }

  /** Once a prefix of the type indexes panics, the whole loop ends with
      that panic. */
  lemma {:induction false} InstancesPanicStays(types: seq<FunctionTypeNode>, indexes: seq<u32>, funcs: seq<FunctionNode>, i: nat)
    requires i <= |indexes| && Instances(types, indexes[..i], funcs).Panic?
    ensures Instances(types, indexes, funcs) == Instances(types, indexes[..i], funcs)
    decreases |indexes|
  {
    if i < |indexes| {
      var front := indexes[..|indexes| - 1];
      assert front[..i] == indexes[..i];
      InstancesPanicStays(types, front, funcs, i);
    } else {
      assert indexes[..i] == indexes;
    }
  }

  /** Once a prefix of the exports panics, the whole loop ends with that
      panic. */
  lemma {:induction false} ExportPanicStays(exports: seq<ExportNode>, i: nat)
    requires i <= |exports| && ExportMap(exports[..i]).Panic?
    ensures ExportMap(exports) == ExportMap(exports[..i])
    decreases |exports|
  {
    if i < |exports| {
      var front := exports[..|exports| - 1];
      assert front[..i] == exports[..i];
      ExportPanicStays(front, i);
    } else {
      assert exports[..i] == exports;
    }
  }

  /** The loop of `instantiate_functions`. */
  method InstancesOf(types: seq<FunctionTypeNode>, indexes: seq<u32>, funcs: seq<FunctionNode>) returns (r: Result<seq<FunctionInstance>>)
    ensures r == Instances(types, indexes, funcs)
  {
    var functions: seq<FunctionInstance> := [];
    for i := 0 to |indexes|
      invariant Instances(types, indexes[..i], funcs) == Ok(functions)
    {
      assert indexes[..i + 1][..i] == indexes[..i];
      var ti := indexes[i] as nat;
      if ti >= |types| || ti >= |funcs| {
        InstancesPanicStays(types, indexes, funcs, i + 1);
        return Panic("index out of bounds");
      }
      functions := functions + [FunctionInstance(types[ti], funcs[ti])];
    }
    assert indexes[..|indexes|] == indexes;
    return Ok(functions);
  }

  /** `instantiate_functions`. */
  method InstantiateFunctions(node: ModuleNode, funcs: Option<seq<FunctionNode>>) returns (r: Result<seq<FunctionInstance>>)
    ensures r == InstantiatedFunctions(node.typeSection, node.functionSection, funcs)
  {
    if node.typeSection.None? {
      return Panic("Module does not have a type section");
    }
    var functionTypes := node.typeSection.value.functionTypes;
    if funcs.None? {
      return Ok([]);
    }
    if node.functionSection.None? {
      return Panic("Module does not have a function section");
    }
    r := InstancesOf(functionTypes, node.functionSection.value.typeIndexes, funcs.value);
  }

  /** The loop of `instantiate_exports`. */
  method ExportsOf(exports: seq<ExportNode>) returns (r: Result<map<seq<byte>, Export>>)
    ensures r == ExportMap(exports)
  {
    var exportMap: map<seq<byte>, Export> := map[];
    for i := 0 to |exports|
      invariant ExportMap(exports[..i]) == Ok(exportMap)
    {
      assert exports[..i + 1][..i] == exports[..i];
      var e := exports[i];
      if IsFunctionExport(e) {
        if e.name in exportMap {
          ExportPanicStays(exports, i + 1);
          return Panic("");
        }
        exportMap := exportMap[e.name := FunctionExport(e.name, e.exportDesc.index as nat)];
      }
    }
    assert exports[..|exports|] == exports;
    return Ok(exportMap);
  }

  /** `instantiate_exports`. */
  method InstantiateExports(node: ModuleNode) returns (r: Result<map<seq<byte>, Export>>)
    ensures r == InstantiatedExports(node.exportSection)
  {
    if node.exportSection.None? {
      return Panic("");
    }
    r := ExportsOf(node.exportSection.value.exports);
  }

  /** `Instance::new`. */
  method New(node: ModuleNode, funcs: Option<seq<FunctionNode>>) returns (r: Result<Instance>)
    ensures r == NewInstance(node.typeSection, node.functionSection, node.exportSection, funcs)
  {
    var functions := InstantiateFunctions(node, funcs);
    if functions.Panic? {
      return Panic(functions.reason);
    }
    var exportMap := InstantiateExports(node);
    if exportMap.Panic? {
      return Panic(exportMap.reason);
    }
    return Ok(Instance(exportMap.value, functions.value));
  }

  /** The function loop succeeds exactly when every type index is inside
      both lists; it then gives one instance per type index, in order, the
      `k`-th built from the function type and the function node at type
      index `k`. */
  lemma {:induction false} InstancesFollowIndexes(types: seq<FunctionTypeNode>, indexes: seq<u32>, funcs: seq<FunctionNode>)
    ensures Instances(types, indexes, funcs).Ok? <==>
      forall k :: 0 <= k < |indexes| ==> indexes[k] as nat < |types| && indexes[k] as nat < |funcs|
    ensures Instances(types, indexes, funcs).Ok? ==>
      var fs := Instances(types, indexes, funcs).value;
      |fs| == |indexes| &&
      forall k :: 0 <= k < |indexes| ==> fs[k] == FunctionInstance(types[indexes[k]], funcs[indexes[k]])
    decreases |indexes|
  {
    if |indexes| > 0 {
      var front := indexes[..|indexes| - 1];
      InstancesFollowIndexes(types, front, funcs);
      assert forall k :: 0 <= k < |front| ==> front[k] == indexes[k];
    }
  }

  /** No two function exports share a name. */
  predicate DistinctNames(exports: seq<ExportNode>)
  {
    forall j, k :: 0 <= j < k < |exports| && IsFunctionExport(exports[j]) && IsFunctionExport(exports[k]) ==>
      exports[j].name != exports[k].name
  }

  /** `m` holds the names of the function exports and nothing else, each
      mapped to its own export. */
  predicate MapsNames(m: map<seq<byte>, Export>, exports: seq<ExportNode>)
  {
    (forall name :: name in m ==> exists k :: 0 <= k < |exports| && IsFunctionExport(exports[k]) && exports[k].name == name) &&
    forall k :: 0 <= k < |exports| && IsFunctionExport(exports[k]) ==>
      exports[k].name in m && m[exports[k].name] == FunctionExport(exports[k].name, exports[k].exportDesc.index as nat)
  }

  /** A map the export loop builds holds the function exports' names and
      nothing else, each mapped to its own export. */
  lemma {:induction false} ExportMapContents(exports: seq<ExportNode>)
    ensures ExportMap(exports).Ok? ==> MapsNames(ExportMap(exports).value, exports)
    decreases |exports|
  {
    if |exports| > 0 && ExportMap(exports).Ok? {
      var front := exports[..|exports| - 1];
      var e := exports[|exports| - 1];
      ExportMapContents(front);
      var m := ExportMap(front).value;
      var m' := ExportMap(exports).value;
      assert forall k :: 0 <= k < |front| ==> front[k] == exports[k];
      forall name | name in m'
        ensures exists k :: 0 <= k < |exports| && IsFunctionExport(exports[k]) && exports[k].name == name
      {
        if name in m {
          var k :| 0 <= k < |front| && IsFunctionExport(front[k]) && front[k].name == name;
          assert exports[k] == front[k];
        } else {
          assert exports[|exports| - 1] == e && e.name == name;
        }
      }
    }
  }

  /** The export map is built without panic exactly when no two function
      exports share a name. */
  lemma {:induction false} ExportMapDistinct(exports: seq<ExportNode>)
    ensures ExportMap(exports).Ok? <==> DistinctNames(exports)
    decreases |exports|
  {
    if |exports| > 0 {
      var front := exports[..|exports| - 1];
      var e := exports[|exports| - 1];
      ExportMapDistinct(front);
      assert forall k :: 0 <= k < |front| ==> front[k] == exports[k];
      if ExportMap(front).Ok? && IsFunctionExport(e) {
        var m := ExportMap(front).value;
        ExportMapContents(front);
        if e.name in m {
          var j :| 0 <= j < |front| && IsFunctionExport(front[j]) && front[j].name == e.name;
          assert exports[j].name == exports[|exports| - 1].name;
        }
      }
    }
  }
}
