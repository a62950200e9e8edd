/** The checked editing operations on a handle graph: each one decodes and
  * validates its arguments, calls one mutator of the graph, and turns the
  * mutator's boolean answer into `Ok` or a typed error. The handle graph
  * itself belongs to another library; `HashGraph` below stands in for it. */
module GraphOperation {
  import opened Text
  import opened GraphError

  datatype Orientation = Forward | Backward

  /** A node id with the strand it is read on. */
  datatype Handle = Handle(id: nat, orient: Orientation)

  datatype Edge = Edge(left: Handle, right: Handle)

  datatype PathRecord = PathRecord(circular: bool, steps: seq<Handle>)

  datatype Outcome<T> = Ok(value: T) | Err(error: GraphOperationError)

  const DEFAULT_SEQUENCE := "DEFAULT_SEQUENCE"
  const DEFAULT_PATH_ID := "default_path_id"

  /** `Display for Orientation`. */
  function OrientText(o: Orientation): string
  {
    match o
    case Forward => "+"
    case Backward => "-"
  }

  /** The `match` on `"+"` and `"-"` every operation performs on an
    * orientation argument. */
  function ParseOrientation(s: string): (r: Option<Orientation>)
    ensures r.Some? <==> s == "+" || s == "-"
  {
    if s == "+" then Some(Forward)
    else if s == "-" then Some(Backward)
    else None
  }

  /** Displaying an orientation and matching it again gives it back, and
    * every accepted string is the display of what it is read as. */
  lemma OrientationRoundTrip(o: Orientation, s: string)
    ensures ParseOrientation(OrientText(o)) == Some(o)
    ensures ParseOrientation(s).Some? ==> OrientText(ParseOrientation(s).value) == s
  {
  }

  /** The replacement orientations of `modify_link`: anything but `"+"` or
    * `"-"` becomes `Orientation::default()`. */
  function ReplacementOrientation(s: string): (o: Orientation)
    ensures ParseOrientation(s).Some? ==> o == ParseOrientation(s).value
    ensures ParseOrientation(s).None? ==> o == Forward
  {
    var p := ParseOrientation(s);
    if p.Some? then p.value else Forward
  }

  /** `"<id><orient>"` as the error messages spell a handle. */
  function HandleText(h: Handle): string
  {
    NatToString(h.id) + OrientText(h.orient)
  }

  // ---------------------------------------------------------------------
  // Step tokens `<id><orient>` of add_path and modify_path
  // ---------------------------------------------------------------------

  /** The tokens on which reading a step does not panic: a non-empty token
    * (`len() - 1` underflows otherwise) whose id part, when the orientation
    * byte is valid, is a 64-bit unsigned decimal (`parse::<u64>().unwrap()`). */
  predicate StepReadable(token: string)
  {
    |token| > 0 &&
    (ParseOrientation(token[|token| - 1..]).Some? ==> ParseU64(token[..|token| - 1]).Some?)
  }

  /** One step token: every byte but the last is the node id, the last byte
    * the orientation. */
  function ParseStep(token: string): (r: Outcome<Handle>)
    requires StepReadable(token)
    ensures r.Ok? <==> token[|token| - 1] == '+' || token[|token| - 1] == '-'
    ensures r.Err? ==> r.error == OrientationNotExists(token)
    ensures r.Ok? ==> Some(r.value.id) == ParseU64(token[..|token| - 1]) &&
                      OrientText(r.value.orient) == [token[|token| - 1]]
  {
    var last := |token| - 1;
    assert token[last..] == [token[last]];
    var o := ParseOrientation(token[last..]);
    if o.None? then Err(OrientationNotExists(token))
    else Ok(Handle(ParseU64(token[..last]).value, o.value))
  }

  /** A handle written as a step token reads back as that handle. */
  lemma ParseStepOfHandle(h: Handle)
    requires h.id < U64_LIMIT
    ensures StepReadable(HandleText(h)) && ParseStep(HandleText(h)) == Ok(h)
  {
    var t := HandleText(h);
    assert t[..|t| - 1] == NatToString(h.id);
    assert t[|t| - 1..] == OrientText(h.orient);
    NatToStringParses(h.id);
  }

  /** Tokens that can be read one after the other until the first bad
    * orientation without a panic. */
  predicate StepsReadable(tokens: seq<string>)
    decreases |tokens|
  {
    tokens == [] ||
    (StepReadable(tokens[0]) && (ParseStep(tokens[0]).Ok? ==> StepsReadable(tokens[1..])))
  }

  /** What the step loop produces: the handles read before the first bad
    * token, and the error of that token if there is one. */
  datatype StepRun = StepRun(handles: seq<Handle>, error: Option<GraphOperationError>)

  /** The loop of `add_path` and `modify_path` over the step tokens, in
    * token order, stopping at the first token whose orientation is bad. */
  function ReadSteps(tokens: seq<string>): (run: StepRun)
    requires StepsReadable(tokens)
    ensures run.error.None? <==> |run.handles| == |tokens|
    ensures run.error.Some? ==> |run.handles| < |tokens|
    decreases |tokens|
  {
    if tokens == [] then StepRun([], None)
    else
      match ParseStep(tokens[0])
      case Err(e) => StepRun([], Some(e))
      case Ok(h) =>
        var rest := ReadSteps(tokens[1..]);
        StepRun([h] + rest.handles, rest.error)
  }

  /** The handles read are the tokens read one by one. */
  lemma {:induction false} ReadStepsHandles(tokens: seq<string>)
    requires StepsReadable(tokens)
    ensures var run := ReadSteps(tokens);
      forall k :: 0 <= k < |run.handles| ==> StepReadable(tokens[k]) && ParseStep(tokens[k]) == Ok(run.handles[k])
    decreases |tokens|
  {
    if tokens != [] && ParseStep(tokens[0]).Ok? {
      ReadStepsHandles(tokens[1..]);
      var run, rest := ReadSteps(tokens), ReadSteps(tokens[1..]);
      assert run.handles == [ParseStep(tokens[0]).value] + rest.handles;
      forall k | 0 < k < |run.handles|
        ensures StepReadable(tokens[k]) && ParseStep(tokens[k]) == Ok(run.handles[k])
      {
        assert tokens[k] == tokens[1..][k - 1] && run.handles[k] == rest.handles[k - 1];
      }
    }
  }

  /** The loop stops exactly at the first token with a bad orientation, and
    * reports that token's error. */
  lemma {:induction false} ReadStepsError(tokens: seq<string>)
    requires StepsReadable(tokens)
    ensures var run := ReadSteps(tokens);
      run.error.Some? ==> (|run.handles| < |tokens| &&
        StepReadable(tokens[|run.handles|]) && ParseStep(tokens[|run.handles|]).Err? &&
        run.error.value == OrientationNotExists(tokens[|run.handles|]))
    decreases |tokens|
  {
    if tokens != [] && ParseStep(tokens[0]).Ok? {
      ReadStepsError(tokens[1..]);
      var run, rest := ReadSteps(tokens), ReadSteps(tokens[1..]);
      assert |run.handles| == 1 + |rest.handles| && run.error == rest.error;
      if run.error.Some? {
        assert tokens[|run.handles|] == tokens[1..][|rest.handles|];
      }
    }
  }

  /** The loop at token `i`, with the handles before it read: the token is
    * readable, and either it fails and ends the run with its error, or it is
    * the next handle of the run. */
  lemma ReadStepsAt(tokens: seq<string>, i: nat)
    requires StepsReadable(tokens) && i < |tokens| && i <= |ReadSteps(tokens).handles|
    ensures StepReadable(tokens[i])
    ensures ParseStep(tokens[i]).Err? ==>
      i == |ReadSteps(tokens).handles| && ReadSteps(tokens).error == Some(ParseStep(tokens[i]).error)
    ensures ParseStep(tokens[i]).Ok? ==>
      i < |ReadSteps(tokens).handles| && ReadSteps(tokens).handles[i] == ParseStep(tokens[i]).value
  {
    ReadStepsHandles(tokens);
    ReadStepsError(tokens);
  }

  function HandleTexts(hs: seq<Handle>): (ts: seq<string>)
    ensures |ts| == |hs|
    ensures forall k :: 0 <= k < |hs| ==> ts[k] == HandleText(hs[k])
  {
    if hs == [] then [] else [HandleText(hs[0])] + HandleTexts(hs[1..])
  }

  /** A readable first token followed by tokens read to the end. */
  lemma ReadStepsCons(ts: seq<string>, h: Handle, rest: seq<Handle>)
    requires ts != [] && StepReadable(ts[0]) && ParseStep(ts[0]) == Ok(h)
    requires StepsReadable(ts[1..]) && ReadSteps(ts[1..]) == StepRun(rest, None)
    ensures StepsReadable(ts) && ReadSteps(ts) == StepRun([h] + rest, None)
  {
  }

  /** Handles written as step tokens are read back, all of them, in order. */
  lemma {:induction false} ReadStepsOfHandles(hs: seq<Handle>)
    requires forall k :: 0 <= k < |hs| ==> hs[k].id < U64_LIMIT
    ensures StepsReadable(HandleTexts(hs)) && ReadSteps(HandleTexts(hs)) == StepRun(hs, None)
    decreases |hs|
  {
    if hs != [] {
      var ts := HandleTexts(hs);
      assert ts[0] == HandleText(hs[0]) && ts[1..] == HandleTexts(hs[1..]);
      ParseStepOfHandle(hs[0]);
      ReadStepsOfHandles(hs[1..]);
      ReadStepsCons(ts, hs[0], hs[1..]);
      assert [hs[0]] + hs[1..] == hs;
    }
  }

  // ---------------------------------------------------------------------
  // The handle graph the operations edit
  // ---------------------------------------------------------------------

  /** A stand-in for the library's `HashGraph`: the node table (id to
    * sequence), the edge set and the path table (name to circularity and
    * steps). Each mutator answers whether it did its job; what makes it
    * answer `true` is a rule of this stand-in, not of the library. */
  class HashGraph {
    var nodes: map<nat, string>
    var edges: set<Edge>
    var paths: map<string, PathRecord>

    constructor ()
      ensures nodes == map[] && edges == {} && paths == map[]
    {
      nodes := map[];
      edges := {};
      paths := map[];
    }

    /** `create_handle`. */
    method CreateHandle(sequence: string, id: nat)
      modifies this
      ensures nodes == old(nodes)[id := sequence] && edges == old(edges) && paths == old(paths)
    {
      nodes := nodes[id := sequence];
    }

    /** `create_edge`: the stand-in accepts a new edge between existing nodes. */
    method CreateEdge(e: Edge) returns (ok: bool)
      modifies this
      ensures ok == (e.left.id in old(nodes) && e.right.id in old(nodes) && e !in old(edges))
      ensures edges == if ok then old(edges) + {e} else old(edges)
      ensures nodes == old(nodes) && paths == old(paths)
    {
      ok := e.left.id in nodes && e.right.id in nodes && e !in edges;
      if ok {
        edges := edges + {e};
      }
    }

    /** `remove_handle`. */
    method RemoveHandle(id: nat) returns (ok: bool)
      modifies this
      ensures ok == (id in old(nodes))
      ensures nodes == old(nodes) - {id} && edges == old(edges) && paths == old(paths)
    {
      ok := id in nodes;
      nodes := nodes - {id};
    }

    /** `remove_edge`. */
    method RemoveEdge(e: Edge) returns (ok: bool)
      modifies this
      ensures ok == (e in old(edges))
      ensures edges == old(edges) - {e} && nodes == old(nodes) && paths == old(paths)
    {
      ok := e in edges;
      edges := edges - {e};
    }

    /** `modify_handle`: a new sequence for an existing node. */
    method ModifyHandle(id: nat, sequence: string) returns (ok: bool)
      modifies this
      ensures ok == (id in old(nodes))
      ensures nodes == if ok then old(nodes)[id := sequence] else old(nodes)
      ensures edges == old(edges) && paths == old(paths)
    {
      ok := id in nodes;
      if ok {
        nodes := nodes[id := sequence];
      }
    }

    /** `modify_edge`: replaces an existing edge, each end by its replacement if given. */
    method ModifyEdge(e: Edge, newLeft: Option<Handle>, newRight: Option<Handle>) returns (ok: bool)
      modifies this
      ensures ok == (e in old(edges))
      ensures edges == if ok then old(edges) - {e} + {Replaced(e, newLeft, newRight)} else old(edges)
      ensures nodes == old(nodes) && paths == old(paths)
    {
      ok := e in edges;
      if ok {
        edges := edges - {e} + {Replaced(e, newLeft, newRight)};
      }
    }

    /** `create_path_handle`. */
    method CreatePath(name: string, circular: bool)
      modifies this
      ensures paths == old(paths)[name := PathRecord(circular, [])]
      ensures nodes == old(nodes) && edges == old(edges)
    {
      paths := paths[name := PathRecord(circular, [])];
    }

    /** `append_step`. */
    method AppendStep(name: string, h: Handle)
      requires name in paths
      modifies this
      ensures paths == old(paths)[name := old(paths)[name].(steps := old(paths)[name].steps + [h])]
      ensures nodes == old(nodes) && edges == old(edges)
    {
      paths := paths[name := paths[name].(steps := paths[name].steps + [h])];
    }

    /** `remove_path`. */
    method RemovePath(name: string) returns (ok: bool)
      modifies this
      ensures ok == (name in old(paths))
      ensures paths == old(paths) - {name} && nodes == old(nodes) && edges == old(edges)
    {
      ok := name in paths;
      paths := paths - {name};
    }

    /** `modify_path`: new steps for an existing path, which stays as circular as it was. */
    method ModifyPath(name: string, steps: seq<Handle>) returns (ok: bool)
      modifies this
      ensures ok == (name in old(paths))
      ensures paths == if ok then old(paths)[name := old(paths)[name].(steps := steps)] else old(paths)
      ensures nodes == old(nodes) && edges == old(edges)
    {
      ok := name in paths;
      if ok {
        paths := paths[name := paths[name].(steps := steps)];
      }
    }
  }

  /** The edge `modify_edge` puts in place of `e`. */
  function Replaced(e: Edge, newLeft: Option<Handle>, newRight: Option<Handle>): (r: Edge)
    ensures r.left == (if newLeft.Some? then newLeft.value else e.left)
    ensures r.right == (if newRight.Some? then newRight.value else e.right)
  {
    Edge(if newLeft.Some? then newLeft.value else e.left,
         if newRight.Some? then newRight.value else e.right)
  }

  // ---------------------------------------------------------------------
  // The operations
  // ---------------------------------------------------------------------

  /** `add_node`: refuses an id some node already has, before touching the
    * graph; otherwise creates the node, with `DEFAULT_SEQUENCE` when no
    * sequence is given. */
  method AddNode(g: HashGraph, id: nat, sequence: Option<string>) returns (r: Outcome<()>)
    modifies g
    ensures id in old(g.nodes) ==> r == Err(IdAlreadyExist(NatToString(id))) && g.nodes == old(g.nodes)
    ensures id !in old(g.nodes) ==> (r == Ok(()) &&
      g.nodes == old(g.nodes)[id := if sequence.Some? then sequence.value else DEFAULT_SEQUENCE])
    ensures g.edges == old(g.edges) && g.paths == old(g.paths)
  {
    var bytes := if sequence.Some? then sequence.value else DEFAULT_SEQUENCE;
    var unseen := g.nodes.Keys;
    while unseen != {}
      invariant unseen <= g.nodes.Keys
      invariant id !in g.nodes.Keys - unseen
      decreases |unseen|
    {
      var other :| other in unseen;
      if other == id {
        return Err(IdAlreadyExist(NatToString(id)));
      }
      unseen := unseen - {other};
    }
    g.CreateHandle(bytes, id);
    r := Ok(());
  }

  /** The error `add_link_between_nodes`, `remove_link` and `modify_link`
    * report for a bad orientation string, checking the source end first. */
  function OrientationError(fromNode: nat, fromOrient: string, toNode: nat, toOrient: string): (r: Option<GraphOperationError>)
    ensures r.None? <==> ParseOrientation(fromOrient).Some? && ParseOrientation(toOrient).Some?
    ensures ParseOrientation(fromOrient).None? ==> r == Some(OrientationNotExists(NatToString(fromNode)))
    ensures ParseOrientation(fromOrient).Some? && ParseOrientation(toOrient).None? ==>
      r == Some(OrientationNotExists(NatToString(toNode)))
  {
    if ParseOrientation(fromOrient).None? then Some(OrientationNotExists(NatToString(fromNode)))
    else if ParseOrientation(toOrient).None? then Some(OrientationNotExists(NatToString(toNode)))
    else None
  }

  /** The edge named by two nodes and two valid orientation strings. */
  function EdgeOf(fromNode: nat, fromOrient: string, toNode: nat, toOrient: string): Edge
    requires OrientationError(fromNode, fromOrient, toNode, toOrient).None?
  {
    Edge(Handle(fromNode, ParseOrientation(fromOrient).value), Handle(toNode, ParseOrientation(toOrient).value))
  }

  /** `EdgeNotExist` spelled from the edge's two handles. */
  function EdgeError(e: Edge): GraphOperationError
  {
    EdgeNotExist(HandleText(e.left), HandleText(e.right))
  }

  /** `add_link_between_nodes`. */
  method AddLink(g: HashGraph, fromNode: nat, fromOrient: string, toNode: nat, toOrient: string)
    returns (r: Outcome<()>)
    modifies g
    ensures OrientationError(fromNode, fromOrient, toNode, toOrient).Some? ==>
      r == Err(OrientationError(fromNode, fromOrient, toNode, toOrient).value) && g.edges == old(g.edges)
    ensures OrientationError(fromNode, fromOrient, toNode, toOrient).None? ==>
      var e := EdgeOf(fromNode, fromOrient, toNode, toOrient);
      var created := e.left.id in old(g.nodes) && e.right.id in old(g.nodes) && e !in old(g.edges);
      r == (if created then Ok(()) else Err(EdgeError(e))) &&
      g.edges == (if created then old(g.edges) + {e} else old(g.edges))
    ensures g.nodes == old(g.nodes) && g.paths == old(g.paths)
  {
    var error := OrientationError(fromNode, fromOrient, toNode, toOrient);
    if error.Some? {
      return Err(error.value);
    }
    var e := EdgeOf(fromNode, fromOrient, toNode, toOrient);
    var ok := g.CreateEdge(e);
    r := if ok then Ok(()) else Err(EdgeError(e));
  }

  /** `remove_link`. */
  method RemoveLink(g: HashGraph, fromNode: nat, fromOrient: string, toNode: nat, toOrient: string)
    returns (r: Outcome<()>)
    modifies g
    ensures OrientationError(fromNode, fromOrient, toNode, toOrient).Some? ==>
      r == Err(OrientationError(fromNode, fromOrient, toNode, toOrient).value) && g.edges == old(g.edges)
    ensures OrientationError(fromNode, fromOrient, toNode, toOrient).None? ==>
      var e := EdgeOf(fromNode, fromOrient, toNode, toOrient);
      r == (if e in old(g.edges) then Ok(()) else Err(EdgeError(e))) &&
      g.edges == old(g.edges) - {e}
    ensures g.nodes == old(g.nodes) && g.paths == old(g.paths)
  {
    var error := OrientationError(fromNode, fromOrient, toNode, toOrient);
    if error.Some? {
      return Err(error.value);
    }
    var e := EdgeOf(fromNode, fromOrient, toNode, toOrient);
    var ok := g.RemoveEdge(e);
    r := if ok then Ok(()) else Err(EdgeError(e));
  }

  /** `modify_link`. The replacement orientations are unwrapped, so both must
    * be given once the original orientations are valid; a replacement
    * orientation other than `"+"` or `"-"` silently becomes the default. */
  method ModifyLink(g: HashGraph, fromNode: nat, fromOrient: string, toNode: nat, toOrient: string,
                    newFromNode: Option<nat>, newFromOrient: Option<string>,
                    newToNode: Option<nat>, newToOrient: Option<string>)
    returns (r: Outcome<()>)
    requires OrientationError(fromNode, fromOrient, toNode, toOrient).None? ==>
      newFromOrient.Some? && newToOrient.Some?
    modifies g
    ensures OrientationError(fromNode, fromOrient, toNode, toOrient).Some? ==>
      r == Err(OrientationError(fromNode, fromOrient, toNode, toOrient).value) && g.edges == old(g.edges)
    ensures OrientationError(fromNode, fromOrient, toNode, toOrient).None? ==>
      var e := EdgeOf(fromNode, fromOrient, toNode, toOrient);
      var newLeft := if newFromNode.Some? then Some(Handle(newFromNode.value, ReplacementOrientation(newFromOrient.value))) else None;
      var newRight := if newToNode.Some? then Some(Handle(newToNode.value, ReplacementOrientation(newToOrient.value))) else None;
      r == (if e in old(g.edges) then Ok(()) else Err(EdgeError(e))) &&
      g.edges == (if e in old(g.edges) then old(g.edges) - {e} + {Replaced(e, newLeft, newRight)} else old(g.edges))
    ensures g.nodes == old(g.nodes) && g.paths == old(g.paths)
  {
    var error := OrientationError(fromNode, fromOrient, toNode, toOrient);
    if error.Some? {
      return Err(error.value);
    }
    var leftReplacement := ReplacementOrientation(newFromOrient.value);
    var rightReplacement := ReplacementOrientation(newToOrient.value);
    var newLeft := if newFromNode.Some? then Some(Handle(newFromNode.value, leftReplacement)) else None;
    var newRight := if newToNode.Some? then Some(Handle(newToNode.value, rightReplacement)) else None;
    var e := EdgeOf(fromNode, fromOrient, toNode, toOrient);
    var ok := g.ModifyEdge(e, newLeft, newRight);
    r := if ok then Ok(()) else Err(EdgeError(e));
  }

  /** `remove_node`. */
  method RemoveNode(g: HashGraph, id: nat) returns (r: Outcome<()>)
    modifies g
    ensures r == if id in old(g.nodes) then Ok(()) else Err(NodesNotExist(NatToString(id), ""))
    ensures g.nodes == old(g.nodes) - {id} && g.edges == old(g.edges) && g.paths == old(g.paths)
  {
    var ok := g.RemoveHandle(id);
    r := if ok then Ok(()) else Err(NodesNotExist(NatToString(id), ""));
  }

  /** `modify_node`. */
  method ModifyNode(g: HashGraph, id: nat, sequence: string) returns (r: Outcome<()>)
    modifies g
    ensures r == if id in old(g.nodes) then Ok(()) else Err(NodesNotExist(NatToString(id), ""))
    ensures g.nodes == if id in old(g.nodes) then old(g.nodes)[id := sequence] else old(g.nodes)
    ensures g.edges == old(g.edges) && g.paths == old(g.paths)
  {
    var ok := g.ModifyHandle(id, sequence);
    r := if ok then Ok(()) else Err(NodesNotExist(NatToString(id), ""));
  }

  /** The name `add_path` and `remove_path` use when none is given. */
  function PathName(name: Option<string>): (n: string)
    ensures name.None? ==> n == DEFAULT_PATH_ID
    ensures name.Some? ==> n == name.value
  {
    if name.Some? then name.value else DEFAULT_PATH_ID
  }

  /** `remove_path`. */
  method RemovePath(g: HashGraph, name: Option<string>) returns (r: Outcome<()>)
    modifies g
    ensures r == if PathName(name) in old(g.paths) then Ok(()) else Err(PathNotExist(PathName(name)))
    ensures g.paths == old(g.paths) - {PathName(name)} && g.nodes == old(g.nodes) && g.edges == old(g.edges)
  {
    var target := PathName(name);
    var ok := g.RemovePath(target);
    r := if ok then Ok(()) else Err(PathNotExist(target));
  }

  /** One `append_step` of `add_path`, on the path being built. */
  method AppendTo(g: HashGraph, ghost base: map<string, PathRecord>, target: string, circular: bool,
                  done: seq<Handle>, h: Handle)
    requires g.paths == base[target := PathRecord(circular, done)]
    modifies g
    ensures g.paths == base[target := PathRecord(circular, done + [h])]
    ensures g.nodes == old(g.nodes) && g.edges == old(g.edges)
  {
    g.AppendStep(target, h);
  }

  /** The step loop of `add_path`, on a path just created empty. */
  method AppendSteps(g: HashGraph, ghost base: map<string, PathRecord>, target: string, circular: bool,
                     tokens: seq<string>) returns (r: Outcome<()>)
    requires StepsReadable(tokens)
    requires g.paths == base[target := PathRecord(circular, [])]
    modifies g
    ensures g.paths == base[target := PathRecord(circular, ReadSteps(tokens).handles)]
    ensures r == if ReadSteps(tokens).error.Some? then Err(ReadSteps(tokens).error.value) else Ok(())
    ensures g.nodes == old(g.nodes) && g.edges == old(g.edges)
  {
    ghost var run := ReadSteps(tokens);
    var done: seq<Handle> := [];
    var i := 0;
    while i < |tokens|
      invariant i <= |run.handles| && done == run.handles[..i]
      invariant g.paths == base[target := PathRecord(circular, done)]
      invariant g.nodes == old(g.nodes) && g.edges == old(g.edges)
    {
      ReadStepsAt(tokens, i);
      var step := ParseStep(tokens[i]);
      if step.Err? {
        assert done == run.handles;
        return Err(step.error);
      }
      AppendTo(g, base, target, circular, done, step.value);
      TakeSnoc(run.handles, i);
      done := done + [step.value];
      i := i + 1;
    }
    assert done == run.handles;
    r := Ok(());
  }

  /** `add_path`: creates the path, circular exactly when the first and last
    * tokens are equal, then appends one step per token in order. A token
    * with a bad orientation ends the operation with an error, the steps
    * before it already appended. */
  method AddPath(g: HashGraph, name: Option<string>, tokens: seq<string>) returns (r: Outcome<()>)
    requires |tokens| > 0 && StepsReadable(tokens)
    modifies g
    ensures var run := ReadSteps(tokens);
      g.paths == old(g.paths)[PathName(name) := PathRecord(tokens[0] == tokens[|tokens| - 1], run.handles)] &&
      r == (if run.error.Some? then Err(run.error.value) else Ok(()))
    ensures g.nodes == old(g.nodes) && g.edges == old(g.edges)
  {
    var target := PathName(name);
    var circular := tokens[0] == tokens[|tokens| - 1];
    g.CreatePath(target, circular);
    r := AppendSteps(g, old(g.paths), target, circular, tokens);
  }

  /** The loop of `modify_path` that pushes one handle per token, returning
    * early at the first token with a bad orientation. */
  method CollectSteps(tokens: seq<string>) returns (handles: seq<Handle>, error: Option<GraphOperationError>)
    requires StepsReadable(tokens)
    ensures StepRun(handles, error) == ReadSteps(tokens)
  {
    ghost var run := ReadSteps(tokens);
    handles := [];
    var i := 0;
    while i < |tokens|
      invariant i <= |run.handles| && handles == run.handles[..i]
    {
      ReadStepsAt(tokens, i);
      var step := ParseStep(tokens[i]);
      if step.Err? {
        assert handles == run.handles;
        return handles, Some(step.error);
      }
      assert run.handles[..i + 1] == handles + [step.value];
      handles := handles + [step.value];
      i := i + 1;
    }
    assert handles == run.handles;
    error := None;
  }

  /** `modify_path`: reads every token first, so a bad orientation leaves the
    * graph untouched; then replaces the steps of an existing path. */
  method ModifyPath(g: HashGraph, name: string, tokens: seq<string>) returns (r: Outcome<()>)
    requires StepsReadable(tokens)
    modifies g
    ensures var run := ReadSteps(tokens);
      if run.error.Some? then r == Err(run.error.value) && g.paths == old(g.paths)
      else if name in old(g.paths) then
        r == Ok(()) && g.paths == old(g.paths)[name := old(g.paths)[name].(steps := run.handles)]
      else r == Err(PathNotExist(name)) && g.paths == old(g.paths)
    ensures g.nodes == old(g.nodes) && g.edges == old(g.edges)
  {
    var handles, error := CollectSteps(tokens);
    if error.Some? {
      return Err(error.value);
    }
    var ok := g.ModifyPath(name, handles);
    r := if ok then Ok(()) else Err(PathNotExist(name));
  }
}
