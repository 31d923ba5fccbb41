/** lib/complex-filter-generator.js: an append-only list of filter nodes
    whose inputs and outputs are wired automatically. */
module FilterGraph {
  import opened Js
  import Utils

  /** `new Error('Invalid input')`. */
  datatype GraphError = InvalidInput

  // ------------------------------------------------------------ flattening

  /** `items.flat(Infinity)`: nested arrays are spliced in, all levels deep. */
  function FlatAll(items: seq<Value>): (r: seq<Value>)
    ensures forall i :: 0 <= i < |r| ==> !r[i].Arr?
    decreases items
  {
    if items == [] then []
    else
      var head := match items[0] case Arr(xs) => FlatAll(xs) case _ => [items[0]];
      head + FlatAll(items[1..])
  }

  lemma {:induction false} FlatAllConcat(a: seq<Value>, b: seq<Value>)
    ensures FlatAll(a + b) == FlatAll(a) + FlatAll(b)
    decreases a
  {
    if a != [] {
      var x, rest := a[0], a[1..];
      assert a == [x] + rest;
      ConcatAssoc([x], rest, b);
      FlatAllCons(x, rest + b);
      FlatAllCons(x, rest);
      FlatAllConcat(rest, b);
      ConcatAssoc(FlatAll([x]), FlatAll(rest), FlatAll(b));
    } else {
      assert a + b == b;
    }
  }

  /** The first element contributes its own flattening. */
  lemma FlatAllCons(x: Value, rest: seq<Value>)
    ensures FlatAll([x] + rest) == FlatAll([x]) + FlatAll(rest)
  {
    assert ([x] + rest)[0] == x && ([x] + rest)[1..] == rest;
    assert [x][1..] == [];
  }

  /** `flatten(x)`: `arrify(x).flat(Infinity)`. */
  function Flatten(x: Value): (r: seq<Value>)
    ensures forall i :: 0 <= i < |r| ==> !r[i].Arr?
    ensures x.Undefined? ==> r == []
    ensures !x.Arr? && !x.Undefined? ==> r == [x]
  {
    if x.Arr? || x.Undefined? then FlatAll(Utils.Arrify(x))
    else FlatAllSingle(x); FlatAll(Utils.Arrify(x))
  }

  lemma FlatAllSingle(x: Value)
    requires !x.Arr?
    ensures FlatAll([x]) == [x]
  {
    assert [x][1..] == [];
  }

  // ------------------------------------------------------- resolving inputs

  /** Labels of a nested generator's last node, or `[]` when it has none. */
  function LastOutputOf(nodes: seq<Node>): (r: seq<string>)
    ensures nodes == [] ==> r == []
    ensures nodes != [] ==> r == nodes[|nodes| - 1].outputs
  {
    if nodes == [] then [] else nodes[|nodes| - 1].outputs
  }

  /** `processInput(input)`, with the nesting of its result already
      flattened (the caller flattens it in any case): a string is kept, a
      number becomes its decimal text, an array is processed element by
      element, a generator gives its last outputs or, when it has none,
      whatever its `firstInput` gives; every other value is invalid. */
  function ProcessInput(v: Value): (r: Result<seq<string>, GraphError>)
    ensures v.Str? ==> r == Ok([v.s])
    ensures v.Num? ==> r == Ok([IntToString(v.n)])
    ensures v.Gen? && |LastOutputOf(v.nodes)| > 0 ==> r == Ok(LastOutputOf(v.nodes))
    ensures v.Undefined? || v.Null? || v.Bool? || v.Fn? || v.Obj? ==> r == Err(InvalidInput)
    decreases v
  {
    match v
    case Str(s) => Ok([s])
    case Num(n) => Ok([IntToString(n)])
    case Arr(items) => ProcessAll(items)
    case Gen(nodes, first) =>
      if |LastOutputOf(nodes)| > 0 then Ok(LastOutputOf(nodes)) else ProcessInput(first)
    case _ => Err(InvalidInput)
  }

  /** The results of two consecutive parts of `map(processInput)`: the
      first error wins, otherwise the labels are concatenated. */
  function Both(x: Result<seq<string>, GraphError>, y: Result<seq<string>, GraphError>): (r: Result<seq<string>, GraphError>)
    ensures r.Ok? <==> x.Ok? && y.Ok?
    ensures r.Ok? ==> r.value == x.value + y.value
  {
    match x
    case Err(e) => Err(e)
    case Ok(a) =>
      match y
      case Err(e) => Err(e)
      case Ok(b) => Ok(a + b)
  }

  lemma BothAssociative(x: Result<seq<string>, GraphError>, y: Result<seq<string>, GraphError>, z: Result<seq<string>, GraphError>)
    ensures Both(Both(x, y), z) == Both(x, Both(y, z))
  {
    if x.Ok? && y.Ok? && z.Ok? {
      assert (x.value + y.value) + z.value == x.value + (y.value + z.value);
    }
  }

  /** `items.map(processInput)`, flattened; an invalid item throws. */
  function ProcessAll(items: seq<Value>): (r: Result<seq<string>, GraphError>)
    ensures items == [] ==> r == Ok([])
    ensures r.Ok? <==> forall i :: 0 <= i < |items| ==> ProcessInput(items[i]).Ok?
    decreases items
  {
    if items == [] then Ok([])
    else
      assert forall i :: 1 <= i < |items| ==> items[i] == items[1..][i - 1];
      Both(ProcessInput(items[0]), ProcessAll(items[1..]))
  }

  lemma {:induction false} ProcessAllConcat(a: seq<Value>, b: seq<Value>)
    ensures ProcessAll(a + b) == Both(ProcessAll(a), ProcessAll(b))
    decreases a
  {
    if a == [] {
      assert a + b == b;
      if ProcessAll(b).Ok? { assert [] + ProcessAll(b).value == ProcessAll(b).value; }
    } else {
      assert (a + b)[0] == a[0];
      assert (a + b)[1..] == a[1..] + b;
      ProcessAllConcat(a[1..], b);
      BothAssociative(ProcessInput(a[0]), ProcessAll(a[1..]), ProcessAll(b));
    }
  }

  lemma ProcessAllSingle(v: Value)
    ensures ProcessAll([v]) == ProcessInput(v)
  {
    assert [v][1..] == [];
    if ProcessInput(v).Ok? { assert ProcessInput(v).value + [] == ProcessInput(v).value; }
  }

  /** Flattening the inputs before processing them (as `push` does) gives
      the same labels as processing the nested arrays directly. */
  lemma {:induction false} ProcessFlatAll(items: seq<Value>)
    ensures ProcessAll(FlatAll(items)) == ProcessAll(items)
    decreases items
  {
    if items != [] {
      var head := match items[0] case Arr(xs) => FlatAll(xs) case _ => [items[0]];
      assert FlatAll(items) == head + FlatAll(items[1..]);
      ProcessAllConcat(head, FlatAll(items[1..]));
      ProcessFlatAll(items[1..]);
      match items[0] {
        case Arr(xs) =>
          ProcessFlatAll(xs);
        case _ =>
          ProcessAllSingle(items[0]);
      }
    }
  }

  /** `.filter(Boolean)` on a list of labels: drops the empty strings. */
  function NonEmpty(labels: seq<string>): (r: seq<string>)
    ensures forall i :: 0 <= i < |r| ==> r[i] != ""
    ensures forall i :: 0 <= i < |labels| && labels[i] != "" ==> labels[i] in r
    ensures forall i :: 0 <= i < |r| ==> r[i] in labels
    ensures |r| <= |labels|
  {
    if labels == [] then []
    else
      var rest := NonEmpty(labels[1..]);
      assert forall i :: 1 <= i < |labels| ==> labels[i] == labels[1..][i - 1];
      if labels[0] == "" then rest else [labels[0]] + rest
  }

  lemma {:induction false} NonEmptyClean(labels: seq<string>)
    requires forall i :: 0 <= i < |labels| ==> labels[i] != ""
    ensures NonEmpty(labels) == labels
  {
    if labels != [] {
      NonEmptyClean(labels[1..]);
    }
  }

  /** Line 35 of `push`: flatten, process every input, flatten the results
      and drop the empty labels. */
  function ResolveInputs(v: Value): (r: Result<seq<string>, GraphError>)
    ensures r.Ok? ==> forall i :: 0 <= i < |r.value| ==> r.value[i] != ""
  {
    match ProcessAll(Flatten(v))
    case Err(e) => Err(e)
    case Ok(labels) => Ok(NonEmpty(labels))
  }

  /** Resolving any input other than `undefined` is `processInput` followed
      by dropping the empty labels: the double flattening of line 35 makes
      no difference. */
  lemma ResolveIsProcess(v: Value)
    requires !v.Undefined?
    ensures ResolveInputs(v) ==
      match ProcessInput(v)
      case Err(e) => Err(e)
      case Ok(labels) => Ok(NonEmpty(labels))
  {
    if v.Arr? {
      ProcessFlatAll(v.items);
    } else {
      ProcessAllSingle(v);
    }
  }

  /** An independent description of the inputs `processInput` accepts. */
  predicate Resolvable(v: Value)
    decreases v
  {
    match v
    case Str(_) => true
    case Num(_) => true
    case Arr(items) => forall i :: 0 <= i < |items| ==> Resolvable(items[i])
    case Gen(nodes, first) => |LastOutputOf(nodes)| > 0 || Resolvable(first)
    case _ => false
  }

  /** `processInput` throws `Invalid input` exactly on the inputs that are
      not resolvable: a value that is not a string, number, array or
      generator, or a generator without nodes whose `firstInput` is such a
      value (for one, `undefined`). */
  lemma {:induction false} ProcessInputSucceedsIff(v: Value)
    ensures ProcessInput(v).Ok? <==> Resolvable(v)
    decreases v
  {
    match v {
      case Arr(items) => ProcessAllSucceedsIff(items);
      case Gen(nodes, first) => ProcessInputSucceedsIff(first);
      case _ =>
    }
  }

  lemma {:induction false} ProcessAllSucceedsIff(items: seq<Value>)
    ensures ProcessAll(items).Ok? <==> forall i :: 0 <= i < |items| ==> Resolvable(items[i])
    decreases items
  {
    if items != [] {
      ProcessInputSucceedsIff(items[0]);
      ProcessAllSucceedsIff(items[1..]);
      assert forall i :: 1 <= i < |items| ==> items[i] == items[1..][i - 1];
    }
  }

  /** Strings stay as they are (the empty string is dropped), numbers
      become decimal text, and an array resolves to the labels of its
      elements, concatenated in order. */
  lemma ResolveScalarsAndArrays(s: string, n: int, xs: seq<Value>, ys: seq<Value>)
    ensures ResolveInputs(Str(s)) == Ok(if s == "" then [] else [s])
    ensures ResolveInputs(Num(n)) == Ok([IntToString(n)])
    ensures ResolveInputs(Arr(xs + ys)).Ok? <==> ResolveInputs(Arr(xs)).Ok? && ResolveInputs(Arr(ys)).Ok?
    ensures ResolveInputs(Arr(xs + ys)).Ok? ==>
      ResolveInputs(Arr(xs + ys)).value == ResolveInputs(Arr(xs)).value + ResolveInputs(Arr(ys)).value
  {
    ResolveIsProcess(Str(s));
    ResolveIsProcess(Num(n));
    NonEmptySingle(s);
    NonEmptySingle(IntToString(n));
    ResolveArray(xs + ys);
    ResolveArray(xs);
    ResolveArray(ys);
    ProcessAllConcat(xs, ys);
    if ProcessAll(xs).Ok? && ProcessAll(ys).Ok? {
      NonEmptyConcat(ProcessAll(xs).value, ProcessAll(ys).value);
    }
  }

  lemma NonEmptySingle(s: string)
    ensures NonEmpty([s]) == if s == "" then [] else [s]
  {
    assert [s][1..] == [];
  }

  lemma ResolveArray(xs: seq<Value>)
    ensures ResolveInputs(Arr(xs)).Ok? <==> ProcessAll(xs).Ok?
    ensures ProcessAll(xs).Ok? ==> ResolveInputs(Arr(xs)).value == NonEmpty(ProcessAll(xs).value)
  {
    ResolveIsProcess(Arr(xs));
  }

  lemma {:induction false} NonEmptyConcat(a: seq<string>, b: seq<string>)
    ensures NonEmpty(a + b) == NonEmpty(a) + NonEmpty(b)
  {
    if a != [] {
      assert (a + b)[0] == a[0];
      assert (a + b)[1..] == a[1..] + b;
      NonEmptyConcat(a[1..], b);
    } else {
      assert a + b == b;
    }
  }

  /** A nested generator resolves to its last outputs; one whose last
      outputs are empty (no nodes, or `outputs: []` on the last one)
      resolves to its `firstInput`, and fails when that is `undefined`. */
  lemma ResolveGenerator(nodes: seq<Node>, first: Value)
    ensures |LastOutputOf(nodes)| > 0 ==>
      ResolveInputs(Gen(nodes, first)) == Ok(NonEmpty(LastOutputOf(nodes)))
    ensures |LastOutputOf(nodes)| == 0 && !first.Undefined? ==>
      ResolveInputs(Gen(nodes, first)) == ResolveInputs(first)
    ensures |LastOutputOf(nodes)| == 0 && first.Undefined? ==>
      ResolveInputs(Gen(nodes, first)) == Err(InvalidInput)
  {
    ResolveIsProcess(Gen(nodes, first));
    if !first.Undefined? {
      ResolveIsProcess(first);
    }
  }

  /** A list of labels as a JavaScript array of strings. */
  function Labels(labels: seq<string>): (v: Value)
    ensures v.Arr? && |v.items| == |labels|
    ensures forall i :: 0 <= i < |labels| ==> v.items[i] == Str(labels[i])
  {
    Arr(seq(|labels|, i requires 0 <= i < |labels| => Str(labels[i])))
  }

  /** A list of labels resolves to itself without its empty labels. */
  lemma {:induction false} ResolveLabels(labels: seq<string>)
    ensures ResolveInputs(Labels(labels)) == Ok(NonEmpty(labels))
  {
    ResolveIsProcess(Labels(labels));
    ProcessAllLabels(labels);
  }

  lemma {:induction false} ProcessAllLabels(labels: seq<string>)
    ensures ProcessAll(Labels(labels).items) == Ok(labels)
  {
    if labels != [] {
      ProcessAllLabels(labels[1..]);
      assert Labels(labels).items[1..] == Labels(labels[1..]).items;
      assert ProcessInput(Labels(labels).items[0]) == Ok([labels[0]]);
      assert labels == [labels[0]] + labels[1..];
    }
  }

  // ------------------------------------------------------------------ push

  /** The object argument of `push`: `inputs` is `undefined` when omitted;
      `outputs` is None when omitted (or falsy). */
  datatype FilterSpec = FilterSpec(filter: string, options: Value, inputs: Value, outputs: Option<seq<string>>)

  /** `push(filter)` takes a filter name or a filter object. */
  datatype PushArg = Named(name: string) | Spec(spec: FilterSpec)

  /** The object `push` works on: `{ filter }` for a name, a shallow copy
      of the argument otherwise. */
  function SpecOf(arg: PushArg): (s: FilterSpec)
    ensures arg.Named? ==> s == FilterSpec(arg.name, Undefined, Undefined, None)
    ensures arg.Spec? ==> s == arg.spec
  {
    match arg
    case Named(name) => FilterSpec(name, Undefined, Undefined, None)
    case Spec(spec) => spec
  }

  /** Lines 28-34: the inputs before they are resolved. Omitted (falsy but
      not `false`) inputs become the previous node's outputs, or else the
      generator's `firstInput` when that is truthy. */
  function WiredInputs(nodes: seq<Node>, firstInput: Value, inputs: Value): (r: Value)
    ensures Truthy(inputs) || inputs == Bool(false) ==> r == inputs
    ensures !Truthy(inputs) && inputs != Bool(false) ==>
      (Truthy(r) <==> |LastOutputOf(nodes)| > 0 || Truthy(firstInput))
    ensures !Truthy(inputs) && inputs != Bool(false) && |LastOutputOf(nodes)| > 0 ==>
      ResolveInputs(r) == Ok(NonEmpty(LastOutputOf(nodes)))
  {
    ResolveLabels(LastOutputOf(nodes));
    if !Truthy(inputs) && inputs != Bool(false) then
      if |LastOutputOf(nodes)| > 0 then Labels(LastOutputOf(nodes))
      else if Truthy(firstInput) then firstInput
      else inputs
    else inputs
  }

  /** The node `push` appends to a generator holding `nodes`, or the
      error it throws (before appending anything). */
  function NewNode(nodes: seq<Node>, firstInput: Value, arg: PushArg, suffix: string): (r: Result<Node, GraphError>)
    ensures r.Ok? ==> r.value.filter == SpecOf(arg).filter && r.value.options == SpecOf(arg).options
    ensures r.Ok? && r.value.inputs.Some? ==>
      r.value.inputs.value != [] && forall i :: 0 <= i < |r.value.inputs.value| ==> r.value.inputs.value[i] != ""
    ensures r.Ok? && SpecOf(arg).outputs.Some? ==> r.value.outputs == SpecOf(arg).outputs.value
    ensures r.Ok? && SpecOf(arg).outputs.None? ==> r.value.outputs == [SpecOf(arg).filter + "-" + suffix]
  {
    var spec := SpecOf(arg);
    var wired := WiredInputs(nodes, firstInput, spec.inputs);
    var resolved := if Truthy(wired) then ResolveInputs(wired) else Ok([]);
    match resolved
    case Err(e) => Err(e)
    case Ok(labels) =>
      var outputs := match spec.outputs case Some(o) => o case None => [spec.filter + "-" + suffix];
      Ok(Node(spec.filter, spec.options, if labels == [] then None else Some(labels), outputs))
  }

  /** Truthy explicit inputs are resolved as they are: `push` throws
      exactly when resolving them throws, and otherwise the node's inputs
      are the resolved labels (no `inputs` key when there are none). */
  lemma PushExplicitInputs(nodes: seq<Node>, firstInput: Value, arg: PushArg, suffix: string)
    requires Truthy(SpecOf(arg).inputs)
    ensures NewNode(nodes, firstInput, arg, suffix).Err? <==> ResolveInputs(SpecOf(arg).inputs).Err?
    ensures ResolveInputs(SpecOf(arg).inputs).Err? ==>
      NewNode(nodes, firstInput, arg, suffix) == Err(ResolveInputs(SpecOf(arg).inputs).error)
    ensures ResolveInputs(SpecOf(arg).inputs).Ok? ==>
      var labels := ResolveInputs(SpecOf(arg).inputs).value;
      NewNode(nodes, firstInput, arg, suffix).value.inputs == (if labels == [] then None else Some(labels))
  {
  }

  /** With inputs omitted after a node whose outputs are labels, the new
      node takes those outputs as its inputs. */
  lemma PushChainsToPrevious(nodes: seq<Node>, firstInput: Value, arg: PushArg, suffix: string)
    requires !Truthy(SpecOf(arg).inputs) && SpecOf(arg).inputs != Bool(false)
    requires |LastOutputOf(nodes)| > 0
    requires forall i :: 0 <= i < |LastOutputOf(nodes)| ==> LastOutputOf(nodes)[i] != ""
    ensures NewNode(nodes, firstInput, arg, suffix).Ok?
    ensures NewNode(nodes, firstInput, arg, suffix).value.inputs == Some(LastOutputOf(nodes))
  {
    ResolveLabels(LastOutputOf(nodes));
    NonEmptyClean(LastOutputOf(nodes));
  }

  /** With inputs omitted and no previous outputs, the node's inputs are
      the resolved `firstInput` when it is truthy; otherwise the node has
      no `inputs` key. */
  lemma PushFallsBackToFirstInput(nodes: seq<Node>, firstInput: Value, arg: PushArg, suffix: string)
    requires !Truthy(SpecOf(arg).inputs) && SpecOf(arg).inputs != Bool(false)
    requires |LastOutputOf(nodes)| == 0
    ensures Truthy(firstInput) ==>
      match ResolveInputs(firstInput)
      case Err(e) => NewNode(nodes, firstInput, arg, suffix) == Err(e)
      case Ok(labels) => (NewNode(nodes, firstInput, arg, suffix).Ok? &&
        NewNode(nodes, firstInput, arg, suffix).value.inputs == (if labels == [] then None else Some(labels)))
    ensures !Truthy(firstInput) ==>
      NewNode(nodes, firstInput, arg, suffix).Ok? && NewNode(nodes, firstInput, arg, suffix).value.inputs.None?
  {
  }

  /** `inputs: false` leaves the node without an `inputs` key: neither the
      previous outputs nor `firstInput` are used. */
  lemma PushInputsFalse(nodes: seq<Node>, firstInput: Value, name: string, options: Value, outputs: Option<seq<string>>, suffix: string)
    ensures var r := NewNode(nodes, firstInput, Spec(FilterSpec(name, options, Bool(false), outputs)), suffix);
      r.Ok? && r.value.inputs.None?
  {
  }

  /** A name pushed without anything else becomes `{ filter: name }`, wired
      like an object with omitted inputs and outputs. */
  lemma PushName(nodes: seq<Node>, firstInput: Value, name: string, suffix: string)
    ensures NewNode(nodes, firstInput, Named(name), suffix) ==
      NewNode(nodes, firstInput, Spec(FilterSpec(name, Undefined, Undefined, None)), suffix)
  {
  }

  /** The generator itself. `complexFilter` only ever grows. */
  class ComplexFilterGenerator {
    var complexFilter: seq<Node>
    var firstInput: Value

    constructor(input: Value)
      ensures complexFilter == [] && firstInput == input
    {
      complexFilter := [];
      firstInput := input;
    }

    /** `lastFilter`: the last node, `undefined` when there is none. */
    function LastFilter(): (r: Option<Node>)
      reads this
      ensures r.None? <==> complexFilter == []
      ensures r.Some? ==> r.value == complexFilter[|complexFilter| - 1]
    {
      if complexFilter == [] then None else Some(complexFilter[|complexFilter| - 1])
    }

    /** `lastOutput`: the outputs of the last node, `[]` when there is none. */
    function LastOutput(): (r: seq<string>)
      reads this
      ensures complexFilter == [] ==> r == []
      ensures complexFilter != [] ==> r == complexFilter[|complexFilter| - 1].outputs
    {
      match LastFilter()
      case Some(node) => node.outputs
      case None => []
    }

    /** This generator as a value that can be passed as another node's input. */
    function Snapshot(): (v: Value)
      reads this
      ensures v == Gen(complexFilter, firstInput)
    {
      Gen(complexFilter, firstInput)
    }

    /** Passing the generator itself as an input: it resolves to its last
        outputs, or, while those are empty, to its `firstInput`. */
    lemma SnapshotResolves()
      ensures |LastOutput()| > 0 ==> ResolveInputs(Snapshot()) == Ok(NonEmpty(LastOutput()))
      ensures |LastOutput()| == 0 && !firstInput.Undefined? ==> ResolveInputs(Snapshot()) == ResolveInputs(firstInput)
      ensures |LastOutput()| == 0 && firstInput.Undefined? ==> ResolveInputs(Snapshot()) == Err(InvalidInput)
    {
      ResolveGenerator(complexFilter, firstInput);
    }

    /** `push(filter)`. `suffix` stands for the random string of the
        generated label. */
    method Push(arg: PushArg, suffix: string) returns (r: Result<seq<string>, GraphError>)
      modifies this
      ensures firstInput == old(firstInput)
      ensures NewNode(old(complexFilter), old(firstInput), arg, suffix).Ok? ==>
        var node := NewNode(old(complexFilter), old(firstInput), arg, suffix).value;
        complexFilter == old(complexFilter) + [node] && r == Ok(node.outputs) && LastOutput() == node.outputs
      ensures NewNode(old(complexFilter), old(firstInput), arg, suffix).Err? ==>
        complexFilter == old(complexFilter) && r == Err(NewNode(old(complexFilter), old(firstInput), arg, suffix).error)
    {
      var spec := SpecOf(arg);
      var inputs := spec.inputs;
      if !Truthy(inputs) && inputs != Bool(false) {
        var last := LastOutput();
        if |last| > 0 {
          inputs := Labels(last);
        } else if Truthy(firstInput) {
          inputs := firstInput;
        }
      }
      var labels: seq<string> := [];
      if Truthy(inputs) {
        var resolved := ResolveInputs(inputs);
        if resolved.Err? {
          return Err(resolved.error);
        }
        labels := resolved.value;
      }
      var nodeInputs := if labels == [] then None else Some(labels);
      var outputs := if spec.outputs.Some? then spec.outputs.value else [spec.filter + "-" + suffix];
      var node := Node(spec.filter, spec.options, nodeInputs, outputs);
      complexFilter := complexFilter + [node];
      r := Ok(outputs);
    }

    /** `[Symbol.iterator]`: the stored nodes in insertion order. (Every
        stored entry is an object, so the skip of falsy entries never
        removes one.) */
    method Items() returns (items: seq<Node>)
      ensures items == complexFilter
    {
      items := [];
      for i := 0 to |complexFilter|
        invariant items == complexFilter[..i]
      {
        items := items + [complexFilter[i]];
      }
    }
  }

  /** The first name pushed on a generator made from a non-empty input
      string reads that string and writes an automatic label. */
  lemma PushOnFreshGenerator(input: string, name: string, suffix: string)
    requires input != ""
    ensures NewNode([], Str(input), Named(name), suffix) == Ok(Node(name, Undefined, Some([input]), [name + "-" + suffix]))
  {
    ResolveScalarsAndArrays(input, 0, [], []);
  }

  // ------------------------------------------ the static helpers of the class

  /** An argument of the static `flatten`: a filter written as text, a
      filter object, a generator, or an array of these. */
  datatype Part =
    | Text(s: string)
    | Filter(node: Node)
    | Graph(nodes: seq<Node>, firstInput: Value)
    | Group(parts: seq<Part>)

  predicate Plain(p: Part) { p.Text? || p.Filter? }

  /** The parts of one argument after the `flatten(filters)` of line 81
      and the expansion of a generator into its nodes. */
  function ExpandPart(p: Part): (r: seq<Part>)
    ensures forall i :: 0 <= i < |r| ==> Plain(r[i])
    decreases p, 0
  {
    match p
    case Text(_) => [p]
    case Filter(_) => [p]
    case Graph(nodes, _) => seq(|nodes|, i requires 0 <= i < |nodes| => Filter(nodes[i]))
    case Group(parts) => ExpandParts(parts)
  }

  /** `ComplexFilterGenerator.flatten(...filters)`: every generator replaced
      by the nodes it holds, and all arrays spliced in. */
  function ExpandParts(parts: seq<Part>): (r: seq<Part>)
    ensures forall i :: 0 <= i < |r| ==> Plain(r[i])
    decreases parts, 1
  {
    if parts == [] then [] else ExpandPart(parts[0]) + ExpandParts(parts[1..])
  }

  lemma {:induction false} ExpandPartsConcat(a: seq<Part>, b: seq<Part>)
    ensures ExpandParts(a + b) == ExpandParts(a) + ExpandParts(b)
  {
    if a == [] {
      assert a + b == b;
    } else {
      assert (a + b)[0] == a[0];
      assert (a + b)[1..] == a[1..] + b;
      ExpandPartsConcat(a[1..], b);
    }
  }

  /** Plain filters are kept and a generator contributes its nodes, in
      order: flattening the text filters and one generator yields them
      followed by the generator's nodes. */
  lemma ExpandPlainThenGraph(plain: seq<Part>, nodes: seq<Node>, first: Value)
    requires forall i :: 0 <= i < |plain| ==> Plain(plain[i])
    ensures ExpandParts(plain + [Graph(nodes, first)]) == plain + ExpandPart(Graph(nodes, first))
    ensures |ExpandPart(Graph(nodes, first))| == |nodes|
    ensures forall i :: 0 <= i < |nodes| ==> ExpandPart(Graph(nodes, first))[i] == Filter(nodes[i])
  {
    ExpandPartsConcat(plain, [Graph(nodes, first)]);
    ExpandPlain(plain);
    assert [Graph(nodes, first)][1..] == [];
    assert ExpandParts([Graph(nodes, first)]) == ExpandPart(Graph(nodes, first)) + ExpandParts([]);
  }

  lemma {:induction false} ExpandPlain(plain: seq<Part>)
    requires forall i :: 0 <= i < |plain| ==> Plain(plain[i])
    ensures ExpandParts(plain) == plain
  {
    if plain != [] {
      ExpandPlain(plain[1..]);
      assert plain == [plain[0]] + plain[1..];
    }
  }

  /** `ComplexFilterGenerator.lastOutput(...filters)`: every generator is
      replaced by the labels of its last node, and all arrays are spliced in. */
  function LastOutputs(values: seq<Value>): (r: seq<Value>)
    ensures forall i :: 0 <= i < |r| ==> !r[i].Arr? && !r[i].Gen?
  {
    LastOutputsOfFlat(FlatAll(values))
  }

  /** No element is an array: what `FlatAll` leaves. */
  predicate NoArrays(s: seq<Value>)
  {
    forall i :: 0 <= i < |s| ==> !s[i].Arr?
  }

  lemma NoArraysParts(a: seq<Value>, b: seq<Value>)
    requires NoArrays(a) && NoArrays(b) && a != []
    ensures NoArrays(a + b) && NoArrays(a[1..]) && NoArrays(a[1..] + b) && !a[0].Arr?
  {
    assert forall i :: 0 <= i < |a[1..]| ==> a[1..][i] == a[i + 1];
  }

  function LastOutputsOfFlat(flat: seq<Value>): (r: seq<Value>)
    requires NoArrays(flat)
    ensures forall i :: 0 <= i < |r| ==> !r[i].Arr? && !r[i].Gen?
  {
    if flat == [] then [] else OwnOutputs(flat[0]) + LastOutputsOfFlat(flat[1..])
  }

  /** What one element of a flat list contributes: a generator its last
      labels, any other value itself. */
  function OwnOutputs(v: Value): (r: seq<Value>)
    requires !v.Arr?
    ensures forall i :: 0 <= i < |r| ==> !r[i].Arr? && !r[i].Gen?
  {
    match v
    case Gen(nodes, _) => Labels(LastOutputOf(nodes)).items
    case _ => [v]
  }

  /** A generator given to the static `lastOutput` contributes exactly its
      last outputs (no fallback to `firstInput`), and a string is kept. */
  lemma LastOutputsOfGenerator(nodes: seq<Node>, first: Value, s: string)
    ensures LastOutputs([Gen(nodes, first), Str(s)]) == Labels(LastOutputOf(nodes)).items + [Str(s)]
  {
    var vs := [Gen(nodes, first), Str(s)];
    assert FlatAll(vs) == [Gen(nodes, first)] + FlatAll([Str(s)]);
    assert FlatAll([Str(s)]) == [Str(s)] + FlatAll([]);
    var flat := FlatAll(vs);
    assert flat == [Gen(nodes, first), Str(s)];
    assert flat[1..] == [Str(s)];
    assert LastOutputsOfFlat(flat[1..]) == [Str(s)] + LastOutputsOfFlat([]);
  }

  lemma {:induction false} LastOutputsOfFlatConcat(a: seq<Value>, b: seq<Value>)
    requires NoArrays(a) && NoArrays(b)
    ensures LastOutputsOfFlat(a + b) == LastOutputsOfFlat(a) + LastOutputsOfFlat(b)
    decreases a
  {
    if a == [] {
      assert a + b == b;
    } else {
      NoArraysParts(a, b);
      assert (a + b)[0] == a[0];
      assert (a + b)[1..] == a[1..] + b;
      LastOutputsOfFlatConcat(a[1..], b);
    }
  }

  /** The static `lastOutput` works argument by argument: the result for a
      concatenation is the concatenation of the results. */
  lemma LastOutputsConcat(a: seq<Value>, b: seq<Value>)
    ensures LastOutputs(a + b) == LastOutputs(a) + LastOutputs(b)
  {
    FlatAllConcat(a, b);
    LastOutputsOfFlatConcat(FlatAll(a), FlatAll(b));
  }

  /** One argument: a generator gives the labels of its last node (none
      when it is empty, whatever its `firstInput`), an array gives the
      results of its elements, and any other value is kept as it is. */
  lemma LastOutputsSingle(v: Value)
    ensures v.Gen? ==> LastOutputs([v]) == Labels(LastOutputOf(v.nodes)).items
    ensures v.Arr? ==> LastOutputs([v]) == LastOutputs(v.items)
    ensures !v.Arr? && !v.Gen? ==> LastOutputs([v]) == [v]
  {
    assert [v][1..] == [];
    assert FlatAll([v]) == (match v case Arr(xs) => FlatAll(xs) case _ => [v]) + FlatAll([]);
    if !v.Arr? {
      assert FlatAll([v]) == [v];
      assert LastOutputsOfFlat([v]) ==
        OwnOutputs(v) + LastOutputsOfFlat([]);
    } else {
      assert FlatAll([v]) == FlatAll(v.items);
    }
  }
}
