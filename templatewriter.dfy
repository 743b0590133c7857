/** TemplateWriter: evaluates one Go template per resource, or once over the
    whole list when a wrapping kind is set. Parsing and executing templates
    belong to text/template and are given as functions. */
module TemplateOutput {
  import opened Results
  import opened Document

  /** A template function: the two built in here, or one the caller supplies. */
  datatype Func = UpperFunc | LowerFunc | UserFunc(id: string)

  /** The built-in function map: "upper" and "lower". */
  function Builtins(): (fns: map<string, Func>)
    ensures fns.Keys == {"upper", "lower"}
  {
    map["upper" := UpperFunc, "lower" := LowerFunc]
  }

  /** The TemplateWriter fields besides the output stream. */
  datatype TemplateWriter = TemplateWriter(
    template: string,
    functions: map<string, Func>,
    wrappingKind: string,
    wrappingApiVersion: string)

  /** text/template as the writer uses it: parsing with a function map, decoding
      a node into template data, executing the parsed template on that data. */
  datatype TemplateLib<!T, !D> = TemplateLib(
    parse: (string, map<string, Func>) -> Result<T>,
    decode: Node -> Result<D>,
    execute: (T, D) -> Result<string>)

  /** The function map the template is parsed with: the built-ins, each
      overridden by a caller's function of the same name. */
  method MergeFunctions(functions: map<string, Func>) returns (fns: map<string, Func>)
    ensures fns.Keys == functions.Keys + {"upper", "lower"}
    ensures forall k :: k in functions ==> fns[k] == functions[k]
    ensures "upper" !in functions ==> fns["upper"] == UpperFunc
    ensures "lower" !in functions ==> fns["lower"] == LowerFunc
  {
    fns := Builtins();
    var rest := functions.Keys;
    while rest != {}
      invariant rest <= functions.Keys
      invariant fns.Keys == Builtins().Keys + (functions.Keys - rest)
      invariant forall k :: k in functions.Keys - rest ==> fns[k] == functions[k]
      invariant forall k :: k in fns && k !in functions.Keys - rest ==> fns[k] == Builtins()[k]
      decreases rest
    {
      var k :| k in rest;
      fns := fns[k := functions[k]];
      rest := rest - {k};
    }
  }

  /** The map MergeFunctions builds is the built-ins overridden by the caller's. */
  lemma MergedIsUnion(functions: map<string, Func>, fns: map<string, Func>)
    requires fns.Keys == functions.Keys + {"upper", "lower"}
    requires forall k :: k in functions ==> fns[k] == functions[k]
    requires "upper" !in functions ==> fns["upper"] == UpperFunc
    requires "lower" !in functions ==> fns["lower"] == LowerFunc
    ensures fns == Builtins() + functions
  {
  }

  /** The node list the template runs over: the nodes, or one list wrapping them. */
  function Items(w: TemplateWriter, nodes: seq<Node>): (items: seq<Node>)
    ensures w.wrappingKind == "" ==> items == nodes
    ensures w.wrappingKind != "" ==> (|items| == 1 && Field(items[0], "items").Some? &&
      Field(items[0], "items").value.content == nodes)
  {
    if w.wrappingKind == "" then nodes else [Wrap(w.wrappingApiVersion, w.wrappingKind, nodes)]
  }

  /** The text of each execution over `items`, stopping at the first failure to
      decode or to execute; `err` is that failure. */
  function Run<T, D>(lib: TemplateLib<T, D>, t: T, items: seq<Node>): (r: (seq<string>, Option<string>))
    ensures |r.0| <= |items|
    ensures r.1.None? ==> |r.0| == |items|
    ensures forall i :: 0 <= i < |r.0| ==> (lib.decode(items[i]).Ok? &&
      lib.execute(t, lib.decode(items[i]).value) == Ok(r.0[i]))
    decreases |items|
  {
    if items == [] then ([], None)
    else match lib.decode(items[0])
      case Err(e) => ([], Some(e))
      case Ok(d) =>
        match lib.execute(t, d)
        case Err(e) => ([], Some(e))
        case Ok(text) =>
          var rest := Run(lib, t, items[1..]);
          assert forall i :: 0 < i < |items| ==> items[i] == items[1..][i - 1];
          ([text] + rest.0, rest.1)
  }

  /** The execution loop: decode each node and execute the template on it. */
  method Execute<T, D>(lib: TemplateLib<T, D>, t: T, items: seq<Node>) returns (out: seq<string>, err: Option<string>)
    ensures (out, err) == Run(lib, t, items)
  {
    out := [];
    assert items[0..] == items;
    for i := 0 to |items|
      invariant Run(lib, t, items).0 == out + Run(lib, t, items[i..]).0
      invariant Run(lib, t, items).1 == Run(lib, t, items[i..]).1
    {
      assert items[i..][1..] == items[i + 1..] && items[i..][0] == items[i];
      var data := lib.decode(items[i]);
      if data.Err? {
        assert Run(lib, t, items[i..]) == ([], Some(data.error));
        assert out + [] == out;
        return out, Some(data.error);
      }
      var text := lib.execute(t, data.value);
      if text.Err? {
        assert Run(lib, t, items[i..]) == ([], Some(text.error));
        assert out + [] == out;
        return out, Some(text.error);
      }
      out := out + [text.value];
    }
    assert items[|items|..] == [];
    assert out + [] == out;
    err := None;
  }

  /** What TemplateWriter.Write promises: nothing is written when the template
      does not parse; otherwise the executions over the items, and a flush
      only of a flushable stream after every execution succeeded, whose error
      (`flushError`) is then the result. */
  predicate Written<T, D>(w: TemplateWriter, nodes: seq<Node>, lib: TemplateLib<T, D>, flushable: bool,
                          flushError: Option<string>, out: seq<string>, flushed: bool, err: Option<string>)
  {
    var fns := Builtins() + w.functions;
    match lib.parse(w.template, fns)
    case Err(e) => out == [] && !flushed && err == Some(e)
    case Ok(t) =>
      var (texts, runErr) := Run(lib, t, Items(w, nodes));
      out == texts && flushed == (runErr.None? && flushable) &&
      err == (if runErr.Some? then runErr else if flushable then flushError else None)
  }

  /** TemplateWriter.Write: the chunks of text written, whether the stream was
      flushed (only a flushable stream, and only when every execution succeeded),
      and the error: that of the first failing execution, or of the flush. */
  method Write<T, D>(w: TemplateWriter, nodes: seq<Node>, lib: TemplateLib<T, D>, flushable: bool,
                     flushError: Option<string>)
    returns (out: seq<string>, flushed: bool, err: Option<string>)
    ensures Written(w, nodes, lib, flushable, flushError, out, flushed, err)
  {
    var fns := MergeFunctions(w.functions);
    MergedIsUnion(w.functions, fns);
    var tmpl := lib.parse(w.template, fns);
    if tmpl.Err? {
      return [], false, Some(tmpl.error);
    }
    var items := nodes;
    if w.wrappingKind != "" {
      items := [Wrap(w.wrappingApiVersion, w.wrappingKind, nodes)];
    }
    out, err := Execute(lib, tmpl.value, items);
    flushed := err.None? && flushable;
    if flushed {
      err := flushError;
    }
  }

  /** With no failure there is one execution per node, or exactly one when the
      writer wraps the nodes in a list. */
  lemma ExecutionCount<T, D>(w: TemplateWriter, nodes: seq<Node>, lib: TemplateLib<T, D>, t: T)
    requires Run(lib, t, Items(w, nodes)).1.None?
    ensures |Run(lib, t, Items(w, nodes)).0| == if w.wrappingKind == "" then |nodes| else 1
  {
  }
}
