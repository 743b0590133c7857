/** JSONWriter: strips the reader annotations from every resource, then encodes
    either each resource as one JSON value or all of them wrapped in one list. */
module JsonOutput {
  import opened Results
  import opened Document

  /** The JSONWriter fields besides the output stream. */
  datatype JsonWriter = JsonWriter(
    keepReaderAnnotations: bool,
    clearAnnotations: seq<string>,
    wrappingKind: string,
    wrappingApiVersion: string,
    sort: bool)

  /** The annotations cleared from each node, in the order they are cleared:
      the index annotation unless reader annotations are kept, then the extra ones. */
  function ClearedKeys(w: JsonWriter): (keys: seq<string>)
    ensures IndexAnnotation in keys <==> !w.keepReaderAnnotations || IndexAnnotation in w.clearAnnotations
    ensures forall a :: a in w.clearAnnotations ==> a in keys
  {
    (if w.keepReaderAnnotations then [] else [IndexAnnotation]) + w.clearAnnotations
  }

  /** Clears each key in turn, stopping at the first failure. */
  function ClearNode(n: Node, keys: seq<string>): (r: Result<Node>)
    ensures r.Err? <==> keys != [] && n.annotations.MalformedAnnotations?
    ensures r.Ok? ==> r.value.(annotations := n.annotations) == n
    ensures r.Ok? && n.annotations.Annotations? ==> (r.value.annotations.Annotations? &&
      r.value.annotations.entries == n.annotations.entries - set k | k in keys)
    decreases |keys|
  {
    if keys == [] then Ok(n)
    else match ClearAnnotation(n, keys[0])
      case Err(e) => Err(e)
      case Ok(m) =>
        var r := ClearNode(m, keys[1..]);
        assert r.Ok? ==> r.value.annotations.entries == n.annotations.entries - set k | k in keys by {
          if r.Ok? {
            assert (set k | k in keys) == {keys[0]} + set k | k in keys[1..];
          }
        }
        r
  }

  /** The clearing loop over all nodes: every node cleared, or the first error. */
  function ClearNodes(s: seq<Node>, keys: seq<string>): (r: Result<seq<Node>>)
    ensures r.Err? <==> exists i :: 0 <= i < |s| && ClearNode(s[i], keys).Err?
    ensures r.Ok? ==> |r.value| == |s| && forall i :: 0 <= i < |s| ==> Ok(r.value[i]) == ClearNode(s[i], keys)
  {
    if s == [] then Ok([])
    else match ClearNode(s[0], keys)
      case Err(e) => Err(e)
      case Ok(m) =>
        match ClearNodes(s[1..], keys)
        case Err(e) =>
          assert exists i :: 0 <= i < |s| && ClearNode(s[i], keys).Err? by {
            var i :| 0 <= i < |s| - 1 && ClearNode(s[1..][i], keys).Err?;
            assert s[i + 1] == s[1..][i];
          }
          Err(e)
        case Ok(ms) =>
          assert forall i :: 0 < i < |s| ==> s[i] == s[1..][i - 1];
          Ok([m] + ms)
  }

  /** The clearing error is that of the first node that cannot be cleared. */
  lemma {:induction false} ClearNodesFirstError(s: seq<Node>, keys: seq<string>)
    requires ClearNodes(s, keys).Err?
    ensures exists i :: (0 <= i < |s| && ClearNode(s[i], keys) == Err(ClearNodes(s, keys).error) &&
                         forall j :: 0 <= j < i ==> ClearNode(s[j], keys).Ok?)
  {
    if ClearNode(s[0], keys).Ok? {
      var t := s[1..];
      ClearNodesFirstError(t, keys);
      var i :| 0 <= i < |t| && ClearNode(t[i], keys) == Err(ClearNodes(t, keys).error) &&
               forall j :: 0 <= j < i ==> ClearNode(t[j], keys).Ok?;
      assert forall j :: 0 <= j < |t| ==> s[j + 1] == t[j];
    }
  }

  /** The values handed to the encoder for a list of cleared nodes. */
  function Encoded(w: JsonWriter, s: seq<Node>): (values: seq<Node>)
    ensures w.wrappingKind == "" ==> values == s
    ensures w.wrappingKind != "" ==> |values| == 1 && MappingKeys(values[0]) == ["apiVersion", "kind", "items"]
    ensures w.wrappingKind != "" ==> Field(values[0], "items").Some? && Field(values[0], "items").value.content == s
    ensures w.wrappingKind != "" ==> Field(values[0], "kind") == Some(Scalar(w.wrappingKind))
  {
    if w.wrappingKind == "" then s else [Wrap(w.wrappingApiVersion, w.wrappingKind, s)]
  }

  /** json.Encoder.Encode on each value in turn (`encode` gives its error):
      the values written before the first failure, and that failure. */
  function Emit(values: seq<Node>, encode: Node -> Option<string>): (r: (seq<Node>, Option<string>))
    ensures r.1.None? ==> r.0 == values
    ensures r.1.Some? ==> |r.0| < |values| && r.0 == values[..|r.0|] && encode(values[|r.0|]) == r.1
    decreases |values|
  {
    if values == [] then ([], None)
    else match encode(values[0])
      case Some(e) => ([], Some(e))
      case None =>
        var rest := Emit(values[1..], encode);
        assert rest.1.Some? ==> [values[0]] + rest.0 == values[..1 + |rest.0|] by {
          if rest.1.Some? {
            assert values[1..][..|rest.0|] == values[1..1 + |rest.0|];
          }
        }
        ([values[0]] + rest.0, rest.1)
  }

  /** Encoding stops at the first failure: it fails exactly when some value
      fails to encode, and every value written before it encoded. */
  lemma {:induction false} EmitStopsAtFirstError(values: seq<Node>, encode: Node -> Option<string>)
    ensures Emit(values, encode).1.None? <==> forall i :: 0 <= i < |values| ==> encode(values[i]).None?
    ensures forall i :: 0 <= i < |Emit(values, encode).0| ==> encode(values[i]).None?
    decreases |values|
  {
    if values != [] && encode(values[0]).None? {
      EmitStopsAtFirstError(values[1..], encode);
      assert forall i :: 0 < i < |values| ==> values[i] == values[1..][i - 1];
    }
  }

  /** The encoding loop, stopping at the first error. */
  method EncodeAll(values: seq<Node>, encode: Node -> Option<string>) returns (written: seq<Node>, err: Option<string>)
    ensures (written, err) == Emit(values, encode)
  {
    written := [];
    assert values[0..] == values && [] + Emit(values, encode).0 == Emit(values, encode).0;
    for i := 0 to |values|
      invariant written == values[..i]
      invariant Emit(values, encode) == (written + Emit(values[i..], encode).0, Emit(values[i..], encode).1)
    {
      assert values[i..][0] == values[i] && values[i..][1..] == values[i + 1..];
      err := encode(values[i]);
      if err.Some? {
        assert Emit(values[i..], encode) == ([], err);
        assert written + [] == written;
        return;
      }
      var rest := Emit(values[i + 1..], encode);
      assert Emit(values[i..], encode) == ([values[i]] + rest.0, rest.1);
      assert written + ([values[i]] + rest.0) == (written + [values[i]]) + rest.0;
      assert values[..i + 1] == values[..i] + [values[i]];
      written := written + [values[i]];
    }
    assert values[|values|..] == [] && written + [] == written;
    err := None;
  }

  /** Clears the keys from one node in turn, as the inner loop does. */
  method ClearOne(n: Node, keys: seq<string>) returns (r: Result<Node>)
    ensures r == ClearNode(n, keys)
  {
    var m := n;
    for a := 0 to |keys|
      invariant ClearNode(n, keys) == ClearNode(m, keys[a..])
    {
      var c := ClearAnnotation(m, keys[a]);
      if c.Err? {
        return Err(c.error);
      }
      assert keys[a..][1..] == keys[a + 1..];
      m := c.value;
    }
    return Ok(m);
  }

  /** The clearing loop: every node cleared in place, or the first error, with the
      nodes before the failing one already cleared. */
  method ClearAll(nodes: array<Node>, keys: seq<string>) returns (err: Option<string>)
    modifies nodes
    ensures err.None? <==> ClearNodes(old(nodes[..]), keys).Ok?
    ensures err.None? ==> nodes[..] == ClearNodes(old(nodes[..]), keys).value
    ensures err.Some? ==> err == Some(ClearNodes(old(nodes[..]), keys).error)
  {
    for k := 0 to nodes.Length
      invariant forall j :: k <= j < nodes.Length ==> nodes[j] == old(nodes[j])
      invariant forall j :: 0 <= j < k ==> Ok(nodes[j]) == ClearNode(old(nodes[j]), keys)
    {
      var r := ClearOne(nodes[k], keys);
      if r.Err? {
        assert ClearNode(old(nodes[..])[k], keys) == Err(r.error);
        assert forall j :: 0 <= j < k ==> ClearNode(old(nodes[..])[j], keys).Ok?;
        ClearNodesFirstError(old(nodes[..]), keys);
        return Some(r.error);
      }
      nodes[k] := r.value;
    }
    assert forall j :: 0 <= j < nodes.Length ==> ClearNode(old(nodes[..])[j], keys).Ok?;
    assert ClearNodes(old(nodes[..]), keys).value == nodes[..];
    return None;
  }

  /** What JSONWriter.Write promises, from the nodes `before` to the nodes
      `after`. A sorting error leaves the nodes in whatever order the sort had
      reached. Otherwise they are sorted and cleared; a clearing error is the
      first node's that fails, and nothing is encoded then; after a full clear
      the values are encoded up to the first one the encoder fails on. */
  predicate Written(w: JsonWriter, before: seq<Node>, after: seq<Node>,
                    sortNodes: seq<Node> -> (seq<Node>, Option<string>),
                    encode: Node -> Option<string>, values: seq<Node>, err: Option<string>)
  {
    var sorted := if w.sort then sortNodes(before) else (before, None);
    (sorted.1.Some? ==> err == sorted.1 && values == [] && after == sorted.0) &&
    (sorted.1.None? ==>
      match ClearNodes(sorted.0, ClearedKeys(w))
      case Err(e) => err == Some(e) && values == []
      case Ok(cleared) => after == cleared && (values, err) == Emit(Encoded(w, cleared), encode))
  }

  /** JSONWriter.Write. `sortNodes` stands for kioutil.SortNodes, which reorders
      the list it is given in place and reports the first annotation it cannot
      read, and `encode` for json.Encoder.Encode. The nodes are sorted and
      cleared in place; the result lists the values encoded, one line of JSON
      each. Nothing is encoded unless every node was cleared. */
  method Write(w: JsonWriter, nodes: array<Node>, sortNodes: seq<Node> -> (seq<Node>, Option<string>),
               encode: Node -> Option<string>)
    returns (values: seq<Node>, err: Option<string>)
    requires forall s :: |sortNodes(s).0| == |s|
    modifies nodes
    ensures Written(w, old(nodes[..]), nodes[..], sortNodes, encode, values, err)
  {
    if w.sort {
      var sorted := sortNodes(nodes[..]);
      for k := 0 to nodes.Length
        invariant forall j :: 0 <= j < k ==> nodes[j] == sorted.0[j]
      {
        nodes[k] := sorted.0[k];
      }
      assert nodes[..] == sorted.0;
      if sorted.1.Some? {
        return [], sorted.1;
      }
    }
    err := ClearAll(nodes, ClearedKeys(w));
    if err.Some? {
      return [], err;
    }
    values, err := EncodeAll(Encoded(w, nodes[..]), encode);
  }
}
