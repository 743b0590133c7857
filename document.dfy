/** The resource document model: a YAML node tree (kind, scalar value, source
    line, head and foot comments, children) whose root also carries the
    resource's annotation table. */
module Document {
  import opened Results

  datatype NodeKind = DocumentNode | SequenceNode | MappingNode | ScalarNode | AliasNode

  /** The `metadata.annotations` of a resource, or a malformed annotation
      section on which clearing an annotation fails. */
  datatype Annotations = Annotations(entries: map<string, string>) | MalformedAnnotations

  /** A node of the tree. A mapping's children alternate key, value. Nodes below
      the root carry an empty annotation table. */
  datatype Node = Node(
    kind: NodeKind,
    value: string,
    line: int,
    headComment: string,
    footComment: string,
    content: seq<Node>,
    annotations: Annotations)

  /** kioutil.IndexAnnotation and kioutil.PathAnnotation. */
  const IndexAnnotation: string := "config.kubernetes.io/index"
  const PathAnnotation: string := "config.kubernetes.io/path"

  const NoAnnotations: Annotations := Annotations(map[])

  /** The settings of a kio.ByteWriter, the YAML encoder of the kyaml library. */
  datatype ByteWriter = ByteWriter(keepReaderAnnotations: bool, clearAnnotations: seq<string>, sort: bool)

  /** A scalar node built in code, as `&yaml.Node{Kind: yaml.ScalarNode, Value: v}`. */
  function Scalar(v: string): Node {
    Node(ScalarNode, v, 0, "", "", [], NoAnnotations)
  }

  /** yaml.ClearAnnotation(key): removes one annotation, and fails when the
      annotation section is malformed. */
  function ClearAnnotation(n: Node, key: string): (r: Result<Node>)
    ensures r.Err? <==> n.annotations.MalformedAnnotations?
    ensures r.Ok? ==> r.value.annotations.Annotations?
    ensures r.Ok? ==> key !in r.value.annotations.entries
    ensures r.Ok? ==> forall k :: k in n.annotations.entries && k != key ==>
      k in r.value.annotations.entries && r.value.annotations.entries[k] == n.annotations.entries[k]
    ensures r.Ok? ==> r.value.annotations.entries.Keys <= n.annotations.entries.Keys
    ensures r.Ok? ==> r.value.(annotations := n.annotations) == n
  {
    match n.annotations
    case MalformedAnnotations => Err("wrong node kind for metadata.annotations")
    case Annotations(entries) => Ok(n.(annotations := Annotations(entries - {key})))
  }

  /** Clearing an annotation that is absent changes nothing and never fails
      on a well-formed section; so clearing is idempotent. */
  lemma ClearAbsentAnnotation(n: Node, key: string)
    requires n.annotations.Annotations? && key !in n.annotations.entries
    ensures ClearAnnotation(n, key) == Ok(n)
  {
    assert n.annotations.entries - {key} == n.annotations.entries;
  }

  lemma ClearAnnotationIdempotent(n: Node, key: string)
    requires ClearAnnotation(n, key).Ok?
    ensures ClearAnnotation(ClearAnnotation(n, key).value, key) == ClearAnnotation(n, key)
  {
    ClearAbsentAnnotation(ClearAnnotation(n, key).value, key);
  }

  /** The index of the first mapping key at or after position `i` whose text is
      `name` and that has a value after it. */
  function FieldFrom(n: Node, name: string, i: nat): (r: Option<nat>)
    ensures r.Some? ==> i <= r.value && r.value + 1 < |n.content| && n.content[r.value].value == name
    ensures r.Some? ==> (r.value - i) % 2 == 0
    decreases |n.content| - i
  {
    if i + 1 >= |n.content| then None
    else if n.content[i].value == name then Some(i)
    else FieldFrom(n, name, i + 2)
  }

  /** RNode.Field(name).Value: the value of the first key `name` of a mapping. */
  function Field(n: Node, name: string): (r: Option<Node>)
    ensures r.Some? ==> n.kind == MappingNode
    ensures r.Some? ==> exists i :: (0 <= i < |n.content| - 1 && i % 2 == 0 &&
      n.content[i].value == name && r.value == n.content[i + 1])
  {
    if n.kind != MappingNode then None
    else match FieldFrom(n, name, 0)
      case None => None
      case Some(i) => Some(n.content[i + 1])
  }

  /** yaml.GetValue(Field(...)): the text of a field's value, "" when missing. */
  function FieldValue(n: Node, name: string): string {
    match Field(n, name)
    case None => ""
    case Some(v) => v.value
  }

  /** The texts of a mapping's keys, in order. */
  function MappingKeys(n: Node): (keys: seq<string>)
    ensures |keys| == |n.content| / 2
    ensures forall i :: 0 <= i < |keys| ==> keys[i] == n.content[2 * i].value
  {
    seq(|n.content| / 2, i requires 0 <= i < |n.content| / 2 => n.content[2 * i].value)
  }

  /** RNode.GetMeta() fails to decode the resource's metadata. The only
      malformed metadata of this model is a malformed annotation section. */
  predicate MetaFails(n: Node) {
    n.annotations.MalformedAnnotations?
  }

  /** `GetMeta()` succeeds with kind "Secret". */
  predicate IsSecret(n: Node) {
    !MetaFails(n) && FieldValue(n, "kind") == "Secret"
  }

  /** RNode.GetDataMap(): the scalar texts of the `data` mapping, each key mapped
      to the value of its first occurrence; empty when there is no `data` mapping. */
  function DataMap(n: Node): (m: map<string, string>)
    ensures forall k :: k in m ==> exists d :: Field(n, "data") == Some(d) && k in MappingKeys(d)
  {
    match Field(n, "data")
    case None => map[]
    case Some(d) =>
      if d.kind != MappingNode then map[]
      else map k | k in MappingKeys(d) :: FieldValue(d, k)
  }

  /** wrap(apiVersion, kind, nodes): a `List` document whose mapping holds
      apiVersion, kind and items, in that order, with the nodes as the items. */
  function Wrap(apiVersion: string, kind: string, items: seq<Node>): (r: Node)
    ensures r.kind == MappingNode
    ensures MappingKeys(r) == ["apiVersion", "kind", "items"]
    ensures Field(r, "apiVersion") == Some(Scalar(apiVersion))
    ensures Field(r, "kind") == Some(Scalar(kind))
    ensures Field(r, "items").Some?
    ensures Field(r, "items").value.kind == SequenceNode
    ensures Field(r, "items").value.content == items
  {
    var list := Node(SequenceNode, "", 0, "", "", items, NoAnnotations);
    var r := Node(MappingNode, "", 0, "", "",
      [Scalar("apiVersion"), Scalar(apiVersion), Scalar("kind"), Scalar(kind), Scalar("items"), list],
      NoAnnotations);
    assert FieldFrom(r, "kind", 0) == Some(2);
    assert FieldFrom(r, "items", 4) == Some(4);
    assert "kind" != "items" && "apiVersion" != "items" by {
      assert "kind"[0] != "items"[0] && "apiVersion"[0] != "items"[0];
    }
    assert FieldFrom(r, "items", 0) == Some(4);
    r
  }
}
