/** Writer: the multi-format writer, which picks one output strategy from its
    format string and hands it the resources. */
module Format {
  import opened Results
  import opened GoStrings
  import opened Document
  import opened Whitespace
  import JsonOutput
  import TemplateOutput
  import EnvOutput

  /** The Writer fields besides the output stream. */
  datatype Writer = Writer(
    format: string,
    keepReaderAnnotations: bool,
    clearAnnotations: seq<string>,
    sort: bool,
    restoreVerticalWhiteSpace: bool,
    functions: map<string, TemplateOutput.Func>)

  /** The format name, in lower case, and its argument: the text after the first
      '=', or a format holding "{{" without '=' counts as a template that is the
      whole format. */
  function ParseFormat(format: string): (r: (string, string))
    ensures '=' in format ==> (var i := IndexByte(format, '=');
      r.0 == ToLower(format[..i]) && r.1 == format[i + 1..] && '=' !in r.0)
    ensures '=' !in format ==> r.1 == format
    ensures '=' !in format && Contains(ToLower(format), "{{") ==> r.0 == "template"
    ensures '=' !in format && !Contains(ToLower(format), "{{") ==> r.0 == ToLower(format)
  {
    var lower := ToLower(format);
    LowerKeepsIndex(format);
    var start := IndexByte(lower, '=') + 1;
    if start > 0 then
      assert lower[..start - 1] == ToLower(format[..start - 1]);
      (lower[..start - 1], format[start..])
    else if Contains(lower, "{{") then ("template", format)
    else (lower, format)
  }

  /** Lower-casing moves no '=', so the position in the lowered format is the
      position in the format as given. */
  lemma LowerKeepsIndex(s: string)
    ensures IndexByte(ToLower(s), '=') == IndexByte(s, '=')
  {
    var l := ToLower(s);
    assert forall k :: 0 <= k < |s| ==> (l[k] == '=' <==> s[k] == '=');
    var i := IndexByte(s, '=');
    var j := IndexByte(l, '=');
    if i >= 0 {
      assert l[i] == '=';
      assert forall k :: 0 <= k < i ==> s[k] != '=' by {
        forall k | 0 <= k < i ensures s[k] != '=' {
          assert s[..i][k] == s[k];
        }
      }
      assert '=' !in l[..i] by {
        forall k | 0 <= k < i ensures l[..i][k] != '=' {
          assert l[..i][k] == l[k];
        }
      }
    } else {
      assert '=' !in l;
    }
  }

  /** A format written as a name, '=' and an argument comes apart into the
      lower-cased name and the argument, untouched. */
  lemma ParseFormatJoin(name: string, arg: string)
    requires '=' !in name
    ensures ParseFormat(name + "=" + arg) == (ToLower(name), arg)
  {
    var f := name + "=" + arg;
    IndexAfter(name, arg, '=');
    assert f[..|name|] == name;
    assert f[|name| + 1..] == arg;
  }

  /** The heading of a column: the upper-cased segment after the last '.'. */
  function Header(c: string): (h: string)
    ensures '.' !in h
    ensures |h| <= |c|
  {
    var i := LastIndexByte(c, '.');
    var tail := c[i + 1..];
    var h := ToUpper(tail);
    assert forall k :: 0 <= k < |h| ==> h[k] != '.' by {
      forall k | 0 <= k < |h| ensures h[k] != '.' {
        assert tail[k] != '.';
      }
    }
    h
  }

  /** A heading is the upper-cased end of its specification, after a '.' when
      it is not the whole of it. */
  lemma HeaderIsLastSegment(c: string)
    ensures var h := Header(c);
      ToUpper(c[|c| - |h|..]) == h && (|h| < |c| ==> c[|c| - |h| - 1] == '.')
  {
  }

  /** The template action of a column: the field path with exactly one leading '.'. */
  function Column(c: string): (col: string)
    ensures HasPrefix(c, ".") ==> col == "{{ " + c + " }}"
    ensures !HasPrefix(c, ".") ==> col == "{{ ." + c + " }}"
  {
    var path := TrimPrefix(c, ".");
    assert HasPrefix(c, ".") ==> "." + path == c;
    "{{ ." + path + " }}"
  }

  /** Each piece with its surrounding white space trimmed. */
  function Trimmed(parts: seq<string>): (specs: seq<string>)
    ensures |specs| == |parts|
  {
    if parts == [] then [] else Trimmed(parts[..|parts| - 1]) + [TrimSpace(parts[|parts| - 1])]
  }

  lemma {:induction false} TrimmedAt(parts: seq<string>, i: nat)
    requires i < |parts|
    ensures Trimmed(parts)[i] == TrimSpace(parts[i])
  {
    if i < |parts| - 1 {
      TrimmedAt(parts[..|parts| - 1], i);
    }
  }

  /** The column specifications of a columns format: its comma-separated
      pieces, with surrounding white space trimmed. */
  function ColumnSpecs(arg: string): (specs: seq<string>)
    ensures |specs| == CountChar(arg, ',') + 1
    ensures forall i :: 0 <= i < |specs| ==> ',' !in specs[i]
  {
    var parts := Split(arg, ',');
    SplitPiecesFree(arg, ',');
    var specs := Trimmed(parts);
    assert forall i :: 0 <= i < |parts| ==> ',' !in specs[i] by {
      forall i | 0 <= i < |parts| ensures ',' !in specs[i] {
        TrimmedAt(parts, i);
        TrimSpaceAbsent(parts[i], ',');
      }
    }
    specs
  }

  lemma TrimSpaceAbsent(s: string, c: char)
    requires c !in s
    ensures c !in TrimSpace(s)
  {
    var r := TrimSpace(s);
    var a := LeadingSpaces(s);
    assert forall k :: 0 <= k < |r| ==> r[k] == s[a + k];
  }

  /** The heading of each specification. */
  function HeadersOf(specs: seq<string>): (hs: seq<string>)
    ensures |hs| == |specs|
  {
    if specs == [] then [] else HeadersOf(specs[..|specs| - 1]) + [Header(specs[|specs| - 1])]
  }

  /** The template action of each specification. */
  function ColumnsOf(specs: seq<string>): (cs: seq<string>)
    ensures |cs| == |specs|
  {
    if specs == [] then [] else ColumnsOf(specs[..|specs| - 1]) + [Column(specs[|specs| - 1])]
  }

  lemma {:induction false} HeadersOfAt(specs: seq<string>, i: nat)
    requires i < |specs|
    ensures HeadersOf(specs)[i] == Header(specs[i])
  {
    if i < |specs| - 1 {
      HeadersOfAt(specs[..|specs| - 1], i);
    }
  }

  function Headers(arg: string): seq<string> {
    HeadersOf(ColumnSpecs(arg))
  }

  function Columns(arg: string): seq<string> {
    ColumnsOf(ColumnSpecs(arg))
  }

  /** The loop over the column specifications that collects headings and actions. */
  method BuildColumns(arg: string) returns (headers: seq<string>, columns: seq<string>)
    ensures headers == Headers(arg) && columns == Columns(arg)
  {
    headers, columns := CollectColumns(Split(arg, ','));
  }

  /** The loop body over the pieces of the format. */
  method CollectColumns(parts: seq<string>) returns (headers: seq<string>, columns: seq<string>)
    ensures headers == HeadersOf(Trimmed(parts)) && columns == ColumnsOf(Trimmed(parts))
  {
    headers, columns := [], [];
    var i := 0;
    while i < |parts|
      invariant i <= |parts|
      invariant headers == HeadersOf(Trimmed(parts[..i])) && columns == ColumnsOf(Trimmed(parts[..i]))
    {
      var c := TrimSpace(parts[i]);
      ColumnsSnoc(parts, i);
      headers := headers + [Header(c)];
      columns := columns + [Column(c)];
      i := i + 1;
    }
    assert parts[..i] == parts;
  }

  /** One more piece adds one heading and one action at the end. */
  lemma ColumnsSnoc(parts: seq<string>, i: nat)
    requires i < |parts|
    ensures HeadersOf(Trimmed(parts[..i + 1])) == HeadersOf(Trimmed(parts[..i])) + [Header(TrimSpace(parts[i]))]
    ensures ColumnsOf(Trimmed(parts[..i + 1])) == ColumnsOf(Trimmed(parts[..i])) + [Column(TrimSpace(parts[i]))]
  {
    assert parts[..i + 1][..i] == parts[..i];
    var specs := Trimmed(parts[..i + 1]);
    assert specs[..|specs| - 1] == Trimmed(parts[..i]);
  }

  /** The template of a columns format: a tab-separated heading row and one row
      per item, or "No results." for an empty list. */
  function ColumnsTemplate(headers: seq<string>, columns: seq<string>): (t: string)
    ensures HasPrefix(t, "{{ if .items }}")
  {
    "{{ if .items }}" + Join(headers, "\t") + "\n{{ range .items }}" + Join(columns, "\t")
      + "\n{{ end }}{{ else }}No results.\n{{ end }}"
  }

  /** A heading has a tab only where its specification had one. */
  lemma HeaderAbsent(c: string)
    requires '\t' !in c
    ensures '\t' !in Header(c)
  {
    var h := Header(c);
    HeaderIsLastSegment(c);
    var tail := c[|c| - |h|..];
    assert forall k :: 0 <= k < |h| ==> h[k] == UpperChar(tail[k]);
  }

  /** Without a tab in the format, the heading row has exactly one cell per
      column specification, and the cells are the headings in order. */
  lemma HeadingRowCells(arg: string)
    requires '\t' !in arg
    ensures Split(Join(Headers(arg), "\t"), '\t') == Headers(arg)
    ensures |Split(Join(Headers(arg), "\t"), '\t')| == CountChar(arg, ',') + 1
  {
    var parts := Split(arg, ',');
    SplitAbsent(arg, ',', '\t');
    var specs := ColumnSpecs(arg);
    var hs := Headers(arg);
    forall i | 0 <= i < |hs| ensures '\t' !in hs[i] {
      TrimSpaceAbsent(parts[i], '\t');
      TrimmedAt(parts, i);
      HeadersOfAt(specs, i);
      HeaderAbsent(specs[i]);
    }
    assert "\t" == ['\t'];
    SplitJoin(hs, '\t');
  }

  /** The name template of the "name" format: the lower-cased kind, '/', the name. */
  const NameTemplate := "{{ lower .kind }}/{{ .metadata.name }}\n"

  /** The formats the writer knows. */
  const KnownFormats := {"yaml", "", "json", "ndjson", "env", "name", "template", "go-template",
                         "columns", "custom-columns"}

  /** The output strategy a format selects. `tabular` marks a template writer
      that writes through a tab writer, which is always flushed. */
  datatype Strategy =
    | YamlStrategy(restore: bool, config: ByteWriter)
    | JsonStrategy(json: JsonOutput.JsonWriter)
    | EnvStrategy(env: EnvOutput.EnvWriter)
    | TemplateStrategy(template: TemplateOutput.TemplateWriter, tabular: bool)

  /** The strategy of a format name and argument, None for an unknown name. */
  function StrategyFor(w: Writer, name: string, arg: string): (r: Option<Strategy>)
    ensures r.None? <==> name !in KnownFormats
    ensures r.Some? && r.value.YamlStrategy? ==>
      r.value == YamlStrategy(w.restoreVerticalWhiteSpace, ByteWriter(w.keepReaderAnnotations, w.clearAnnotations, w.sort))
    ensures r.Some? && r.value.JsonStrategy? ==>
      (var j := r.value.json;
       j.keepReaderAnnotations == w.keepReaderAnnotations && j.clearAnnotations == w.clearAnnotations &&
       j.sort == w.sort && (j.wrappingKind == "List" <==> name == "json") &&
       (name == "json" ==> j.wrappingApiVersion == "v1") &&
       (name == "ndjson" ==> j.wrappingKind == "" && j.wrappingApiVersion == ""))
    ensures r.Some? && r.value.EnvStrategy? ==> r.value.env == EnvOutput.EnvWriter(false, "", "")
    ensures r.Some? && r.value.TemplateStrategy? ==>
      ((r.value.tabular <==> r.value.template.wrappingKind == "List") &&
       (name == "name" ==> r.value.template.functions == map[]))
    ensures name == "name" ==>
      r == Some(TemplateStrategy(TemplateOutput.TemplateWriter(NameTemplate, map[], "", ""), false))
    ensures name == "template" || name == "go-template" ==>
      r == Some(TemplateStrategy(TemplateOutput.TemplateWriter(arg, w.functions, "", ""), false))
    ensures name == "columns" || name == "custom-columns" ==>
      r == Some(TemplateStrategy(TemplateOutput.TemplateWriter(ColumnsTemplate(Headers(arg), Columns(arg)),
        w.functions, "List", "v1"), true))
  {
    if name == "yaml" || name == "" then
      Some(YamlStrategy(w.restoreVerticalWhiteSpace, ByteWriter(w.keepReaderAnnotations, w.clearAnnotations, w.sort)))
    else if name == "json" then
      Some(JsonStrategy(JsonOutput.JsonWriter(w.keepReaderAnnotations, w.clearAnnotations, "List", "v1", w.sort)))
    else if name == "ndjson" then
      Some(JsonStrategy(JsonOutput.JsonWriter(w.keepReaderAnnotations, w.clearAnnotations, "", "", w.sort)))
    else if name == "env" then
      Some(EnvStrategy(EnvOutput.EnvWriter(false, "", "")))
    else if name == "name" then
      Some(TemplateStrategy(TemplateOutput.TemplateWriter(NameTemplate, map[], "", ""), false))
    else if name == "template" || name == "go-template" then
      Some(TemplateStrategy(TemplateOutput.TemplateWriter(arg, w.functions, "", ""), false))
    else if name == "columns" || name == "custom-columns" then
      Some(TemplateStrategy(TemplateOutput.TemplateWriter(ColumnsTemplate(Headers(arg), Columns(arg)),
        w.functions, "List", "v1"), true))
    else None
  }

  /** The strategy of the format, or "unknown format: " and the format as given. */
  function Select(w: Writer): (r: Result<Strategy>)
    ensures r.Err? <==> ParseFormat(w.format).0 !in KnownFormats
    ensures r.Err? ==> r.error == "unknown format: " + w.format
    ensures r.Ok? ==> Some(r.value) == StrategyFor(w, ParseFormat(w.format).0, ParseFormat(w.format).1)
  {
    var p := ParseFormat(w.format);
    match StrategyFor(w, p.0, p.1)
    case None => Err("unknown format: " + w.format)
    case Some(s) => Ok(s)
  }

  /** A format holding "{{" and no '=' is run as a template that is the whole format. */
  lemma BareTemplate(w: Writer)
    requires '=' !in w.format && Contains(ToLower(w.format), "{{")
    ensures Select(w) == Ok(TemplateStrategy(TemplateOutput.TemplateWriter(w.format, w.functions, "", ""), false))
  {
  }

  /** A columns format wraps the nodes in one v1 List and runs the columns template. */
  lemma ColumnsFormat(w: Writer, arg: string)
    requires w.format == "custom-columns=" + arg
    ensures Select(w) == Ok(TemplateStrategy(TemplateOutput.TemplateWriter(
      ColumnsTemplate(Headers(arg), Columns(arg)), w.functions, "List", "v1"), true))
  {
    ParseColumns(arg);
    ColumnsStrategy(w, arg);
  }

  lemma ParseColumns(arg: string)
    ensures ParseFormat("custom-columns=" + arg) == ("custom-columns", arg)
  {
    var name := "custom-columns";
    assert "custom-columns=" + arg == name + "=" + arg;
    ColumnsName();
    ParseFormatJoin(name, arg);
  }

  lemma ColumnsName()
    ensures '=' !in "custom-columns" && ToLower("custom-columns") == "custom-columns"
  {
    var name := "custom-columns";
    assert forall k :: 0 <= k < |name| ==> 'a' <= name[k] <= 'z' || name[k] == '-';
  }

  lemma ColumnsStrategy(w: Writer, arg: string)
    ensures StrategyFor(w, "custom-columns", arg) == Some(TemplateStrategy(TemplateOutput.TemplateWriter(
      ColumnsTemplate(Headers(arg), Columns(arg)), w.functions, "List", "v1"), true))
  {
    var name := "custom-columns";
    assert name != "yaml" && name != "" && name != "json" && name != "ndjson" && name != "env" && name != "name";
    assert name != "template" && name != "go-template" && name != "columns";
  }

  /** What the chosen writer produced. */
  datatype Output =
    | NoOutput
    | YamlOutput(config: ByteWriter, nodes: seq<Node>)
    | JsonValues(values: seq<Node>)
    | TemplateText(chunks: seq<string>, flushed: bool)
    | EnvLines(lines: seq<string>, orders: seq<seq<string>>)

  /** The libraries and environment the writers reach out to: the YAML encoder,
      kioutil.SortNodes, the JSON encoder, text/template, label selector
      matching, the SHELL variable, whether the output stream can be flushed,
      and the error flushing it gives. */
  datatype Io<!T, !D> = Io(
    byteWrite: (ByteWriter, seq<Node>) -> Option<string>,
    sortNodes: seq<Node> -> (seq<Node>, Option<string>),
    encode: Node -> Option<string>,
    lib: TemplateOutput.TemplateLib<T, D>,
    matches: (Node, string) -> Result<bool>,
    envShell: string,
    flushable: bool,
    flushError: Option<string>)

  /** Writer.Write: the strategy of the format writes the nodes. */
  method Write<T, D>(w: Writer, nodes: array<Node>, io: Io<T, D>) returns (out: Output, err: Option<string>)
    requires forall s :: |io.sortNodes(s).0| == |s|
    modifies nodes
    ensures Select(w).Err? ==> out == NoOutput && err == Some(Select(w).error) && nodes[..] == old(nodes[..])
    ensures Select(w).Ok? ==>
      match Select(w).value
      case YamlStrategy(restore, config) =>
        (forall k :: 0 <= k < nodes.Length ==> nodes[k] == if restore then Restored(old(nodes[k])) else old(nodes[k])) &&
        out == YamlOutput(config, nodes[..]) && err == io.byteWrite(config, nodes[..])
      case JsonStrategy(json) =>
        out.JsonValues? && JsonOutput.Written(json, old(nodes[..]), nodes[..], io.sortNodes, io.encode, out.values, err)
      case EnvStrategy(env) =>
        nodes[..] == old(nodes[..]) && out.EnvLines? &&
        EnvOutput.Written(env, nodes[..], io.matches, io.envShell, out.lines, out.orders, err)
      case TemplateStrategy(t, tabular) =>
        nodes[..] == old(nodes[..]) && out.TemplateText? &&
        TemplateOutput.Written(t, nodes[..], io.lib, tabular || io.flushable, io.flushError, out.chunks, out.flushed, err)
  {
    var s := Select(w);
    if s.Err? {
      return NoOutput, Some(s.error);
    }
    match s.value
    case YamlStrategy(restore, config) =>
      if restore {
        RestoreVerticalWhiteSpace(nodes);
      }
      out := YamlOutput(config, nodes[..]);
      err := io.byteWrite(config, nodes[..]);
    case JsonStrategy(json) =>
      var values;
      values, err := JsonOutput.Write(json, nodes, io.sortNodes, io.encode);
      out := JsonValues(values);
    case EnvStrategy(env) =>
      var lines, orders;
      lines, orders, err := EnvOutput.Write(env, nodes[..], io.matches, io.envShell);
      out := EnvLines(lines, orders);
    case TemplateStrategy(t, tabular) =>
      var chunks, flushed;
      chunks, flushed, err := TemplateOutput.Write(t, nodes[..], io.lib, tabular || io.flushable, io.flushError);
      out := TemplateText(chunks, flushed);
  }
}
