/** The Jsonnet generator plugin: where its program comes from, the import
    search path, how parameters reach the Jsonnet VM, and how the JSON the
    program evaluates to becomes an ordered list of resources. The VM, the
    secret importer and the resource factory are given as functions. */
module Jsonnet {
  import opened Results
  import opened GoStrings

  /** An external variable or top-level argument; all fields but the name are
      alternatives. */
  datatype Parameter = Parameter(name: string, str: string, stringFile: string, code: string, codeFile: string)

  /** The plugin configuration. */
  datatype Plugin = Plugin(
    filename: string,
    code: string,
    jsonnetPath: seq<string>,
    externalVariables: seq<Parameter>,
    topLevelArguments: seq<Parameter>)

  /** The program to evaluate: its name, its text (None for Go's nil), and the
      error of reading the file. `readFile` stands for ioutil.ReadFile. */
  function ReadInput(p: Plugin, readFile: string -> Result<string>): (r: (string, Option<string>, Option<string>))
    ensures p.filename != "" ==> r.0 == p.filename
    ensures p.filename != "" ==> (r.2.None? <==> readFile(p.filename).Ok?)
    ensures p.filename != "" && readFile(p.filename).Ok? ==> r.1 == Some(readFile(p.filename).value)
    ensures p.filename == "" && p.code != "" ==> r == ("<cmdline>", Some(p.code), None)
    ensures p.filename == "" && p.code == "" ==> r == ("<empty>", None, None)
  {
    if p.filename != "" then
      match readFile(p.filename)
      case Ok(b) => (p.filename, Some(b), None)
      case Err(e) => (p.filename, None, Some(e))
    else if p.code != "" then ("<cmdline>", Some(p.code), None)
    else ("<empty>", None, None)
  }

  /** A file name makes the inline code irrelevant. */
  lemma FilenameWins(p: Plugin, code: string, readFile: string -> Result<string>)
    requires p.filename != ""
    ensures ReadInput(p.(code := code), readFile) == ReadInput(p, readFile)
  {
  }

  /** Only the empty configuration or a failed read leaves the program nil. */
  lemma NilInput(p: Plugin, readFile: string -> Result<string>)
    ensures ReadInput(p, readFile).1.None? <==>
      (p.filename == "" && p.code == "") || (p.filename != "" && readFile(p.filename).Err?)
  {
  }

  /** filepath.SplitList on a Unix host: no entries for the empty string,
      otherwise the pieces between ':'. */
  function SplitList(path: string): (r: seq<string>)
    ensures path == "" ==> r == []
    ensures path != "" ==> |r| == CountChar(path, ':') + 1 && Join(r, ":") == path
  {
    if path == "" then [] else Split(path, ':')
  }

  function Reverse<T>(s: seq<T>): (r: seq<T>)
    ensures |r| == |s|
    ensures forall i :: 0 <= i < |s| ==> r[i] == s[|s| - 1 - i]
  {
    if s == [] then [] else [s[|s| - 1]] + Reverse(s[..|s| - 1])
  }

  lemma ReverseReverse<T>(s: seq<T>)
    ensures Reverse(Reverse(s)) == s
  {
  }

  /** The import search path: the JSONNET_PATH entries last to first, then the
      configured paths. */
  function SearchPath(env: string, jpath: seq<string>): seq<string> {
    Reverse(SplitList(env)) + jpath
  }

  /** The search path holds every entry once per occurrence, the environment's
      reversed in front of the configured ones. */
  lemma SearchPathShape(env: string, jpath: seq<string>)
    ensures |SearchPath(env, jpath)| == |SplitList(env)| + |jpath|
    ensures jpath == SearchPath(env, jpath)[|SplitList(env)|..]
    ensures Reverse(SearchPath(env, jpath)[..|SplitList(env)|]) == SplitList(env)
  {
    var r := SearchPath(env, jpath);
    var e := SplitList(env);
    assert r[..|e|] == Reverse(e);
    ReverseReverse(e);
  }

  /** The reversing loop over the environment's entries, then the configured ones. */
  method ReversedEntries(entries: seq<string>, jpath: seq<string>) returns (r: seq<string>)
    ensures r == Reverse(entries) + jpath
  {
    r := [];
    var i := |entries| - 1;
    while i >= 0
      invariant -1 <= i < |entries|
      invariant r == Reverse(entries[i + 1..])
    {
      assert entries[i..] == [entries[i]] + entries[i + 1..];
      ReverseCons(entries[i], entries[i + 1..]);
      r := r + [entries[i]];
      i := i - 1;
    }
    assert entries[0..] == entries;
    r := r + jpath;
  }

  lemma ReverseCons<T>(x: T, s: seq<T>)
    ensures Reverse([x] + s) == Reverse(s) + [x]
  {
    var t := [x] + s;
    var a := Reverse(t);
    var b := Reverse(s) + [x];
    assert |a| == |b|;
    forall i | 0 <= i < |a| ensures a[i] == b[i] {
      if i < |s| {
        assert a[i] == t[|t| - 1 - i] == s[|s| - 1 - i];
      } else {
        assert a[i] == t[0];
      }
    }
  }

  /** plugin.evalJpath, with `env` the value of JSONNET_PATH. */
  method EvalJpath(p: Plugin, env: string) returns (r: seq<string>)
    ensures r == SearchPath(env, p.jsonnetPath)
  {
    r := ReversedEntries(SplitList(env), p.jsonnetPath);
  }

  /** The importer: the secret importer first, then files on the search path. */
  datatype KonjureImporter = KonjureImporter(jpaths: seq<string>)

  /** newKonjureImporter: fails exactly when the secret importer cannot be made. */
  method NewKonjureImporter(jpaths: seq<string>, env: string, secretErr: Option<string>)
    returns (r: Result<KonjureImporter>)
    ensures secretErr.Some? ==> r == Err(secretErr.value)
    ensures secretErr.None? ==> r == Ok(KonjureImporter(SearchPath(env, jpaths)))
  {
    if secretErr.Some? {
      return Err(secretErr.value);
    }
    var fi := ReversedEntries(SplitList(env), jpaths);
    return Ok(KonjureImporter(fi));
  }

  /** A call made on the Jsonnet VM for one parameter. */
  datatype Call = VarCall(name: string, value: string) | CodeCall(name: string, code: string)

  /** Quote doubling for a Jsonnet verbatim string: every "'" becomes "''". */
  function Double(s: string): (r: string)
    ensures |r| == |s| + CountChar(s, '\'')
  {
    ReplaceCharLength(s, '\'', "''");
    ReplaceChar(s, '\'', "''")
  }

  /** Reading a verbatim string's body back: every "''" becomes "'". */
  function Undouble(s: string): string
    decreases |s|
  {
    if |s| >= 2 && s[0] == '\'' && s[1] == '\'' then "'" + Undouble(s[2..])
    else if s == [] then []
    else [s[0]] + Undouble(s[1..])
  }

  lemma {:induction false} UndoubleDouble(s: string)
    ensures Undouble(Double(s)) == s
  {
    if s != [] {
      UndoubleDouble(s[1..]);
      var d := Double(s);
      var rest := Double(s[1..]);
      if s[0] == '\'' {
        assert d == "''" + rest;
        assert d[2..] == rest;
      } else {
        assert d == [s[0]] + rest;
        assert d[1..] == rest;
      }
      assert s == [s[0]] + s[1..];
    }
  }

  const StringFilePrefix := "importstr @'"

  /** The code that imports a file's contents as a string. */
  function ImportStr(path: string): (code: string)
    ensures |code| == |StringFilePrefix| + |Double(path)| + 1
    ensures HasPrefix(code, StringFilePrefix) && code[|code| - 1] == '\''
    ensures Undouble(code[|StringFilePrefix|..|code| - 1]) == path
  {
    var code := StringFilePrefix + Double(path) + "'";
    assert code[|StringFilePrefix|..|code| - 1] == Double(path);
    UndoubleDouble(path);
    code
  }

  /** The call for one parameter: the first non-empty of the string, the string
      file, the code and the code file. The code-file call formats the
      string-file field, which is empty in that branch. */
  function ParamCall(p: Parameter): (c: Option<Call>)
    ensures c.None? <==> p.str == "" && p.stringFile == "" && p.code == "" && p.codeFile == ""
    ensures c.Some? ==> c.value.name == p.name
    ensures c.Some? ==> (c.value.VarCall? <==> p.str != "")
    ensures p.str != "" ==> c == Some(VarCall(p.name, p.str))
    ensures p.str == "" && p.stringFile != "" ==> c == Some(CodeCall(p.name, ImportStr(p.stringFile)))
    ensures p.str == "" && p.stringFile == "" && p.code != "" ==> c == Some(CodeCall(p.name, p.code))
  {
    if p.str != "" then Some(VarCall(p.name, p.str))
    else if p.stringFile != "" then Some(CodeCall(p.name, ImportStr(p.stringFile)))
    else if p.code != "" then Some(CodeCall(p.name, p.code))
    else if p.codeFile != "" then Some(CodeCall(p.name, "import @'" + Double(p.stringFile) + "'"))
    else None
  }

  /** The code-file branch never names the code file. */
  lemma CodeFileImportsNothing(p: Parameter)
    requires p.str == "" && p.stringFile == "" && p.code == "" && p.codeFile != ""
    ensures ParamCall(p) == Some(CodeCall(p.name, "import @''"))
  {
    assert Double("") == "";
    assert "import @'" + "" + "'" == "import @''";
  }

  /** The calls for a list of parameters, in order. */
  function Calls(params: seq<Parameter>): seq<Call> {
    if params == [] then []
    else
      var init := Calls(params[..|params| - 1]);
      match ParamCall(params[|params| - 1])
      case None => init
      case Some(c) => init + [c]
  }

  /** At most one call per parameter. */
  lemma {:induction false} CallsBound(params: seq<Parameter>)
    ensures |Calls(params)| <= |params|
  {
    if params != [] {
      CallsBound(params[..|params| - 1]);
    }
  }

  /** The calls of two lists of parameters are those of the first, then those
      of the second. */
  lemma {:induction false} CallsAppend(ps: seq<Parameter>, qs: seq<Parameter>)
    ensures Calls(ps + qs) == Calls(ps) + Calls(qs)
    decreases |qs|
  {
    if qs == [] {
      assert ps + qs == ps;
    } else {
      var q := qs[..|qs| - 1];
      assert (ps + qs)[..|ps + qs| - 1] == ps + q;
      assert (ps + qs)[|ps + qs| - 1] == qs[|qs| - 1];
      CallsAppend(ps, q);
    }
  }

  /** A parameter with every field empty makes no call wherever it appears. */
  lemma EmptyParameterNoCall(ps: seq<Parameter>, name: string, qs: seq<Parameter>)
    ensures Calls(ps + [Parameter(name, "", "", "", "")] + qs) == Calls(ps) + Calls(qs)
  {
    CallsAppend(ps + [Parameter(name, "", "", "", "")], qs);
    CallsAppend(ps, [Parameter(name, "", "", "", "")]);
    assert Calls([Parameter(name, "", "", "", "")]) == [];
  }

  /** processParameters: the handlers called, in order. */
  method ProcessParameters(params: seq<Parameter>) returns (calls: seq<Call>)
    ensures calls == Calls(params)
  {
    calls := [];
    for i := 0 to |params|
      invariant calls == Calls(params[..i])
    {
      assert params[..i + 1][..i] == params[..i];
      var c := ParamCall(params[i]);
      if c.Some? {
        calls := calls + [c.value];
      }
    }
    assert params[..|params|] == params;
  }

  /** The JSON values of the program's output. */
  datatype Json =
    | JNull
    | JBool(b: bool)
    | JNumber(text: string)
    | JString(s: string)
    | JArray(items: seq<Json>)
    | JObject(fields: map<string, Json>)

  type Object = map<string, Json>

  /** encoding/json decoding into a list or a map, and appending a resource made
      from an object to the resource map built so far (which can fail). */
  datatype JsonLib = JsonLib(
    unmarshalList: string -> Result<seq<Json>>,
    unmarshalObject: string -> Result<Object>,
    append: (seq<Object>, Object) -> Option<string>)

  /** Appending the items in order: `msg` for an item that is not an object,
      the append error for one that cannot be added. */
  function AppendAll(lib: JsonLib, m: seq<Object>, items: seq<Json>, msg: string): (r: Result<seq<Object>>)
    ensures r.Ok? ==> |r.value| == |m| + |items| && r.value[..|m|] == m
    ensures r.Ok? ==> forall i :: 0 <= i < |items| ==> items[i] == JObject(r.value[|m| + i])
    ensures (exists i :: 0 <= i < |items| && !items[i].JObject?) ==> r.Err?
    decreases |items|
  {
    if items == [] then Ok(m)
    else match items[0]
      case JObject(o) =>
        (match lib.append(m, o)
         case Some(e) => Err(e)
         case None =>
           var r := AppendAll(lib, m + [o], items[1..], msg);
           assert forall i :: 0 < i < |items| ==> items[i] == items[1..][i - 1];
           if r.Ok? then
             assert r.value[..|m|] == (r.value[..|m| + 1])[..|m|];
             r
           else r)
      case _ => Err(msg)
  }

  /** Leaving append errors aside, a non-object item anywhere is reported
      with `msg`. */
  lemma {:induction false} AppendAllNonObject(lib: JsonLib, m: seq<Object>, items: seq<Json>, msg: string)
    requires forall l, o :: lib.append(l, o).None?
    requires exists i :: 0 <= i < |items| && !items[i].JObject?
    ensures AppendAll(lib, m, items, msg) == Err(msg)
    decreases |items|
  {
    if items[0].JObject? {
      var i :| 0 <= i < |items| && !items[i].JObject?;
      assert items[1..][i - 1] == items[i];
      AppendAllNonObject(lib, m + [items[0].fields], items[1..], msg);
    }
  }

  /** Leaving append errors aside, a list of objects is appended whole, in order. */
  lemma {:induction false} AppendAllObjects(lib: JsonLib, m: seq<Object>, items: seq<Json>, msg: string)
    requires forall l, o :: lib.append(l, o).None?
    requires forall i :: 0 <= i < |items| ==> items[i].JObject?
    ensures AppendAll(lib, m, items, msg).Ok?
    decreases |items|
  {
    if items != [] {
      assert forall i :: 0 <= i < |items| - 1 ==> items[1..][i] == items[i + 1];
      AppendAllObjects(lib, m + [items[0].fields], items[1..], msg);
    }
  }

  predicate Sorted(s: seq<string>) {
    forall i, j :: 0 <= i < j < |s| ==> !LexLess(s[j], s[i])
  }

  predicate StrictlySorted(s: seq<string>) {
    forall i, j :: 0 <= i < j < |s| ==> LexLess(s[i], s[j])
  }

  /** Inserting into a sorted list keeps it sorted. */
  function Insert(s: seq<string>, x: string): (r: seq<string>)
    requires Sorted(s)
    ensures Sorted(r) && multiset(r) == multiset(s) + multiset{x}
  {
    if s == [] then [x]
    else if LexLess(s[0], x) then
      var t := Insert(s[1..], x);
      assert s == [s[0]] + s[1..];
      forall k | 0 <= k < |t| ensures !LexLess(t[k], s[0]) {
        assert t[k] in multiset(t);
        if t[k] == x {
          LexLessIrreflexive(x);
          if LexLess(x, s[0]) { LexLessTransitive(x, s[0], x); }
        } else {
          assert t[k] in multiset(s[1..]);
          var j :| 0 <= j < |s[1..]| && s[1..][j] == t[k];
          assert s[j + 1] == t[k];
        }
      }
      [s[0]] + t
    else
      LexLessTotal(s[0], x);
      forall k | 0 < k < |s| ensures !LexLess(s[k], x) {
        if x != s[0] && LexLess(s[k], x) {
          LexLessTransitive(s[k], x, s[0]);
        }
      }
      [x] + s
  }

  /** sort.Strings. */
  function SortStrings(s: seq<string>): (r: seq<string>)
    ensures Sorted(r) && multiset(r) == multiset(s)
  {
    if s == [] then []
    else
      assert s == s[..|s| - 1] + [s[|s| - 1]];
      Insert(SortStrings(s[..|s| - 1]), s[|s| - 1])
  }

  /** A sorted list of distinct strings is strictly sorted. */
  lemma StrictWhenDistinct(s: seq<string>)
    requires Sorted(s)
    requires forall i, j :: 0 <= i < j < |s| ==> s[i] != s[j]
    ensures StrictlySorted(s)
  {
    forall i, j | 0 <= i < j < |s| ensures LexLess(s[i], s[j]) {
      LexLessTotal(s[i], s[j]);
    }
  }

  /** The sorted order of a set of keys is unique. */
  lemma {:induction false} SortedUnique(a: seq<string>, b: seq<string>)
    requires StrictlySorted(a) && StrictlySorted(b)
    requires forall k :: k in a <==> k in b
    ensures a == b
    decreases |a|
  {
    SameElementsEmpty(a, b);
    if a != [] {
      assert a[0] in a && b[0] in b;
      assert a[0] == b[0] by {
        var i :| 0 <= i < |b| && b[i] == a[0];
        var j :| 0 <= j < |a| && a[j] == b[0];
        if i != 0 {
          assert LexLess(b[0], a[0]);
          if j == 0 { LexLessIrreflexive(a[0]); } else { LexLessTransitive(a[0], a[j], a[0]); LexLessIrreflexive(a[0]); }
        }
      }
      forall k ensures k in a[1..] <==> k in b[1..] {
        if k in a[1..] {
          var i :| 1 <= i < |a| && a[i] == k;
          assert k != a[0] by { LexLessIrreflexive(a[0]); }
          assert k in b;
        }
        if k in b[1..] {
          var i :| 1 <= i < |b| && b[i] == k;
          assert k != b[0] by { LexLessIrreflexive(b[0]); }
          assert k in a;
        }
      }
      SortedUnique(a[1..], b[1..]);
      assert a == [a[0]] + a[1..] && b == [b[0]] + b[1..];
    }
  }

  lemma SameElementsEmpty(a: seq<string>, b: seq<string>)
    requires forall k :: k in a <==> k in b
    ensures a == [] <==> b == []
  {
    if a != [] {
      assert a[0] in b;
    }
    if b != [] {
      assert b[0] in a;
    }
  }

  /** The key order of an object without "kind": its keys, sorted. */
  ghost predicate IsKeyOrder(raw: Object, keys: seq<string>) {
    StrictlySorted(keys) && (forall k :: k in keys <==> k in raw)
  }

  /** The elements of a set, each once, in some order. */
  ghost function SetToSeq(s: set<string>): (r: seq<string>)
    ensures forall k :: k in r <==> k in s
    ensures forall i, j :: 0 <= i < j < |r| ==> r[i] != r[j]
  {
    if s == {} then []
    else
      var k :| k in s;
      [k] + SetToSeq(s - {k})
  }

  /** The sorted keys of an object: the unique key order. */
  ghost function SortedKeys(raw: Object): (keys: seq<string>)
    ensures IsKeyOrder(raw, keys)
  {
    var ks := SetToSeq(raw.Keys);
    var keys := SortStrings(ks);
    assert forall k :: k in keys <==> k in multiset(keys);
    assert forall k :: k in ks <==> k in multiset(ks);
    DistinctSorted(ks, keys);
    StrictWhenDistinct(keys);
    keys
  }

  /** The values of `raw` in the order of `keys`. */
  function ValuesAt(raw: Object, keys: seq<string>): (vs: seq<Json>)
    requires forall k :: k in keys ==> k in raw
    ensures |vs| == |keys|
    ensures forall i :: 0 <= i < |keys| ==> vs[i] == raw[keys[i]]
  {
    seq(|keys|, i requires 0 <= i < |keys| => raw[keys[i]])
  }

  /** newResMapFromMultiDocumentJSON: the resources the output describes. */
  ghost function ResMap(lib: JsonLib, b: string): (r: Result<seq<Object>>)
    ensures TrimLeftSpace(b) == [] ==> r == Ok([])
    ensures r.Ok? && TrimLeftSpace(b) != [] ==> TrimLeftSpace(b)[0] == '[' || TrimLeftSpace(b)[0] == '{'
  {
    var j := TrimLeftSpace(b);
    if j == [] then Ok([])
    else if j[0] == '[' then
      match lib.unmarshalList(j)
      case Err(e) => Err(e)
      case Ok(raw) => AppendAll(lib, [], raw, "expected a list of objects")
    else if j[0] == '{' then
      match lib.unmarshalObject(j)
      case Err(e) => Err(e)
      case Ok(raw) =>
        if "kind" in raw then
          (match lib.append([], raw)
           case Some(e) => Err(e)
           case None => Ok([raw]))
        else AppendAll(lib, [], ValuesAt(raw, SortedKeys(raw)), "expected a map of objects")
    else Err("expected JSON object or list")
  }

  /** The output is an object with no "kind" field. */
  predicate KindlessObject(lib: JsonLib, b: string) {
    var j := TrimLeftSpace(b);
    j != [] && j[0] == '{' && lib.unmarshalObject(j).Ok? && "kind" !in lib.unmarshalObject(j).value
  }

  /** An object without "kind" is a map from file names to resources: the
      resources are its values, taken in increasing order of their names. */
  lemma KindlessResMap(lib: JsonLib, b: string)
    requires KindlessObject(lib, b)
    ensures var raw := lib.unmarshalObject(TrimLeftSpace(b)).value;
      ResMap(lib, b) == AppendAll(lib, [], ValuesAt(raw, SortedKeys(raw)), "expected a map of objects")
    ensures var raw := lib.unmarshalObject(TrimLeftSpace(b)).value;
      var keys := SortedKeys(raw);
      ResMap(lib, b).Ok? ==>
        (|ResMap(lib, b).value| == |keys| &&
         forall i :: 0 <= i < |keys| ==> raw[keys[i]] == JObject(ResMap(lib, b).value[i]))
  {
    var raw := lib.unmarshalObject(TrimLeftSpace(b)).value;
    var keys := SortedKeys(raw);
    var vs := ValuesAt(raw, keys);
    assert ResMap(lib, b) == AppendAll(lib, [], vs, "expected a map of objects");
    if ResMap(lib, b).Ok? {
      assert forall i :: 0 <= i < |keys| ==> raw[keys[i]] == vs[i];
    }
  }

  /** The shapes of the output and what each gives. */
  lemma ResMapShapes(lib: JsonLib, b: string)
    ensures TrimLeftSpace(b) == [] ==> ResMap(lib, b) == Ok([])
    ensures var j := TrimLeftSpace(b);
      j != [] && j[0] != '[' && j[0] != '{' ==> ResMap(lib, b) == Err("expected JSON object or list")
    ensures var j := TrimLeftSpace(b);
      (j != [] && j[0] == '{' && lib.unmarshalObject(j).Ok? && "kind" in lib.unmarshalObject(j).value &&
       lib.append([], lib.unmarshalObject(j).value).None?) ==>
        ResMap(lib, b) == Ok([lib.unmarshalObject(j).value])
    ensures var j := TrimLeftSpace(b);
      (j != [] && j[0] == '[' && lib.unmarshalList(j).Ok? && ResMap(lib, b).Ok?) ==>
        (|ResMap(lib, b).value| == |lib.unmarshalList(j).value| &&
         forall i :: 0 <= i < |lib.unmarshalList(j).value| ==>
           lib.unmarshalList(j).value[i] == JObject(ResMap(lib, b).value[i]))
  {
  }

  /** Leading white space is ignored: only spaces in front of the output change nothing. */
  lemma LeadingSpaceIgnored(lib: JsonLib, ws: string, b: string)
    requires forall k :: 0 <= k < |ws| ==> IsSpace(ws[k])
    ensures ResMap(lib, ws + b) == ResMap(lib, b)
  {
    TrimLeftSpaceAppend(ws, b);
  }

  lemma TrimLeftSpaceAppend(ws: string, b: string)
    requires forall k :: 0 <= k < |ws| ==> IsSpace(ws[k])
    ensures TrimLeftSpace(ws + b) == TrimLeftSpace(b)
  {
    LeadingSpacesAppend(ws, b);
    assert (ws + b)[|ws| + LeadingSpaces(b)..] == b[LeadingSpaces(b)..];
  }

  lemma {:induction false} LeadingSpacesAppend(ws: string, b: string)
    requires forall k :: 0 <= k < |ws| ==> IsSpace(ws[k])
    ensures LeadingSpaces(ws + b) == |ws| + LeadingSpaces(b)
  {
    if ws != [] {
      assert (ws + b)[1..] == ws[1..] + b;
      assert (ws + b)[0] == ws[0];
      assert forall k :: 0 <= k < |ws[1..]| ==> ws[1..][k] == ws[k + 1];
      LeadingSpacesAppend(ws[1..], b);
    } else {
      assert ws + b == b;
    }
  }

  /** The appending loop over `items`. */
  method AppendItems(lib: JsonLib, m: seq<Object>, items: seq<Json>, msg: string) returns (r: Result<seq<Object>>)
    ensures r == AppendAll(lib, m, items, msg)
  {
    var acc := m;
    for i := 0 to |items|
      invariant AppendAll(lib, m, items, msg) == AppendAll(lib, acc, items[i..], msg)
    {
      assert items[i..][1..] == items[i + 1..];
      if !items[i].JObject? {
        return Err(msg);
      }
      var e := lib.append(acc, items[i].fields);
      if e.Some? {
        return Err(e.value);
      }
      acc := acc + [items[i].fields];
    }
    return Ok(acc);
  }

  /** newResMapFromMultiDocumentJSON, with the keys of an object without
      "kind" collected in map order and then sorted. */
  method NewResMap(lib: JsonLib, b: string) returns (r: Result<seq<Object>>)
    ensures r == ResMap(lib, b)
  {
    var j := TrimLeftSpace(b);
    if |j| == 0 {
      return Ok([]);
    }
    if j[0] == '[' {
      var raw := lib.unmarshalList(j);
      if raw.Err? {
        return Err(raw.error);
      }
      r := AppendItems(lib, [], raw.value, "expected a list of objects");
      return r;
    }
    if j[0] == '{' {
      var raw := lib.unmarshalObject(j);
      if raw.Err? {
        return Err(raw.error);
      }
      if "kind" in raw.value {
        var e := lib.append([], raw.value);
        if e.Some? {
          return Err(e.value);
        }
        return Ok([raw.value]);
      }
      var filenames := CollectKeys(raw.value);
      var keys := SortStrings(filenames);
      assert forall k :: k in keys <==> k in multiset(keys);
      assert forall k :: k in filenames <==> k in multiset(filenames);
      DistinctSorted(filenames, keys);
      StrictWhenDistinct(keys);
      SortedUnique(keys, SortedKeys(raw.value));
      r := AppendItems(lib, [], ValuesAt(raw.value, keys), "expected a map of objects");
      return r;
    }
    return Err("expected JSON object or list");
  }

  /** The key-collecting loop, in map order. */
  method CollectKeys(raw: Object) returns (filenames: seq<string>)
    ensures forall k :: k in filenames <==> k in raw
    ensures forall i, j :: 0 <= i < j < |filenames| ==> filenames[i] != filenames[j]
  {
    filenames := [];
    var rest := raw.Keys;
    while rest != {}
      invariant rest <= raw.Keys
      invariant forall k :: k in filenames <==> k in raw && k !in rest
      invariant forall i, j :: 0 <= i < j < |filenames| ==> filenames[i] != filenames[j]
      decreases rest
    {
      var k :| k in rest;
      filenames := filenames + [k];
      rest := rest - {k};
    }
  }

  /** Sorting a list without repetitions gives one without repetitions. */
  lemma DistinctSorted(s: seq<string>, r: seq<string>)
    requires multiset(r) == multiset(s)
    requires forall i, j :: 0 <= i < j < |s| ==> s[i] != s[j]
    ensures forall i, j :: 0 <= i < j < |r| ==> r[i] != r[j]
  {
    forall x | x in multiset(s) ensures multiset(s)[x] == 1 {
      DistinctCount(s, x);
    }
    forall i, j | 0 <= i < j < |r| ensures r[i] != r[j] {
      var x := r[i];
      assert x in multiset(s);
      assert multiset(r)[x] == 1;
      if r[i] == r[j] {
        TwoOccurrences(r, i, j);
      }
    }
  }

  lemma {:induction false} DistinctCount(s: seq<string>, x: string)
    requires forall i, j :: 0 <= i < j < |s| ==> s[i] != s[j]
    requires x in s
    ensures multiset(s)[x] == 1
  {
    var t := s[..|s| - 1];
    assert s == t + [s[|s| - 1]];
    if x == s[|s| - 1] {
      assert x !in t;
    } else {
      DistinctCount(t, x);
    }
  }

  lemma TwoOccurrences(r: seq<string>, i: nat, j: nat)
    requires i < j < |r| && r[i] == r[j]
    ensures multiset(r)[r[i]] >= 2
  {
    assert r == r[..i] + [r[i]] + r[i + 1..j] + [r[j]] + r[j + 1..];
  }

  /** `string(input)`: the program's text as the VM receives it, a nil
      program being the empty text. */
  function ProgramText(input: Option<string>): string {
    if input.Some? then input.value else ""
  }

  /** What the VM evaluating the program needs: the importer, the program's
      name and text, and the calls for the external variables and top-level
      arguments. */
  type Evaluate = (KonjureImporter, string, string, seq<Call>, seq<Call>) -> Result<string>

  /** plugin.Generate: the importer, the input, the parameters, the VM, then the
      resource list. */
  method Generate(p: Plugin, env: string, secretErr: Option<string>, readFile: string -> Result<string>,
                  evaluate: Evaluate, lib: JsonLib)
    returns (r: Result<seq<Object>>)
    ensures secretErr.Some? ==> r == Err(secretErr.value)
    ensures secretErr.None? && ReadInput(p, readFile).2.Some? ==> r == Err(ReadInput(p, readFile).2.value)
    ensures secretErr.None? && ReadInput(p, readFile).2.None? ==>
      var (name, input, _) := ReadInput(p, readFile);
      match evaluate(KonjureImporter(SearchPath(env, p.jsonnetPath)), name, ProgramText(input),
                     Calls(p.externalVariables), Calls(p.topLevelArguments))
      case Err(e) => r == Err(e)
      case Ok(output) => r == ResMap(lib, output)
  {
    var importer := NewKonjureImporter(p.jsonnetPath, env, secretErr);
    if importer.Err? {
      return Err(importer.error);
    }
    var (filename, input, err) := ReadInput(p, readFile);
    if err.Some? {
      return Err(err.value);
    }
    var extVars := ProcessParameters(p.externalVariables);
    var tlas := ProcessParameters(p.topLevelArguments);
    var output := evaluate(importer.value, filename, ProgramText(input), extVars, tlas);
    if output.Err? {
      return Err(output.error);
    }
    r := NewResMap(lib, output.value);
  }
}
