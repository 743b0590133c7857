/** EnvWriter: prints the name/value pairs in the data of config maps and
    secrets as shell variable assignments, one line per pair. */
module EnvOutput {
  import opened Results
  import opened GoStrings
  import opened Document
  import Base64
  import GoQuote

  /** The EnvWriter fields besides the output stream. */
  datatype EnvWriter = EnvWriter(unset: bool, shell: string, selector: string)

  /** The shell dialect: the configured shell in lower case, or else the lower-cased
      base name of the SHELL environment variable (given as `envShell`). */
  function DetectShell(shell: string, envShell: string): (sh: string)
    ensures shell != "" ==> sh == ToLower(shell)
    ensures shell == "" && envShell == "" ==> sh == ""
    ensures shell == "" && envShell != "" ==> sh == ToLower(Base(envShell)) && sh != ""
  {
    var sh := ToLower(shell);
    if sh == "" && envShell != "" then ToLower(Base(envShell)) else sh
  }

  /** A node is skipped only when the selector is evaluated without error and
      does not match; an evaluation error keeps the node. */
  predicate Skipped(matches: (Node, string) -> Result<bool>, selector: string, n: Node) {
    matches(n, selector) == Ok(false)
  }

  /** The bytes of a decoded value read back as a Go string, one char per byte. */
  function BytesToString(bs: seq<Base64.Byte>): (s: string)
    ensures |s| == |bs| && forall i :: 0 <= i < |bs| ==> s[i] as int == bs[i]
  {
    seq(|bs|, i requires 0 <= i < |bs| => bs[i] as char)
  }

  /** The decoding of one data value: base64 for a Secret, none otherwise. */
  function DecodeValue(secret: bool, v: string): (r: Result<string>)
    ensures !secret ==> r == Ok(v)
    ensures secret ==> (r.Ok? <==> Base64.DecodeString(v).Ok?)
  {
    if secret then
      match Base64.DecodeString(v)
      case Ok(bs) => Ok(BytesToString(bs))
      case Err(e) => Err(e)
    else Ok(v)
  }

  /** A pair that looks like file data rather than a variable is dropped. */
  predicate Dropped(k: string, v: string) {
    '.' in k || '\n' in v || '\r' in v
  }

  /** printEnvVar: the line written for one pair. */
  function EnvLine(sh: string, unset: bool, k: string, v: string): (line: string)
    ensures |line| > 0 && line[|line| - 1] == '\n'
    ensures '\n' !in k && '\n' !in v ==> CountChar(line, '\n') == 1
  {
    var text := EnvText(sh, unset, k, v);
    assert '\n' !in k && '\n' !in v ==> CountChar(text + "\n", '\n') == 1 by {
      if '\n' !in k && '\n' !in v {
        CountAppend(text, "\n", '\n');
        CountAbsent(text, '\n');
        assert "\n"[1..] == [];
      }
    }
    text + "\n"
  }

  /** The line for one pair without its newline: `K=v` or `K=` with no shell,
      `set -gx K "v";` or `set -e K;` for fish, `export K="v"` or `unset K` for
      any other shell, the value quoted as `%q` does. */
  function EnvText(sh: string, unset: bool, k: string, v: string): (text: string)
    ensures '\n' !in k && '\n' !in v ==> '\n' !in text
  {
    if sh == "none" || sh == "" then
      if unset then k + "=" else k + "=" + v
    else if sh == "fish" then
      if unset then "set -e " + k + ";" else "set -gx " + k + " " + GoQuote.Quote(v) + ";"
    else
      if unset then "unset " + k else "export " + k + "=" + GoQuote.Quote(v)
  }

  /** In the quoting dialects, the value is written as a `%q` literal that
      unquotes to exactly the value. */
  lemma EnvLineQuotes(sh: string, k: string, v: string)
    requires sh != "none" && sh != ""
    ensures exists q :: (GoQuote.Unquote(q) == Some(v) &&
      EnvLine(sh, false, k, v) == (if sh == "fish" then "set -gx " + k + " " + q + ";\n" else "export " + k + "=" + q + "\n"))
  {
    GoQuote.UnquoteQuote(v);
    var q := GoQuote.Quote(v);
    assert EnvLine(sh, false, k, v) == (if sh == "fish" then "set -gx " + k + " " + q + ";\n" else "export " + k + "=" + q + "\n");
  }

  /** The value of key `k` in a data map, "" when absent. */
  function DataValue(data: map<string, string>, k: string): string {
    if k in data then data[k] else ""
  }

  /** The lines printed for the pairs of one node, visiting its keys in `keys`
      order; None when a value fails to decode. */
  function NodeLines(sh: string, unset: bool, secret: bool, data: map<string, string>, keys: seq<string>)
    : Option<seq<string>>
    decreases |keys|
  {
    if keys == [] then Some([])
    else
      var k := keys[0];
      match DecodeValue(secret, DataValue(data, k))
      case Err(_) => None
      case Ok(v) =>
        match NodeLines(sh, unset, secret, data, keys[1..])
        case None => None
        case Some(rest) => Some(PairLines(sh, unset, k, v) + rest)
  }

  /** The lines of a node are there exactly when every key's value decodes,
      and there is at most one line a key. */
  lemma {:induction false} NodeLinesDecoded(sh: string, unset: bool, secret: bool, data: map<string, string>,
                                            keys: seq<string>)
    ensures NodeLines(sh, unset, secret, data, keys).Some? <==>
      forall k :: k in keys ==> DecodeValue(secret, DataValue(data, k)).Ok?
    ensures NodeLines(sh, unset, secret, data, keys).Some? ==> |NodeLines(sh, unset, secret, data, keys).value| <= |keys|
    decreases |keys|
  {
    if keys != [] {
      NodeLinesDecoded(sh, unset, secret, data, keys[1..]);
      assert forall j :: j in keys ==> j == keys[0] || j in keys[1..];
    }
  }

  /** The line of one decoded pair, or none when it is dropped. */
  function PairLines(sh: string, unset: bool, k: string, v: string): (r: seq<string>)
    ensures Dropped(k, v) <==> r == []
  {
    if Dropped(k, v) then [] else [EnvLine(sh, unset, k, v)]
  }

  /** Every key of the data appears exactly once in `keys`. */
  predicate IsKeyOrder(data: map<string, string>, keys: seq<string>) {
    (set k | k in keys) == data.Keys &&
    forall i, j :: 0 <= i < j < |keys| ==> keys[i] != keys[j]
  }

  /** A data map with a value that fails to decode. */
  predicate DecodeFails(secret: bool, data: map<string, string>) {
    exists k :: k in data && DecodeValue(secret, DataValue(data, k)).Err?
  }

  /** The pairs of one node's data, in an order Go's map iteration leaves
      unspecified. */
  method WriteData(sh: string, unset: bool, secret: bool, data: map<string, string>)
    returns (lines: seq<string>, keys: seq<string>, ok: bool)
    ensures ok ==> IsKeyOrder(data, keys) && NodeLines(sh, unset, secret, data, keys) == Some(lines)
    ensures !ok <==> DecodeFails(secret, data)
  {
    var rest := data.Keys;
    lines, keys := [], [];
    while rest != {}
      invariant rest <= data.Keys
      invariant (set k | k in keys) == data.Keys - rest
      invariant forall i, j :: 0 <= i < j < |keys| ==> keys[i] != keys[j]
      invariant NodeLines(sh, unset, secret, data, keys) == Some(lines)
      decreases rest
    {
      var k :| k in rest;
      var v := DecodeValue(secret, data[k]);
      if v.Err? {
        assert DecodeValue(secret, DataValue(data, k)).Err?;
        return lines, keys, false;
      }
      assert DataValue(data, k) == data[k];
      NodeLinesAppend(sh, unset, secret, data, keys, k);
      KeyVisited(data, keys, rest, k);
      keys := keys + [k];
      ghost var expected := lines + PairLines(sh, unset, k, v.value);
      if !Dropped(k, v.value) {
        lines := lines + [EnvLine(sh, unset, k, v.value)];
      } else {
        assert lines + [] == lines;
      }
      assert lines == expected;
      rest := rest - {k};
    }
    NoDecodeError(sh, unset, secret, data, keys, lines);
    ok := true;
  }

  /** Visiting one more key of the data keeps the keys visited distinct and
      accounted for. */
  lemma KeyVisited(data: map<string, string>, keys: seq<string>, rest: set<string>, k: string)
    requires rest <= data.Keys && k in rest
    requires (set j | j in keys) == data.Keys - rest
    requires forall i, j :: 0 <= i < j < |keys| ==> keys[i] != keys[j]
    ensures (set j | j in keys + [k]) == data.Keys - (rest - {k})
    ensures forall i, j :: 0 <= i < j < |keys + [k]| ==> (keys + [k])[i] != (keys + [k])[j]
  {
    assert k !in (set j | j in keys);
    assert (set j | j in keys + [k]) == (set j | j in keys) + {k};
  }

  lemma {:induction false} NodeLinesAppend(sh: string, unset: bool, secret: bool, data: map<string, string>,
                                           keys: seq<string>, k: string)
    requires NodeLines(sh, unset, secret, data, keys).Some? && DecodeValue(secret, DataValue(data, k)).Ok?
    ensures var v := DecodeValue(secret, DataValue(data, k)).value;
      NodeLines(sh, unset, secret, data, keys + [k]) ==
        Some(NodeLines(sh, unset, secret, data, keys).value + PairLines(sh, unset, k, v))
  {
    if keys != [] {
      var l := keys + [k];
      assert l[0] == keys[0] && l[1..] == keys[1..] + [k];
      var v0 := DecodeValue(secret, DataValue(data, keys[0])).value;
      assert NodeLines(sh, unset, secret, data, keys[1..]).Some?;
      NodeLinesAppend(sh, unset, secret, data, keys[1..], k);
      NodeLinesCons(sh, unset, secret, data, keys);
      NodeLinesCons(sh, unset, secret, data, l);
      var v := DecodeValue(secret, DataValue(data, k)).value;
      var a, b, c := PairLines(sh, unset, keys[0], v0), NodeLines(sh, unset, secret, data, keys[1..]).value,
        PairLines(sh, unset, k, v);
      assert a + (b + c) == (a + b) + c;
    } else {
      assert keys + [k] == [k];
      assert [k][1..] == [];
      var v := DecodeValue(secret, DataValue(data, k)).value;
      assert NodeLines(sh, unset, secret, data, [k][1..]) == Some([]);
      assert [] + PairLines(sh, unset, k, v) == PairLines(sh, unset, k, v) + [];
    }
  }

  /** One step of NodeLines: the first key's lines, then the lines of the rest. */
  lemma NodeLinesCons(sh: string, unset: bool, secret: bool, data: map<string, string>, keys: seq<string>)
    requires keys != [] && DecodeValue(secret, DataValue(data, keys[0])).Ok?
    requires NodeLines(sh, unset, secret, data, keys[1..]).Some?
    ensures NodeLines(sh, unset, secret, data, keys) ==
      Some(PairLines(sh, unset, keys[0], DecodeValue(secret, DataValue(data, keys[0])).value) +
        NodeLines(sh, unset, secret, data, keys[1..]).value)
  {
  }

  lemma NoDecodeError(sh: string, unset: bool, secret: bool, data: map<string, string>,
                      keys: seq<string>, lines: seq<string>)
    requires (set k | k in keys) == data.Keys
    requires NodeLines(sh, unset, secret, data, keys) == Some(lines)
    ensures !DecodeFails(secret, data)
  {
    NodeLinesDecoded(sh, unset, secret, data, keys);
    forall k | k in data
      ensures DecodeValue(secret, DataValue(data, k)).Ok?
    {
      assert k in (set j | j in keys);
    }
  }

  /** The lines of the first |orders| nodes in turn, each visiting its keys in
      its recorded order. */
  function AllLines(sh: string, unset: bool, nodes: seq<Node>, orders: seq<seq<string>>): seq<string>
    requires |orders| <= |nodes|
  {
    if orders == [] then []
    else
      var i := |orders| - 1;
      var own := NodeLines(sh, unset, IsSecret(nodes[i]), DataMap(nodes[i]), orders[i]);
      AllLines(sh, unset, nodes, orders[..i]) + (if own.Some? then own.value else [])
  }

  lemma AllLinesAppend(sh: string, unset: bool, nodes: seq<Node>, orders: seq<seq<string>>, keys: seq<string>)
    requires |orders| < |nodes|
    ensures var own := NodeLines(sh, unset, IsSecret(nodes[|orders|]), DataMap(nodes[|orders|]), keys);
      AllLines(sh, unset, nodes, orders + [keys]) ==
        AllLines(sh, unset, nodes, orders) + (if own.Some? then own.value else [])
  {
    assert (orders + [keys])[..|orders|] == orders;
  }

  /** A skipped node has no key order; any other decodes, and `keys` is the
      order its data map was visited in. */
  predicate NodeVisited(matches: (Node, string) -> Result<bool>, selector: string, n: Node, keys: seq<string>) {
    if Skipped(matches, selector, n) then keys == []
    else !DecodeFails(IsSecret(n), DataMap(n)) && IsKeyOrder(DataMap(n), keys)
  }

  /** The nodes before `i`, each with its recorded key order. */
  predicate Visited(matches: (Node, string) -> Result<bool>, selector: string,
                    nodes: seq<Node>, orders: seq<seq<string>>, i: nat)
    requires i <= |nodes| && |orders| == i
  {
    forall j :: 0 <= j < i ==> NodeVisited(matches, selector, nodes[j], orders[j])
  }

  /** Every node that is not skipped has data that decodes. */
  predicate AllDecode(matches: (Node, string) -> Result<bool>, selector: string, nodes: seq<Node>) {
    forall i :: 0 <= i < |nodes| && !Skipped(matches, selector, nodes[i]) ==>
      !DecodeFails(IsSecret(nodes[i]), DataMap(nodes[i]))
  }

  lemma VisitedSnoc(matches: (Node, string) -> Result<bool>, selector: string,
                    nodes: seq<Node>, orders: seq<seq<string>>, i: nat, keys: seq<string>)
    requires i < |nodes| && |orders| == i && Visited(matches, selector, nodes, orders, i)
    requires NodeVisited(matches, selector, nodes[i], keys)
    ensures Visited(matches, selector, nodes, orders + [keys], i + 1)
  {
    forall j | 0 <= j < i + 1
      ensures NodeVisited(matches, selector, nodes[j], (orders + [keys])[j])
    {
      if j < i {
        assert (orders + [keys])[j] == orders[j];
      }
    }
  }

  lemma VisitedAllDecode(matches: (Node, string) -> Result<bool>, selector: string,
                         nodes: seq<Node>, orders: seq<seq<string>>)
    requires |orders| == |nodes| && Visited(matches, selector, nodes, orders, |nodes|)
    ensures AllDecode(matches, selector, nodes)
  {
    forall i | 0 <= i < |nodes| && !Skipped(matches, selector, nodes[i])
      ensures !DecodeFails(IsSecret(nodes[i]), DataMap(nodes[i]))
    {
      assert NodeVisited(matches, selector, nodes[i], orders[i]);
    }
  }

  /** What EnvWriter.Write promises, as one statement about its outcome
      `lines`, `orders`, `err` on `nodes`. */
  predicate Written(w: EnvWriter, nodes: seq<Node>, matches: (Node, string) -> Result<bool>, envShell: string,
                    lines: seq<string>, orders: seq<seq<string>>, err: Option<string>)
  {
    (err.None? <==> AllDecode(matches, w.selector, nodes)) &&
    (err.None? ==> |orders| == |nodes| && Visited(matches, w.selector, nodes, orders, |nodes|)) &&
    (err.None? ==> lines == AllLines(DetectShell(w.shell, envShell), w.unset, nodes, orders))
  }

  /** EnvWriter.Write. `matches` stands for RNode.MatchesLabelSelector and
      `envShell` for the SHELL environment variable. `orders` records, for each
      node, the key order its data map was visited in (empty for a skipped
      node); the lines are those of the nodes in turn. The write fails exactly
      when some node that is not skipped has a value that does not decode,
      whether or not that key would have been dropped. */
  method Write(w: EnvWriter, nodes: seq<Node>, matches: (Node, string) -> Result<bool>, envShell: string)
    returns (lines: seq<string>, orders: seq<seq<string>>, err: Option<string>)
    ensures err.None? <==> AllDecode(matches, w.selector, nodes)
    ensures err.None? ==> |orders| == |nodes| && Visited(matches, w.selector, nodes, orders, |nodes|)
    ensures err.None? ==> lines == AllLines(DetectShell(w.shell, envShell), w.unset, nodes, orders)
  {
    var sh := ToLower(w.shell);
    if sh == "" {
      var shell := envShell;
      if shell != "" {
        sh := ToLower(Base(shell));
      }
    }
    assert sh == DetectShell(w.shell, envShell);
    lines, orders := [], [];
    for i := 0 to |nodes|
      invariant |orders| == i
      invariant Visited(matches, w.selector, nodes, orders, i)
      invariant lines == AllLines(sh, w.unset, nodes, orders)
    {
      var sel := matches(nodes[i], w.selector);
      if sel.Ok? && !sel.value {
        AllLinesAppend(sh, w.unset, nodes, orders, []);
        VisitedSnoc(matches, w.selector, nodes, orders, i, []);
        orders := orders + [[]];
        continue;
      }
      var nodeLines, keys, ok := WriteData(sh, w.unset, IsSecret(nodes[i]), DataMap(nodes[i]));
      if !ok {
        assert !Skipped(matches, w.selector, nodes[i]) && DecodeFails(IsSecret(nodes[i]), DataMap(nodes[i]));
        assert !AllDecode(matches, w.selector, nodes);
        return lines, orders, Some("illegal base64 data");
      }
      AllLinesAppend(sh, w.unset, nodes, orders, keys);
      VisitedSnoc(matches, w.selector, nodes, orders, i, keys);
      lines := lines + nodeLines;
      orders := orders + [keys];
    }
    VisitedAllDecode(matches, w.selector, nodes, orders);
    err := None;
  }
}
