/** GroupWriter: writes each group of resources to its own output, by default
    back to the file each resource was read from. */
module GroupOutput {
  import opened Results
  import opened Document
  import opened Grouping
  import opened Whitespace

  /** An output stream for one group; `closable` when it is an io.Closer. */
  datatype Sink = Sink(name: string, closable: bool)

  /** What the writer does to the sinks. */
  datatype Event = Wrote(sink: Sink, config: ByteWriter, nodes: seq<Node>) | Closed(sink: Sink)

  /** kioutil.GetFileAnnotations: the path and index annotations, "" when
      absent; it fails exactly when `GetMeta()` does. */
  function FileAnnotations(n: Node): (r: Result<Label>)
    ensures r.Err? <==> MetaFails(n)
    ensures r.Ok? && PathAnnotation in n.annotations.entries ==> r.value.group == n.annotations.entries[PathAnnotation]
    ensures r.Ok? && PathAnnotation !in n.annotations.entries ==> r.value.group == ""
    ensures r.Ok? && IndexAnnotation in n.annotations.entries ==> r.value.ordinal == n.annotations.entries[IndexAnnotation]
    ensures r.Ok? && IndexAnnotation !in n.annotations.entries ==> r.value.ordinal == ""
  {
    match n.annotations
    case MalformedAnnotations => Err("wrong node kind for metadata.annotations")
    case Annotations(entries) =>
      Ok(Label(if PathAnnotation in entries then entries[PathAnnotation] else "",
               if IndexAnnotation in entries then entries[IndexAnnotation] else ""))
  }

  /** The default sink factory: no sink for the empty name, otherwise the file
      `create` (os.Create) opens. */
  function DefaultFactory(create: string -> Result<Sink>, name: string): (r: Result<Option<Sink>>)
    ensures name == "" ==> r == Ok(None)
    ensures name != "" ==> (r.Ok? <==> create(name).Ok?)
    ensures name != "" && r.Ok? ==> r.value == Some(create(name).value)
  {
    if name == "" then Ok(None)
    else match create(name)
      case Err(e) => Err(e)
      case Ok(f) => Ok(Some(f))
  }

  /** The annotations cleared on output: the configured ones, plus the path and
      index annotations when the default classifier is in use and reader
      annotations are not kept. */
  function ClearList(defaultClassifier: bool, keep: bool, clear: seq<string>): (r: seq<string>)
    ensures defaultClassifier && !keep ==> PathAnnotation in r && IndexAnnotation in r
    ensures !(defaultClassifier && !keep) ==> r == clear
    ensures clear <= r
  {
    clear + (if defaultClassifier && !keep then [PathAnnotation, IndexAnnotation] else [])
  }

  /** One group: ask the factory for a sink; with none, nothing happens; with
      one, write the group, close the sink if it can be closed, and report the
      write error after closing. */
  function Step(factory: string -> Result<Option<Sink>>, write: (ByteWriter, Sink, seq<Node>) -> Option<string>,
                config: ByteWriter, nodes: seq<Node>, g: string): (r: (seq<Event>, Option<string>))
    ensures factory(g).Err? ==> r == ([], Some(factory(g).error))
    ensures factory(g) == Ok(None) ==> r == ([], None)
    ensures factory(g).Ok? && factory(g).value.Some? ==>
      var sink := factory(g).value.value;
      r.0 == [Wrote(sink, config, nodes)] + (if sink.closable then [Closed(sink)] else []) &&
      r.1 == write(config, sink, nodes)
  {
    match factory(g)
    case Err(e) => ([], Some(e))
    case Ok(None) => ([], None)
    case Ok(Some(sink)) =>
      ([Wrote(sink, config, nodes)] + (if sink.closable then [Closed(sink)] else []), write(config, sink, nodes))
  }

  /** The groups in `order`, stopping after the first group that fails. */
  function GroupEvents(factory: string -> Result<Option<Sink>>, write: (ByteWriter, Sink, seq<Node>) -> Option<string>,
                       config: ByteWriter, indexed: map<string, seq<Node>>, order: seq<string>)
    : (r: (seq<Event>, Option<string>))
    requires forall g :: g in order ==> g in indexed
    ensures |r.0| <= 2 * |order|
    ensures r.1.Some? ==> order != []
    ensures forall k :: 0 <= k < |r.0| && r.0[k].Wrote? ==> r.0[k].config == config
    decreases |order|
  {
    if order == [] then ([], None)
    else
      var s := Step(factory, write, config, indexed[order[0]], order[0]);
      if s.1.Some? then s
      else
        var rest := GroupEvents(factory, write, config, indexed, order[1..]);
        (s.0 + rest.0, rest.1)
  }

  lemma {:induction false} GroupEventsAppend(factory: string -> Result<Option<Sink>>,
                                             write: (ByteWriter, Sink, seq<Node>) -> Option<string>,
                                             config: ByteWriter, indexed: map<string, seq<Node>>,
                                             order: seq<string>, g: string)
    requires forall h :: h in order ==> h in indexed
    requires g in indexed
    requires GroupEvents(factory, write, config, indexed, order).1.None?
    ensures var s := Step(factory, write, config, indexed[g], g);
      GroupEvents(factory, write, config, indexed, order + [g]) ==
        (GroupEvents(factory, write, config, indexed, order).0 + s.0, s.1)
  {
    var s := Step(factory, write, config, indexed[g], g);
    if order == [] {
      assert [g][1..] == [];
      assert GroupEvents(factory, write, config, indexed, []) == ([], None);
      assert s.0 + [] == s.0 && [] + s.0 == s.0;
      assert ([] + [g])[0] == g;
    } else {
      var s0 := Step(factory, write, config, indexed[order[0]], order[0]);
      var rest := GroupEvents(factory, write, config, indexed, order[1..]);
      assert s0.1.None?;
      assert GroupEvents(factory, write, config, indexed, order) == (s0.0 + rest.0, rest.1);
      assert (order + [g])[0] == order[0];
      assert (order + [g])[1..] == order[1..] + [g];
      var longer := GroupEvents(factory, write, config, indexed, order[1..] + [g]);
      assert GroupEvents(factory, write, config, indexed, order + [g]) == (s0.0 + longer.0, longer.1);
      GroupEventsAppend(factory, write, config, indexed, order[1..], g);
      assert s0.0 + (rest.0 + s.0) == (s0.0 + rest.0) + s.0;
    }
  }

  /** Every write carries one group's nodes and the writer's settings, and a
      write to a closable sink is followed at once by closing it. */
  predicate WellClosed(events: seq<Event>, config: ByteWriter, indexed: map<string, seq<Node>>) {
    forall i {:trigger events[i]} :: 0 <= i < |events| && events[i].Wrote? ==>
      events[i].nodes in indexed.Values && events[i].config == config &&
      (events[i].sink.closable ==> i + 1 < |events| && events[i + 1] == Closed(events[i].sink))
  }

  /** Every write to a closable sink is closed, whether or not the write failed. */
  lemma {:induction false} ClosedAfterWrite(factory: string -> Result<Option<Sink>>,
                                            write: (ByteWriter, Sink, seq<Node>) -> Option<string>,
                                            config: ByteWriter, indexed: map<string, seq<Node>>, order: seq<string>)
    requires forall g :: g in order ==> g in indexed
    ensures WellClosed(GroupEvents(factory, write, config, indexed, order).0, config, indexed)
    decreases |order|
  {
    if order != [] {
      ClosedAfterWrite(factory, write, config, indexed, order[1..]);
      var events := GroupEvents(factory, write, config, indexed, order).0;
      var s := Step(factory, write, config, indexed[order[0]], order[0]);
      var rest := GroupEvents(factory, write, config, indexed, order[1..]).0;
      assert WellClosed(s.0, config, indexed) by {
        assert indexed[order[0]] in indexed.Values;
      }
      if s.1.None? {
        assert WellClosed(rest, config, indexed);
        assert events == s.0 + rest;
        forall i | 0 <= i < |events| && events[i].Wrote?
          ensures events[i].nodes in indexed.Values && events[i].config == config &&
            (events[i].sink.closable ==> i + 1 < |events| && events[i + 1] == Closed(events[i].sink))
        {
          if i < |s.0| {
            assert events[i] == s.0[i];
            if events[i].sink.closable {
              assert events[i + 1] == s.0[i + 1];
            }
          } else {
            var j := i - |s.0|;
            assert events[i] == rest[j];
            if events[i].sink.closable {
              assert 0 <= j < |rest| && rest[j].Wrote? && rest[j].sink.closable;
              assert j + 1 < |rest|;
              assert events[i + 1] == rest[j + 1];
            }
          }
        }
      }
    }
  }

  /** A group whose factory gives no sink produces no events, and a factory
      error ends the writing with that error and no further events. */
  lemma StepWithoutSink(factory: string -> Result<Option<Sink>>, write: (ByteWriter, Sink, seq<Node>) -> Option<string>,
                        config: ByteWriter, indexed: map<string, seq<Node>>, order: seq<string>)
    requires forall g :: g in order ==> g in indexed
    requires order != [] && factory(order[0]).Err?
    ensures GroupEvents(factory, write, config, indexed, order) == ([], Some(factory(order[0]).error))
  {
  }

  class GroupWriter {
    /** The classifier giving each node its group and ordinal; None uses the file annotations. */
    var groupNode: Option<Node -> Result<Label>>
    /** The sink factory; None uses DefaultFactory. */
    var groupWriter: Option<string -> Result<Option<Sink>>>
    var keepReaderAnnotations: bool
    var clearAnnotations: seq<string>
    var sort: bool
    var restoreVerticalWhiteSpace: bool

    constructor(groupNode: Option<Node -> Result<Label>>, groupWriter: Option<string -> Result<Option<Sink>>>,
                keep: bool, clear: seq<string>, sort: bool, restore: bool)
      ensures this.groupNode == groupNode && this.groupWriter == groupWriter
      ensures keepReaderAnnotations == keep && clearAnnotations == clear
      ensures this.sort == sort && restoreVerticalWhiteSpace == restore
    {
      this.groupNode := groupNode;
      this.groupWriter := groupWriter;
      keepReaderAnnotations := keep;
      clearAnnotations := clear;
      this.sort := sort;
      restoreVerticalWhiteSpace := restore;
    }

    /** The classification the writer runs on `nodes`, or the first error. */
    static function Labels(classify: Node -> Result<Label>, nodes: seq<Node>): (r: Result<seq<Label>>)
      ensures r.Ok? <==> forall i :: 0 <= i < |nodes| ==> classify(nodes[i]).Ok?
      ensures r.Ok? ==> r.value == seq(|nodes|, i requires 0 <= i < |nodes| => classify(nodes[i]).value)
      ensures r.Err? ==> exists i :: (0 <= i < |nodes| && classify(nodes[i]) == Err(r.error) &&
                                      forall j :: 0 <= j < i ==> classify(nodes[j]).Ok?)
      decreases |nodes|
    {
      if nodes == [] then Ok([])
      else match classify(nodes[0])
        case Err(e) => Err(e)
        case Ok(first) =>
          var rest := Labels(classify, nodes[1..]);
          if rest.Err? then
            assert forall i :: 1 <= i < |nodes| ==> nodes[1..][i - 1] == nodes[i];
            Err(rest.error)
          else
            assert forall i :: 1 <= i < |nodes| ==> nodes[1..][i - 1] == nodes[i];
            Ok([first] + rest.value)
    }

    /** A classifier error is the classification error exactly when every node
        before it was classified. */
    static lemma LabelsFirstError(classify: Node -> Result<Label>, nodes: seq<Node>, i: nat)
      requires i < |nodes| && classify(nodes[i]).Err? && forall j :: 0 <= j < i ==> classify(nodes[j]).Ok?
      ensures Labels(classify, nodes) == Err(classify(nodes[i]).error)
    {
      var r := Labels(classify, nodes);
      var k :| 0 <= k < |nodes| && classify(nodes[k]) == Err(r.error) &&
               forall j :: 0 <= j < k ==> classify(nodes[j]).Ok?;
      assert k == i;
    }

    /** The defaults GroupWriter.Write installs into the writer: the file
        annotations as classifier, with the path and index annotations then
        cleared on output unless reader annotations are kept, and files as sinks. */
    method InstallDefaults(create: string -> Result<Sink>) returns (clear: seq<string>)
      modifies this
      ensures keepReaderAnnotations == old(keepReaderAnnotations) && clearAnnotations == old(clearAnnotations)
      ensures sort == old(sort) && restoreVerticalWhiteSpace == old(restoreVerticalWhiteSpace)
      ensures groupNode.Some? && groupWriter.Some?
      ensures old(groupNode).Some? ==> forall n :: groupNode.value(n) == old(groupNode).value(n)
      ensures old(groupNode).None? ==> forall n :: groupNode.value(n) == FileAnnotations(n)
      ensures old(groupWriter).Some? ==> forall s :: groupWriter.value(s) == old(groupWriter).value(s)
      ensures old(groupWriter).None? ==> forall s :: groupWriter.value(s) == DefaultFactory(create, s)
      ensures clear == ClearList(old(groupNode).None?, keepReaderAnnotations, clearAnnotations)
    {
      clear := clearAnnotations;
      if groupNode.None? {
        groupNode := Some(FileAnnotations);
        if !keepReaderAnnotations {
          clear := clear + [PathAnnotation, IndexAnnotation];
        }
      }
      if groupWriter.None? {
        groupWriter := Some(name => DefaultFactory(create, name));
      }
    }

    /** GroupWriter.Write. Missing defaults are installed into the writer
        itself; the nodes' white space is restored in place when asked; then
        the nodes are indexed, and an indexing error comes before any sink is
        requested. The groups are written in Go's map order, `order`. */
    method Write(nodes: array<Node>, create: string -> Result<Sink>, write: (ByteWriter, Sink, seq<Node>) -> Option<string>)
      returns (events: seq<Event>, order: seq<string>, err: Option<string>)
      modifies this, nodes
      ensures keepReaderAnnotations == old(keepReaderAnnotations) && clearAnnotations == old(clearAnnotations)
      ensures sort == old(sort) && restoreVerticalWhiteSpace == old(restoreVerticalWhiteSpace)
      ensures groupNode.Some? && groupWriter.Some?
      ensures old(groupNode).Some? ==> forall n :: groupNode.value(n) == old(groupNode).value(n)
      ensures old(groupNode).None? ==> forall n :: groupNode.value(n) == FileAnnotations(n)
      ensures old(groupWriter).Some? ==> forall s :: groupWriter.value(s) == old(groupWriter).value(s)
      ensures old(groupWriter).None? ==> forall s :: groupWriter.value(s) == DefaultFactory(create, s)
      ensures forall k :: 0 <= k < nodes.Length ==>
        nodes[k] == if old(restoreVerticalWhiteSpace) then Restored(old(nodes[k])) else old(nodes[k])
      ensures Labels(groupNode.value, nodes[..]).Err? ==>
        events == [] && order == [] && err == Some(Labels(groupNode.value, nodes[..]).error)
      ensures Labels(groupNode.value, nodes[..]).Ok? ==>
        var indexed := Indexed(nodes[..], Labels(groupNode.value, nodes[..]).value);
        var config := ByteWriter(keepReaderAnnotations,
          ClearList(old(groupNode).None?, keepReaderAnnotations, clearAnnotations), sort);
        (forall g :: g in order ==> g in indexed) &&
        (forall i, j :: 0 <= i < j < |order| ==> order[i] != order[j]) &&
        (events, err) == GroupEvents(groupWriter.value, write, config, indexed, order) &&
        (err.None? ==> forall g :: g in indexed ==> g in order)
    {
      var defaultClassifier := groupNode.None?;
      var clear := InstallDefaults(create);
      if restoreVerticalWhiteSpace {
        Whitespace.RestoreVerticalWhiteSpace(nodes);
      }
      var classify := groupNode.value;
      var factory := groupWriter.value;
      var config := ByteWriter(keepReaderAnnotations, clear, sort);
      events, order, err := WriteClassified(nodes[..], classify, factory, write, config);
    }

    /** The nodes indexed by `classify`, then written group by group; an
        indexing error comes before any sink is requested. */
    static method WriteClassified(nodes: seq<Node>, classify: Node -> Result<Label>,
                                  factory: string -> Result<Option<Sink>>,
                                  write: (ByteWriter, Sink, seq<Node>) -> Option<string>, config: ByteWriter)
      returns (events: seq<Event>, order: seq<string>, err: Option<string>)
      ensures Labels(classify, nodes).Err? ==> events == [] && order == [] && err == Some(Labels(classify, nodes).error)
      ensures Labels(classify, nodes).Ok? ==>
        var indexed := Indexed(nodes, Labels(classify, nodes).value);
        (forall g :: g in order ==> g in indexed) &&
        (forall i, j :: 0 <= i < j < |order| ==> order[i] != order[j]) &&
        (events, err) == GroupEvents(factory, write, config, indexed, order) &&
        (err.None? ==> forall g :: g in indexed ==> g in order)
    {
      var indexed, e := IndexNodes(nodes, classify);
      if e.Some? {
        var i :| 0 <= i < |nodes| && classify(nodes[i]) == Err(e.value) && forall j :: 0 <= j < i ==> classify(nodes[j]).Ok?;
        LabelsFirstError(classify, nodes, i);
        return [], [], e;
      }
      assert indexed == Indexed(nodes, Labels(classify, nodes).value);
      events, order, err := WriteGroups(factory, write, config, indexed);
    }
  }

  /** The loop over the groups, in Go's map order: the order is the one chosen
      here, every group at most once, and all of them unless one failed. */
  method WriteGroups(factory: string -> Result<Option<Sink>>, write: (ByteWriter, Sink, seq<Node>) -> Option<string>,
                     config: ByteWriter, indexed: map<string, seq<Node>>)
    returns (events: seq<Event>, order: seq<string>, err: Option<string>)
    ensures forall g :: g in order ==> g in indexed
    ensures forall i, j :: 0 <= i < j < |order| ==> order[i] != order[j]
    ensures (events, err) == GroupEvents(factory, write, config, indexed, order)
    ensures err.None? ==> forall g :: g in indexed ==> g in order
  {
    events, order := [], [];
    var rest := indexed.Keys;
    while rest != {}
      invariant rest <= indexed.Keys
      invariant forall g :: g in order ==> g in indexed && g !in rest
      invariant forall g :: g in indexed && g !in rest ==> g in order
      invariant forall i, j :: 0 <= i < j < |order| ==> order[i] != order[j]
      invariant GroupEvents(factory, write, config, indexed, order) == (events, None)
      decreases rest
    {
      var g :| g in rest;
      GroupEventsAppend(factory, write, config, indexed, order, g);
      order := order + [g];
      rest := rest - {g};
      var out := factory(g);
      ghost var step := Step(factory, write, config, indexed[g], g);
      if out.Err? {
        assert events + [] == events;
        return events, order, Some(out.error);
      }
      if out.value.None? {
        assert events + [] == events;
        continue;
      }
      var sink := out.value.value;
      var werr := write(config, sink, indexed[g]);
      ghost var before := events;
      events := events + [Wrote(sink, config, indexed[g])];
      if sink.closable {
        events := events + [Closed(sink)];
      }
      assert events == before + step.0;
      if werr.Some? {
        return events, order, werr;
      }
    }
    err := None;
  }
}
