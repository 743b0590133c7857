/** indexNodes: partitions the nodes by the group a classifier gives them and
    orders each group by the ordinals the classifier gives alongside. */
module Grouping {
  import opened Results
  import opened GoStrings
  import opened GoAtoi
  import opened Document

  /** The comparator: numeric when both ordinals parse as integers, otherwise
      Go's string order. */
  predicate OrdinalLess(a: string, b: string) {
    var x, y := Atoi(a), Atoi(b);
    if x.Some? && y.Some? then x.value < y.value else LexLess(a, b)
  }

  function Swap(s: seq<Node>, i: nat, j: nat): (r: seq<Node>)
    requires i < |s| && j < |s|
    ensures |r| == |s|
  {
    s[i := s[j]][j := s[i]]
  }

  /** The inner loop of Go's insertion sort at position `j`: while the ordinal
      at position j is less than the one at j-1, swap the nodes there and step
      back. The ordinals are read by position from the list as it was built,
      which the sort never reorders. */
  function Sink(s: seq<Node>, ord: seq<string>, j: nat): (r: seq<Node>)
    requires j < |s| && |ord| == |s|
    ensures |r| == |s|
    decreases j
  {
    if j > 0 && OrdinalLess(ord[j], ord[j - 1]) then Sink(Swap(s, j, j - 1), ord, j - 1) else s
  }

  /** The outer loop of the insertion sort, from position `i` on. */
  function SortFrom(s: seq<Node>, ord: seq<string>, i: nat): (r: seq<Node>)
    requires i <= |s| && |ord| == |s|
    ensures |r| == |s|
    decreases |s| - i
  {
    if i == |s| then s else SortFrom(Sink(s, ord, i), ord, i + 1)
  }

  /** sort.SliceStable with the position-indexed comparator. */
  function SortGroup(s: seq<Node>, ord: seq<string>): (r: seq<Node>)
    requires |ord| == |s|
    ensures |r| == |s|
    ensures multiset(r) == multiset(s)
  {
    if |s| == 0 then s
    else
      SortFromPermutes(s, ord, 1);
      SortFrom(s, ord, 1)
  }

  /** One swap only exchanges two nodes. */
  lemma SwapPermutes(s: seq<Node>, i: nat, j: nat)
    requires i < |s| && j < |s|
    ensures multiset(Swap(s, i, j)) == multiset(s)
  {
  }

  /** Sinking one node only reorders the nodes. */
  lemma {:induction false} SinkPermutes(s: seq<Node>, ord: seq<string>, j: nat)
    requires j < |s| && |ord| == |s|
    ensures multiset(Sink(s, ord, j)) == multiset(s)
    decreases j
  {
    if j > 0 && OrdinalLess(ord[j], ord[j - 1]) {
      SwapPermutes(s, j, j - 1);
      SinkPermutes(Swap(s, j, j - 1), ord, j - 1);
    }
  }

  lemma {:induction false} SortFromPermutes(s: seq<Node>, ord: seq<string>, i: nat)
    requires i <= |s| && |ord| == |s|
    ensures multiset(SortFrom(s, ord, i)) == multiset(s)
    decreases |s| - i
  {
    if i < |s| {
      SinkPermutes(s, ord, i);
      SortFromPermutes(Sink(s, ord, i), ord, i + 1);
    }
  }

  /** Sorting a group is a permutation of it. */
  lemma SortGroupPermutes(s: seq<Node>, ord: seq<string>)
    requires |ord| == |s|
    ensures multiset(SortGroup(s, ord)) == multiset(s)
  {
    if |s| > 0 {
      SortFromPermutes(s, ord, 1);
    }
  }

  /** When the ordinals already ascend, the group keeps its input order. */
  lemma {:induction false} AscendingKeepsOrder(s: seq<Node>, ord: seq<string>, i: nat)
    requires |ord| == |s| && 1 <= i <= |s|
    requires forall k :: 0 < k < |s| ==> !OrdinalLess(ord[k], ord[k - 1])
    ensures SortFrom(s, ord, i) == s
    decreases |s| - i
  {
    if i < |s| {
      AscendingKeepsOrder(s, ord, i + 1);
    }
  }

  lemma AscendingGroupUnchanged(s: seq<Node>, ord: seq<string>)
    requires |ord| == |s|
    requires forall k :: 0 < k < |s| ==> !OrdinalLess(ord[k], ord[k - 1])
    ensures SortGroup(s, ord) == s
  {
    if |s| > 0 {
      AscendingKeepsOrder(s, ord, 1);
    }
  }

  lemma SmallOrdinals()
    ensures Atoi("1") == Some(1) && Atoi("2") == Some(2) && Atoi("3") == Some(3)
    ensures Atoi("9") == Some(9) && Atoi("10") == Some(10) && Atoi("1a") == None
  {
    assert DigitsValue("1") == 1 && DigitsValue("2") == 2 && DigitsValue("3") == 3 && DigitsValue("9") == 9;
    assert "10"[..1] == "1";
    assert DigitsValue("10") == 10;
    assert !IsDigit("1a"[1]);
  }

  /** The ordinals stay at their positions while the nodes move, so a group
      with ordinals "3", "1", "2" comes out as b, a, c: the node with ordinal
      "3" ends up ahead of the node with ordinal "2". */
  lemma PositionalComparatorMisorders(a: Node, b: Node, c: Node)
    ensures SortGroup([a, b, c], ["3", "1", "2"]) == [b, a, c]
  {
    var ord := ["3", "1", "2"];
    MisorderOrdinals();
    assert ord[1] == "1" && ord[0] == "3" && ord[2] == "2";
    SinkFirstPair(a, b, c, ord);
    var s1 := [b, a, c];
    assert SortFrom(s1, ord, 3) == s1;
    assert Sink(s1, ord, 2) == s1;
    assert SortFrom(s1, ord, 2) == s1;
  }

  /** The first step of the sort swaps the first two nodes when the second
      ordinal is less than the first. */
  lemma SinkFirstPair(a: Node, b: Node, c: Node, ord: seq<string>)
    requires |ord| == 3 && OrdinalLess(ord[1], ord[0])
    ensures Sink([a, b, c], ord, 1) == [b, a, c]
  {
    assert Swap([a, b, c], 1, 0) == [b, a, c];
  }

  lemma MisorderOrdinals()
    ensures OrdinalLess("1", "3") && !OrdinalLess("2", "1")
  {
    SmallOrdinals();
  }

  /** The comparator is not transitive on mixed ordinals: 9 < 10 numerically,
      "10" < "1a" and "1a" < "9" as strings. */
  lemma ComparatorNotTransitive()
    ensures OrdinalLess("9", "10") && OrdinalLess("10", "1a") && OrdinalLess("1a", "9")
  {
    SmallOrdinals();
    assert LexLess("10", "1a") by {
      assert "10"[0] == "1a"[0] && "10"[1..] == "0" && "1a"[1..] == "a";
      assert LexLess("0", "a");
    }
    assert LexLess("1a", "9") by {
      assert "1a"[0] < "9"[0];
    }
  }

  /** The insertion sort on a group's array, in place. */
  method SortInPlace(a: array<Node>, ord: seq<string>)
    requires |ord| == a.Length
    modifies a
    ensures a[..] == SortGroup(old(a[..]), ord)
  {
    if a.Length == 0 {
      return;
    }
    for i := 1 to a.Length
      invariant SortGroup(old(a[..]), ord) == SortFrom(a[..], ord, i)
    {
      ghost var before := a[..];
      SinkInPlace(a, ord, i);
      assert SortFrom(before, ord, i) == SortFrom(a[..], ord, i + 1);
    }
  }

  /** The inner loop: moves the node at position `i` back while it compares less. */
  method SinkInPlace(a: array<Node>, ord: seq<string>, i: nat)
    requires |ord| == a.Length && i < a.Length
    modifies a
    ensures a[..] == Sink(old(a[..]), ord, i)
  {
    var j := i;
    while j > 0 && OrdinalLess(ord[j], ord[j - 1])
      invariant 0 <= j <= i
      invariant Sink(old(a[..]), ord, i) == Sink(a[..], ord, j)
      decreases j
    {
      ghost var before := a[..];
      a[j], a[j - 1] := a[j - 1], a[j];
      assert a[..] == Swap(before, j, j - 1);
      j := j - 1;
    }
  }

  /** A classifier's answer for one node: its group and its ordinal. */
  datatype Label = Label(group: string, ordinal: string)

  /** The nodes labelled with group `g`, in input order. */
  function Members(nodes: seq<Node>, labels: seq<Label>, g: string): (r: seq<Node>)
    requires |labels| == |nodes|
    ensures |r| <= |nodes|
  {
    if nodes == [] then []
    else
      var i := |nodes| - 1;
      Members(nodes[..i], labels[..i], g) + (if labels[i].group == g then [nodes[i]] else [])
  }

  /** The ordinals of the nodes labelled with group `g`, in input order. */
  function Ordinals(nodes: seq<Node>, labels: seq<Label>, g: string): (r: seq<string>)
    requires |labels| == |nodes|
    ensures |r| == |Members(nodes, labels, g)|
  {
    if nodes == [] then []
    else
      var i := |nodes| - 1;
      Ordinals(nodes[..i], labels[..i], g) + (if labels[i].group == g then [labels[i].ordinal] else [])
  }

  /** The groups that occur among the labels. */
  function Groups(labels: seq<Label>): set<string> {
    set i | 0 <= i < |labels| :: labels[i].group
  }

  /** The result of indexNodes: each group's members, sorted by their ordinals. */
  function Indexed(nodes: seq<Node>, labels: seq<Label>): (r: map<string, seq<Node>>)
    requires |labels| == |nodes|
    ensures r.Keys == Groups(labels)
  {
    map g | g in Groups(labels) :: SortGroup(Members(nodes, labels, g), Ordinals(nodes, labels, g))
  }

  /** Each group of the index holds exactly its members, reordered. */
  lemma IndexedPermutes(nodes: seq<Node>, labels: seq<Label>, g: string)
    requires |labels| == |nodes| && g in Groups(labels)
    ensures multiset(Indexed(nodes, labels)[g]) == multiset(Members(nodes, labels, g))
  {
    SortGroupPermutes(Members(nodes, labels, g), Ordinals(nodes, labels, g));
  }

  /** A group no label names has no members. */
  lemma {:induction false} MembersAbsent(nodes: seq<Node>, labels: seq<Label>, g: string)
    requires |labels| == |nodes| && g !in Groups(labels)
    ensures Members(nodes, labels, g) == [] && Ordinals(nodes, labels, g) == []
  {
    if nodes != [] {
      var i := |nodes| - 1;
      assert labels[i].group in Groups(labels);
      assert Groups(labels[..i]) <= Groups(labels) by {
        forall x | x in Groups(labels[..i]) ensures x in Groups(labels) {
          var k :| 0 <= k < i && labels[..i][k].group == x;
          assert labels[k].group == x;
        }
      }
      MembersAbsent(nodes[..i], labels[..i], g);
    }
  }

  lemma GroupsAppend(labels: seq<Label>, l: Label)
    ensures Groups(labels + [l]) == Groups(labels) + {l.group}
  {
    var ls := labels + [l];
    forall x | x in Groups(ls) ensures x in Groups(labels) + {l.group} {
      var k :| 0 <= k < |ls| && ls[k].group == x;
      if k < |labels| {
        assert labels[k].group == x;
      }
    }
    forall x | x in Groups(labels) ensures x in Groups(ls) {
      var k :| 0 <= k < |labels| && labels[k].group == x;
      assert ls[k].group == x;
    }
    assert ls[|labels|].group == l.group;
  }

  lemma MembersSnoc(nodes: seq<Node>, labels: seq<Label>, n: Node, l: Label, h: string)
    requires |labels| == |nodes|
    ensures Members(nodes + [n], labels + [l], h) == Members(nodes, labels, h) + (if l.group == h then [n] else [])
    ensures Ordinals(nodes + [n], labels + [l], h) == Ordinals(nodes, labels, h) + (if l.group == h then [l.ordinal] else [])
  {
    assert (nodes + [n])[..|nodes|] == nodes && (labels + [l])[..|labels|] == labels;
  }

  lemma PrefixSnoc<T>(s: seq<T>, i: nat)
    requires i < |s|
    ensures s[..i + 1] == s[..i] + [s[i]]
  {
  }

  /** The first loop of indexNodes: appends each node and its ordinal to its
      group, stopping at the first classifier error. */
  method Partition(nodes: seq<Node>, classify: Node -> Result<Label>)
    returns (members: map<string, seq<Node>>, ordinals: map<string, seq<string>>, labels: seq<Label>, err: Option<string>)
    ensures err.Some? ==> exists i :: (0 <= i < |nodes| && classify(nodes[i]) == Err(err.value) &&
      forall j :: 0 <= j < i ==> classify(nodes[j]).Ok?)
    ensures err.None? ==> |labels| == |nodes| && forall i :: 0 <= i < |nodes| ==> classify(nodes[i]) == Ok(labels[i])
    ensures err.None? ==> members.Keys == Groups(labels) && ordinals.Keys == Groups(labels)
    ensures err.None? ==> forall g :: g in members ==>
      members[g] == Members(nodes, labels, g) && ordinals[g] == Ordinals(nodes, labels, g)
  {
    members, ordinals, labels := map[], map[], [];
    for i := 0 to |nodes|
      invariant |labels| == i
      invariant forall j :: 0 <= j < i ==> classify(nodes[j]) == Ok(labels[j])
      invariant members.Keys == Groups(labels) && ordinals.Keys == Groups(labels)
      invariant forall g :: g in members ==>
        members[g] == Members(nodes[..i], labels, g) && ordinals[g] == Ordinals(nodes[..i], labels, g)
    {
      var l := classify(nodes[i]);
      if l.Err? {
        return members, ordinals, labels, Some(l.error);
      }
      var g := l.value.group;
      if g !in members {
        MembersAbsent(nodes[..i], labels, g);
      }
      var ms := if g in members then members[g] else [];
      var os := if g in ordinals then ordinals[g] else [];
      assert ms == Members(nodes[..i], labels, g) && os == Ordinals(nodes[..i], labels, g);
      GroupsAppend(labels, l.value);
      ghost var before := labels;
      ghost var oldMembers, oldOrdinals := members, ordinals;
      members := members[g := ms + [nodes[i]]];
      ordinals := ordinals[g := os + [l.value.ordinal]];
      labels := labels + [l.value];
      PrefixSnoc(nodes, i);
      forall h | h in members
        ensures members[h] == Members(nodes[..i + 1], labels, h) && ordinals[h] == Ordinals(nodes[..i + 1], labels, h)
      {
        MembersSnoc(nodes[..i], before, nodes[i], l.value, h);
        if h != g {
          assert members[h] == oldMembers[h] && ordinals[h] == oldOrdinals[h];
        }
      }
    }
    assert nodes[..|nodes|] == nodes;
    err := None;
  }

  /** The second loop of indexNodes: sorts each group's list in Go's map order. */
  method SortGroups(members: map<string, seq<Node>>, ordinals: map<string, seq<string>>)
    returns (result: map<string, seq<Node>>)
    requires members.Keys == ordinals.Keys
    requires forall g :: g in members ==> |ordinals[g]| == |members[g]|
    ensures result.Keys == members.Keys
    ensures forall g :: g in result ==> result[g] == SortGroup(members[g], ordinals[g])
  {
    result := members;
    var rest := members.Keys;
    while rest != {}
      invariant rest <= members.Keys && result.Keys == members.Keys
      invariant forall g :: g in result && g in rest ==> result[g] == members[g]
      invariant forall g :: g in result && g !in rest ==> result[g] == SortGroup(members[g], ordinals[g])
      decreases rest
    {
      var g :| g in rest;
      var group := members[g];
      var a := new Node[|group|](k requires 0 <= k < |group| => group[k]);
      assert a[..] == group;
      SortInPlace(a, ordinals[g]);
      result := result[g := a[..]];
      rest := rest - {g};
    }
  }

  /** indexNodes. A classifier error aborts with no groups; otherwise each group
      holds its members sorted by the comparator. */
  method IndexNodes(nodes: seq<Node>, classify: Node -> Result<Label>)
    returns (result: map<string, seq<Node>>, err: Option<string>)
    ensures err.Some? ==> result == map[] && exists i :: (0 <= i < |nodes| && classify(nodes[i]) == Err(err.value) &&
      forall j :: 0 <= j < i ==> classify(nodes[j]).Ok?)
    ensures err.None? ==> forall i :: 0 <= i < |nodes| ==> classify(nodes[i]).Ok?
    ensures err.None? ==> result == Indexed(nodes, seq(|nodes|, i requires 0 <= i < |nodes| => classify(nodes[i]).value))
  {
    var members, ordinals, labels, e := Partition(nodes, classify);
    if e.Some? {
      return map[], e;
    }
    assert labels == seq(|nodes|, i requires 0 <= i < |nodes| => classify(nodes[i]).value);
    result := SortGroups(members, ordinals);
    var expected := Indexed(nodes, labels);
    assert result.Keys == expected.Keys;
    assert forall g :: g in result ==> result[g] == expected[g];
    err := None;
  }

  /** The members of the groups in `gs` together, counted with multiplicity. */
  function AllMembers(nodes: seq<Node>, labels: seq<Label>, gs: seq<string>): multiset<Node>
    requires |labels| == |nodes|
  {
    if gs == [] then multiset{} else multiset(Members(nodes, labels, gs[0])) + AllMembers(nodes, labels, gs[1..])
  }

  lemma {:induction false} AllMembersAppend(nodes: seq<Node>, labels: seq<Label>, n: Node, l: Label, gs: seq<string>)
    requires |labels| == |nodes|
    requires forall i, j :: 0 <= i < j < |gs| ==> gs[i] != gs[j]
    ensures AllMembers(nodes + [n], labels + [l], gs) ==
      AllMembers(nodes, labels, gs) + (if l.group in gs then multiset{n} else multiset{})
  {
    if gs != [] {
      var ns, ls := nodes + [n], labels + [l];
      assert ns[..|nodes|] == nodes && ls[..|labels|] == labels;
      AllMembersAppend(nodes, labels, n, l, gs[1..]);
      if l.group == gs[0] {
        assert l.group !in gs[1..];
      }
    }
  }

  /** Every input node lands in exactly one group: listing the groups once each,
      their members together are the input nodes. */
  lemma {:induction false} PartitionIsExact(nodes: seq<Node>, labels: seq<Label>, gs: seq<string>)
    requires |labels| == |nodes|
    requires forall i, j :: 0 <= i < j < |gs| ==> gs[i] != gs[j]
    requires Groups(labels) <= set g | g in gs
    ensures AllMembers(nodes, labels, gs) == multiset(nodes)
  {
    if nodes == [] {
      AllMembersEmpty(gs);
    } else {
      var i := |nodes| - 1;
      assert nodes == nodes[..i] + [nodes[i]] && labels == labels[..i] + [labels[i]];
      GroupsAppend(labels[..i], labels[i]);
      PartitionIsExact(nodes[..i], labels[..i], gs);
      AllMembersAppend(nodes[..i], labels[..i], nodes[i], labels[i], gs);
    }
  }

  lemma {:induction false} AllMembersEmpty(gs: seq<string>)
    ensures AllMembers([], [], gs) == multiset{}
  {
    if gs != [] {
      AllMembersEmpty(gs[1..]);
    }
  }

  /** The sizes of the sorted groups add up to the number of input nodes. */
  lemma IndexedSizes(nodes: seq<Node>, labels: seq<Label>, gs: seq<string>)
    requires |labels| == |nodes|
    requires forall i, j :: 0 <= i < j < |gs| ==> gs[i] != gs[j]
    requires (set g | g in gs) == Groups(labels)
    ensures SumSizes(Indexed(nodes, labels), gs) == |nodes|
  {
    PartitionIsExact(nodes, labels, gs);
    SumSizesMembers(nodes, labels, gs);
  }

  /** The total length of the lists of the groups in `gs`. */
  function SumSizes(m: map<string, seq<Node>>, gs: seq<string>): nat {
    if gs == [] then 0 else (if gs[0] in m then |m[gs[0]]| else 0) + SumSizes(m, gs[1..])
  }

  lemma {:induction false} SumSizesMembers(nodes: seq<Node>, labels: seq<Label>, gs: seq<string>)
    requires |labels| == |nodes|
    requires (set g | g in gs) <= Groups(labels)
    ensures SumSizes(Indexed(nodes, labels), gs) == |AllMembers(nodes, labels, gs)|
  {
    if gs != [] {
      assert (set g | g in gs[1..]) <= (set g | g in gs);
      SumSizesMembers(nodes, labels, gs[1..]);
      var m := Indexed(nodes, labels);
      assert gs[0] in m;
      IndexedPermutes(nodes, labels, gs[0]);
      assert |m[gs[0]]| == |multiset(m[gs[0]])| == |multiset(Members(nodes, labels, gs[0]))|;
    }
  }
}
