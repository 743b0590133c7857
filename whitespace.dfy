/** Restoring the blank lines the YAML parser drops between the top-level
    entries of each resource, from the line numbers the parser recorded. */
module Whitespace {
  import opened GoStrings
  import opened Document

  function Max(a: int, b: int): int { if a < b then b else a }

  /** The largest of `x` and the elements of `s`. */
  function MaxOf(x: int, s: seq<int>): (m: int)
    ensures x <= m
    ensures forall k :: 0 <= k < |s| ==> s[k] <= m
    ensures m == x || exists k :: 0 <= k < |s| && m == s[k]
  {
    if s == [] then x else Max(MaxOf(x, s[..|s| - 1]), s[|s| - 1])
  }

  /** The largest line number anywhere in the tree below and at `n`. */
  function LastLine(n: Node): (r: int)
    ensures n.line <= r
    decreases n
  {
    MaxOf(n.line, seq(|n.content|, k requires 0 <= k < |n.content| => LastLine(n.content[k])))
  }

  /** lastLine: the same maximum, found by a loop that recurses into each child. */
  method LastLineOf(n: Node) returns (line: int)
    ensures line == LastLine(n)
    decreases n
  {
    ghost var lines := seq(|n.content|, k requires 0 <= k < |n.content| => LastLine(n.content[k]));
    line := n.line;
    for i := 0 to |n.content|
      invariant line == MaxOf(n.line, lines[..i])
    {
      var ll := LastLineOf(n.content[i]);
      assert lines[..i + 1][..i] == lines[..i];
      if ll > line {
        line := ll;
      }
    }
    assert lines[..|n.content|] == lines;
  }

  /** The last line of a node is at least that of each of its children, and is
      its own line or one of theirs. */
  lemma LastLineBounds(n: Node)
    ensures forall k :: 0 <= k < |n.content| ==> LastLine(n.content[k]) <= LastLine(n)
    ensures LastLine(n) == n.line || exists k :: 0 <= k < |n.content| && LastLine(n) == LastLine(n.content[k])
  {
    var lines := seq(|n.content|, k requires 0 <= k < |n.content| => LastLine(n.content[k]));
    assert forall k :: 0 <= k < |n.content| ==> lines[k] == LastLine(n.content[k]);
  }

  /** Entry `i` starts on a different line from the entry before it. */
  predicate StartsNewLine(n: Node, i: nat)
    requires i < |n.content|
  {
    i > 0 && n.content[i].line != n.content[i - 1].line
  }

  /** The running lower bound after entries 0 .. k-1 have been considered: the
      node's own line, or the last line of an entry that comes just before an
      entry starting a new line, whichever is largest. */
  function MinLLAfter(n: Node, k: nat): (m: int)
    requires k <= |n.content|
    ensures n.line <= m
  {
    if k == 0 then n.line
    else if StartsNewLine(n, k - 1) then Max(MinLLAfter(n, k - 1), LastLine(n.content[k - 2]))
    else MinLLAfter(n, k - 1)
  }

  /** The running bound is at least the last line of every entry just before an
      entry that starts a new line. */
  lemma {:induction false} MinLLAfterBounds(n: Node, k: nat, j: nat)
    requires k <= |n.content| && j < k && StartsNewLine(n, j)
    ensures LastLine(n.content[j - 1]) <= MinLLAfter(n, k)
  {
    if j < k - 1 {
      MinLLAfterBounds(n, k - 1, j);
    }
  }

  /** The running bound never decreases along the entries. */
  lemma {:induction false} MinLLAfterMonotone(n: Node, j: nat, k: nat)
    requires j <= k <= |n.content|
    ensures MinLLAfter(n, j) <= MinLLAfter(n, k)
    decreases k
  {
    if j < k {
      MinLLAfterMonotone(n, j, k - 1);
    }
  }

  /** The lines a comment occupies above the entry it belongs to. */
  function HeadLines(c: string): nat {
    if |c| > 0 then CountChar(c, '\n') + 1 else 0
  }

  /** The lines a foot comment occupies, with the blank line that separates it. */
  function FootLines(c: string): nat {
    if |c| > 0 then CountChar(c, '\n') + 2 else 0
  }

  /** The foot comment that precedes entry `i`: the preceding entry's, or, in a
      mapping where that one is empty, the one two entries back (the key before). */
  function FootBefore(n: Node, i: nat): string
    requires 0 < i < |n.content|
  {
    var f := n.content[i - 1].footComment;
    if f == "" && n.kind == MappingNode && i >= 2 then n.content[i - 2].footComment else f
  }

  /** The candidate count of blank lines before entry `i`: the lines between the
      running bound and the entry that neither its head comment nor the
      preceding foot comment account for. */
  function Gap(n: Node, i: nat): int
    requires 0 < i < |n.content|
  {
    n.content[i].line - 1 - HeadLines(n.content[i].headComment) - MinLLAfter(n, i + 1)
      - FootLines(FootBefore(n, i))
  }

  /** The number of blank lines put back in front of entry `i`, never negative. */
  function Inserted(n: Node, i: nat): (k: nat)
    requires i < |n.content|
    ensures k > 0 ==> StartsNewLine(n, i)
    ensures k > 0 ==> (k + HeadLines(n.content[i].headComment) + FootLines(FootBefore(n, i))
      <= n.content[i].line - 1 - LastLine(n.content[i - 1]))
  {
    if StartsNewLine(n, i) && Gap(n, i) > 0 then
      MinLLAfterBounds(n, i + 1, i);
      Gap(n, i)
    else 0
  }

  /** The entry after restoring: its head comment prefixed with the blank lines. */
  function RestoredEntry(n: Node, i: nat): (c: Node)
    requires i < |n.content|
    ensures c == n.content[i].(headComment := c.headComment)
    ensures c.headComment == Newlines(Inserted(n, i)) + n.content[i].headComment
  {
    var c := n.content[i];
    if Inserted(n, i) > 0 then c.(headComment := Newlines(Inserted(n, i)) + c.headComment)
    else
      assert Newlines(0) + c.headComment == c.headComment;
      c
  }

  /** One resource after restoring its top-level vertical white space: every
      entry keeps its kind, value, lines, foot comment and children, and gains
      only blank lines at the start of its head comment. */
  function Restored(n: Node): (r: Node)
    ensures r == n.(content := r.content)
    ensures |r.content| == |n.content|
  {
    n.(content := seq(|n.content|, i requires 0 <= i < |n.content| => RestoredEntry(n, i)))
  }

  /** Restoring changes each entry's head comment only, and no entry that
      starts on the line of the entry before it. */
  lemma RestoredShape(n: Node)
    ensures forall i :: 0 <= i < |n.content| ==>
      Restored(n).content[i] == n.content[i].(headComment := Restored(n).content[i].headComment)
    ensures forall i :: 0 <= i < |n.content| ==>
      Restored(n).content[i].headComment == Newlines(Inserted(n, i)) + n.content[i].headComment
    ensures forall i :: 0 <= i < |n.content| && !StartsNewLine(n, i) ==> Restored(n).content[i] == n.content[i]
  {
    forall i | 0 <= i < |n.content|
      ensures Restored(n).content[i] == RestoredEntry(n, i)
    {
    }
  }

  /** The body of the outer loop: one resource, whose entries are updated one at
      a time while the running bound is carried along. */
  method RestoreNode(n: Node) returns (r: Node)
    ensures r == Restored(n)
  {
    var content := n.content;
    var minLL := n.line;
    for i := 0 to |content|
      invariant |content| == |n.content|
      invariant forall j :: 0 <= j < i ==> content[j] == RestoredEntry(n, j)
      invariant forall j :: i <= j < |content| ==> content[j] == n.content[j]
      invariant minLL == MinLLAfter(n, i)
    {
      var entry, ll := RestoreAt(n, content, i, minLL);
      content := content[i := entry];
      minLL := ll;
    }
    r := n.(content := content);
    assert r.content == Restored(n).content;
  }

  /** One step of that loop: entry `i` with its blank lines put back, and the
      running bound after it, from the entries before it already restored. */
  method RestoreAt(n: Node, content: seq<Node>, i: nat, minLL: int) returns (entry: Node, newMinLL: int)
    requires i < |n.content| == |content|
    requires content[i] == n.content[i]
    requires i >= 1 ==> content[i - 1] == RestoredEntry(n, i - 1)
    requires i >= 2 ==> content[i - 2] == RestoredEntry(n, i - 2)
    requires minLL == MinLLAfter(n, i)
    ensures entry == RestoredEntry(n, i)
    ensures newMinLL == MinLLAfter(n, i + 1)
  {
    entry, newMinLL := content[i], minLL;
    if i == 0 || content[i].line == content[i - 1].line {
      if i > 0 {
        RestoredEntryKeeps(n, i - 1, content[i - 1]);
      }
      return;
    }
    RestoredEntryKeeps(n, i - 1, content[i - 1]);
    assert StartsNewLine(n, i);
    var ll := content[i].line - 1;
    if |content[i].headComment| > 0 {
      ll := ll - (CountChar(content[i].headComment, '\n') + 1);
    }
    assert ll == n.content[i].line - 1 - HeadLines(n.content[i].headComment);
    var cll := LastLineOf(content[i - 1]);
    if cll > newMinLL {
      newMinLL := cll;
    }
    assert newMinLL == MinLLAfter(n, i + 1);
    ll := ll - newMinLL;
    var footComment := content[i - 1].footComment;
    if footComment == "" && n.kind == MappingNode && i - 2 >= 0 {
      RestoredEntryKeeps(n, i - 2, content[i - 2]);
      footComment := content[i - 2].footComment;
    }
    assert footComment == FootBefore(n, i);
    if |footComment| > 0 {
      ll := ll - (CountChar(footComment, '\n') + 2);
    }
    assert ll == Gap(n, i);
    if ll > 0 {
      entry := entry.(headComment := Newlines(ll) + entry.headComment);
    }
  }

  /** A restored entry keeps the line, foot comment and last line of the original. */
  lemma RestoredEntryKeeps(n: Node, j: nat, c: Node)
    requires j < |n.content| && c == RestoredEntry(n, j)
    ensures c.line == n.content[j].line && c.footComment == n.content[j].footComment
    ensures LastLine(c) == LastLine(n.content[j])
  {
    LastLineIgnoresComments(n.content[j], c.headComment);
  }

  /** restoreVerticalWhiteSpace: every resource of the list, in place. */
  method RestoreVerticalWhiteSpace(nodes: array<Node>)
    modifies nodes
    ensures forall k :: 0 <= k < nodes.Length ==> nodes[k] == Restored(old(nodes[k]))
  {
    for k := 0 to nodes.Length
      invariant forall j :: 0 <= j < k ==> nodes[j] == Restored(old(nodes[j]))
      invariant forall j :: k <= j < nodes.Length ==> nodes[j] == old(nodes[j])
    {
      nodes[k] := RestoreNode(nodes[k]);
    }
  }

  /** A node's last line does not depend on its head comment. */
  lemma LastLineIgnoresComments(n: Node, h: string)
    ensures LastLine(n.(headComment := h)) == LastLine(n)
  {
    var m := n.(headComment := h);
    assert m.content == n.content && m.line == n.line;
  }

  /** Restoring changes no line number, foot comment or child list, so the running
      bound and the gaps are computed from the same data a second time. */
  lemma {:induction false} MinLLAfterRestored(n: Node, k: nat)
    requires k <= |n.content|
    ensures MinLLAfter(Restored(n), k) == MinLLAfter(n, k)
  {
    if k > 0 {
      MinLLAfterRestored(n, k - 1);
      RestoredShape(n);
      var r := Restored(n);
      if k >= 2 {
        LastLineIgnoresComments(n.content[k - 2], r.content[k - 2].headComment);
      }
    }
  }

  lemma NewlinesPrefixCount(k: nat, h: string)
    ensures CountChar(Newlines(k) + h, '\n') == k + CountChar(h, '\n')
  {
    CountAppend(Newlines(k), h, '\n');
    CountNewlines(k);
  }

  /** Restoring twice puts back no more blank lines than restoring once. */
  lemma RestoredIdempotent(n: Node)
    ensures Restored(Restored(n)) == Restored(n)
  {
    RestoredShape(n);
    var r := Restored(n);
    forall i | 0 <= i < |r.content|
      ensures Inserted(r, i) == 0
    {
      if StartsNewLine(r, i) {
        MinLLAfterRestored(n, i + 1);
        assert FootBefore(r, i) == FootBefore(n, i);
        var k := Inserted(n, i);
        var h := n.content[i].headComment;
        NewlinesPrefixCount(k, h);
        if k > 0 {
          assert |r.content[i].headComment| > 0;
          assert HeadLines(r.content[i].headComment) >= k + HeadLines(h);
        } else {
          assert Newlines(0) + h == h;
        }
        assert Gap(r, i) <= 0;
      }
    }
    assert Restored(r).content == r.content;
  }
}
