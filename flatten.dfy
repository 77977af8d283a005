/**
 * Finding the log block among the page's root blocks and descending `nest`
 * levels below it to reach the time entries.
 */
module Flatten {
  import opened Wrappers
  import opened Search
  import opened Outline

  /** `tree.filter((t) => t.content === keyword)[0]`: the first root block whose text is the keyword. */
  function FindLog(tree: seq<Node>, keyword: string): (r: Option<Node>)
    ensures r.None? <==> forall i :: 0 <= i < |tree| ==> tree[i].content != keyword
    ensures r.Some? ==>
      exists i :: 0 <= i < |tree| && tree[i] == r.value && r.value.content == keyword &&
        forall j :: 0 <= j < i ==> tree[j].content != keyword
  {
    var probe := (n: Node) => if n.content == keyword then Some(n) else None;
    var r := FirstSome(tree, probe);
    assert forall i :: 0 <= i < |tree| ==> (probe(tree[i]).None? <==> tree[i].content != keyword);
    r
  }

  /** One round, `list.map((child) => child.children).flat()`: every node's children, in order. */
  function Children(ns: seq<Node>): seq<Node>
  {
    if |ns| == 0 then [] else Children(ns[..|ns| - 1]) + ns[|ns| - 1].children
  }

  /** `rounds` rounds of `Children`; a count of zero or less leaves the list as it is. */
  function Descend(ns: seq<Node>, rounds: int): seq<Node>
    decreases rounds
  {
    if rounds <= 0 then ns else Descend(Children(ns), rounds - 1)
  }

  /** A round distributes over concatenation: each node contributes its own children, in place. */
  lemma {:induction false} ChildrenAppend(a: seq<Node>, b: seq<Node>)
    ensures Children(a + b) == Children(a) + Children(b)
    decreases |b|
  {
    if |b| == 0 {
      assert a + b == a;
    } else {
      var init := b[..|b| - 1];
      assert (a + b)[..|a + b| - 1] == a + init;
      ChildrenAppend(a, init);
    }
  }

  /** A node without children contributes nothing to the next round. */
  lemma ChildlessContributesNothing(a: seq<Node>, n: Node, b: seq<Node>)
    requires n.children == []
    ensures Children(a + [n] + b) == Children(a + b)
  {
    ChildrenAppend(a + [n], b);
    ChildrenAppend(a, [n]);
    ChildrenAppend(a, b);
    assert [n][..0] == [];
  }

  /** A node is in the next round exactly when it is a child of some node of this round. */
  lemma {:induction false} ChildrenMembers(ns: seq<Node>, x: Node)
    ensures x in Children(ns) <==> exists i :: 0 <= i < |ns| && x in ns[i].children
  {
    if |ns| > 0 {
      var init := ns[..|ns| - 1];
      ChildrenMembers(init, x);
      assert forall i :: 0 <= i < |init| ==> init[i] == ns[i];
    }
  }

  /** One round more is one more `Children` applied after the others, as the loop does it. */
  lemma {:induction false} DescendOneMore(ns: seq<Node>, k: nat)
    ensures Descend(ns, k + 1) == Children(Descend(ns, k))
    decreases k
  {
    if k > 0 {
      DescendOneMore(Children(ns), k - 1);
    }
  }

  /** The `nest` loop: reassign the list to the next round's nodes `nest` times. */
  method FlattenNest(ns: seq<Node>, nest: int) returns (r: seq<Node>)
    ensures r == Descend(ns, nest)
    ensures nest <= 0 ==> r == ns
  {
    r := ns;
    var i := 0;
    while i < nest
      invariant 0 <= i && (nest >= 0 ==> i <= nest)
      invariant Descend(r, nest - i) == Descend(ns, nest)
    {
      r := Children(r);
      i := i + 1;
    }
  }
}
