/** Kahn's ordering of compiled rules. */
module KahnOrder {
  import opened Basics
  import opened RuleGraph

  /** The part of a rule that ordering looks at. */
  datatype Node = Node(name: string, variables: seq<string>)

  /** Output names differ and no rule lists a variable twice. */
  predicate WellFormed(rules: seq<Node>) {
    && (forall i, j :: 0 <= i < j < |rules| ==> rules[i].name != rules[j].name)
    && (forall i :: 0 <= i < |rules| ==> Unique(rules[i].variables))
  }

  /** The rules named among the first `k` variables of rule `i`. */
  function DepsUpTo(rules: seq<Node>, i: nat, k: nat): set<nat>
    requires i < |rules| && k <= |rules[i].variables|
  {
    set j: nat | j < |rules| && rules[j].name in rules[i].variables[..k]
  }

  function Deps(rules: seq<Node>, i: nat): set<nat>
    requires i < |rules|
  {
    set j: nat | j < |rules| && rules[j].name in rules[i].variables
  }

  function GraphOf(rules: seq<Node>): Graph {
    map a | a in Names(rules) :: (set v | v in rules[IndexOf(rules, a)].variables)
  }

  function Names(rules: seq<Node>): set<string> { set i | 0 <= i < |rules| :: rules[i].name }

  function IndexOf(rules: seq<Node>, name: string): (i: nat)
    requires name in Names(rules)
    ensures i < |rules| && rules[i].name == name
  {
    var k := |rules| - 1;
    if rules[k].name == name then k else
      assert exists j :: 0 <= j < |rules| && rules[j].name == name && j != k;
      assert name in Names(rules[..k]) by {
        var j :| 0 <= j < |rules| && rules[j].name == name;
        assert rules[..k][j] == rules[j];
      }
      IndexOf(rules[..k], name)
  }

  // -------------------------------------------------------------- edges and in-degrees

  /** The dependents of each rule, once each, and the number of dependencies of each rule. */
  ghost predicate Edges(rules: seq<Node>, adj: seq<seq<nat>>, degree: seq<nat>) {
    && |adj| == |degree| == |rules|
    && (forall j :: 0 <= j < |rules| ==> Row(rules, adj[j], j, |rules|))
    && (forall x :: 0 <= x < |rules| ==> degree[x] == |Deps(rules, x)|)
  }

  /** The dependents of rule `j` among the first `n` rules, once each. */
  ghost predicate Row(rules: seq<Node>, row: seq<nat>, j: nat, n: nat)
    requires n <= |rules|
  {
    Unique(row) && forall x: nat :: x in row <==> x < n && j in Deps(rules, x)
  }

  /** The same, with the first `k` variables of rule `n` taken into account. */
  ghost predicate GrowingRow(rules: seq<Node>, row: seq<nat>, j: nat, n: nat, k: nat)
    requires n < |rules| && k <= |rules[n].variables|
  {
    && Unique(row)
    && forall x: nat :: x in row <==> (x < n && j in Deps(rules, x)) || (x == n && j in DepsUpTo(rules, n, k))
  }

  method NameIndex(rules: seq<Node>) returns (index: map<string, nat>)
    requires WellFormed(rules)
    ensures index.Keys == Names(rules)
    ensures forall i :: 0 <= i < |rules| ==> rules[i].name in index && index[rules[i].name] == i
  {
    index := map[];
    for i := 0 to |rules|
      invariant forall j :: 0 <= j < i ==> rules[j].name in index && index[rules[j].name] == j
      invariant forall a :: a in index ==> exists j :: 0 <= j < i && rules[j].name == a
    {
      index := index[rules[i].name := i];
    }
  }

  /** Taking one more variable into account. */
  lemma DepsStep(rules: seq<Node>, i: nat, k: nat)
    requires WellFormed(rules) && i < |rules| && k < |rules[i].variables|
    ensures var v := rules[i].variables[k];
      && (v !in Names(rules) ==> DepsUpTo(rules, i, k + 1) == DepsUpTo(rules, i, k))
      && (forall j :: 0 <= j < |rules| && rules[j].name == v ==>
            j !in DepsUpTo(rules, i, k) && DepsUpTo(rules, i, k + 1) == DepsUpTo(rules, i, k) + {j})
  {
    var vs, v := rules[i].variables, rules[i].variables[k];
    assert vs[..k + 1] == vs[..k] + [v];
    assert v !in vs[..k];
    forall j | 0 <= j < |rules| && rules[j].name == v
      ensures j !in DepsUpTo(rules, i, k) && DepsUpTo(rules, i, k + 1) == DepsUpTo(rules, i, k) + {j}
    {
      assert forall x :: 0 <= x < |rules| && rules[x].name == v ==> x == j;
    }
  }

  method BuildEdges(rules: seq<Node>) returns (adj: seq<seq<nat>>, degree: seq<nat>)
    requires WellFormed(rules)
    ensures Edges(rules, adj, degree)
  {
    hide PartialRow, Deps, DepsUpTo, Partial, Edges;
    var n := |rules|;
    var index := NameIndex(rules);
    adj := seq(n, _ => []);
    degree := seq(n, _ => 0);
    NothingBuilt(rules, adj, degree);
    for i := 0 to n
      invariant Partial(rules, adj, degree, i)
    {
      var vs := rules[i].variables;
      NextRule(rules, adj, degree, i);
      for k := 0 to |vs|
        invariant |adj| == |degree| == n && PartialRow(rules, adj, degree, i, k)
      {
        DepsStep(rules, i, k);
        if vs[k] in index {
          var j := index[vs[k]];
          AddEdge(rules, adj, degree, i, k, j);
          adj := adj[j := adj[j] + [i]];
          degree := degree[i := degree[i] + 1];
        } else {
          SkipVariable(rules, adj, degree, i, k);
        }
      }
      RowDone(rules, adj, degree, i);
    }
    AllRows(rules, adj, degree);
  }

  lemma NothingBuilt(rules: seq<Node>, adj: seq<seq<nat>>, degree: seq<nat>)
    requires |adj| == |degree| == |rules| && forall j :: 0 <= j < |rules| ==> adj[j] == [] && degree[j] == 0
    ensures Partial(rules, adj, degree, 0)
  {
  }

  /** Rules below `i` are done; of rule `i` the first `k` variables. */
  ghost predicate PartialRow(rules: seq<Node>, adj: seq<seq<nat>>, degree: seq<nat>, i: nat, k: nat)
    requires i < |rules| && k <= |rules[i].variables|
  {
    && |adj| == |degree| == |rules|
    && (forall j :: 0 <= j < |rules| ==> GrowingRow(rules, adj[j], j, i, k))
    && (forall x :: 0 <= x < |rules| ==>
          degree[x] == if x < i then |Deps(rules, x)| else if x == i then |DepsUpTo(rules, i, k)| else 0)
  }

  ghost predicate Partial(rules: seq<Node>, adj: seq<seq<nat>>, degree: seq<nat>, i: nat)
    requires i <= |rules|
  {
    && |adj| == |degree| == |rules|
    && (forall j :: 0 <= j < |rules| ==> Row(rules, adj[j], j, i))
    && (forall x :: 0 <= x < |rules| ==> degree[x] == if x < i then |Deps(rules, x)| else 0)
  }

  lemma NextRule(rules: seq<Node>, adj: seq<seq<nat>>, degree: seq<nat>, i: nat)
    requires i < |rules| && Partial(rules, adj, degree, i)
    ensures PartialRow(rules, adj, degree, i, 0) && |adj| == |degree| == |rules|
  {
    assert DepsUpTo(rules, i, 0) == {};
    forall j | 0 <= j < |rules| ensures GrowingRow(rules, adj[j], j, i, 0) {
      assert Row(rules, adj[j], j, i);
    }
  }

  lemma RowDone(rules: seq<Node>, adj: seq<seq<nat>>, degree: seq<nat>, i: nat)
    requires i < |rules| && PartialRow(rules, adj, degree, i, |rules[i].variables|)
    ensures Partial(rules, adj, degree, i + 1)
  {
    assert rules[i].variables[..|rules[i].variables|] == rules[i].variables;
    assert DepsUpTo(rules, i, |rules[i].variables|) == Deps(rules, i);
    forall j | 0 <= j < |rules| ensures Row(rules, adj[j], j, i + 1) {
      assert GrowingRow(rules, adj[j], j, i, |rules[i].variables|);
    }
  }

  lemma AllRows(rules: seq<Node>, adj: seq<seq<nat>>, degree: seq<nat>)
    requires Partial(rules, adj, degree, |rules|)
    ensures Edges(rules, adj, degree)
  {
  }

  lemma SkipVariable(rules: seq<Node>, adj: seq<seq<nat>>, degree: seq<nat>, i: nat, k: nat)
    requires i < |rules| && k < |rules[i].variables| && PartialRow(rules, adj, degree, i, k)
    requires DepsUpTo(rules, i, k + 1) == DepsUpTo(rules, i, k)
    ensures PartialRow(rules, adj, degree, i, k + 1)
  {
    hide Deps, DepsUpTo;
    forall j | 0 <= j < |rules| ensures GrowingRow(rules, adj[j], j, i, k + 1) {
      assert GrowingRow(rules, adj[j], j, i, k);
    }
  }

  lemma AddEdge(rules: seq<Node>, adj: seq<seq<nat>>, degree: seq<nat>, i: nat, k: nat, j: nat)
    requires i < |rules| && k < |rules[i].variables| && j < |rules| && PartialRow(rules, adj, degree, i, k)
    requires j !in DepsUpTo(rules, i, k) && DepsUpTo(rules, i, k + 1) == DepsUpTo(rules, i, k) + {j}
    ensures PartialRow(rules, adj[j := adj[j] + [i]], degree[i := degree[i] + 1], i, k + 1)
  {
    hide Deps, DepsUpTo;
    var adj' := adj[j := adj[j] + [i]];
    forall m | 0 <= m < |rules| ensures GrowingRow(rules, adj'[m], m, i, k + 1) {
      assert GrowingRow(rules, adj[m], m, i, k);
      if m == j { GrowRow(adj[j], i); }
    }
  }

  lemma GrowRow(row: seq<nat>, i: nat)
    requires Unique(row) && i !in row
    ensures Unique(row + [i]) && forall x :: x in row + [i] <==> x in row || x == i
  {
  }

  // ------------------------------------------------------------------ the breadth-first run

  /** Dependencies of a rule that are not yet in the order. */
  function Open(rules: seq<Node>, order: seq<nat>, x: nat): set<nat>
    requires x < |rules|
  {
    Deps(rules, x) - Members(order)
  }

  ghost predicate Counted(rules: seq<Node>, order: seq<nat>, degree: seq<nat>) {
    |degree| == |rules| && forall x :: 0 <= x < |rules| ==> degree[x] == |Open(rules, order, x)|
  }

  /** Exactly the rules without an open dependency have been queued, once each. */
  ghost predicate Ready(order: seq<nat>, queue: seq<nat>, degree: seq<nat>) {
    && Unique(order + queue)
    && forall x: nat :: x in order + queue <==> x < |degree| && degree[x] == 0
  }

  /** Every rule in the order comes after all rules it depends on. */
  ghost predicate Respects(rules: seq<Node>, order: seq<nat>) {
    forall p :: 0 <= p < |order| ==> order[p] < |rules| && Deps(rules, order[p]) <= Members(order[..p])
  }

  /** Dependents of a finished rule lose one open dependency; the subtraction cannot underflow. */
  method Release(row: seq<nat>, degree: seq<nat>, queue: seq<nat>)
    returns (degree': seq<nat>, queue': seq<nat>, ghost freed: seq<nat>)
    requires Unique(row) && forall i :: 0 <= i < |row| ==> row[i] < |degree| && degree[row[i]] >= 1
    ensures |degree'| == |degree|
    ensures forall x :: 0 <= x < |degree| ==> degree'[x] + (if x in row then 1 else 0) == degree[x]
    ensures queue' == queue + freed && Unique(freed)
    ensures forall x: nat :: x in freed <==> x in row && degree[x] == 1
  {
    degree', queue', freed := degree, queue, [];
    for k := 0 to |row|
      invariant |degree'| == |degree|
      invariant forall x :: 0 <= x < |degree| ==> degree'[x] + (if x in row[..k] then 1 else 0) == degree[x]
      invariant queue' == queue + freed && Unique(freed)
      invariant forall x: nat :: x in freed <==> x in row[..k] && degree[x] == 1
    {
      var next := row[k];
      assert row[..k + 1] == row[..k] + [next] && next !in row[..k];
      degree' := degree'[next := degree'[next] - 1];
      if degree'[next] == 0 {
        queue', freed := queue' + [next], freed + [next];
      }
    }
    assert row[..|row|] == row;
  }

  lemma OpenStep(rules: seq<Node>, order: seq<nat>, idx: nat, x: nat)
    requires x < |rules| && idx !in order
    ensures |Open(rules, order + [idx], x)| + (if idx in Deps(rules, x) then 1 else 0) == |Open(rules, order, x)|
  {
    hide Deps;
    assert Open(rules, order + [idx], x) == Open(rules, order, x) - {idx};
  }

  lemma CountedStep(rules: seq<Node>, order: seq<nat>, idx: nat, row: seq<nat>, degree: seq<nat>, degree': seq<nat>)
    requires Counted(rules, order, degree) && idx !in order && |degree'| == |degree|
    requires Row(rules, row, idx, |rules|)
    requires forall x :: 0 <= x < |degree| ==> degree'[x] + (if x in row then 1 else 0) == degree[x]
    ensures Counted(rules, order + [idx], degree')
  {
    hide Open, Deps;
    forall x | 0 <= x < |rules| ensures degree'[x] == |Open(rules, order + [idx], x)| {
      OpenStep(rules, order, idx, x);
    }
  }

  lemma ReadyStep(order: seq<nat>, queue: seq<nat>, row: seq<nat>, freed: seq<nat>, degree: seq<nat>, degree': seq<nat>)
    requires queue != [] && Ready(order, queue, degree) && |degree'| == |degree|
    requires forall x :: x in row ==> x < |degree| && degree[x] >= 1
    requires forall x :: 0 <= x < |degree| ==> degree'[x] + (if x in row then 1 else 0) == degree[x]
    requires Unique(freed) && forall x: nat :: x in freed <==> x in row && degree[x] == 1
    ensures Ready(order + [queue[0]], queue[1..] + freed, degree')
  {
    var before, after := order + queue, order + [queue[0]] + (queue[1..] + freed);
    assert after == before + freed;
    assert forall x :: x in freed ==> x !in before;
    AppendUnique(before, freed);
  }

  lemma AppendUnique(a: seq<nat>, b: seq<nat>)
    requires Unique(a) && Unique(b) && forall x :: x in b ==> x !in a
    ensures Unique(a + b)
  {
    forall i, j | 0 <= i < j < |a + b| ensures (a + b)[i] != (a + b)[j] {
      if i < |a| <= j { assert b[j - |a|] in b; }
    }
  }

  lemma RespectsStep(rules: seq<Node>, order: seq<nat>, idx: nat)
    requires Respects(rules, order) && idx < |rules| && Open(rules, order, idx) == {}
    ensures Respects(rules, order + [idx])
  {
    hide Deps;
    var o := order + [idx];
    forall d | d in Deps(rules, idx) ensures d in Members(order) {
      assert d !in Open(rules, order, idx);
    }
    forall p | 0 <= p < |o| ensures o[p] < |rules| && Deps(rules, o[p]) <= Members(o[..p]) {
      if p < |order| { assert o[..p] == order[..p]; } else { assert o[..p] == order; }
    }
  }

  /** What the order amounts to: exactly the rules left without an open dependency, each once, after
      everything it depends on, and no other rule is free. */
  ghost predicate Complete(rules: seq<Node>, order: seq<nat>) {
    && Unique(order) && Respects(rules, order)
    && forall x :: 0 <= x < |rules| && x !in order ==> Open(rules, order, x) != {}
  }

  function Below(n: nat): (s: set<nat>)
    ensures |s| == n && forall x: nat :: x in s <==> x < n
  {
    if n == 0 then {} else Below(n - 1) + {n - 1}
  }

  lemma UniqueShort(s: seq<nat>, n: nat)
    requires Unique(s) && forall x :: x in s ==> x < n
    ensures |s| <= n
  {
    MembersSize(s);
    SubsetSize(Members(s), Below(n));
  }

  method SortIndices(rules: seq<Node>) returns (order: seq<nat>)
    requires WellFormed(rules)
    ensures Complete(rules, order)
  {
    var adj, degree := BuildEdges(rules);
    var n := |rules|;
    var queue := InitialQueue(degree);
    order := [];
    assert [] + queue == queue;
    hide Deps;
    assert Counted(rules, [], degree) by {
      forall x | 0 <= x < n ensures degree[x] == |Open(rules, [], x)| {
        assert Open(rules, [], x) == Deps(rules, x);
      }
    }
    hide Open, Row;
    while queue != []
      invariant Counted(rules, order, degree) && Ready(order, queue, degree) && Respects(rules, order)
      decreases n - |order|
    {
      var idx := queue[0];
      HeadFresh(order, queue);
      UniqueShort(order + queue, n);
      ghost var before := degree;
      ghost var freed;
      RowWaiting(rules, order, queue, adj[idx], degree);
      RespectsStep(rules, order, idx);
      var rest;
      degree, rest, freed := Release(adj[idx], degree, queue[1..]);
      CountedStep(rules, order, idx, adj[idx], before, degree);
      ReadyStep(order, queue, adj[idx], freed, before, degree);
      order, queue := order + [idx], rest;
    }
    assert order + [] == order;
  }

  lemma HeadFresh(order: seq<nat>, queue: seq<nat>)
    requires queue != [] && Unique(order + queue)
    ensures queue[0] !in order && queue[0] in order + queue
  {
    assert (order + queue)[|order|] == queue[0];
    assert forall i :: 0 <= i < |order| ==> (order + queue)[i] == order[i];
  }

  /** The dependents of the rule at the head of the queue still wait for it. */
  lemma RowWaiting(rules: seq<Node>, order: seq<nat>, queue: seq<nat>, row: seq<nat>, degree: seq<nat>)
    requires Counted(rules, order, degree) && Ready(order, queue, degree) && queue != []
    requires queue[0] < |rules| && Row(rules, row, queue[0], |rules|)
    ensures Unique(row) && forall i :: 0 <= i < |row| ==> row[i] < |degree| && degree[row[i]] >= 1
    ensures forall x :: x in row ==> x < |degree| && degree[x] >= 1
  {
    hide Deps;
    var idx := queue[0];
    HeadFresh(order, queue);
    forall x | x in row ensures x < |degree| && degree[x] >= 1 {
      assert idx in Open(rules, order, x);
    }
    assert forall i :: 0 <= i < |row| ==> row[i] in row;
  }

  method InitialQueue(degree: seq<nat>) returns (queue: seq<nat>)
    ensures Unique(queue) && forall x: nat :: x in queue <==> x < |degree| && degree[x] == 0
  {
    queue := [];
    for i := 0 to |degree|
      invariant Unique(queue) && forall x: nat :: x in queue <==> x < i && degree[x] == 0
    {
      if degree[i] == 0 { queue := queue + [i]; }
    }
  }

  // ------------------------------------------------------------------------- exactness

  lemma GraphEdges(rules: seq<Node>, i: nat, b: string)
    requires WellFormed(rules) && i < |rules|
    ensures rules[i].name in GraphOf(rules)
    ensures Depends(GraphOf(rules), rules[i].name, b) <==> exists j :: j in Deps(rules, i) && rules[j].name == b
  {
    var a := rules[i].name;
    assert a in Names(rules) && IndexOf(rules, a) == i;
    if Depends(GraphOf(rules), a, b) {
      assert IndexOf(rules, b) in Deps(rules, i);
    }
  }

  /** From a rule at place p of the order, a walk can only move to earlier places. */
  lemma {:induction false} WalkDescends(rules: seq<Node>, order: seq<nat>, w: seq<string>, i: nat, p: nat, j: nat) returns (q: nat)
    requires WellFormed(rules) && Respects(rules, order) && Walk(GraphOf(rules), w)
    requires i <= j < |w| && p < |order| && order[p] < |rules| && rules[order[p]].name == w[i]
    ensures q < |order| && order[q] < |rules| && rules[order[q]].name == w[j] && q + (j - i) <= p
    decreases j - i
  {
    if i == j {
      q := p;
    } else {
      var r := WalkDescends(rules, order, w, i, p, j - 1);
      assert Depends(GraphOf(rules), w[j - 1], w[j]);
      GraphEdges(rules, order[r], w[j]);
      var d :| d in Deps(rules, order[r]) && rules[d].name == w[j];
      assert d in Members(order[..r]);
      q :| 0 <= q < r && order[q] == d;
    }
  }

  lemma KeptIsGrounded(rules: seq<Node>, order: seq<nat>, p: nat)
    requires WellFormed(rules) && Complete(rules, order) && p < |order|
    ensures order[p] < |rules| && Grounded(GraphOf(rules), rules[order[p]].name)
  {
    var a := rules[order[p]].name;
    GraphEdges(rules, order[p], a);
    forall w | Walk(GraphOf(rules), w) && w[0] == a ensures Unique(w) {
      if i, j :| 0 <= i < j < |w| && w[i] == w[j] {
        var pi := WalkDescends(rules, order, w, 0, p, i);
        var pj := WalkDescends(rules, order, w, i, pi, j);
        SameNameSameRule(rules, order[pi], order[pj]);
        assert false;
      }
    }
  }

  lemma SameNameSameRule(rules: seq<Node>, i: nat, j: nat)
    requires WellFormed(rules) && i < |rules| && j < |rules| && rules[i].name == rules[j].name
    ensures i == j
  {
  }

  /** From a dropped rule there are walks of any length through dropped rules. */
  lemma {:induction false} DroppedWalks(rules: seq<Node>, order: seq<nat>, x: nat, len: nat) returns (w: seq<string>)
    requires WellFormed(rules) && Complete(rules, order) && x < |rules| && x !in order
    ensures |w| == len + 1 && Walk(GraphOf(rules), w) && w[0] == rules[x].name
    decreases len
  {
    GraphEdges(rules, x, rules[x].name);
    if len == 0 {
      w := [rules[x].name];
    } else {
      var d :| d in Open(rules, order, x);
      GraphEdges(rules, x, rules[d].name);
      var v := DroppedWalks(rules, order, d, len - 1);
      w := [rules[x].name] + v;
      forall i | 0 < i < |w| ensures Depends(GraphOf(rules), w[i - 1], w[i]) {
        if i > 1 { assert Depends(GraphOf(rules), v[i - 2], v[i - 1]); }
      }
    }
  }

  /** THEOREM: the order keeps a rule exactly when it neither lies on nor depends on a cycle. */
  lemma KeptExactly(rules: seq<Node>, order: seq<nat>, x: nat)
    requires WellFormed(rules) && Complete(rules, order) && x < |rules|
    ensures x in order <==> Grounded(GraphOf(rules), rules[x].name)
  {
    if x in order {
      var p :| 0 <= p < |order| && order[p] == x;
      KeptIsGrounded(rules, order, p);
    } else if Grounded(GraphOf(rules), rules[x].name) {
      var w := DroppedWalks(rules, order, x, |GraphOf(rules)|);
      WalkShort(GraphOf(rules), w);
      assert false;
    }
  }
}
