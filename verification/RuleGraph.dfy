/** Dependency graphs between named rules: walks, cycles and what rests on neither. */
module RuleGraph {
  import opened Basics

  /** Each rule's name with the names its expression mentions; a mentioned name that is no rule is a
      base variable. */
  type Graph = map<string, set<string>>

  predicate Depends(g: Graph, a: string, b: string) {
    a in g && b in g && b in g[a]
  }

  /** A chain of dependencies. */
  ghost predicate Walk(g: Graph, w: seq<string>) {
    && w != [] && w[0] in g
    && forall i :: 0 < i < |w| ==> Depends(g, w[i - 1], w[i])
  }

  /** The rule neither lies on a dependency cycle nor transitively depends on one. */
  ghost predicate Grounded(g: Graph, a: string) {
    a in g && forall w :: Walk(g, w) && w[0] == a ==> Unique(w)
  }

  lemma {:induction false} WalkInside(g: Graph, w: seq<string>, i: nat)
    requires Walk(g, w) && i < |w|
    ensures w[i] in g
  {
    if i > 0 { assert Depends(g, w[i - 1], w[i]); }
  }

  /** A walk without repetition is no longer than the graph has rules. */
  lemma WalkShort(g: Graph, w: seq<string>)
    requires Walk(g, w) && Unique(w)
    ensures |w| <= |g|
  {
    MembersSize(w);
    forall x | x in Members(w) ensures x in g.Keys {
      var i :| 0 <= i < |w| && w[i] == x;
      WalkInside(g, w, i);
    }
    SubsetSize(Members(w), g.Keys);
  }

  lemma ExtendWalk(g: Graph, w: seq<string>, next: string)
    requires Walk(g, w) && Depends(g, w[|w| - 1], next)
    ensures Walk(g, w + [next])
  {
    var v := w + [next];
    forall i | 0 < i < |v| ensures Depends(g, v[i - 1], v[i]) {
      if i < |w| { assert Depends(g, w[i - 1], w[i]); }
    }
  }

  /** Everything a grounded rule depends on is grounded. */
  lemma GroundedDependency(g: Graph, a: string, b: string)
    requires Grounded(g, a) && Depends(g, a, b)
    ensures Grounded(g, b)
  {
    forall w | Walk(g, w) && w[0] == b ensures Unique(w) {
      var v := [a] + w;
      forall i | 0 < i < |v| ensures Depends(g, v[i - 1], v[i]) {
        if i > 1 { assert Depends(g, w[i - 2], w[i - 1]); }
      }
      assert Walk(g, v);
      assert Unique(v);
      forall i, j | 0 <= i < j < |w| ensures w[i] != w[j] {
        assert v[i + 1] != v[j + 1];
      }
    }
  }
}
