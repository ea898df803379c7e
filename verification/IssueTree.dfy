/** Printing issues as a parent-child tree: no visited set, so cycles must be kept out by the shape of the recursion. */
module IssueTree {
  import opened Prelude
  import opened BlockerGraph

  datatype Line = Line(issue: Issue, depth: nat)

  type Children = map<Option<string>, seq<Issue>>

  // ---- Root chains ----

  /** A parentless issue, one of its children, one of that one's children, and so on. */
  ghost predicate RootChain(all: seq<Issue>, chain: seq<Issue>) {
    && chain != []
    && chain[0].parentId == None
    && (forall i :: 0 <= i < |chain| ==> chain[i] in all)
    && (forall i :: 0 < i < |chain| ==> chain[i].parentId == Some(chain[i - 1].id))
  }

  /** The chain of parents of the issue ends at a parentless one after `depth` steps. */
  ghost predicate AtDepth(all: seq<Issue>, issue: Issue, depth: nat) {
    exists chain :: RootChain(all, chain) && chain[|chain| - 1] == issue && |chain| == depth + 1
  }

  lemma SameId(all: seq<Issue>, a: Issue, b: Issue)
    requires UniqueIds(all) && a in all && b in all && a.id == b.id
    ensures a == b
  {
  }

  /** No issue occurs twice on a root chain: a cycle has no parentless member to start from. */
  lemma {:induction false} ChainIsAcyclic(all: seq<Issue>, chain: seq<Issue>, i: nat, j: nat)
    requires UniqueIds(all) && RootChain(all, chain) && i < j < |chain|
    ensures chain[i] != chain[j]
    decreases i
  {
    assert chain[j].parentId == Some(chain[j - 1].id);
    if i > 0 && chain[i] == chain[j] {
      assert chain[i].parentId == Some(chain[i - 1].id);
      SameId(all, chain[i - 1], chain[j - 1]);
      ChainIsAcyclic(all, chain, i - 1, j - 1);
    }
  }

  lemma {:induction false} DistinctFit<T>(xs: seq<T>, all: seq<T>)
    requires forall i, j :: 0 <= i < j < |xs| ==> xs[i] != xs[j]
    requires forall i :: 0 <= i < |xs| ==> xs[i] in all
    ensures |xs| <= |all|
  {
    if xs != [] {
      var k :| 0 <= k < |all| && all[k] == xs[0];
      var rest := all[..k] + all[k + 1..];
      forall i | 0 <= i < |xs[1..]| ensures xs[1..][i] in rest {
        var m :| 0 <= m < |all| && all[m] == xs[i + 1];
        assert m != k;
        assert rest[if m < k then m else m - 1] == all[m];
      }
      DistinctFit(xs[1..], rest);
    }
  }

  lemma ChainFits(all: seq<Issue>, chain: seq<Issue>)
    requires UniqueIds(all) && RootChain(all, chain)
    ensures |chain| <= |all|
  {
    forall i, j | 0 <= i < j < |chain| ensures chain[i] != chain[j] { ChainIsAcyclic(all, chain, i, j); }
    DistinctFit(chain, all);
  }

  /** An issue has at most one root chain, so at most one depth. */
  lemma {:induction false} ChainUnique(all: seq<Issue>, a: seq<Issue>, b: seq<Issue>)
    requires UniqueIds(all) && RootChain(all, a) && RootChain(all, b) && a[|a| - 1] == b[|b| - 1]
    ensures a == b
    decreases |a|
  {
    assert |a| > 1 ==> a[|a| - 1].parentId == Some(a[|a| - 2].id);
    assert |b| > 1 ==> b[|b| - 1].parentId == Some(b[|b| - 2].id);
    if |a| > 1 && |b| > 1 {
      SameId(all, a[|a| - 2], b[|b| - 2]);
      ChainUnique(all, a[..|a| - 1], b[..|b| - 1]);
      assert a == a[..|a| - 1] + [a[|a| - 1]] && b == b[..|b| - 1] + [b[|b| - 1]];
    }
  }

  // ---- Printing ----

  function Kids(children: Children, parent: Option<string>): seq<Issue> {
    if parent in children then children[parent] else []
  }

  /** `x` stands before `y` in the table. */
  ghost predicate Precedes(all: seq<Issue>, x: Issue, y: Issue) {
    exists a, b :: 0 <= a < b < |all| && all[a] == x && all[b] == y
  }

  ghost predicate InTableOrder(all: seq<Issue>, kids: seq<Issue>) {
    forall i, j :: 0 <= i < j < |kids| ==> kids[i] != kids[j] && Precedes(all, kids[i], kids[j])
  }

  ghost predicate KidsAre(all: seq<Issue>, kids: seq<Issue>, parent: Option<string>) {
    (forall c :: c in kids <==> c in all && c.parentId == parent) && InTableOrder(all, kids)
  }

  /** `children` lists, for every parent, exactly its issues, each once, in table order. */
  ghost predicate ChildrenOf(all: seq<Issue>, children: Children) {
    forall parent :: KidsAre(all, Kids(children, parent), parent)
  }

  lemma KidAdded(done: seq<Issue>, kids: seq<Issue>, parent: Option<string>, x: Issue)
    requires KidsAre(done, kids, parent) && x !in done
    ensures KidsAre(done + [x], if x.parentId == parent then kids + [x] else kids, parent)
  {
    var all, more := done + [x], if x.parentId == parent then kids + [x] else kids;
    forall i, j | 0 <= i < j < |more| ensures more[i] != more[j] && Precedes(all, more[i], more[j]) {
      assert more[i] == kids[i] && kids[i] in done;
      if j < |kids| {
        var a, b :| 0 <= a < b < |done| && done[a] == kids[i] && done[b] == kids[j];
        assert all[a] == kids[i] && all[b] == kids[j];
      } else {
        var a :| 0 <= a < |done| && done[a] == kids[i];
        assert all[a] == kids[i] && all[|done|] == x;
      }
    }
    forall c ensures c in more <==> c in all && c.parentId == parent {
      assert c in kids <==> c in done && c.parentId == parent;
    }
  }

  method BuildChildren(all: seq<Issue>) returns (children: Children)
    requires UniqueIds(all)
    ensures ChildrenOf(all, children)
  {
    children := map[];
    assert ChildrenOf(all[..0], children);
    for n := 0 to |all|
      invariant ChildrenOf(all[..n], children)
    {
      var x := all[n];
      ghost var done, before := all[..n], children;
      assert all[..n + 1] == done + [x] && x !in done;
      hide KidsAre;
      children := children[x.parentId := Kids(children, x.parentId) + [x]];
      forall parent ensures KidsAre(done + [x], Kids(children, parent), parent) {
        KidAdded(done, Kids(before, parent), parent, x);
      }
    }
    assert all[..|all|] == all;
  }

  /** Line `i` is the child of the nearest earlier line that is one level up. */
  ghost predicate NestedAt(lines: seq<Line>, i: nat, j: nat) {
    && j < i < |lines|
    && lines[j].depth + 1 == lines[i].depth && lines[i].issue.parentId == Some(lines[j].issue.id)
    && forall k :: j < k < i ==> lines[k].depth >= lines[i].depth
  }

  ghost predicate Nested(lines: seq<Line>, i: nat) {
    exists j :: NestedAt(lines, i, j)
  }

  ghost predicate ForestAt(lines: seq<Line>, kids: seq<Issue>, depth: nat, i: nat)
    requires i < |lines|
  {
    && lines[i].depth >= depth
    && (lines[i].depth == depth ==> lines[i].issue in kids)
    && (lines[i].depth > depth ==> Nested(lines, i))
  }

  /** Lines of depth `depth` print members of `kids`; every deeper line is nested under an earlier one. */
  ghost predicate Forest(lines: seq<Line>, kids: seq<Issue>, depth: nat) {
    forall i :: 0 <= i < |lines| ==> ForestAt(lines, kids, depth, i)
  }

  lemma InsideAt(before: seq<Line>, lines: seq<Line>, after: seq<Line>, k: nat)
    requires k < |lines|
    ensures (before + lines + after)[|before| + k] == lines[k]
  {
  }

  lemma NestedInside(before: seq<Line>, lines: seq<Line>, after: seq<Line>, i: nat)
    requires Nested(lines, i)
    ensures Nested(before + lines + after, |before| + i)
  {
    var j: nat :| NestedAt(lines, i, j);
    var all, n := before + lines + after, |before|;
    InsideAt(before, lines, after, i);
    InsideAt(before, lines, after, j);
    forall k | n + j < k < n + i ensures all[k].depth >= all[n + i].depth {
      InsideAt(before, lines, after, k - n);
    }
    assert NestedAt(all, n + i, n + j);
  }

  /** A root chain that extends `prefix` by one of `kids`, and possibly further. */
  ghost predicate Below(c: seq<Issue>, prefix: seq<Issue>, kids: seq<Issue>) {
    |c| > |prefix| && prefix <= c && c[|prefix|] in kids
  }

  /** The lines print the ends of exactly the root chains below `prefix` and `kids`, each once, at their lengths. */
  ghost predicate Lists(all: seq<Issue>, lines: seq<Line>, chains: seq<seq<Issue>>,
                        prefix: seq<Issue>, kids: seq<Issue>) {
    && |lines| == |chains|
    && (forall i :: 0 <= i < |chains| ==> PrintsEnd(all, lines[i], chains[i]) && Below(chains[i], prefix, kids))
    && (forall c :: RootChain(all, c) && Below(c, prefix, kids) ==> c in chains)
    && (forall i, j :: 0 <= i < j < |chains| ==> chains[i] != chains[j])
  }

  ghost predicate PrintsEnd(all: seq<Issue>, line: Line, chain: seq<Issue>) {
    RootChain(all, chain) && line == Line(chain[|chain| - 1], |chain| - 1)
  }

  ghost predicate Siblings(c: seq<Issue>, d: seq<Issue>) {
    c != [] && d != [] && c[..|c| - 1] == d[..|d| - 1]
  }

  /** Of two chains that differ in their last issue only, the one that ends earlier in the table comes first. */
  ghost predicate SiblingsInOrder(all: seq<Issue>, chains: seq<seq<Issue>>) {
    forall i, j :: 0 <= i < j < |chains| && Siblings(chains[i], chains[j]) ==>
      Precedes(all, chains[i][|chains[i]| - 1], chains[j][|chains[j]| - 1])
  }

  /** Prints one issue and, below it, its children. */
  method PrintTreeNode(issue: Issue, children: Children, depth: nat, ghost all: seq<Issue>, ghost prefix: seq<Issue>)
    returns (lines: seq<Line>, ghost chains: seq<seq<Issue>>)
    requires UniqueIds(all) && ChildrenOf(all, children)
    requires RootChain(all, prefix + [issue]) && depth == |prefix|
    ensures Lists(all, lines, chains, prefix, [issue]) && Forest(lines, [issue], depth)
    ensures SiblingsInOrder(all, chains)
    decreases |all| - |prefix|, 0
  {
    ghost var chain := prefix + [issue];
    var kids := Kids(children, Some(issue.id));
    assert KidsAre(all, kids, Some(issue.id));
    ChainFits(all, chain);
    var below;
    below, chains := PrintAll(kids, children, depth + 1, all, chain);
    NodeLists(all, below, chains, prefix, issue, kids);
    NodeForest(below, issue, kids, depth);
    NodeInOrder(all, below, chains, prefix, issue, kids);
    lines := [Line(issue, depth)] + below;
    chains := [chain] + chains;
  }

  /** The loop over the children of a node, or over the roots. */
  method PrintAll(kids: seq<Issue>, children: Children, depth: nat, ghost all: seq<Issue>, ghost prefix: seq<Issue>)
    returns (lines: seq<Line>, ghost chains: seq<seq<Issue>>)
    requires UniqueIds(all) && ChildrenOf(all, children) && depth == |prefix| <= |all|
    requires forall i :: 0 <= i < |kids| ==> RootChain(all, prefix + [kids[i]])
    requires InTableOrder(all, kids)
    ensures Lists(all, lines, chains, prefix, kids) && Forest(lines, kids, depth)
    ensures SiblingsInOrder(all, chains)
    decreases |all| - |prefix|, 1
  {
    lines, chains := [], [];
    for i := 0 to |kids|
      invariant Lists(all, lines, chains, prefix, kids[..i]) && Forest(lines, kids[..i], depth)
      invariant SiblingsInOrder(all, chains)
    {
      ghost var moreChains;
      var more;
      more, moreChains := PrintTreeNode(kids[i], children, depth, all, prefix);
      ghost var done := kids[..i];
      assert kids[..i + 1] == done + [kids[i]];
      assert kids[i] !in done && forall k :: k in done ==> Precedes(all, k, kids[i]);
      hide Lists, Forest, SiblingsInOrder, Precedes, RootChain;
      ListsJoin(all, lines, chains, more, moreChains, prefix, done, kids[i]);
      ForestJoin(lines, more, done, kids[i], depth);
      JoinInOrder(all, lines, chains, more, moreChains, prefix, done, kids[i]);
      lines, chains := lines + more, chains + moreChains;
    }
    assert kids[..|kids|] == kids;
  }

  lemma NodeInOrder(all: seq<Issue>, below: seq<Line>, chains: seq<seq<Issue>>, prefix: seq<Issue>, issue: Issue,
                    kids: seq<Issue>)
    requires Lists(all, below, chains, prefix + [issue], kids) && SiblingsInOrder(all, chains)
    ensures SiblingsInOrder(all, [prefix + [issue]] + chains)
  {
    var chain := prefix + [issue];
    var longer := [chain] + chains;
    hide Precedes;
    forall i, j | 0 <= i < j < |longer| && Siblings(longer[i], longer[j])
      ensures Precedes(all, longer[i][|longer[i]| - 1], longer[j][|longer[j]| - 1])
    {
      assert longer[j] == chains[j - 1] && Below(chains[j - 1], chain, kids);
      assert |longer[i]| == |longer[i][..|longer[i]| - 1]| + 1 == |longer[j]|;
      assert i > 0 && longer[i] == chains[i - 1];
    }
  }

  lemma SiblingsShare(c: seq<Issue>, d: seq<Issue>, m: nat)
    requires Siblings(c, d) && m + 1 < |c|
    ensures |c| == |d| && c[m] == d[m]
  {
    assert |c[..|c| - 1]| == |d[..|d| - 1]|;
    assert c[m] == c[..|c| - 1][m];
    assert d[m] == d[..|d| - 1][m];
  }

  lemma JoinInOrder(all: seq<Issue>, lines: seq<Line>, chains: seq<seq<Issue>>, more: seq<Line>,
                    moreChains: seq<seq<Issue>>, prefix: seq<Issue>, kids: seq<Issue>, kid: Issue)
    requires Lists(all, lines, chains, prefix, kids) && Lists(all, more, moreChains, prefix, [kid]) && kid !in kids
    requires SiblingsInOrder(all, chains) && SiblingsInOrder(all, moreChains)
    requires forall k :: k in kids ==> Precedes(all, k, kid)
    ensures SiblingsInOrder(all, chains + moreChains)
  {
    var longer, n, m := chains + moreChains, |chains|, |prefix|;
    hide Precedes, RootChain, PrintsEnd;
    forall i, j | 0 <= i < j < |longer| && Siblings(longer[i], longer[j])
      ensures Precedes(all, longer[i][|longer[i]| - 1], longer[j][|longer[j]| - 1])
    {
      if j < n {
        assert longer[i] == chains[i] && longer[j] == chains[j];
      } else if i >= n {
        assert longer[i] == moreChains[i - n] && longer[j] == moreChains[j - n];
      } else {
        var c, d := chains[i], moreChains[j - n];
        assert longer[i] == c && longer[j] == d;
        assert Below(c, prefix, kids) && Below(d, prefix, [kid]);
        assert |c| == |d|;
        if |c| > m + 1 { SiblingsShare(c, d, m); }
      }
    }
  }

  lemma NodeLists(all: seq<Issue>, below: seq<Line>, chains: seq<seq<Issue>>, prefix: seq<Issue>, issue: Issue,
                  kids: seq<Issue>)
    requires RootChain(all, prefix + [issue]) && KidsAre(all, kids, Some(issue.id))
    requires Lists(all, below, chains, prefix + [issue], kids)
    ensures Lists(all, [Line(issue, |prefix|)] + below, [prefix + [issue]] + chains, prefix, [issue])
  {
    hide InTableOrder;
    var chain, n := prefix + [issue], |prefix|;
    var lines', chains' := [Line(issue, n)] + below, [chain] + chains;
    forall i | 0 <= i < |chains'| ensures PrintsEnd(all, lines'[i], chains'[i]) && Below(chains'[i], prefix, [issue]) {
      if i > 0 {
        assert chains'[i] == chains[i - 1] && lines'[i] == below[i - 1];
        assert Below(chains[i - 1], chain, kids) && chains[i - 1][n] == chain[n];
      }
    }
    forall c: seq<Issue> | RootChain(all, c) && Below(c, prefix, [issue]) ensures c in chains' {
      if |c| > n + 1 {
        assert chain <= c && c[n + 1].parentId == Some(c[n].id);
        assert Below(c, chain, kids);
      } else {
        assert c == chain;
      }
    }
    forall i | 0 <= i < |chains| ensures chains[i] != chain { assert Below(chains[i], chain, kids); }
  }

  lemma NodeForest(below: seq<Line>, issue: Issue, kids: seq<Issue>, depth: nat)
    requires Forest(below, kids, depth + 1) && forall k :: k in kids ==> k.parentId == Some(issue.id)
    ensures Forest([Line(issue, depth)] + below, [issue], depth)
  {
    var top := [Line(issue, depth)];
    var lines := top + below;
    assert top + below + [] == lines;
    forall i | 0 <= i < |lines| ensures ForestAt(lines, [issue], depth, i) {
      if i > 0 {
        assert lines[i] == below[i - 1] && ForestAt(below, kids, depth + 1, i - 1);
        if lines[i].depth == depth + 1 {
          forall k | 0 < k < i ensures lines[k].depth >= depth + 1 { assert ForestAt(below, kids, depth + 1, k - 1); }
          assert NestedAt(lines, i, 0);
        } else {
          NestedInside(top, below, [], i - 1);
        }
      }
    }
  }

  lemma ListsJoin(all: seq<Issue>, lines: seq<Line>, chains: seq<seq<Issue>>,
                  more: seq<Line>, moreChains: seq<seq<Issue>>,
                  prefix: seq<Issue>, kids: seq<Issue>, kid: Issue)
    requires Lists(all, lines, chains, prefix, kids) && Lists(all, more, moreChains, prefix, [kid]) && kid !in kids
    ensures Lists(all, lines + more, chains + moreChains, prefix, kids + [kid])
  {
    var n := |chains|;
    var lines', chains' := lines + more, chains + moreChains;
    forall i | 0 <= i < |chains'|
      ensures PrintsEnd(all, lines'[i], chains'[i]) && Below(chains'[i], prefix, kids + [kid]) {
      if i < n {
        assert Below(chains[i], prefix, kids) && chains'[i] == chains[i] && lines'[i] == lines[i];
      } else {
        assert Below(moreChains[i - n], prefix, [kid]) && chains'[i] == moreChains[i - n] && lines'[i] == more[i - n];
      }
    }
    forall c: seq<Issue> | RootChain(all, c) && Below(c, prefix, kids + [kid]) ensures c in chains' {
      assert Below(c, prefix, kids) || Below(c, prefix, [kid]);
    }
    forall i, j | 0 <= i < j < |chains'| ensures chains'[i] != chains'[j] {
      if i < n <= j {
        assert Below(chains[i], prefix, kids) && Below(moreChains[j - n], prefix, [kid]);
      }
    }
  }

  lemma ForestJoin(lines: seq<Line>, more: seq<Line>, kids: seq<Issue>, kid: Issue, depth: nat)
    requires Forest(lines, kids, depth) && Forest(more, [kid], depth)
    ensures Forest(lines + more, kids + [kid], depth)
  {
    hide Nested;
    var all, n := lines + more, |lines|;
    assert [] + lines + more == all && lines + more + [] == all;
    forall i | 0 <= i < |all| ensures ForestAt(all, kids + [kid], depth, i) {
      if i < n {
        assert all[i] == lines[i] && ForestAt(lines, kids, depth, i);
        if all[i].depth > depth { NestedInside([], lines, more, i); }
      } else {
        assert all[i] == more[i - n] && ForestAt(more, [kid], depth, i - n);
        if all[i].depth > depth { NestedInside(lines, more, [], i - n); }
      }
    }
  }

  /**
   What the tree is. Every issue whose parent chain ends at a parentless issue is printed exactly
   once, at the length of that chain and nested under its parent; no other issue is printed, so
   cycles and orphans stay out. Children of one parent, and the roots, stand in table order.
   */
  ghost predicate TreeOf(all: seq<Issue>, lines: seq<Line>) {
    && (forall issue, depth: nat :: Line(issue, depth) in lines <==> AtDepth(all, issue, depth))
    && (forall i, j :: 0 <= i < j < |lines| ==> lines[i].issue != lines[j].issue)
    && (forall i :: 0 <= i < |lines| && lines[i].depth > 0 ==> Nested(lines, i))
    && (forall i, j :: 0 <= i < j < |lines| && lines[i].issue.parentId == lines[j].issue.parentId ==>
          Precedes(all, lines[i].issue, lines[j].issue))
  }

  /** Prints the whole tree; the recursion ends for every parent relation, cyclic ones included. */
  method Tree(all: seq<Issue>) returns (lines: seq<Line>)
    requires UniqueIds(all)
    ensures TreeOf(all, lines)
  {
    if all == [] { return []; }
    var children := BuildChildren(all);
    var roots := Kids(children, None);
    assert KidsAre(all, roots, None);
    ghost var chains;
    lines, chains := PrintAll(roots, children, 0, all, []);
    TreeLists(all, lines, chains, roots);
    TreeInOrder(all, lines, chains, roots);
    forall i | 0 <= i < |lines| && lines[i].depth > 0 ensures Nested(lines, i) { assert ForestAt(lines, roots, 0, i); }
  }

  lemma TreeLists(all: seq<Issue>, lines: seq<Line>, chains: seq<seq<Issue>>, roots: seq<Issue>)
    requires UniqueIds(all) && KidsAre(all, roots, None) && Lists(all, lines, chains, [], roots)
    ensures forall issue, depth: nat :: Line(issue, depth) in lines <==> AtDepth(all, issue, depth)
    ensures forall i, j :: 0 <= i < j < |lines| ==> lines[i].issue != lines[j].issue
  {
    forall issue, depth: nat ensures Line(issue, depth) in lines <==> AtDepth(all, issue, depth) {
      LineIsChain(all, lines, chains, roots, issue, depth);
    }
    forall i, j | 0 <= i < j < |lines| ensures lines[i].issue != lines[j].issue {
      assert PrintsEnd(all, lines[i], chains[i]) && PrintsEnd(all, lines[j], chains[j]);
      hide RootChain, Lists, KidsAre, UniqueIds;
      if lines[i].issue == lines[j].issue { ChainUnique(all, chains[i], chains[j]); }
    }
  }

  lemma TreeInOrder(all: seq<Issue>, lines: seq<Line>, chains: seq<seq<Issue>>, roots: seq<Issue>)
    requires UniqueIds(all) && Lists(all, lines, chains, [], roots) && SiblingsInOrder(all, chains)
    ensures forall i, j :: 0 <= i < j < |lines| && lines[i].issue.parentId == lines[j].issue.parentId ==>
              Precedes(all, lines[i].issue, lines[j].issue)
  {
    forall i, j | 0 <= i < j < |lines| && lines[i].issue.parentId == lines[j].issue.parentId
      ensures Precedes(all, lines[i].issue, lines[j].issue)
    {
      assert PrintsEnd(all, lines[i], chains[i]) && PrintsEnd(all, lines[j], chains[j]);
      hide Lists, Precedes, UniqueIds;
      SameParent(all, chains[i], chains[j]);
    }
  }

  /** Chains of two children of one parent agree up to that parent. */
  lemma SameParent(all: seq<Issue>, c: seq<Issue>, d: seq<Issue>)
    requires UniqueIds(all) && RootChain(all, c) && RootChain(all, d)
    requires c[|c| - 1].parentId == d[|d| - 1].parentId
    ensures Siblings(c, d)
  {
    var m, n := |c| - 1, |d| - 1;
    assert m > 0 ==> c[m].parentId == Some(c[m - 1].id);
    assert n > 0 ==> d[n].parentId == Some(d[n - 1].id);
    if m > 0 {
      SameId(all, c[m - 1], d[n - 1]);
      assert RootChain(all, c[..m]) && RootChain(all, d[..n]);
      ChainUnique(all, c[..m], d[..n]);
    }
  }

  lemma LineIsChain(all: seq<Issue>, lines: seq<Line>, chains: seq<seq<Issue>>, roots: seq<Issue>,
                    issue: Issue, depth: nat)
    requires KidsAre(all, roots, None) && Lists(all, lines, chains, [], roots)
    ensures Line(issue, depth) in lines <==> AtDepth(all, issue, depth)
  {
    hide InTableOrder;
    if Line(issue, depth) in lines {
      var i :| 0 <= i < |lines| && lines[i] == Line(issue, depth);
      assert PrintsEnd(all, lines[i], chains[i]);
      assert chains[i][|chains[i]| - 1] == issue && |chains[i]| == depth + 1;
    }
    if AtDepth(all, issue, depth) {
      var c :| RootChain(all, c) && c[|c| - 1] == issue && |c| == depth + 1;
      assert Below(c, [], roots);
      var i :| 0 <= i < |chains| && chains[i] == c;
      assert PrintsEnd(all, lines[i], chains[i]);
    }
  }

  // ---- There is only one such tree ----

  lemma LineInTable(all: seq<Issue>, lines: seq<Line>, i: nat)
    requires TreeOf(all, lines) && i < |lines|
    ensures lines[i].issue in all && (lines[i].depth == 0 ==> lines[i].issue.parentId.None?)
  {
    assert Line(lines[i].issue, lines[i].depth) in lines;
    hide Precedes, Nested;
    var chain :| RootChain(all, chain) && chain[|chain| - 1] == lines[i].issue && |chain| == lines[i].depth + 1;
    assert chain[|chain| - 1] in all;
  }

  /** The line above which a deeper line is nested. */
  lemma ParentLine(all: seq<Issue>, lines: seq<Line>, i: nat) returns (j: nat)
    requires TreeOf(all, lines) && i < |lines| && lines[i].depth > 0
    ensures NestedAt(lines, i, j)
  {
    hide NestedAt, AtDepth, Precedes;
    j :| NestedAt(lines, i, j);
  }

  lemma SameLine(all: seq<Issue>, lines: seq<Line>, i: nat, j: nat)
    requires UniqueIds(all) && TreeOf(all, lines) && i < |lines| && j < |lines|
    requires lines[i].issue.id == lines[j].issue.id
    ensures i == j
  {
    LineInTable(all, lines, i);
    LineInTable(all, lines, j);
    hide AtDepth, Precedes, Nested;
    SameId(all, lines[i].issue, lines[j].issue);
    hide UniqueIds;
  }

  lemma Common(a: seq<Line>, b: seq<Line>, m: nat, i: nat)
    requires i < m <= |a| && m <= |b| && a[..m] == b[..m]
    ensures a[i] == b[i]
  {
    assert a[i] == a[..m][i] && b[i] == b[..m][i];
  }

  /** A line that the other listing has later cannot be deeper than what stands there instead. */
  lemma SameNest(all: seq<Issue>, a: seq<Line>, b: seq<Line>, m: nat, k: nat)
    requires UniqueIds(all) && TreeOf(all, a) && TreeOf(all, b)
    requires m < |a| && m < k < |b| && a[..m] == b[..m] && b[k] == a[m]
    ensures b[m].depth >= a[m].depth
  {
    hide TreeOf, UniqueIds;
    if a[m].depth > 0 {
      var i := ParentLine(all, a, m);
      var j := ParentLine(all, b, k);
      Common(a, b, m, i);
      SameLine(all, b, i, j);
    }
  }

  lemma SameDepthSameParent(all: seq<Issue>, a: seq<Line>, b: seq<Line>, m: nat)
    requires TreeOf(all, a) && TreeOf(all, b) && m < |a| && m < |b| && a[..m] == b[..m] && a[m].depth == b[m].depth
    ensures a[m].issue.parentId == b[m].issue.parentId
  {
    hide TreeOf;
    if a[m].depth == 0 {
      LineInTable(all, a, m);
      LineInTable(all, b, m);
    } else {
      var i := ParentLine(all, a, m);
      var j := ParentLine(all, b, m);
      Common(a, b, m, i);
      Common(a, b, m, j);
    }
  }

  lemma PrecedesOnce(all: seq<Issue>, x: Issue, y: Issue)
    requires UniqueIds(all) && Precedes(all, x, y)
    ensures !Precedes(all, y, x)
  {
  }

  lemma LinesAgree(all: seq<Issue>, a: seq<Line>, b: seq<Line>, m: nat)
    requires UniqueIds(all) && TreeOf(all, a) && TreeOf(all, b)
    requires m < |a| && m < |b| && a[..m] == b[..m]
    ensures a[m] == b[m]
  {
    var k := OtherPlace(all, a, b, m);
    var l := OtherPlace(all, b, a, m);
    if a[m] != b[m] {
      SameNest(all, a, b, m, k);
      SameNest(all, b, a, m, l);
      SameDepthSameParent(all, a, b, m);
      hide Precedes, AtDepth, Nested;
      assert Precedes(all, a[m].issue, b[m].issue) && Precedes(all, b[m].issue, a[m].issue);
      PrecedesOnce(all, a[m].issue, b[m].issue);
    }
  }

  /** Where the other listing has the line: not in the common part. */
  lemma OtherPlace(all: seq<Issue>, a: seq<Line>, b: seq<Line>, m: nat) returns (k: nat)
    requires TreeOf(all, a) && TreeOf(all, b) && m < |a| && m <= |b| && a[..m] == b[..m]
    ensures m <= k < |b| && b[k] == a[m]
  {
    var line := a[m];
    assert Line(line.issue, line.depth) in a;
    assert Line(line.issue, line.depth) in b;
    k :| 0 <= k < |b| && b[k] == line;
    hide AtDepth, Precedes, Nested;
    if k < m { Common(a, b, m, k); }
  }

  lemma {:induction false} PrefixesAgree(all: seq<Issue>, a: seq<Line>, b: seq<Line>, m: nat)
    requires UniqueIds(all) && TreeOf(all, a) && TreeOf(all, b) && m <= |a|
    ensures m <= |b| && a[..m] == b[..m]
  {
    hide TreeOf, UniqueIds;
    if m > 0 {
      PrefixesAgree(all, a, b, m - 1);
      var k := OtherPlace(all, a, b, m - 1);
      LinesAgree(all, a, b, m - 1);
      assert a[..m] == a[..m - 1] + [a[m - 1]] && b[..m] == b[..m - 1] + [b[m - 1]];
    }
  }

  /** The description fixes the printed lines completely. */
  lemma TreeIsDetermined(all: seq<Issue>, a: seq<Line>, b: seq<Line>)
    requires UniqueIds(all) && TreeOf(all, a) && TreeOf(all, b)
    ensures a == b
  {
    hide TreeOf, UniqueIds;
    PrefixesAgree(all, a, b, |a|);
    PrefixesAgree(all, b, a, |b|);
  }
}
