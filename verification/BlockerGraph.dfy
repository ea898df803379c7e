/** Which issues are ready: the transitive closure of "blocks", searched with one shared visited set. */
module BlockerGraph {
  import opened Prelude
  import opened Ordering

  /** An issue row, with the columns the operations below read. */
  datatype Issue = Issue(
    id: string, seqId: Option<int>, title: string, status: string, priority: Option<string>, parentId: Option<string>,
    createdAt: string)

  datatype Link = Link(fromId: string, toId: string, linkType: string)

  /** `issues` holds the rows in the order `list` returns them; ids are the primary key. */
  datatype Database = Database(issues: seq<Issue>, links: seq<Link>)

  ghost predicate UniqueIds(issues: seq<Issue>) {
    forall i, j :: 0 <= i < j < |issues| ==> issues[i].id != issues[j].id
  }

  // ---- What "blocked" means, on the tables ----

  ghost predicate Blocks(links: seq<Link>, a: string, b: string) {
    Link(a, b, "blocks") in links
  }

  /** A non-empty path: each issue blocks the next. */
  ghost predicate BlocksPath(links: seq<Link>, p: seq<string>) {
    |p| >= 2 && forall i :: 0 <= i < |p| - 1 ==> Blocks(links, p[i], p[i + 1])
  }

  /** Neither done nor cancelled; an id without a row counts as open. */
  ghost predicate Unresolved(issues: seq<Issue>, id: string) {
    forall i :: 0 <= i < |issues| && issues[i].id == id ==>
      issues[i].status != "done" && issues[i].status != "cancelled"
  }

  ghost predicate Blocked(db: Database, id: string) {
    exists p :: BlocksPath(db.links, p) && p[|p| - 1] == id && Unresolved(db.issues, p[0])
  }

  function ListOpen(issues: seq<Issue>): seq<Issue> {
    if issues == [] then [] else
      ListOpen(issues[..|issues| - 1]) + (if issues[|issues| - 1].status == "open" then [issues[|issues| - 1]] else [])
  }

  ghost function Unblocked(db: Database, issues: seq<Issue>): seq<Issue> {
    if issues == [] then [] else
      var last := issues[|issues| - 1];
      Unblocked(db, issues[..|issues| - 1]) + (if Blocked(db, last.id) then [] else [last])
  }

  /** The rows that are open and not blocked. */
  ghost function Kept(db: Database, issues: seq<Issue>): seq<Issue> {
    if issues == [] then [] else
      var last := issues[|issues| - 1];
      Kept(db, issues[..|issues| - 1]) + (if last.status == "open" && !Blocked(db, last.id) then [last] else [])
  }

  lemma UnblockedNext(db: Database, issues: seq<Issue>, last: Issue)
    ensures Unblocked(db, issues + [last]) == Unblocked(db, issues) + (if Blocked(db, last.id) then [] else [last])
  {
    assert (issues + [last])[..|issues|] == issues;
  }

  lemma {:induction false} UnblockedOpen(db: Database, issues: seq<Issue>)
    ensures Unblocked(db, ListOpen(issues)) == Kept(db, issues)
  {
    hide Blocked;
    if issues != [] {
      var front, last := issues[..|issues| - 1], issues[|issues| - 1];
      UnblockedOpen(db, front);
      assert ListOpen(front) + [] == ListOpen(front);
      assert ListOpen(issues) == ListOpen(front) + (if last.status == "open" then [last] else []);
      hide Unblocked, ListOpen;
      UnblockedNext(db, ListOpen(front), last);
    }
  }

  /** Wherever they stand in the table, `x` stands before `y`. */
  ghost predicate Precedes(issues: seq<Issue>, x: Issue, y: Issue) {
    forall m, n :: 0 <= m < |issues| && 0 <= n < |issues| && issues[m] == x && issues[n] == y ==> m < n
  }

  ghost predicate InTableOrder(issues: seq<Issue>, some: seq<Issue>) {
    forall i, j :: 0 <= i < j < |some| ==> Precedes(issues, some[i], some[j])
  }

  lemma {:induction false} KeptMembers(db: Database, issues: seq<Issue>)
    ensures forall x :: x in Kept(db, issues) <==> x in issues && x.status == "open" && !Blocked(db, x.id)
  {
    hide Blocked;
    if issues != [] {
      var front, last := issues[..|issues| - 1], issues[|issues| - 1];
      assert issues == front + [last];
      KeptMembers(db, front);
    }
  }

  lemma PrecedesNext(front: seq<Issue>, last: Issue, x: Issue, y: Issue)
    requires last !in front && x in front && (y == last || (y in front && Precedes(front, x, y)))
    ensures Precedes(front + [last], x, y)
  {
    var issues := front + [last];
    forall m, n | 0 <= m < |issues| && 0 <= n < |issues| && issues[m] == x && issues[n] == y ensures m < n {
      assert m < |front|;
    }
  }

  lemma {:induction false} KeptInOrder(db: Database, issues: seq<Issue>)
    requires UniqueIds(issues)
    ensures InTableOrder(issues, Kept(db, issues))
  {
    hide Blocked;
    if issues != [] {
      var front, last := issues[..|issues| - 1], issues[|issues| - 1];
      var before, some := Kept(db, front), Kept(db, issues);
      assert issues == front + [last] && last !in front;
      KeptInOrder(db, front);
      KeptMembers(db, front);
      assert some == before || some == before + [last];
      hide Kept, Precedes, UniqueIds;
      forall i, j | 0 <= i < j < |some| ensures Precedes(issues, some[i], some[j]) {
        assert some[i] == before[i] && before[i] in before;
        if j < |before| { assert before[j] in before && Precedes(front, before[i], before[j]); }
        PrecedesNext(front, last, some[i], some[j]);
      }
    }
  }

  /** Ready issues are exactly the rows with status "open" that are not blocked, in the order of the table. */
  lemma ReadyExactly(db: Database)
    requires UniqueIds(db.issues)
    ensures forall x :: x in Unblocked(db, ListOpen(db.issues))
                        <==> x in db.issues && x.status == "open" && !Blocked(db, x.id)
    ensures InTableOrder(db.issues, Unblocked(db, ListOpen(db.issues)))
  {
    KeptMembers(db, db.issues);
    KeptInOrder(db, db.issues);
    UnblockedOpen(db, db.issues);
    hide Kept, InTableOrder, Blocked, ListOpen, Unblocked, UniqueIds;
  }

  // ---- The search ----

  function DirectBlockers(blockedBy: map<string, seq<string>>, id: string): seq<string> {
    if id in blockedBy then blockedBy[id] else []
  }

  function IsOpenStatus(statuses: map<string, string>, id: string): bool {
    var status := if id in statuses then statuses[id] else "open";
    status != "done" && status != "cancelled"
  }

  ghost predicate MapPath(blockedBy: map<string, seq<string>>, p: seq<string>) {
    |p| >= 2 && forall i :: 0 <= i < |p| - 1 ==> p[i] in DirectBlockers(blockedBy, p[i + 1])
  }

  ghost predicate UnresolvedPathTo(blockedBy: map<string, seq<string>>, statuses: map<string, string>, p: seq<string>,
                                   id: string)
  {
    MapPath(blockedBy, p) && p[|p| - 1] == id && IsOpenStatus(statuses, p[0])
  }

  /** `b` has been dealt with: it is resolved and its own blockers have been or are being searched. */
  ghost predicate Cleared(statuses: map<string, string>, visited: set<string>, b: string) {
    b in visited && !IsOpenStatus(statuses, b)
  }

  /** Every blocker of every issue in `done` is cleared. */
  ghost predicate Explored(blockedBy: map<string, seq<string>>, statuses: map<string, string>, done: set<string>,
                           visited: set<string>)
  {
    forall x, b :: x in done && b in DirectBlockers(blockedBy, x) ==> Cleared(statuses, visited, b)
  }

  ghost predicate ClosedUniverse(blockedBy: map<string, seq<string>>, all: set<string>) {
    forall x, b :: b in DirectBlockers(blockedBy, x) ==> b in all
  }

  /**
   Depth-first search with a visited set that is shared by the whole search, so one call alone may
   answer false for an issue that is still being explored further up. It terminates on every
   graph, cycles included, because each call that recurses marks a new issue of the finite graph.
   */
  method HasUnresolvedBlocker(id: string, blockedBy: map<string, seq<string>>, statuses: map<string, string>,
                              visited0: set<string>, ghost all: set<string>)
    returns (found: bool, visited: set<string>)
    requires ClosedUniverse(blockedBy, all) && id in all && visited0 <= all
    ensures visited0 <= visited <= all
    ensures found ==> exists p :: UnresolvedPathTo(blockedBy, statuses, p, id)
    ensures !found ==> id in visited && Explored(blockedBy, statuses, visited - visited0, visited)
    decreases all - visited0
  {
    visited := visited0;
    if id in visited { return false, visited; }
    visited := visited + {id};
    if id !in blockedBy { return false, visited; }
    var blockers := blockedBy[id];
    assert blockers == DirectBlockers(blockedBy, id);
    assert Explored(blockedBy, statuses, visited - visited0 - {id}, visited);
    assert forall k :: 0 <= k < |blockers| ==> blockers[k] in all;
    hide Explored, UnresolvedPathTo, IsOpenStatus, ClosedUniverse;
    for i := 0 to |blockers|
      invariant visited0 + {id} <= visited <= all
      invariant forall k :: 0 <= k < i ==> Cleared(statuses, visited, blockers[k])
      invariant Explored(blockedBy, statuses, visited - visited0 - {id}, visited)
    {
      assert blockers[i] in DirectBlockers(blockedBy, id);
      if IsOpenStatus(statuses, blockers[i]) {
        DirectPath(blockedBy, statuses, blockers[i], id);
        return true, visited;
      }
      ghost var before := visited;
      found, visited := HasUnresolvedBlocker(blockers[i], blockedBy, statuses, visited, all);
      if found {
        ghost var p :| UnresolvedPathTo(blockedBy, statuses, p, blockers[i]);
        PathExtends(blockedBy, statuses, p, blockers[i], id);
        return true, visited;
      }
      ExploredJoin(blockedBy, statuses, before - visited0 - {id}, before, visited - before, visited);
      assert visited - visited0 - {id} == (before - visited0 - {id}) + (visited - before);
    }
    assert visited - visited0 == (visited - visited0 - {id}) + {id};
    ExploredOneMore(blockedBy, statuses, visited - visited0 - {id}, id, visited);
    found := false;
  }

  lemma DirectPath(blockedBy: map<string, seq<string>>, statuses: map<string, string>, b: string, id: string)
    requires b in DirectBlockers(blockedBy, id) && IsOpenStatus(statuses, b)
    ensures UnresolvedPathTo(blockedBy, statuses, [b, id], id)
  {
  }

  lemma ExploredJoin(blockedBy: map<string, seq<string>>, statuses: map<string, string>, done: set<string>,
                     before: set<string>, more: set<string>, visited: set<string>)
    requires Explored(blockedBy, statuses, done, before) && before <= visited
    requires Explored(blockedBy, statuses, more, visited)
    ensures Explored(blockedBy, statuses, done + more, visited)
  {
    forall x, b | x in done && b in DirectBlockers(blockedBy, x) ensures Cleared(statuses, visited, b) {
      assert Cleared(statuses, before, b);
    }
  }

  lemma ExploredOneMore(blockedBy: map<string, seq<string>>, statuses: map<string, string>, done: set<string>,
                        id: string, visited: set<string>)
    requires Explored(blockedBy, statuses, done, visited)
    requires forall k :: 0 <= k < |DirectBlockers(blockedBy, id)| ==>
               Cleared(statuses, visited, DirectBlockers(blockedBy, id)[k])
    ensures Explored(blockedBy, statuses, done + {id}, visited)
  {
  }

  lemma PathExtends(blockedBy: map<string, seq<string>>, statuses: map<string, string>,
                    p: seq<string>, b: string, id: string)
    requires UnresolvedPathTo(blockedBy, statuses, p, b) && b in DirectBlockers(blockedBy, id)
    ensures UnresolvedPathTo(blockedBy, statuses, p + [id], id)
  {
  }

  /** A fully explored set admits no path from an unresolved issue. */
  lemma {:induction false} ExploredIsClear(blockedBy: map<string, seq<string>>, statuses: map<string, string>,
                                           visited: set<string>, p: seq<string>)
    requires Explored(blockedBy, statuses, visited, visited) && MapPath(blockedBy, p) && p[|p| - 1] in visited
    ensures Cleared(statuses, visited, p[0])
    decreases |p|
  {
    var n := |p| - 1;
    assert p[n - 1] in DirectBlockers(blockedBy, p[n]);
    assert Cleared(statuses, visited, p[n - 1]);
    if n > 1 { ExploredIsClear(blockedBy, statuses, visited, p[..n]); }
  }

  /** Started on an empty visited set, the search decides exactly whether an unresolved issue
      blocks `id` through a path. */
  method SearchFrom(id: string, blockedBy: map<string, seq<string>>, statuses: map<string, string>)
    returns (found: bool)
    ensures found <==> exists p :: UnresolvedPathTo(blockedBy, statuses, p, id)
  {
    ghost var all := {id} + set x, b | x in blockedBy && b in blockedBy[x] :: b;
    var visited;
    found, visited := HasUnresolvedBlocker(id, blockedBy, statuses, {}, all);
    if !found {
      assert visited - {} == visited;
      forall p | UnresolvedPathTo(blockedBy, statuses, p, id) ensures false {
        ExploredIsClear(blockedBy, statuses, visited, p);
      }
    }
  }

  // ---- From the tables to the maps ----

  function BlockersIn(links: seq<Link>, id: string): seq<string> {
    if links == [] then [] else
      var l := links[|links| - 1];
      BlockersIn(links[..|links| - 1], id) + (if l.linkType == "blocks" && l.toId == id then [l.fromId] else [])
  }

  lemma {:induction false} BlockersAreLinks(links: seq<Link>, a: string, b: string)
    ensures a in BlockersIn(links, b) <==> Blocks(links, a, b)
  {
    if links != [] {
      var front, l := links[..|links| - 1], links[|links| - 1];
      BlockersAreLinks(front, a, b);
      assert Blocks(links, a, b) <==> Blocks(front, a, b) || l == Link(a, b, "blocks");
    }
  }

  method BuildBlockedBy(links: seq<Link>) returns (blockedBy: map<string, seq<string>>)
    ensures forall id :: DirectBlockers(blockedBy, id) == BlockersIn(links, id)
  {
    blockedBy := map[];
    for i := 0 to |links|
      invariant forall id :: DirectBlockers(blockedBy, id) == BlockersIn(links[..i], id)
    {
      assert links[..i + 1][..i] == links[..i];
      if links[i].linkType != "blocks" { continue; }
      blockedBy := blockedBy[links[i].toId := DirectBlockers(blockedBy, links[i].toId) + [links[i].fromId]];
    }
    assert links[..|links|] == links;
  }

  method CollectStatuses(issues: seq<Issue>) returns (statuses: map<string, string>)
    requires UniqueIds(issues)
    ensures forall id :: IsOpenStatus(statuses, id) <==> Unresolved(issues, id)
  {
    statuses := map[];
    for i := 0 to |issues|
      invariant forall k :: 0 <= k < i ==> issues[k].id in statuses && statuses[issues[k].id] == issues[k].status
      invariant forall id :: id in statuses ==> exists k :: 0 <= k < i && issues[k].id == id
    {
      statuses := statuses[issues[i].id := issues[i].status];
    }
  }

  lemma PathsAgree(db: Database, blockedBy: map<string, seq<string>>, statuses: map<string, string>, id: string)
    requires forall x :: DirectBlockers(blockedBy, x) == BlockersIn(db.links, x)
    requires forall x :: IsOpenStatus(statuses, x) <==> Unresolved(db.issues, x)
    ensures (exists p :: UnresolvedPathTo(blockedBy, statuses, p, id)) <==> Blocked(db, id)
  {
    forall p ensures UnresolvedPathTo(blockedBy, statuses, p, id)
                <==> BlocksPath(db.links, p) && p[|p| - 1] == id && Unresolved(db.issues, p[0]) {
      if |p| >= 2 {
        forall i | 0 <= i < |p| - 1
          ensures p[i] in DirectBlockers(blockedBy, p[i + 1]) <==> Blocks(db.links, p[i], p[i + 1]) {
          BlockersAreLinks(db.links, p[i], p[i + 1]);
        }
      }
    }
    hide UnresolvedPathTo, BlocksPath, Unresolved;
    if p :| UnresolvedPathTo(blockedBy, statuses, p, id) { assert BlocksPath(db.links, p); }
    if p :| BlocksPath(db.links, p) && p[|p| - 1] == id && Unresolved(db.issues, p[0]) {
      assert UnresolvedPathTo(blockedBy, statuses, p, id);
    }
  }

  /** The loop over the open issues, with the two tables built once. */
  method KeepUnblocked(db: Database, openIssues: seq<Issue>) returns (result: seq<Issue>)
    requires UniqueIds(db.issues)
    ensures result == Unblocked(db, openIssues)
  {
    if openIssues == [] { return []; }
    var blockedBy := BuildBlockedBy(db.links);
    var statuses := CollectStatuses(db.issues);
    result := [];
    for i := 0 to |openIssues|
      invariant result == Unblocked(db, openIssues[..i])
    {
      assert openIssues[..i + 1][..i] == openIssues[..i];
      var blocked := SearchFrom(openIssues[i].id, blockedBy, statuses);
      PathsAgree(db, blockedBy, statuses, openIssues[i].id);
      if !blocked { result := result + [openIssues[i]]; }
    }
    assert openIssues[..|openIssues|] == openIssues;
  }

  /** The open issues, in order, that no unresolved issue blocks directly or transitively. */
  method Ready(db: Database) returns (result: seq<Issue>)
    requires UniqueIds(db.issues)
    ensures result == Unblocked(db, ListOpen(db.issues))
    ensures forall x :: x in result <==> x in db.issues && x.status == "open" && !Blocked(db, x.id)
    ensures InTableOrder(db.issues, result)
  {
    ReadyExactly(db);
    hide InTableOrder, Blocked;
    result := KeepUnblocked(db, ListOpen(db.issues));
  }

  // ---- The next issue to work on ----

  function PriorityRank(p: Option<string>): nat {
    if p == Some("P0") then 0
    else if p == Some("P1") then 1
    else if p == Some("P2") then 2
    else if p == Some("P3") then 3
    else 4
  }

  const LEVELS := ["P0", "P1", "P2", "P3"]

  /** The named levels in the order of their spelling, and any other priority, or none, after all of them. */
  predicate NotBelow(p: Option<string>, q: Option<string>) {
    q.Some? && q.value in LEVELS ==> p.Some? && p.value in LEVELS && LexLe(p.value, q.value)
  }

  lemma RankIsLevel(p: Option<string>, q: Option<string>)
    ensures PriorityRank(p) <= PriorityRank(q) <==> NotBelow(p, q)
  {
    if p.Some? && p.value in LEVELS && q.Some? && q.value in LEVELS {
      var x, y := p.value, q.value;
      assert LexLe(x, y) == LexLe(x[1..], y[1..]);
      assert x[1..][1..] == [] && y[1..][1..] == [];
    }
  }

  /** Higher priority first, then earlier creation. */
  predicate NotAfter(a: Issue, b: Issue) {
    NotBelow(a.priority, b.priority) && (NotBelow(b.priority, a.priority) ==> LexLe(a.createdAt, b.createdAt))
  }

  /** The comparison as it is made, by rank. */
  predicate Compares(a: Issue, b: Issue) {
    var x, y := PriorityRank(a.priority), PriorityRank(b.priority);
    x < y || (x == y && LexLe(a.createdAt, b.createdAt))
  }

  lemma CompareIsOrder(a: Issue, b: Issue)
    ensures Compares(a, b) <==> NotAfter(a, b)
  {
    hide PriorityRank, NotBelow;
    RankIsLevel(a.priority, b.priority);
    RankIsLevel(b.priority, a.priority);
  }

  lemma NotAfterOrder(a: Issue, b: Issue, c: Issue)
    ensures NotAfter(a, b) || NotAfter(b, a)
    ensures NotAfter(a, b) && NotAfter(b, c) ==> NotAfter(a, c)
  {
    hide PriorityRank, NotAfter;
    CompareIsOrder(a, b);
    CompareIsOrder(b, a);
    CompareIsOrder(b, c);
    CompareIsOrder(a, c);
    LexTotal(a.createdAt, b.createdAt);
    if LexLe(a.createdAt, b.createdAt) && LexLe(b.createdAt, c.createdAt) {
      LexTrans(a.createdAt, b.createdAt, c.createdAt);
    }
  }

  /** `k` is the first position holding a least element. */
  ghost predicate FirstLeast(xs: seq<Issue>, k: nat) {
    && k < |xs|
    && (forall j :: 0 <= j < |xs| ==> NotAfter(xs[k], xs[j]))
    && (forall j :: 0 <= j < k ==> !NotAfter(xs[j], xs[k]))
  }

  ghost predicate SortedByPriority(xs: seq<Issue>) {
    forall i, j :: 0 <= i < j < |xs| ==> NotAfter(xs[i], xs[j])
  }

  predicate Tied(a: Issue, b: Issue) {
    NotAfter(a, b) && NotAfter(b, a)
  }

  /** The elements of equal priority and age with `a`, in order. */
  function TiesOf(xs: seq<Issue>, a: Issue): seq<Issue> {
    if xs == [] then [] else TiesOf(xs[..|xs| - 1], a) + (if Tied(xs[|xs| - 1], a) then [xs[|xs| - 1]] else [])
  }

  lemma TiesSnoc(xs: seq<Issue>, x: Issue, a: Issue)
    ensures TiesOf(xs + [x], a) == TiesOf(xs, a) + (if Tied(x, a) then [x] else [])
  {
    assert (xs + [x])[..|xs|] == xs;
  }

  lemma {:induction false} TiesAround(a: seq<Issue>, x: Issue, b: seq<Issue>, y: Issue)
    requires forall i :: 0 <= i < |b| ==> !NotAfter(b[i], x)
    ensures TiesOf(a + [x] + b, y) == TiesOf(a + b, y) + (if Tied(x, y) then [x] else [])
    decreases |b|
  {
    hide NotAfter;
    if b == [] {
      assert a + [x] + b == a + [x] && a + b == a;
      TiesSnoc(a, x, y);
    } else {
      var init, last := b[..|b| - 1], b[|b| - 1];
      assert a + [x] + b == a + [x] + init + [last] && a + b == a + init + [last];
      TiesSnoc(a + [x] + init, last, y);
      TiesSnoc(a + init, last, y);
      hide TiesOf;
      TiesAround(a, x, init, y);
      NotAfterOrder(last, y, x);
    }
  }

  /** Inserts `x` after every element it does not precede. */
  method InsertByPriority(ys: seq<Issue>, x: Issue) returns (r: seq<Issue>)
    requires SortedByPriority(ys)
    ensures SortedByPriority(r) && multiset(r) == multiset(ys) + multiset{x}
    ensures r != [] && r[0] == if ys != [] && NotAfter(ys[0], x) then ys[0] else x
    ensures forall a :: TiesOf(r, a) == TiesOf(ys, a) + (if Tied(x, a) then [x] else [])
  {
    hide NotAfter, TiesOf, Compares, SortedByPriority;
    var p := |ys|;
    while p > 0 && !Compares(ys[p - 1], x)
      invariant 0 <= p <= |ys|
      invariant forall i :: p <= i < |ys| ==> !NotAfter(ys[i], x)
    {
      CompareIsOrder(ys[p - 1], x);
      p := p - 1;
    }
    if p > 0 { CompareIsOrder(ys[p - 1], x); }
    var a, b := ys[..p], ys[p..];
    assert ys == a + b;
    InsertedBetween(a, x, b);
    InsertedElements(a, x, b);
    TiesInserted(a, x, b);
    r := a + [x] + b;
  }

  lemma InsertedElements(a: seq<Issue>, x: Issue, b: seq<Issue>)
    ensures multiset(a + [x] + b) == multiset(a + b) + multiset{x}
    ensures (a + [x] + b)[0] == if a != [] then (a + b)[0] else x
  {
  }

  lemma TiesInserted(a: seq<Issue>, x: Issue, b: seq<Issue>)
    requires forall i :: 0 <= i < |b| ==> !NotAfter(b[i], x)
    ensures forall y :: TiesOf(a + [x] + b, y) == TiesOf(a + b, y) + (if Tied(x, y) then [x] else [])
  {
    hide NotAfter, TiesOf, Tied;
    forall y ensures TiesOf(a + [x] + b, y) == TiesOf(a + b, y) + (if Tied(x, y) then [x] else []) {
      TiesAround(a, x, b, y);
    }
  }

  lemma InsertedBetween(a: seq<Issue>, x: Issue, b: seq<Issue>)
    requires SortedByPriority(a + b) && (a != [] ==> NotAfter(a[|a| - 1], x))
    requires forall i :: 0 <= i < |b| ==> !NotAfter(b[i], x)
    ensures SortedByPriority(a + [x] + b)
    ensures a == [] && b != [] ==> !NotAfter((a + b)[0], x)
    ensures a != [] ==> NotAfter((a + b)[0], x)
  {
    hide NotAfter;
    forall i | 0 <= i < |a| ensures NotAfter(a[i], x) {
      if i < |a| - 1 {
        assert (a + b)[i] == a[i] && (a + b)[|a| - 1] == a[|a| - 1];
        NotAfterOrder(a[i], a[|a| - 1], x);
      }
    }
    forall i | 0 <= i < |b| ensures NotAfter(x, b[i]) { NotAfterOrder(x, b[i], x); }
    hide SortedByPriority;
    SortedAround(a, x, b);
  }

  lemma SortedAround(a: seq<Issue>, x: Issue, b: seq<Issue>)
    requires SortedByPriority(a + b)
    requires forall i :: 0 <= i < |a| ==> NotAfter(a[i], x)
    requires forall i :: 0 <= i < |b| ==> NotAfter(x, b[i])
    ensures SortedByPriority(a + [x] + b)
  {
    hide NotAfter;
    var r := a + [x] + b;
    forall i, j | 0 <= i < j < |r| ensures NotAfter(r[i], r[j]) {
      if i != |a| && j != |a| {
        var m, n := if i < |a| then i else i - 1, if j < |a| then j else j - 1;
        assert r[i] == (a + b)[m] && r[j] == (a + b)[n];
      }
    }
  }

  lemma FirstLeastSnoc(xs: seq<Issue>, x: Issue, k: nat)
    requires FirstLeast(xs, k)
    ensures FirstLeast(xs + [x], if NotAfter(xs[k], x) then k else |xs|)
  {
    hide NotAfter;
    NotAfterOrder(x, x, x);
    NotAfterOrder(x, xs[k], x);
    forall j | 0 <= j < |xs| ensures !NotAfter(xs[k], x) ==> NotAfter(x, xs[j]) && !NotAfter(xs[j], x) {
      NotAfterOrder(x, xs[k], xs[j]);
      NotAfterOrder(xs[k], xs[j], x);
    }
  }

  /** A stable sort by priority and age: elements of equal rank keep their order. */
  method SortByPriority(xs: seq<Issue>) returns (ys: seq<Issue>)
    ensures multiset(ys) == multiset(xs) && SortedByPriority(ys)
    ensures forall a :: TiesOf(ys, a) == TiesOf(xs, a)
    ensures xs != [] ==> ys != [] && exists k: nat :: FirstLeast(xs, k) && ys[0] == xs[k]
  {
    hide NotAfter, TiesOf;
    ys := [];
    ghost var k: nat := 0;
    for n := 0 to |xs|
      invariant multiset(ys) == multiset(xs[..n]) && SortedByPriority(ys)
      invariant forall a :: TiesOf(ys, a) == TiesOf(xs[..n], a)
      invariant n > 0 ==> ys != [] && FirstLeast(xs[..n], k) && ys[0] == xs[k]
    {
      assert xs[..n + 1] == xs[..n] + [xs[n]];
      if n > 0 {
        FirstLeastSnoc(xs[..n], xs[n], k);
        assert xs[..n][k] == xs[k];
        if !NotAfter(ys[0], xs[n]) { k := n; }
      } else {
        NotAfterOrder(xs[0], xs[0], xs[0]);
        k := 0;
      }
      ys := InsertByPriority(ys, xs[n]);
      forall a ensures TiesOf(ys, a) == TiesOf(xs[..n + 1], a) { TiesSnoc(xs[..n], xs[n], a); }
    }
    assert xs[..|xs|] == xs;
  }

  /** `a` has no lower a priority than `b`, and is not younger when neither priority is higher. */
  predicate GoesBefore(a: Issue, b: Issue) {
    && (b.priority == Some("P0") ==> a.priority == Some("P0"))
    && (b.priority == Some("P1") ==> a.priority in {Some("P0"), Some("P1")})
    && (b.priority == Some("P2") ==> a.priority in {Some("P0"), Some("P1"), Some("P2")})
    && (b.priority == Some("P3") ==> a.priority in {Some("P0"), Some("P1"), Some("P2"), Some("P3")})
    && (a.priority == b.priority ==> LexLe(a.createdAt, b.createdAt))
    && (a.priority !in {Some("P0"), Some("P1"), Some("P2"), Some("P3")}
        && b.priority !in {Some("P0"), Some("P1"), Some("P2"), Some("P3")} ==>
          LexLe(a.createdAt, b.createdAt))
  }

  lemma NotAfterByLevel(a: Issue, b: Issue)
    requires NotAfter(a, b)
    ensures GoesBefore(a, b)
  {
    RankIsLevel(a.priority, b.priority);
    RankIsLevel(b.priority, a.priority);
    hide NotBelow, LexLe;
  }

  lemma FirstGoesBefore(xs: seq<Issue>, first: Issue, x: Issue)
    requires x in xs && exists k: nat :: FirstLeast(xs, k) && first == xs[k]
    ensures GoesBefore(first, x)
  {
    hide NotAfter;
    NotAfterByLevel(first, x);
    hide LexLe;
  }

  /** The ready issue of highest priority, the oldest among equals, and the first listed among those. */
  method Next(db: Database) returns (r: Option<Issue>)
    requires UniqueIds(db.issues)
    ensures r.None? <==> Unblocked(db, ListOpen(db.issues)) == []
    ensures r.Some? ==> exists k: nat :: FirstLeast(Unblocked(db, ListOpen(db.issues)), k)
                                 && r.value == Unblocked(db, ListOpen(db.issues))[k]
    ensures r.None? <==> forall x :: x in db.issues && x.status == "open" ==> Blocked(db, x.id)
    ensures r.Some? ==> r.value in db.issues && r.value.status == "open" && !Blocked(db, r.value.id)
    ensures r.Some? ==>
              forall x :: x in db.issues && x.status == "open" && !Blocked(db, x.id) ==> GoesBefore(r.value, x)
  {
    hide Unblocked, ListOpen, Blocked, NotAfter;
    var candidates := Ready(db);
    if candidates == [] {
      assert forall x :: x in db.issues && x.status == "open" && !Blocked(db, x.id) ==> x in candidates;
      return None;
    }
    assert candidates[0] in candidates;
    var sorted := SortByPriority(candidates);
    r := Some(sorted[0]);
    forall x | x in candidates ensures GoesBefore(sorted[0], x) { FirstGoesBefore(candidates, sorted[0], x); }
  }
}
