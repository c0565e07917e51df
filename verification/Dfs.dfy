/**
 Depth-first search over an adjacency matrix, in the recursive form and in the explicit-stack form
 of 0818_dfs.md.
 */
module Dfs {
  import opened Permute

  type Matrix = seq<seq<int>>

  predicate Square(g: Matrix) {
    forall u :: 0 <= u < |g| ==> |g[u]| == |g|
  }

  predicate Edge(g: Matrix, u: nat, w: nat)
    requires Square(g)
  {
    u < |g| && w < |g| && g[u][w] == 1
  }

  function Vertices(g: Matrix): (s: set<nat>)
    ensures forall u: nat :: u in s <==> u < |g|
  {
    Upto(|g|)
  }

  function Upto(n: nat): (s: set<nat>)
    ensures forall u: nat :: u in s <==> u < n
  {
    if n == 0 then {} else Upto(n - 1) + {n - 1}
  }

  /** What a traversal leaves behind: the vertices visited, and the part of `result` it appended. */
  datatype Trip = Trip(visited: set<nat>, result: seq<nat>)

  /** DFS(now) with the given vertices already visited. */
  function Visit(g: Matrix, visited: set<nat>, now: nat): (t: Trip)
    requires Square(g) && now < |g| && now !in visited
    ensures visited + {now} <= t.visited
    decreases Vertices(g) - visited, 0
  {
    var t := Scan(g, visited + {now}, now, 0);
    Trip(t.visited, [now] + t.result)
  }

  /** The loop of DFS(now) from `nxt` on. */
  function Scan(g: Matrix, visited: set<nat>, now: nat, nxt: nat): (t: Trip)
    requires Square(g) && now < |g| && nxt <= |g|
    ensures visited <= t.visited
    decreases Vertices(g) - visited, |g| - nxt + 1
  {
    if nxt == |g| then Trip(visited, [])
    else if Edge(g, now, nxt) && nxt !in visited then
      var t := Visit(g, visited, nxt);
      var rest := Scan(g, t.visited, now, nxt + 1);
      Trip(rest.visited, t.result + rest.result)
    else Scan(g, visited, now, nxt + 1)
  }

  // ---------------------------------------------------------------- the loop's view of the recursion

  predicate OnGraph(g: Matrix, stack: seq<nat>) {
    forall k :: 0 <= k < |stack| ==> stack[k] < |g|
  }

  /** What the explicit-stack loop still has to do, from the top of its body. */
  function Rest(g: Matrix, visited: set<nat>, now: nat, stack: seq<nat>): (t: Trip)
    requires Square(g) && now < |g| && OnGraph(g, stack)
    ensures visited <= t.visited
    decreases |stack|
  {
    if stack == [] then Trip(visited, [])
    else
      var t := Scan(g, visited + {now}, now, 0);
      var rest := Rest(g, t.visited, stack[|stack| - 1], stack[..|stack| - 1]);
      Trip(rest.visited, t.result + rest.result)
  }

  /** Neighbours already visited are passed over. */
  lemma {:induction false} ScanSkips(g: Matrix, visited: set<nat>, now: nat, i: nat, k: nat)
    requires Square(g) && now < |g| && i <= k <= |g|
    requires forall j :: i <= j < k ==> !(Edge(g, now, j) && j !in visited)
    ensures Scan(g, visited, now, i) == Scan(g, visited, now, k)
    decreases |g| - i
  {
    if i < k {
      ScanSkips(g, visited, now, i + 1, k);
    }
  }

  /** Scanning a vertex is going down to its first unvisited neighbour and scanning it again. */
  lemma ScanAgain(g: Matrix, visited: set<nat>, now: nat, nxt: nat)
    requires Square(g) && now < |g| && nxt < |g| && now in visited
    requires Edge(g, now, nxt) && nxt !in visited
    requires forall j :: 0 <= j < nxt ==> !(Edge(g, now, j) && j !in visited)
    ensures var down := Scan(g, visited + {nxt}, nxt, 0);
            var rest := Scan(g, down.visited, now, 0);
            && Scan(g, visited, now, 0) == Trip(rest.visited, [nxt] + down.result + rest.result)
            && down.visited + {now} == down.visited
  {
    hide *;
    ScanSkips(g, visited, now, 0, nxt);
    ScanTakes(g, visited, now, nxt);
    VisitUnfolds(g, visited, nxt);
    ScanSkips(g, Visit(g, visited, nxt).visited, now, 0, nxt + 1);
    Absorbs(Scan(g, visited + {nxt}, nxt, 0).visited, now);
  }

  lemma Absorbs(s: set<nat>, x: nat)
    requires x in s
    ensures s + {x} == s
  {
  }

  /** Going down to `nxt` and coming back later leaves the same work as the recursive call. */
  lemma RestOfPush(g: Matrix, visited: set<nat>, now: nat, nxt: nat, stack: seq<nat>)
    requires Square(g) && now < |g| && nxt < |g| && stack != [] && OnGraph(g, stack)
    requires Edge(g, now, nxt) && nxt !in visited + {now}
    requires forall j :: 0 <= j < nxt ==> !(Edge(g, now, j) && j !in visited + {now})
    ensures OnGraph(g, stack + [now])
    ensures var before, after := Rest(g, visited, now, stack), Rest(g, visited + {now}, nxt, stack + [now]);
            before.visited == after.visited && before.result == [nxt] + after.result
  {
    hide Visit, Scan, Rest, Edge;
    var vis := visited + {now};
    ScanAgain(g, vis, now, nxt);
    var down := Scan(g, vis + {nxt}, nxt, 0);
    var rest := Scan(g, down.visited, now, 0);
    assert (stack + [now])[..|stack|] == stack;
    RestUnfolds(g, visited, now, stack);
    RestUnfolds(g, vis, nxt, stack + [now]);
    RestUnfolds(g, down.visited, now, stack);
    var tail := Rest(g, rest.visited, stack[|stack| - 1], stack[..|stack| - 1]);
    Regroup(nxt, down.result, rest.result, tail.result);
  }

  lemma Regroup(x: nat, a: seq<nat>, b: seq<nat>, c: seq<nat>)
    ensures (([x] + a) + b) + c == [x] + (a + (b + c))
  {
  }

  lemma VisitUnfolds(g: Matrix, visited: set<nat>, now: nat)
    requires Square(g) && now < |g| && now !in visited
    ensures var t := Scan(g, visited + {now}, now, 0); Visit(g, visited, now) == Trip(t.visited, [now] + t.result)
  {
  }

  lemma ScanTakes(g: Matrix, visited: set<nat>, now: nat, nxt: nat)
    requires Square(g) && now < |g| && nxt < |g| && Edge(g, now, nxt) && nxt !in visited
    ensures var t := Visit(g, visited, nxt);
            var rest := Scan(g, t.visited, now, nxt + 1);
            Scan(g, visited, now, nxt) == Trip(rest.visited, t.result + rest.result)
  {
  }

  lemma RestUnfolds(g: Matrix, visited: set<nat>, now: nat, stack: seq<nat>)
    requires Square(g) && now < |g| && stack != [] && OnGraph(g, stack)
    ensures var t := Scan(g, visited + {now}, now, 0);
            var rest := Rest(g, t.visited, stack[|stack| - 1], stack[..|stack| - 1]);
            Rest(g, visited, now, stack) == Trip(rest.visited, t.result + rest.result)
  {
    hide Scan;
  }

  lemma ScanEnds(g: Matrix, visited: set<nat>, now: nat)
    requires Square(g) && now < |g|
    ensures Scan(g, visited, now, |g|) == Trip(visited, [])
  {
  }

  lemma RestOfPop(g: Matrix, visited: set<nat>, now: nat, stack: seq<nat>)
    requires Square(g) && now < |g| && stack != [] && OnGraph(g, stack)
    requires forall j :: 0 <= j < |g| ==> !(Edge(g, now, j) && j !in visited + {now})
    ensures Rest(g, visited, now, stack) == Rest(g, visited + {now}, stack[|stack| - 1], stack[..|stack| - 1])
  {
    hide Rest, Edge, Visit, Scan, Square, Vertices, Upto;
    ScanSkips(g, visited + {now}, now, 0, |g|);
    ScanEnds(g, visited + {now}, now);
    RestUnfolds(g, visited, now, stack);
    var rest := Rest(g, visited + {now}, stack[|stack| - 1], stack[..|stack| - 1]);
    assert [] + rest.result == rest.result;
  }

  /** With only the start on the stack, what is left is the traversal itself. */
  lemma RestOfStart(g: Matrix, start: nat)
    requires Square(g) && start < |g|
    ensures [start] + Rest(g, {}, start, [start]).result == Visit(g, {}, start).result
  {
    hide Scan;
    var t := Scan(g, {} + {start}, start, 0);
    assert [start][..0] == [];
    assert Rest(g, t.visited, start, []) == Trip(t.visited, []);
  }

  lemma RestOfNothing(g: Matrix, visited: set<nat>, now: nat)
    requires Square(g) && now < |g|
    ensures Rest(g, visited, now, []).result == []
  {
  }

  lemma Append(a: seq<nat>, x: nat, b: seq<nat>)
    ensures (a + [x]) + b == a + ([x] + b)
  {
  }

  // ---------------------------------------------------------------- what the result is

  ghost predicate Lists(s: seq<nat>, vs: set<nat>) {
    NoDup(s) && forall v :: v in s <==> v in vs
  }

  lemma ListsConcat(a: seq<nat>, b: seq<nat>, va: set<nat>, vb: set<nat>)
    requires Lists(a, va) && Lists(b, vb) && va !! vb
    ensures Lists(a + b, va + vb)
  {
    var s := a + b;
    forall i, j | 0 <= i < j < |s| ensures s[i] != s[j] {
      if i < |a| <= j {
        assert a[i] in va && b[j - |a|] in vb;
      }
    }
  }

  /** Each traversal lists exactly the vertices it visits, once each. */
  lemma {:induction false} VisitLists(g: Matrix, visited: set<nat>, now: nat)
    requires Square(g) && now < |g| && now !in visited
    ensures var t := Visit(g, visited, now);
            t.visited <= visited + Vertices(g) && Lists(t.result, t.visited - visited)
    decreases Vertices(g) - visited, 0
  {
    var s := Scan(g, visited + {now}, now, 0);
    ScanLists(g, visited + {now}, now, 0);
    ListsConcat([now], s.result, {now}, s.visited - (visited + {now}));
    assert Visit(g, visited, now).visited - visited == {now} + (s.visited - (visited + {now}));
  }

  lemma {:induction false} ScanLists(g: Matrix, visited: set<nat>, now: nat, nxt: nat)
    requires Square(g) && now < |g| && nxt <= |g|
    ensures var t := Scan(g, visited, now, nxt);
            t.visited <= visited + Vertices(g) && Lists(t.result, t.visited - visited)
    decreases Vertices(g) - visited, |g| - nxt + 1
  {
    if nxt < |g| {
      if Edge(g, now, nxt) && nxt !in visited {
        VisitLists(g, visited, nxt);
        var t := Visit(g, visited, nxt);
        ScanLists(g, t.visited, now, nxt + 1);
        var rest := Scan(g, t.visited, now, nxt + 1);
        ListsConcat(t.result, rest.result, t.visited - visited, rest.visited - t.visited);
        assert rest.visited - visited == (t.visited - visited) + (rest.visited - t.visited);
      } else {
        ScanLists(g, visited, now, nxt + 1);
      }
    }
  }

  /** Everything newly visited has all its neighbours visited. */
  ghost predicate Closed(g: Matrix, added: set<nat>, visited: set<nat>)
    requires Square(g)
  {
    forall u, w :: u in added && Edge(g, u, w) ==> w in visited
  }

  lemma {:induction false} VisitCloses(g: Matrix, visited: set<nat>, now: nat)
    requires Square(g) && now < |g| && now !in visited
    ensures Closed(g, Visit(g, visited, now).visited - visited, Visit(g, visited, now).visited)
    decreases Vertices(g) - visited, 0
  {
    ScanCloses(g, visited + {now}, now, 0);
  }

  lemma {:induction false} ScanCloses(g: Matrix, visited: set<nat>, now: nat, nxt: nat)
    requires Square(g) && now < |g| && nxt <= |g|
    ensures Closed(g, Scan(g, visited, now, nxt).visited - visited, Scan(g, visited, now, nxt).visited)
    ensures forall w :: nxt <= w && Edge(g, now, w) ==> w in Scan(g, visited, now, nxt).visited
    decreases Vertices(g) - visited, |g| - nxt + 1
  {
    if nxt < |g| {
      if Edge(g, now, nxt) && nxt !in visited {
        VisitCloses(g, visited, nxt);
        ScanCloses(g, Visit(g, visited, nxt).visited, now, nxt + 1);
      } else {
        ScanCloses(g, visited, now, nxt + 1);
      }
    }
  }

  /** A walk along entries that are 1. */
  ghost predicate Walk(g: Matrix, path: seq<nat>)
    requires Square(g)
  {
    && path != []
    && (forall k :: 0 <= k < |path| ==> path[k] < |g|)
    && (forall k :: 0 <= k < |path| - 1 ==> g[path[k]][path[k + 1]] == 1)
  }

  ghost predicate Reaches(g: Matrix, a: nat, b: nat)
    requires Square(g)
  {
    exists path :: Walk(g, path) && path[0] == a && path[|path| - 1] == b
  }

  lemma ReachesItself(g: Matrix, a: nat)
    requires Square(g) && a < |g|
    ensures Reaches(g, a, a)
  {
    assert Walk(g, [a]);
  }

  lemma ReachesThrough(g: Matrix, a: nat, b: nat, c: nat)
    requires Square(g) && Edge(g, a, b) && Reaches(g, b, c)
    ensures Reaches(g, a, c)
  {
    var path :| Walk(g, path) && path[0] == b && path[|path| - 1] == c;
    var longer := [a] + path;
    forall k | 0 <= k < |longer| - 1 ensures g[longer[k]][longer[k + 1]] == 1 {
      assert k > 0 ==> longer[k] == path[k - 1] && longer[k + 1] == path[k - 1 + 1];
    }
    assert Walk(g, longer);
  }

  lemma {:induction false} VisitReaches(g: Matrix, visited: set<nat>, now: nat, v: nat)
    requires Square(g) && now < |g| && now !in visited && v in Visit(g, visited, now).visited - visited
    ensures Reaches(g, now, v)
    decreases Vertices(g) - visited, 0
  {
    if v == now {
      ReachesItself(g, now);
    } else {
      ScanReaches(g, visited + {now}, now, 0, v);
    }
  }

  lemma {:induction false} ScanReaches(g: Matrix, visited: set<nat>, now: nat, nxt: nat, v: nat)
    requires Square(g) && now < |g| && nxt <= |g| && v in Scan(g, visited, now, nxt).visited - visited
    ensures Reaches(g, now, v)
    decreases Vertices(g) - visited, |g| - nxt + 1
  {
    if Edge(g, now, nxt) && nxt !in visited {
      var t := Visit(g, visited, nxt);
      if v in t.visited {
        VisitReaches(g, visited, nxt, v);
        ReachesThrough(g, now, nxt, v);
      } else {
        ScanReaches(g, t.visited, now, nxt + 1, v);
      }
    } else {
      ScanReaches(g, visited, now, nxt + 1, v);
    }
  }

  /** A walk cannot leave a set closed under edges. */
  lemma {:induction false} WalkStaysInside(g: Matrix, inside: set<nat>, path: seq<nat>)
    requires Square(g) && Closed(g, inside, inside) && Walk(g, path) && path[0] in inside
    ensures path[|path| - 1] in inside
    decreases |path|
  {
    if |path| > 1 {
      var rest := path[1..];
      assert g[path[0]][path[0 + 1]] == 1 && Edge(g, path[0], path[1]);
      forall k | 0 <= k < |rest| - 1 ensures g[rest[k]][rest[k + 1]] == 1 {
        assert g[path[k + 1]][path[k + 1 + 1]] == 1;
      }
      WalkStaysInside(g, inside, path[1..]);
    }
  }

  /** `result` lists each vertex reachable from the start exactly once, the start first. */
  lemma ResultIsReachable(g: Matrix, start: nat)
    requires Square(g) && start < |g|
    ensures var result := Visit(g, {}, start).result;
            && NoDup(result) && result[..1] == [start]
            && forall v :: v in result <==> Reaches(g, start, v)
  {
    var t := Visit(g, {}, start);
    VisitLists(g, {}, start);
    VisitCloses(g, {}, start);
    assert t.visited - {} == t.visited;
    forall v ensures v in t.result <==> Reaches(g, start, v) {
      if v in t.result {
        VisitReaches(g, {}, start, v);
      }
      if Reaches(g, start, v) {
        var path :| Walk(g, path) && path[0] == start && path[|path| - 1] == v;
        WalkStaysInside(g, t.visited, path);
      }
    }
  }

  // ---------------------------------------------------------------- the order of the result

  /** All entries name vertices. */
  predicate Within(g: Matrix, s: seq<nat>) {
    forall k :: 0 <= k < |s| ==> s[k] < |g|
  }

  /**
   Entry k of the listing is reached from entry j: it is the least vertex not listed yet that j has an
   edge to, and no entry after j has an edge to any vertex not listed yet.
   */
  ghost predicate ReachedFrom(g: Matrix, visited: set<nat>, s: seq<nat>, k: nat, j: nat)
    requires Square(g) && Within(g, s) && j < k < |s|
  {
    && g[s[j]][s[k]] == 1
    && (forall w: nat :: w < s[k] && g[s[j]][w] == 1 ==> w in visited || w in s[..k])
    && (forall i, w: nat :: j < i < k && w < |g| && g[s[i]][w] == 1 ==> w in visited || w in s[..k])
  }

  ghost predicate Reached(g: Matrix, visited: set<nat>, s: seq<nat>, k: nat)
    requires Square(g) && Within(g, s) && k < |s|
  {
    exists j :: 0 <= j < k && ReachedFrom(g, visited, s, k, j)
  }

  /** A depth-first listing: every entry but the first is reached from the last entry that can go on. */
  ghost predicate DepthFirst(g: Matrix, visited: set<nat>, s: seq<nat>)
    requires Square(g)
  {
    Within(g, s) && forall k :: 1 <= k < |s| ==> Reached(g, visited, s, k)
  }

  /** The entries of a first descent. */
  lemma ReachedInDescent(g: Matrix, visited: set<nat>, now: nat, r1: seq<nat>, r2: seq<nat>, k: nat)
    requires Square(g) && now < |g| && DepthFirst(g, visited, r1) && Within(g, r2) && k < |r1|
    requires g[now][r1[0]] == 1 && forall w: nat :: w < r1[0] && g[now][w] == 1 ==> w in visited
    ensures Within(g, [now] + (r1 + r2)) && Reached(g, visited, [now] + (r1 + r2), k + 1)
  {
    var s := [now] + (r1 + r2);
    assert forall i :: 0 <= i < |r1| ==> s[i + 1] == r1[i];
    if k == 0 {
      assert ReachedFrom(g, visited, s, 1, 0);
    } else {
      assert Reached(g, visited, r1, k);
      var j :| 0 <= j < k && ReachedFrom(g, visited, r1, k, j);
      assert s[..k + 1] == [now] + r1[..k];
      forall i, w: nat | j + 1 < i < k + 1 && w < |g| && g[s[i]][w] == 1 ensures w in visited || w in s[..k + 1] {
        assert s[i] == r1[i - 1];
      }
      assert ReachedFrom(g, visited, s, k + 1, j + 1);
    }
  }

  /** The entries after a first descent that has left nothing to visit. */
  lemma ReachedAfterDescent(g: Matrix, visited: set<nat>, visited': set<nat>, now: nat, r1: seq<nat>, r2: seq<nat>,
                            k: nat)
    requires Square(g) && now < |g| && Within(g, r1) && Within(g, r2)
    requires DepthFirst(g, visited', [now] + r2) && 1 <= k < |r2| + 1
    requires forall v :: v in visited' ==> v in visited || v in r1
    requires forall v, w: nat :: v in r1 && w < |g| && g[v][w] == 1 ==> w in visited'
    ensures Within(g, [now] + (r1 + r2)) && Reached(g, visited, [now] + (r1 + r2), |r1| + k)
  {
    var short, s, n := [now] + r2, [now] + (r1 + r2), |r1|;
    assert forall i :: 1 <= i < |short| ==> s[n + i] == short[i];
    assert Reached(g, visited', short, k);
    var j :| 0 <= j < k && ReachedFrom(g, visited', short, k, j);
    var from := if j == 0 then 0 else n + j;
    assert s[..n + k] == [now] + r1 + r2[..k - 1] && short[..k] == [now] + r2[..k - 1];
    forall i, w: nat | from < i < n + k && w < |g| && g[s[i]][w] == 1 ensures w in visited || w in s[..n + k] {
      if i <= n {
        assert s[i] == r1[i - 1] && s[i] in r1;
      } else {
        assert s[i] == short[i - n];
      }
    }
    assert ReachedFrom(g, visited, s, n + k, from);
  }

  lemma DescentsCompose(g: Matrix, visited: set<nat>, visited': set<nat>, now: nat, r1: seq<nat>, r2: seq<nat>)
    requires Square(g) && now < |g| && r1 != []
    requires DepthFirst(g, visited, r1) && DepthFirst(g, visited', [now] + r2)
    requires g[now][r1[0]] == 1 && forall w: nat :: w < r1[0] && g[now][w] == 1 ==> w in visited
    requires forall v :: v in visited' ==> v in visited || v in r1
    requires forall v, w: nat :: v in r1 && w < |g| && g[v][w] == 1 ==> w in visited'
    ensures DepthFirst(g, visited, [now] + (r1 + r2))
  {
    var s := [now] + (r1 + r2);
    forall i | 0 <= i < |r2| ensures r2[i] < |g| {
      assert ([now] + r2)[i + 1] == r2[i];
    }
    forall k | 1 <= k < |s| ensures Within(g, s) && Reached(g, visited, s, k) {
      if k <= |r1| {
        ReachedInDescent(g, visited, now, r1, r2, k - 1);
      } else {
        ReachedAfterDescent(g, visited, visited', now, r1, r2, k - |r1|);
      }
    }
  }

  lemma ForgetListed(g: Matrix, visited: set<nat>, now: nat, s: seq<nat>)
    requires Square(g) && DepthFirst(g, visited + {now}, s) && s != [] && s[0] == now
    ensures DepthFirst(g, visited, s)
  {
    forall k | 1 <= k < |s| ensures Reached(g, visited, s, k) {
      assert Reached(g, visited + {now}, s, k);
      var j :| 0 <= j < k && ReachedFrom(g, visited + {now}, s, k, j);
      assert s[..k][0] == now;
      assert ReachedFrom(g, visited, s, k, j);
    }
  }

  lemma {:induction false} VisitIsDepthFirst(g: Matrix, visited: set<nat>, now: nat)
    requires Square(g) && now < |g| && now !in visited
    ensures DepthFirst(g, visited, Visit(g, visited, now).result)
    decreases Vertices(g) - visited, 0
  {
    ScanIsDepthFirst(g, visited + {now}, now, 0);
    ForgetListed(g, visited, now, Visit(g, visited, now).result);
  }

  lemma {:induction false} ScanIsDepthFirst(g: Matrix, visited: set<nat>, now: nat, nxt: nat)
    requires Square(g) && now < |g| && nxt <= |g| && now in visited
    requires forall w: nat :: w < nxt && g[now][w] == 1 ==> w in visited
    ensures DepthFirst(g, visited, [now] + Scan(g, visited, now, nxt).result)
    decreases Vertices(g) - visited, |g| - nxt + 1
  {
    if nxt < |g| {
      if Edge(g, now, nxt) && nxt !in visited {
        var t := Visit(g, visited, nxt);
        VisitIsDepthFirst(g, visited, nxt);
        ScanIsDepthFirst(g, t.visited, now, nxt + 1);
        VisitLists(g, visited, nxt);
        VisitCloses(g, visited, nxt);
        ClosedInRaw(g, t.result, visited, t.visited);
        ScanTakes(g, visited, now, nxt);
        hide Scan, Visit, DepthFirst;
        VisitStarts(g, visited, nxt);
        DescentsCompose(g, visited, t.visited, now, t.result, Scan(g, t.visited, now, nxt + 1).result);
      } else {
        ScanIsDepthFirst(g, visited, now, nxt + 1);
      }
    }
  }

  lemma VisitStarts(g: Matrix, visited: set<nat>, now: nat)
    requires Square(g) && now < |g| && now !in visited
    ensures Visit(g, visited, now).result != [] && Visit(g, visited, now).result[0] == now
  {
    hide Scan;
  }

  lemma ClosedInRaw(g: Matrix, s: seq<nat>, visited: set<nat>, visited': set<nat>)
    requires Square(g) && Lists(s, visited' - visited) && Closed(g, visited' - visited, visited')
    ensures forall v, w: nat :: v in s && v < |g| && w < |g| && g[v][w] == 1 ==> w in visited'
    ensures forall v :: v in visited' ==> v in visited || v in s
  {
    forall v, w: nat | v in s && v < |g| && w < |g| && g[v][w] == 1 ensures w in visited' {
      assert Edge(g, v, w);
    }
  }

  /**
   What both programs return, in terms of the matrix alone: the start first, no vertex twice, exactly
   the vertices that a walk reaches, closed under edges, and in depth-first order with the
   lowest-numbered neighbour first.
   */
  ghost predicate IsTraversal(g: Matrix, start: nat, s: seq<nat>)
    requires Square(g)
  {
    && s != [] && s[0] == start && NoDup(s) && Within(g, s)
    && (forall v :: v in s <==> exists path :: Walk(g, path) && path[0] == start && path[|path| - 1] == v)
    && (forall u, w: nat :: u in s && u < |g| && w < |g| && g[u][w] == 1 ==> w in s)
    && DepthFirst(g, {}, s)
  }

  /** Two listings that agree so far are continued alike. */
  lemma SameNext(g: Matrix, start: nat, s: seq<nat>, r: seq<nat>, k: nat)
    requires Square(g) && IsTraversal(g, start, s) && IsTraversal(g, start, r)
    requires 1 <= k < |s| && k < |r| && s[..k] == r[..k]
    ensures s[k] == r[k]
  {
    assert Reached(g, {}, s, k) && Reached(g, {}, r, k);
    var i :| 0 <= i < k && ReachedFrom(g, {}, s, k, i);
    var j :| 0 <= j < k && ReachedFrom(g, {}, r, k, j);
    hide IsTraversal, DepthFirst, Reached;
    assert s[i] == s[..k][i] && r[i] == r[..k][i] && s[j] == s[..k][j] && r[j] == r[..k][j];
    NotListedYet(g, start, s, k);
    NotListedYet(g, start, r, k);
  }

  lemma NotListedYet(g: Matrix, start: nat, s: seq<nat>, k: nat)
    requires Square(g) && IsTraversal(g, start, s) && k < |s|
    ensures s[k] !in s[..k]
  {
    hide DepthFirst, Walk;
  }

  /** What a longer listing has next is an edge away, so it is listed. */
  lemma NextIsListed(g: Matrix, start: nat, s: seq<nat>, r: seq<nat>)
    requires Square(g) && IsTraversal(g, start, s) && DepthFirst(g, {}, r) && s < r
    ensures r[|s|] in r[..|s|]
  {
    var k := |s|;
    assert r[..k] == s;
    assert Reached(g, {}, r, k);
    var j :| 0 <= j < k && ReachedFrom(g, {}, r, k, j);
    assert r[j] == s[j] && s[j] in s;
  }

  /** A listing cannot stop before another one that begins with it. */
  lemma NoShorterTraversal(g: Matrix, start: nat, s: seq<nat>, r: seq<nat>)
    requires Square(g) && IsTraversal(g, start, s) && IsTraversal(g, start, r) && s <= r
    ensures s == r
  {
    hide DepthFirst, Walk;
    if |s| < |r| {
      NotListedYet(g, start, r, |s|);
      NextIsListed(g, start, s, r);
    }
  }

  lemma {:induction false} TraversalsAgree(g: Matrix, start: nat, s: seq<nat>, r: seq<nat>, k: nat)
    requires Square(g) && IsTraversal(g, start, s) && IsTraversal(g, start, r) && k <= |s| && k <= |r|
    ensures s[..k] == r[..k]
  {
    hide DepthFirst, Walk;
    if k >= 2 {
      TraversalsAgree(g, start, s, r, k - 1);
      SameNext(g, start, s, r, k - 1);
      assert s[..k] == s[..k - 1] + [s[k - 1]] && r[..k] == r[..k - 1] + [r[k - 1]];
    }
  }

  /** There is only one such list for a matrix and a start. */
  lemma TraversalIsUnique(g: Matrix, start: nat, s: seq<nat>, r: seq<nat>)
    requires Square(g) && IsTraversal(g, start, s) && IsTraversal(g, start, r)
    ensures s == r
  {
    hide IsTraversal;
    if |s| <= |r| {
      TraversalsAgree(g, start, s, r, |s|);
      assert s[..|s|] == s && s <= r;
      NoShorterTraversal(g, start, s, r);
    } else {
      TraversalsAgree(g, start, s, r, |r|);
      assert r[..|r|] == r && r <= s;
      NoShorterTraversal(g, start, r, s);
    }
  }

  lemma VisitIsTraversal(g: Matrix, start: nat)
    requires Square(g) && start < |g|
    ensures IsTraversal(g, start, Visit(g, {}, start).result)
  {
    var t := Visit(g, {}, start);
    ResultIsReachable(g, start);
    VisitIsDepthFirst(g, {}, start);
    VisitLists(g, {}, start);
    VisitCloses(g, {}, start);
    VisitStarts(g, {}, start);
    ClosedInRaw(g, t.result, {}, t.visited);
    hide Visit, Walk;
    forall u, w: nat | u in t.result && u < |g| && w < |g| && g[u][w] == 1 ensures w in t.result {
    }
    forall v ensures v in t.result <==> exists path :: Walk(g, path) && path[0] == start && path[|path| - 1] == v {
      assert v in t.result <==> Reaches(g, start, v);
    }
  }

  /** A traversal with nothing visited and nothing listed is the whole result. */
  lemma WholeTraversal(g: Matrix, visited: set<nat>, now: nat, before: seq<nat>, result: seq<nat>)
    requires Square(g) && now < |g| && now !in visited && result == before + Visit(g, visited, now).result
    ensures visited == {} && before == [] ==> IsTraversal(g, now, result)
  {
    hide IsTraversal, Visit;
    if visited == {} && before == [] {
      VisitIsTraversal(g, now);
      assert result == Visit(g, {}, now).result;
    }
  }

  // ---------------------------------------------------------------- the two programs

  ghost function Marked(visited: array<bool>): set<nat>
    reads visited
  {
    set u: nat | u < visited.Length && visited[u]
  }

  /** The globals of the recursive program. */
  class Search {
    const graph: Matrix
    const visited: array<bool>
    var result: seq<nat>

    constructor (g: Matrix)
      ensures graph == g && visited.Length == |g| && Marked(visited) == {} && result == [] && fresh(visited)
    {
      graph := g;
      visited := new bool[|g|](_ => false);
      result := [];
    }

    method DFS(now: nat)
      requires Square(graph) && visited.Length == |graph| && now < |graph| && now !in Marked(visited)
      modifies visited, this`result
      ensures Marked(visited) == Visit(graph, old(Marked(visited)), now).visited
      ensures result == old(result) + Visit(graph, old(Marked(visited)), now).result
      ensures old(Marked(visited)) == {} && old(result) == [] ==> IsTraversal(graph, now, result)
      decreases Vertices(graph) - Marked(visited)
    {
      hide IsTraversal;
      ghost var goal := Visit(graph, Marked(visited), now);
      ghost var marked := Marked(visited) + {now};
      ghost var scan := Scan(graph, marked, now, 0);
      ghost var before := result;
      assert goal == Trip(scan.visited, [now] + scan.result);
      visited[now] := true;
      result := result + [now];
      assert Marked(visited) == marked;
      assert result + scan.result == before + goal.result;
      for nxt := 0 to |graph|
        invariant old(Marked(visited)) + {now} <= Marked(visited)
        invariant Scan(graph, Marked(visited), now, nxt).visited == goal.visited
        invariant result + Scan(graph, Marked(visited), now, nxt).result == before + goal.result
      {
        if graph[now][nxt] == 1 && !visited[nxt] {
          DFS(nxt);
        }
      }
      WholeTraversal(graph, old(Marked(visited)), now, old(result), result);
    }
  }

  /** The explicit-stack program: it ends, and `result` is the recursive program's. */
  method IterativeDFS(g: Matrix, start: nat) returns (result: seq<nat>)
    requires Square(g) && start < |g|
    ensures result == Visit(g, {}, start).result && IsTraversal(g, start, result)
  {
    hide IsTraversal;
    var visited := new bool[|g|](_ => false);
    var now: nat := start;
    var stack: seq<nat> := [now];
    result := [now];
    hide Visit, Scan, Rest, Vertices, Upto;
    ghost var goal := Visit(g, {}, start);
    assert Marked(visited) == {};
    RestOfStart(g, start);
    while stack != []
      invariant now < |g| && OnGraph(g, stack)
      invariant visited.Length == |g|
      invariant result + Rest(g, Marked(visited), now, stack).result == goal.result
      decreases Vertices(g) - (Marked(visited) + {now}), |stack|
    {
      ghost var before := Marked(visited);
      visited[now] := true;
      assert Marked(visited) == before + {now};
      var nxt := 0;
      while nxt < |g| && !(g[now][nxt] == 1 && !visited[nxt])
        invariant nxt <= |g|
        invariant forall j :: 0 <= j < nxt ==> !(Edge(g, now, j) && j !in Marked(visited))
      {
        nxt := nxt + 1;
      }
      if nxt < |g| {
        RestOfPush(g, before, now, nxt, stack);
        Append(result, nxt, Rest(g, before + {now}, nxt, stack + [now]).result);
        stack := stack + [now];
        now := nxt;
        result := result + [nxt];
      } else {
        RestOfPop(g, before, now, stack);
        now, stack := stack[|stack| - 1], stack[..|stack| - 1];
      }
    }
    RestOfNothing(g, Marked(visited), now);
    VisitIsTraversal(g, start);
  }
}
