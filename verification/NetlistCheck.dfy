/** The structural check run before code generation: pin ranges, single drivers, the bus table and static loops. */
module NetlistCheck {
  import opened Netlist
  import opened Graph
  import opened TickSpec

  // ---- Depth-first search for a cycle, with an explicit stack ----

  datatype Color = White | Gray | Black

  datatype Frame = Frame(u: nat, next: nat)

  /** Every node is listed after all its successors. */
  ghost predicate Finished(adj: seq<seq<nat>>, done: seq<nat>) {
    && Distinct(done)
    && forall k, v: nat :: 0 <= k < |done| && Edge(adj, done[k], v) ==> v in done[..k]
  }

  /** The colours say which nodes are finished and which are on the path. */
  ghost predicate Colored(adj: seq<seq<nat>>, color: seq<Color>, path: seq<nat>, done: seq<nat>) {
    && |color| == |adj| && Distinct(path)
    && (forall v: nat :: v in done <==> v < |adj| && color[v] == Black)
    && (forall v: nat :: v in path <==> v < |adj| && color[v] == Gray)
  }

  ghost predicate Passed(adj: seq<seq<nat>>, u: nat, limit: int, done: seq<nat>) {
    u < |adj| && limit <= |adj[u]| && forall j :: 0 <= j < limit ==> adj[u][j] in done
  }

  /** The stack frames follow the path; the successors a frame has passed are finished, except the one above it. */
  ghost predicate Stacked(adj: seq<seq<nat>>, stack: seq<Frame>, path: seq<nat>, done: seq<nat>) {
    && |stack| == |path|
    && (forall i :: 0 <= i < |stack| ==> stack[i].u == path[i] && path[i] < |adj| && stack[i].next <= |adj[path[i]]|)
    && (forall i :: 0 <= i < |stack| - 1 ==> stack[i].next > 0 && adj[path[i]][stack[i].next - 1] == path[i + 1])
    && (forall i :: 0 <= i < |stack| - 1 ==> Passed(adj, path[i], stack[i].next - 1, done))
    && (stack != [] ==> Passed(adj, path[|path| - 1], stack[|stack| - 1].next, done))
  }

  ghost function Whites(color: seq<Color>): set<nat> {
    set v: nat | v < |color| && color[v] == White
  }

  /** The top frame has passed all its successors except possibly the last one it looked at. */
  ghost predicate Advanced(adj: seq<seq<nat>>, stack: seq<Frame>, path: seq<nat>, done: seq<nat>, v: nat) {
    && stack != [] && Stacked(adj, stack[..|stack| - 1] + [Frame(stack[|stack| - 1].u, 0)], path, done)
    && var f := stack[|stack| - 1];
       f.u < |adj| && 0 < f.next <= |adj[f.u]| && adj[f.u][f.next - 1] == v && Passed(adj, f.u, f.next - 1, done)
  }

  lemma AdvanceFrame(adj: seq<seq<nat>>, stack: seq<Frame>, path: seq<nat>, done: seq<nat>)
    requires stack != [] && Stacked(adj, stack, path, done)
    requires stack[|stack| - 1].next < |adj[stack[|stack| - 1].u]|
    ensures
      var f := stack[|stack| - 1];
      var v := adj[f.u][f.next];
      var moved := stack[|stack| - 1 := Frame(f.u, f.next + 1)];
      Advanced(adj, moved, path, done, v) && (v in done ==> Stacked(adj, moved, path, done))
  {
    var f := stack[|stack| - 1];
    TopFrame(adj, stack, path, done);
    PassedNext(adj, f.u, f.next, done);
    hide Passed;
    OtherTop(adj, stack, path, done, Frame(f.u, 0));
    if adj[f.u][f.next] in done {
      OtherTop(adj, stack, path, done, Frame(f.u, f.next + 1));
    }
    var moved := stack[|stack| - 1 := Frame(f.u, f.next + 1)];
    assert moved[..|stack| - 1] + [Frame(f.u, 0)] == stack[|stack| - 1 := Frame(f.u, 0)];
    hide Stacked;
  }

  /** The top frame may be replaced by any other that has only passed finished successors. */
  lemma OtherTop(adj: seq<seq<nat>>, stack: seq<Frame>, path: seq<nat>, done: seq<nat>, f: Frame)
    requires stack != [] && Stacked(adj, stack, path, done) && f.u == stack[|stack| - 1].u
    requires Passed(adj, f.u, f.next, done)
    ensures Stacked(adj, stack[|stack| - 1 := f], path, done)
  {
    assert f.u == path[|path| - 1];
    assert f.next <= |adj[f.u]|;
    hide Passed;
  }

  lemma PassedNext(adj: seq<seq<nat>>, u: nat, next: nat, done: seq<nat>)
    requires Passed(adj, u, next, done) && next < |adj[u]|
    ensures Passed(adj, u, 0, done) && (adj[u][next] in done ==> Passed(adj, u, next + 1, done))
  {
  }

  /** The top frame belongs to the last node of the path. */
  lemma TopFrame(adj: seq<seq<nat>>, stack: seq<Frame>, path: seq<nat>, done: seq<nat>)
    requires stack != [] && Stacked(adj, stack, path, done)
    ensures |stack| == |path| && path[|path| - 1] == stack[|stack| - 1].u < |adj|
    ensures stack[|stack| - 1].next <= |adj[stack[|stack| - 1].u]|
  {
  }

  lemma StartSearch(start: nat, adj: seq<seq<nat>>, color: seq<Color>, done: seq<nat>)
    requires start < |adj| && |color| == |adj| && color[start] == White && Colored(adj, color, [], done)
    ensures Colored(adj, color[start := Gray], [start], done) && Stacked(adj, [Frame(start, 0)], [start], done)
  {
  }

  lemma PushNode(adj: seq<seq<nat>>, color: seq<Color>, stack: seq<Frame>, path: seq<nat>, done: seq<nat>, v: nat)
    requires Colored(adj, color, path, done) && v < |adj| && color[v] == White
    requires Advanced(adj, stack, path, done, v)
    ensures Colored(adj, color[v := Gray], path + [v], done)
    ensures Stacked(adj, stack + [Frame(v, 0)], path + [v], done)
    ensures Whites(color[v := Gray]) < Whites(color)
  {
    var lower := stack[..|stack| - 1] + [Frame(stack[|stack| - 1].u, 0)];
    assert forall i :: 0 <= i < |stack| - 1 ==> lower[i] == stack[i];
    assert lower[|stack| - 1].u == stack[|stack| - 1].u;
    var longer := path + [v];
    assert v !in path && v !in done;
    assert forall x: nat :: x in longer <==> x in path || x == v;
    assert v in Whites(color) && v !in Whites(color[v := Gray]);
  }

  lemma PopColors(adj: seq<seq<nat>>, color: seq<Color>, path: seq<nat>, done: seq<nat>)
    requires Colored(adj, color, path, done) && path != []
    ensures var u := path[|path| - 1];
      && u < |color|
      && Colored(adj, color[u := Black], path[..|path| - 1], done + [u])
      && Whites(color[u := Black]) == Whites(color)
  {
    var u := path[|path| - 1];
    assert u in path && u !in done;
    var shorter := path[..|path| - 1];
    assert path == shorter + [u];
    assert forall x: nat :: x in shorter <==> x in path && x != u;
    assert forall x: nat :: x in done + [u] <==> x in done || x == u;
  }

  lemma PopStack(adj: seq<seq<nat>>, stack: seq<Frame>, path: seq<nat>, done: seq<nat>)
    requires Stacked(adj, stack, path, done) && stack != []
    ensures Stacked(adj, stack[..|stack| - 1], path[..|path| - 1], done + [path[|path| - 1]])
  {
    forall i | 0 <= i < |stack| - 1 ensures Passed(adj, path[i], stack[i].next - 1, done + [path[|path| - 1]]) {
      assert Passed(adj, path[i], stack[i].next - 1, done);
    }
  }

  lemma StackedIsWalk(adj: seq<seq<nat>>, stack: seq<Frame>, path: seq<nat>, done: seq<nat>)
    requires Stacked(adj, stack, path, done) && path != []
    ensures Walk(adj, path)
  {
    forall k | 0 <= k < |path| - 1 ensures Edge(adj, path[k], path[k + 1]) {
      assert adj[path[k]][stack[k].next - 1] == path[k + 1];
    }
  }

  /** Searches from a white node. Either the path returned ends with a node it already contains, or everything
      reached is finished and the path is empty again. */
  method DfsCycle(start: nat, adj: seq<seq<nat>>, color: array<Color>, ghost done0: seq<nat>)
    returns (found: bool, path: seq<nat>, ghost done: seq<nat>)
    requires WellFormed(adj) && color.Length == |adj| && start < |adj| && color[start] == White
    requires Colored(adj, color[..], [], done0) && Finished(adj, done0)
    modifies color
    ensures found ==> |path| > 1 && Walk(adj, path) && path[|path| - 1] in path[..|path| - 1]
    ensures !found ==> path == [] && Colored(adj, color[..], [], done) && Finished(adj, done) && done0 <= done && start in done
  {
    hide Stacked, Passed, Finished, Advanced;
    done := done0;
    StartSearch(start, adj, color[..], done);
    color[start] := Gray;
    path := [start];
    var stack := [Frame(start, 0)];
    while stack != []
      invariant Colored(adj, color[..], path, done) && Finished(adj, done) && done0 <= done
      invariant Stacked(adj, stack, path, done)
      invariant |stack| == |path| && (stack != [] ==> stack[|stack| - 1].u < |adj|)
      invariant start in done || start in path
      decreases Whites(color[..]), |stack|,
        if stack == [] then 0 else |adj[stack[|stack| - 1].u]| - stack[|stack| - 1].next
    {
      var top := |stack| - 1;
      var u := stack[top].u;
      TopFrame(adj, stack, path, done);
      if stack[top].next < |adj[u]| {
        var v := adj[u][stack[top].next];
        AdvanceFrame(adj, stack, path, done);
        ghost var before := stack;
        stack := stack[top := Frame(u, stack[top].next + 1)];
        if color[v] == Gray {
          StackedIsWalk(adj, before, path, done);
          PathCloses(adj, path, u, v);
          path := path + [v];
          return true, path, done;
        }
        if color[v] == White {
          PushNode(adj, color[..], stack, path, done, v);
          color[v] := Gray;
          path := path + [v];
          stack := stack + [Frame(v, 0)];
        }
      } else {
        FinishNode(adj, stack, path, done);
        PopColors(adj, color[..], path, done);
        PopStack(adj, stack, path, done);
        color[u] := Black;
        path := path[..|path| - 1];
        stack := stack[..top];
        done := done + [u];
        if stack != [] {
          TopFrame(adj, stack, path, done);
        }
      }
    }
    found := false;
  }

  lemma PathCloses(adj: seq<seq<nat>>, path: seq<nat>, u: nat, v: nat)
    requires path != [] && u == path[|path| - 1] && u < |adj| && v in adj[u] && v in path
    requires forall k :: 0 <= k < |path| - 1 ==> Edge(adj, path[k], path[k + 1])
    requires v < |adj|
    ensures Walk(adj, path + [v]) && v in (path + [v])[..|path|]
  {
    assert (path + [v])[..|path|] == path;
  }

  lemma FinishNode(adj: seq<seq<nat>>, stack: seq<Frame>, path: seq<nat>, done: seq<nat>)
    requires stack != [] && Stacked(adj, stack, path, done) && Finished(adj, done)
    requires stack[|stack| - 1].next == |adj[path[|path| - 1]]| && path[|path| - 1] !in done
    ensures Finished(adj, done + [path[|path| - 1]])
  {
    var u := path[|path| - 1];
    var longer := done + [u];
    forall k, v: nat | 0 <= k < |longer| && Edge(adj, longer[k], v) ensures v in longer[..k] {
      if k < |done| {
        assert longer[..k] == done[..k];
      } else {
        var j :| 0 <= j < |adj[u]| && adj[u][j] == v;
        assert longer[..k] == done;
      }
    }
  }

  datatype LoopSearch = NoLoop | Loop(cycle: seq<nat>)

  /** Searches from every white node in turn. The reported cycle is the path from the closing node's first visit. */
  method FindLoop(adj: seq<seq<nat>>) returns (r: LoopSearch)
    requires WellFormed(adj)
    ensures r.Loop? ==> Cycle(adj, r.cycle)
    ensures r.Loop? <==> HasCycle(adj)
  {
    var color := new Color[|adj|](_ => White);
    ghost var done: seq<nat> := [];
    for i := 0 to |adj|
      invariant Colored(adj, color[..], [], done) && Finished(adj, done)
      invariant forall v: nat :: v < i ==> v in done
    {
      if color[i] == White {
        var found, path;
        ghost var before := done;
        found, path, done := DfsCycle(i, adj, color, done);
        if found {
          var start := FirstVisit(path);
          CycleSuffix(adj, path, start);
          return Loop(path[start..]);
        }
        assert forall v: nat :: v < i ==> v in before;
        assert forall v :: v in before ==> v in done;
      } else {
        ghost var none: seq<nat> := [];
        assert i !in none;
        assert i in done;
      }
    }
    FinishedExcludesCycles(adj, done);
    r := NoLoop;
  }

  method FirstVisit(path: seq<nat>) returns (start: nat)
    requires |path| > 1 && path[|path| - 1] in path[..|path| - 1]
    ensures start < |path| - 1 && path[start] == path[|path| - 1]
    ensures forall j :: 0 <= j < start ==> path[j] != path[|path| - 1]
  {
    start := 0;
    while path[start] != path[|path| - 1]
      invariant start < |path| - 1
      invariant forall j :: 0 <= j < start ==> path[j] != path[|path| - 1]
      decreases |path| - start
    {
      assert exists j :: 0 <= j < |path| - 1 && path[j] == path[|path| - 1] by {
        var j :| 0 <= j < |path| - 1 && path[..|path| - 1][j] == path[|path| - 1];
        assert path[j] == path[|path| - 1];
      }
      start := start + 1;
    }
  }

  lemma CycleSuffix(adj: seq<seq<nat>>, path: seq<nat>, start: nat)
    requires Walk(adj, path) && start < |path| - 1 && path[start] == path[|path| - 1]
    ensures Cycle(adj, path[start..])
  {
    var c := path[start..];
    forall k | 0 <= k < |c| - 1 ensures Edge(adj, c[k], c[k + 1]) {
      assert Edge(adj, path[start + k], path[start + k + 1]);
    }
  }

  /** Finishing order is a ranking, so a fully finished graph has no cycle. */
  lemma FinishedExcludesCycles(adj: seq<seq<nat>>, done: seq<nat>)
    requires WellFormed(adj) && Finished(adj, done) && forall v: nat :: v < |adj| ==> v in done
    requires forall v :: v in done ==> v < |adj|
    ensures !HasCycle(adj)
  {
    DistinctCardinality(done, Nodes(|adj|));
    var rank := seq(|adj|, v requires 0 <= v < |adj| => RankOf(adj, done, v));
    forall u: nat, v: nat | v < |adj| && Edge(adj, u, v) ensures rank[u] < rank[v] {
      var k := Position(done, u);
      assert done[k] == u && v in done[..k];
      var j :| 0 <= j < k && done[j] == v;
      assert Position(done, v) == j;
    }
    RankingExcludesCycles(adj, rank);
  }

  ghost function RankOf(adj: seq<seq<nat>>, done: seq<nat>, v: nat): (r: nat)
    requires |done| <= |adj| && v in done
    ensures r < |adj|
  {
    |adj| - 1 - Position(done, v)
  }
}
