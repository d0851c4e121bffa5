/** What `checkNode` decides, stated without the walk: a node's check fires
    exactly when the node lies on a cycle of connections, and a ranked node
    never does. */
module Cycles {
  import opened Base
  import opened Model
  import opened Engine

  /** `m` feeds `n`: one of `n`'s inputs is connected to an output of `m`. */
  ghost predicate Feeds(w: Wiring, m: NodeRef, n: NodeRef)
  {
    n in w.nodes && exists k :: 0 <= k < |w.nodes[n].inputs| && SourceNode(w, w.nodes[n].inputs[k]) == Some(m)
  }

  /** An upstream path `p[0] <- p[1] <- ...` that does not leave through `u`. */
  ghost predicate Walk(w: Wiring, u: NodeRef, p: seq<NodeRef>)
  {
    |p| >= 1 && forall j :: 0 <= j < |p| - 1 ==> p[j] != u && Feeds(w, p[j + 1], p[j])
  }

  /** `u` lies on a cycle: a node feeding `u` is reached from `u` upstream. */
  ghost predicate CycleThrough(w: Wiring, u: NodeRef)
  {
    exists p :: Walk(w, u, p) && Feeds(w, p[0], u) && p[|p| - 1] == u
  }

  /** The walk always ends with the node of the output it started from. */
  lemma CheckOutputEnds(w: Wiring, u: NodeRef, o: OutputRef, rk: map<NodeRef, nat>)
    requires w.Valid() && CheckRanked(w, u, rk) && o in w.outputs && w.outputs[o].node.Some?
    requires w.outputs[o].node.value in rk
    ensures var r := CheckOutput(w, u, o, rk); |r| >= 1 && r[|r| - 1] == w.outputs[o].node.value
  {
  }

  /** From an output that belongs to no node the walk finds nothing. */
  lemma CheckOutputUnowned(w: Wiring, u: NodeRef, o: OutputRef, rk: map<NodeRef, nat>)
    requires w.Valid() && CheckRanked(w, u, rk) && o in w.outputs && w.outputs[o].node.None?
    ensures CheckOutput(w, u, o, rk) == []
  {
  }

  /** The walk stops at `u`: from an output of `u` it yields just `u`. */
  lemma CheckOutputAtOrigin(w: Wiring, u: NodeRef, o: OutputRef, rk: map<NodeRef, nat>)
    requires w.Valid() && CheckRanked(w, u, rk) && o in w.outputs && w.outputs[o].node == Some(u)
    requires u in rk
    ensures CheckOutput(w, u, o, rk) == [u]
  {
    CheckInputsAtOrigin(w, u, 0, rk);
  }

  lemma {:induction false} CheckInputsAtOrigin(w: Wiring, u: NodeRef, k: nat, rk: map<NodeRef, nat>)
    requires w.Valid() && CheckRanked(w, u, rk) && u in rk && k <= |w.nodes[u].inputs|
    ensures CheckInputs(w, u, u, k, rk) == []
    decreases |w.nodes[u].inputs| - k
  {
    if k < |w.nodes[u].inputs| {
      CheckInputsAtOrigin(w, u, k + 1, rk);
    }
  }

  /** Everything the walk reports is reached by an upstream path from the
      output's node. */
  lemma {:induction false} CheckOutputSound(w: Wiring, u: NodeRef, o: OutputRef, rk: map<NodeRef, nat>, x: NodeRef)
    requires w.Valid() && CheckRanked(w, u, rk) && o in w.outputs && w.outputs[o].node.Some?
    requires w.outputs[o].node.value in rk
    requires x in CheckOutput(w, u, o, rk)
    ensures exists p :: Walk(w, u, p) && p[0] == w.outputs[o].node.value && p[|p| - 1] == x
    decreases CheckHeight(w, rk, o), 1, 0
  {
    var n := w.outputs[o].node.value;
    if x == n {
      assert Walk(w, u, [n]);
    } else {
      assert x in CheckInputs(w, u, n, 0, rk);
      var p := CheckInputsSound(w, u, n, 0, rk, x);
      var q := [n] + p;
      assert Walk(w, u, q) by {
        forall j | 0 <= j < |q| - 1 ensures q[j] != u && Feeds(w, q[j + 1], q[j]) {
          if j > 0 { assert q[j] == p[j - 1] && q[j + 1] == p[j]; }
        }
      }
    }
  }

  lemma {:induction false} CheckInputsSound(w: Wiring, u: NodeRef, n: NodeRef, k: nat, rk: map<NodeRef, nat>, x: NodeRef)
    returns (p: seq<NodeRef>)
    requires w.Valid() && CheckRanked(w, u, rk) && n in rk && k <= |w.nodes[n].inputs|
    requires x in CheckInputs(w, u, n, k, rk)
    ensures n != u && Walk(w, u, p) && Feeds(w, p[0], n) && p[|p| - 1] == x
    decreases rk[n] + 1, 0, |w.nodes[n].inputs| - k
  {
    var y := w.nodes[n].inputs[k];
    if w.inputs[y].connection.Some? && Recurses(w, u, y)
       && x in CheckOutput(w, u, w.conns[w.inputs[y].connection.value].output, rk) {
      p := CheckInputSound(w, u, n, k, rk, x);
    } else {
      var rest := CheckInputs(w, u, n, k + 1, rk);
      assert x in rest;
      p := CheckInputsSound(w, u, n, k + 1, rk, x);
    }
  }

  /** The case of `CheckInputsSound` where `x` comes from input `k` itself. */
  lemma {:induction false} CheckInputSound(w: Wiring, u: NodeRef, n: NodeRef, k: nat, rk: map<NodeRef, nat>, x: NodeRef)
    returns (p: seq<NodeRef>)
    requires w.Valid() && CheckRanked(w, u, rk) && n in rk && k < |w.nodes[n].inputs|
    requires var y := w.nodes[n].inputs[k];
      && w.inputs[y].connection.Some? && Recurses(w, u, y)
      && SourceNode(w, y) == w.outputs[w.conns[w.inputs[y].connection.value].output].node
      && x in CheckOutput(w, u, w.conns[w.inputs[y].connection.value].output, rk)
    ensures n != u && Walk(w, u, p) && Feeds(w, p[0], n) && p[|p| - 1] == x
    decreases rk[n] + 1, 0, 0
  {
    var y := w.nodes[n].inputs[k];
    var o := w.conns[w.inputs[y].connection.value].output;
    CheckOutputSound(w, u, o, rk, x);
    p :| Walk(w, u, p) && p[0] == w.outputs[o].node.value && p[|p| - 1] == x;
  }

  /** Whatever an upstream path from the output's node reaches, the walk
      reports. */
  lemma {:induction false} CheckOutputComplete(w: Wiring, u: NodeRef, o: OutputRef, rk: map<NodeRef, nat>, p: seq<NodeRef>)
    requires w.Valid() && CheckRanked(w, u, rk) && o in w.outputs && w.outputs[o].node.Some?
    requires w.outputs[o].node.value in rk
    requires Walk(w, u, p) && p[0] == w.outputs[o].node.value
    ensures p[|p| - 1] in CheckOutput(w, u, o, rk)
    decreases |p|
  {
    var n := p[0];
    if |p| > 1 {
      assert Feeds(w, p[1], n);
      var k :| 0 <= k < |w.nodes[n].inputs| && SourceNode(w, w.nodes[n].inputs[k]) == Some(p[1]);
      var y := w.nodes[n].inputs[k];
      var o2 := w.conns[w.inputs[y].connection.value].output;
      assert Recurses(w, u, y);
      assert Walk(w, u, p[1..]) by {
        forall j | 0 <= j < |p| - 2 ensures p[1..][j] != u && Feeds(w, p[1..][j + 1], p[1..][j]) {
          assert p[1..][j] == p[j + 1] && p[1..][j + 1] == p[j + 2];
        }
      }
      CheckOutputComplete(w, u, o2, rk, p[1..]);
      CheckInputsIncludes(w, u, n, 0, k, rk);
    }
  }

  /** The walk from input `k` of `n` is part of the walks from inputs `k0..`. */
  lemma {:induction false} CheckInputsIncludes(w: Wiring, u: NodeRef, n: NodeRef, k0: nat, k: nat, rk: map<NodeRef, nat>)
    requires w.Valid() && CheckRanked(w, u, rk) && n in rk && k0 <= k < |w.nodes[n].inputs|
    requires w.inputs[w.nodes[n].inputs[k]].connection.Some? && Recurses(w, u, w.nodes[n].inputs[k])
    ensures var y := w.nodes[n].inputs[k];
      var o := w.conns[w.inputs[y].connection.value].output;
      SourceNode(w, y) == w.outputs[o].node &&
      forall x :: x in CheckOutput(w, u, o, rk) ==> x in CheckInputs(w, u, n, k0, rk)
    decreases k - k0
  {
    var y := w.nodes[n].inputs[k];
    assert SourceNode(w, y) == w.outputs[w.conns[w.inputs[y].connection.value].output].node;
    if k0 < k {
      CheckInputsIncludes(w, u, n, k0 + 1, k, rk);
    }
  }

  /** `checkNode(u)` answers true exactly when `u` lies on a cycle; in
      particular its answer does not depend on the numbering that made it
      terminate. */
  lemma ClosesCycleIff(w: Wiring, u: NodeRef, rk: map<NodeRef, nat>)
    requires w.Valid() && CheckReady(w, u, rk)
    ensures ClosesCycle(w, u, rk) <==> CycleThrough(w, u)
  {
    if ClosesCycle(w, u, rk) {
      var j :| Closes(w, u, rk, j);
      var y := w.nodes[u].inputs[j];
      var o := w.conns[w.inputs[y].connection.value].output;
      assert SourceNode(w, y) == w.outputs[o].node;
      assert w.outputs[o].node.Some?;
      CheckOutputSound(w, u, o, rk, u);
      var p :| Walk(w, u, p) && p[0] == w.outputs[o].node.value && p[|p| - 1] == u;
      assert Feeds(w, p[0], u);
    }
    if CycleThrough(w, u) {
      var p :| Walk(w, u, p) && Feeds(w, p[0], u) && p[|p| - 1] == u;
      var k :| 0 <= k < |w.nodes[u].inputs| && SourceNode(w, w.nodes[u].inputs[k]) == Some(p[0]);
      var y := w.nodes[u].inputs[k];
      var o := w.conns[w.inputs[y].connection.value].output;
      CheckOutputComplete(w, u, o, rk, p);
      assert Closes(w, u, rk, k);
    }
  }

  /** Along an upstream path ranks never increase. */
  lemma {:induction false} WalkRanks(w: Wiring, rank: map<NodeRef, nat>, u: NodeRef, p: seq<NodeRef>)
    requires Ranked(w, rank) && Walk(w, u, p) && p[0] in rank
    ensures p[|p| - 1] in rank && rank[p[|p| - 1]] <= rank[p[0]]
    decreases |p|
  {
    if |p| > 1 {
      var k :| 0 <= k < |w.nodes[p[0]].inputs| && SourceNode(w, w.nodes[p[0]].inputs[k]) == Some(p[1]);
      assert Walk(w, u, p[1..]) by {
        forall j | 0 <= j < |p| - 2 ensures p[1..][j] != u && Feeds(w, p[1..][j + 1], p[1..][j]) {
          assert p[1..][j] == p[j + 1] && p[1..][j + 1] == p[j + 2];
        }
      }
      WalkRanks(w, rank, u, p[1..]);
    }
  }

  /** A ranked node lies on no cycle, so `checkNode` accepts it. */
  lemma RankedNoCycle(w: Wiring, rank: map<NodeRef, nat>, u: NodeRef)
    requires Ranked(w, rank) && u in rank
    ensures !CycleThrough(w, u)
  {
    if CycleThrough(w, u) {
      var p :| Walk(w, u, p) && Feeds(w, p[0], u) && p[|p| - 1] == u;
      var k :| 0 <= k < |w.nodes[u].inputs| && SourceNode(w, w.nodes[u].inputs[k]) == Some(p[0]);
      WalkRanks(w, rank, u, p);
    }
  }
}
