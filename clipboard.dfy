/** The clipboard: cloning a set of nodes together with the connections
    among them, and the copy, cut, paste and duplicate operations built on
    it.  The clipboard owns a graph without an editor, so connections created
    there are never checked for cycles. */
module Clipboards {
  import opened Base
  import opened Model
  import opened Engine
  import opened Graphs

  /** Both ends of `c` belong to nodes, and both nodes are among `xs`: cloning
      `xs` re-creates `c`. */
  predicate Internal(w: Wiring, xs: seq<NodeRef>, c: ConnRef)
  {
    && c in w.conns && w.conns[c].input in w.inputs && w.conns[c].output in w.outputs
    && w.inputs[w.conns[c].input].node.Some? && w.outputs[w.conns[c].output].node.Some?
    && w.inputs[w.conns[c].input].node.value in xs && w.outputs[w.conns[c].output].node.value in xs
  }

  /** Scanning one node's list onto `acc`: each internal connection not yet
      collected is appended. */
  function Gather(w: Wiring, xs: seq<NodeRef>, acc: seq<ConnRef>, cs: seq<ConnRef>): seq<ConnRef>
    decreases |cs|
  {
    if cs == [] then acc
    else Gather(w, xs, if Internal(w, xs, cs[0]) && cs[0] !in acc then acc + [cs[0]] else acc, cs[1..])
  }

  /** The connections collected from the lists of the first `k` nodes of
      `xs`, in the order they are first met. */
  function Gathered(w: Wiring, xs: seq<NodeRef>, k: nat): seq<ConnRef>
    requires k <= |xs| && forall x :: x in xs ==> x in w.nodes
  {
    if k == 0 then [] else Gather(w, xs, Gathered(w, xs, k - 1), w.nodes[xs[k - 1]].connections)
  }

  /** Collecting keeps what was collected, adds exactly the internal
      connections of the list and never adds one twice. */
  lemma {:induction false} GatherSpec(w: Wiring, xs: seq<NodeRef>, acc: seq<ConnRef>, cs: seq<ConnRef>)
    ensures acc <= Gather(w, xs, acc, cs)
    ensures forall c :: c in Gather(w, xs, acc, cs) <==> c in acc || (c in cs && Internal(w, xs, c))
    ensures NoDup(acc) ==> NoDup(Gather(w, xs, acc, cs))
    decreases |cs|
  {
    if cs != [] {
      var acc1 := if Internal(w, xs, cs[0]) && cs[0] !in acc then acc + [cs[0]] else acc;
      GatherSpec(w, xs, acc1, cs[1..]);
      assert forall c :: c in cs <==> c == cs[0] || c in cs[1..];
    }
  }

  /** The collected connections are the distinct internal connections found
      in the lists of the first `k` nodes. */
  lemma {:induction false} GatheredSpec(w: Wiring, xs: seq<NodeRef>, k: nat)
    requires k <= |xs| && forall x :: x in xs ==> x in w.nodes
    ensures NoDup(Gathered(w, xs, k))
    ensures forall c :: c in Gathered(w, xs, k) <==>
      Internal(w, xs, c) && exists j :: 0 <= j < k && c in w.nodes[xs[j]].connections
  {
    if k > 0 {
      GatheredSpec(w, xs, k - 1);
      GatherSpec(w, xs, Gathered(w, xs, k - 1), w.nodes[xs[k - 1]].connections);
      forall c | Internal(w, xs, c) && (exists j :: 0 <= j < k && c in w.nodes[xs[j]].connections)
        ensures c in Gathered(w, xs, k)
      {
        var j :| 0 <= j < k && c in w.nodes[xs[j]].connections;
        if j < k - 1 {
          assert c in Gathered(w, xs, k - 1);
        }
      }
    }
  }

  /** `nodesMap` after `nodesMap.set(xs[j], ys[j])` for `j` from 0 to
      `k - 1`, in order. */
  function Remap(xs: seq<NodeRef>, ys: seq<NodeRef>, k: nat): map<NodeRef, NodeRef>
    requires k <= |xs| && k <= |ys|
  {
    if k == 0 then map[] else Remap(xs, ys, k - 1)[xs[k - 1] := ys[k - 1]]
  }

  /** Every one of the first `k` nodes is mapped. */
  lemma {:induction false} RemapKeys(xs: seq<NodeRef>, ys: seq<NodeRef>, k: nat)
    requires k <= |xs| && k <= |ys|
    ensures forall j :: 0 <= j < k ==> xs[j] in Remap(xs, ys, k)
  {
    if k > 0 {
      RemapKeys(xs, ys, k - 1);
    }
  }

  /** Only nodes among the first `k` are mapped, each to the clone made for
      one of its occurrences. */
  lemma {:induction false} RemapAt(xs: seq<NodeRef>, ys: seq<NodeRef>, k: nat, x: NodeRef) returns (j: int)
    requires k <= |xs| && k <= |ys| && x in Remap(xs, ys, k)
    ensures 0 <= j < k && xs[j] == x && Remap(xs, ys, k)[x] == ys[j]
  {
    if x == xs[k - 1] {
      j := k - 1;
    } else {
      j := RemapAt(xs, ys, k - 1, x);
    }
  }

  /** A later `set` of the same key overwrites an earlier one: a node is
      mapped to the clone made for its last occurrence. */
  lemma {:induction false} RemapLast(xs: seq<NodeRef>, ys: seq<NodeRef>, k: nat, j: int)
    requires k <= |xs| && k <= |ys| && 0 <= j < k && forall i :: j < i < k ==> xs[i] != xs[j]
    ensures xs[j] in Remap(xs, ys, k) && Remap(xs, ys, k)[xs[j]] == ys[j]
  {
    if j < k - 1 {
      RemapLast(xs, ys, k - 1, j);
    }
  }

  /** Without repeated nodes, each node is mapped to its own clone. */
  lemma RemapDistinct(xs: seq<NodeRef>, ys: seq<NodeRef>, j: int)
    requires |xs| == |ys| && 0 <= j < |xs| && NoDup(xs)
    ensures xs[j] in Remap(xs, ys, |xs|) && Remap(xs, ys, |xs|)[xs[j]] == ys[j]
  {
    RemapLast(xs, ys, |xs|, j);
  }

  /** Clones beyond the first `k` play no part. */
  lemma {:induction false} RemapGrow(xs: seq<NodeRef>, ys: seq<NodeRef>, y: NodeRef, k: nat)
    requires k <= |xs| && k <= |ys|
    ensures Remap(xs, ys + [y], k) == Remap(xs, ys, k)
  {
    if k > 0 {
      RemapGrow(xs, ys, y, k - 1);
    }
  }

  /** `w` only adds records to `w0`, and what it adds is not wired: new
      inputs hold no connection and new nodes list none. */
  ghost predicate Grown(w0: Wiring, w: Wiring) {
    && Extends(w0, w)
    && (forall i :: i in w.inputs && i !in w0.inputs ==> w.inputs[i].connection == None)
    && (forall n :: n in w.nodes && n !in w0.nodes ==> w.nodes[n].connections == [])
  }

  lemma ExtendsTrans(w0: Wiring, w1: Wiring, w2: Wiring)
    requires Extends(w0, w1) && Extends(w1, w2)
    ensures Extends(w0, w2)
  {
  }

  /** Growth composes. */
  lemma GrownTrans(w0: Wiring, w1: Wiring, w2: Wiring)
    requires Grown(w0, w1) && Grown(w1, w2)
    ensures Grown(w0, w2)
  {
    ExtendsTrans(w0, w1, w2);
    forall i | i in w2.inputs && i !in w0.inputs ensures w2.inputs[i].connection == None {
      if i in w1.inputs {
        assert w2.inputs[i] == w1.inputs[i];
      }
    }
    forall n | n in w2.nodes && n !in w0.nodes ensures w2.nodes[n].connections == [] {
      if n in w1.nodes {
        assert w2.nodes[n] == w1.nodes[n];
      }
    }
  }

  /** A fresh connection record is growth. */
  lemma GrownConn(w: Wiring, d: ConnRef, x: Conn)
    requires d !in w.conns
    ensures Grown(w, w.(conns := w.conns[d := x]))
  {
  }

  /** Node `y` of arena wiring `w`, created after `w0`, is node `x` of the
      source wiring `ws` cloned up to its first `j` input values: the same
      class, position and width, the class's fresh sockets, the first `j`
      inputs holding `x`'s values and the rest their defaults, no
      connections, expanded. */
  ghost predicate Copying(ws: Wiring, w0: Wiring, w: Wiring, x: NodeRef, y: NodeRef, j: nat)
  {
    && x in ws.nodes && y in w.nodes && y !in w0.nodes
    && var o := ws.nodes[x];
    && var t := o.kind;
    && var r := w.nodes[y];
    && r.kind == t && r.connections == [] && r.pos == o.pos && r.width == o.width && !r.collapsed
    && |r.inputs| == |t.inputs| == |o.inputs| && |r.outputs| == |t.outputs| == |o.outputs| && j <= |t.inputs|
    && NoDup(r.inputs)
    && (forall k :: 0 <= k < |t.inputs| ==>
          && r.inputs[k] in w.inputs && r.inputs[k] !in w0.inputs && o.inputs[k] in ws.inputs
          && w.inputs[r.inputs[k]] ==
               InputRec(t.inputs[k].name, if k < j then ws.inputs[o.inputs[k]].value else t.inputs[k].defaultValue,
                        t.inputs[k].defaultValue, None, Some(y)))
    && (forall k :: 0 <= k < |t.outputs| ==>
          && r.outputs[k] in w.outputs && r.outputs[k] !in w0.outputs
          && w.outputs[r.outputs[k]] == OutputRec(t.outputs[k].name, t.outputs[k].fn, Some(y)))
  }

  /** `y` is a finished clone of `x`: every input value copied by index and
      the name copied too. */
  ghost predicate CloneOf(ws: Wiring, w0: Wiring, w: Wiring, x: NodeRef, y: NodeRef)
  {
    && x in ws.nodes && Copying(ws, w0, w, x, y, |ws.nodes[x].kind.inputs|)
    && w.nodes[y].name == ws.nodes[x].name
  }

  /** A clone stays a clone while its arena only grows. */
  lemma CloneOfExtends(ws: Wiring, w0: Wiring, w: Wiring, w1: Wiring, x: NodeRef, y: NodeRef)
    requires CloneOf(ws, w0, w, x, y) && Extends(w, w1)
    ensures CloneOf(ws, w0, w1, x, y)
  {
  }

  /** A clone made after `w1` was made after any earlier `w0`. */
  lemma CloneOfEarlier(ws: Wiring, w0: Wiring, w1: Wiring, w: Wiring, x: NodeRef, y: NodeRef)
    requires CloneOf(ws, w1, w, x, y) && Extends(w0, w1)
    ensures CloneOf(ws, w0, w, x, y)
  {
  }

  /** One `input.setValue(node.inputs[index].value)` step. */
  lemma CopyStep(ws: Wiring, w0: Wiring, w: Wiring, x: NodeRef, y: NodeRef, j: nat)
    requires Copying(ws, w0, w, x, y, j) && j < |ws.nodes[x].kind.inputs|
    ensures var i := w.nodes[y].inputs[j];
      var w1 := w.SetValue(i, ws.inputs[ws.nodes[x].inputs[j]].value);
      Copying(ws, w0, w1, x, y, j + 1) && w1.nodes == w.nodes && (Grown(w0, w) ==> Grown(w0, w1))
  {
    var r := w.nodes[y];
    var i := r.inputs[j];
    forall k | 0 <= k < |r.inputs| && k != j ensures r.inputs[k] != i {
    }
  }

  /** What the class's constructor and the box copy leave is a clone with no
      input value copied yet. */
  lemma CopyStart(ws: Wiring, w0: Wiring, w: Wiring, x: NodeRef, y: NodeRef)
    requires ws.Valid() && x in ws.nodes && HasLayout(ws, x) && Extends(w0, w) && y !in w0.nodes
    requires Constructed(w, y, ws.nodes[x].kind)
    requires forall k :: 0 <= k < |w.nodes[y].inputs| ==> w.nodes[y].inputs[k] !in w0.inputs
    requires forall k :: 0 <= k < |w.nodes[y].outputs| ==> w.nodes[y].outputs[k] !in w0.outputs
    requires w.nodes.Keys == w0.nodes.Keys + {y}
    requires forall i :: i in w.inputs && i !in w0.inputs ==> w.inputs[i].connection == None
    ensures Copying(ws, w0, w.SetBox(y, ws.nodes[x].pos, ws.nodes[x].width), x, y, 0)
    ensures Grown(w0, w.SetBox(y, ws.nodes[x].pos, ws.nodes[x].width))
  {
  }

  /** Copying the name finishes the clone. */
  lemma CopyEnd(ws: Wiring, w0: Wiring, w: Wiring, x: NodeRef, y: NodeRef)
    requires x in ws.nodes && Copying(ws, w0, w, x, y, |ws.nodes[x].kind.inputs|) && Grown(w0, w)
    ensures CloneOf(ws, w0, w.SetName(y, ws.nodes[x].name), x, y) && Grown(w0, w.SetName(y, ws.nodes[x].name))
  {
  }

  /** The cloning steps for one node of `src`, made in `dst`: instantiate the
      original's class, copy its box and, by index, its input values, and
      copy its name. */
  method CloneNode(src: Arena, dst: Arena, x: NodeRef) returns (y: NodeRef)
    requires src != dst && src.Valid() && dst.Valid() && x in src.wiring.nodes && HasLayout(src.wiring, x)
    modifies dst`wiring, dst`next
    ensures dst.Valid() && Grown(old(dst.wiring), dst.wiring)
    ensures CloneOf(src.wiring, old(dst.wiring), dst.wiring, x, y)
    ensures dst.wiring.nodes.Keys == old(dst.wiring.nodes.Keys) + {y}
  {
    ghost var w0 := dst.wiring;
    var o := src.wiring.nodes[x];
    y := dst.Instantiate(o.kind);
    assert unchanged(src);
    CopyStart(src.wiring, w0, dst.wiring, x, y);
    dst.SetBox(y, o.pos, o.width);
    var ins := dst.wiring.nodes[y].inputs;
    var j := 0;
    while j < |ins|
      invariant 0 <= j <= |ins| && dst.Valid() && unchanged(src)
      invariant dst.wiring.nodes.Keys == w0.nodes.Keys + {y} && dst.wiring.nodes[y].inputs == ins
      invariant Copying(src.wiring, w0, dst.wiring, x, y, j) && Grown(w0, dst.wiring)
    {
      // `input.node = newNode` stores the back-reference the constructor
      // already set.
      CopyStep(src.wiring, w0, dst.wiring, x, y, j);
      dst.SetValue(ins[j], src.wiring.inputs[o.inputs[j]].value);
      j := j + 1;
    }
    CopyEnd(src.wiring, w0, dst.wiring, x, y);
    dst.SetName(y, o.name);
    assert unchanged(src);
  }

  /** `node.connections.forEach(...)` inside `cloneNodes`: append every
      internal connection of the list that is not yet collected. */
  method ScanList(w: Wiring, xs: seq<NodeRef>, acc: seq<ConnRef>, cs: seq<ConnRef>) returns (r: seq<ConnRef>)
    ensures r == Gather(w, xs, acc, cs)
  {
    r := acc;
    var k := 0;
    while k < |cs|
      invariant 0 <= k <= |cs| && Gather(w, xs, r, cs[k..]) == Gather(w, xs, acc, cs)
    {
      assert cs[k..][1..] == cs[k + 1..];
      var c := cs[k];
      if c in w.conns && w.conns[c].input in w.inputs && w.conns[c].output in w.outputs {
        var cc := w.conns[c];
        if w.inputs[cc.input].node.Some? && w.outputs[cc.output].node.Some? {
          if w.inputs[cc.input].node.value in xs && w.outputs[cc.output].node.value in xs {
            if c !in r {
              r := r + [c];
            }
          }
        }
      }
      k := k + 1;
    }
  }

  /** `d` of `w`, created after `w0`, is the clone of `c` of `ws` under the
      node map `m`: it runs from the clone of `c`'s output node, at the
      output's position, to the clone of `c`'s input node, at the input's
      position. */
  ghost predicate Recreated(ws: Wiring, w0: Wiring, w: Wiring, m: map<NodeRef, NodeRef>, c: ConnRef, d: ConnRef)
  {
    && c in ws.conns && d in w.conns && d !in w0.conns
    && var cc := ws.conns[c];
    && cc.input in ws.inputs && cc.output in ws.outputs
    && ws.inputs[cc.input].node.Some? && ws.outputs[cc.output].node.Some?
    && var a := ws.inputs[cc.input].node.value;
    && var b := ws.outputs[cc.output].node.value;
    && a in ws.nodes && b in ws.nodes && a in m && b in m && m[a] in w.nodes && m[b] in w.nodes
    && var ii := IndexOf(ws.nodes[a].inputs, cc.input);
    && var oi := IndexOf(ws.nodes[b].outputs, cc.output);
    && 0 <= ii < |w.nodes[m[a]].inputs| && 0 <= oi < |w.nodes[m[b]].outputs|
    && w.conns[d] == Conn(w.nodes[m[b]].outputs[oi], w.nodes[m[a]].inputs[ii])
  }

  /** Recreation depends only on the clones' records and on `d`'s own
      record. */
  lemma RecreatedFrame(ws: Wiring, w0: Wiring, w: Wiring, w1: Wiring, m: map<NodeRef, NodeRef>, c: ConnRef, d: ConnRef)
    requires Recreated(ws, w0, w, m, c, d) && w1.nodes == w.nodes && d in w1.conns && w1.conns[d] == w.conns[d]
    ensures Recreated(ws, w0, w1, m, c, d)
  {
  }

  /** The first loop of `cloneNodes(nodes)`: clone each node in order, scan
      its list for connections internal to `xs`, and record the clone in
      `nodesMap`. */
  method CloneEach(src: Arena, dst: Arena, xs: seq<NodeRef>)
    returns (newNodes: seq<NodeRef>, connections: seq<ConnRef>, nodesMap: map<NodeRef, NodeRef>)
    requires src != dst && src.Valid() && dst.Valid()
    requires forall x :: x in xs ==> x in src.wiring.nodes && HasLayout(src.wiring, x)
    modifies dst`wiring, dst`next
    ensures dst.Valid() && Grown(old(dst.wiring), dst.wiring)
    ensures |newNodes| == |xs| && NoDup(newNodes)
    ensures forall k :: 0 <= k < |xs| ==> CloneOf(src.wiring, old(dst.wiring), dst.wiring, xs[k], newNodes[k])
    ensures forall n :: n in dst.wiring.nodes <==> n in old(dst.wiring.nodes) || n in newNodes
    ensures connections == Gathered(src.wiring, xs, |xs|)
    ensures nodesMap == Remap(xs, newNodes, |xs|)
  {
    ghost var w0 := dst.wiring;
    newNodes := [];
    connections := [];
    nodesMap := map[];
    var k := 0;
    while k < |xs|
      invariant 0 <= k <= |xs| && dst.Valid() && Grown(w0, dst.wiring)
      invariant |newNodes| == k && NoDup(newNodes)
      invariant forall j :: 0 <= j < k ==> CloneOf(src.wiring, w0, dst.wiring, xs[j], newNodes[j])
      invariant forall n :: n in dst.wiring.nodes <==> n in w0.nodes || n in newNodes
      invariant connections == Gathered(src.wiring, xs, k)
      invariant nodesMap == Remap(xs, newNodes, k)
    {
      newNodes, connections, nodesMap := CloneNext(src, dst, w0, xs, k, newNodes, connections, nodesMap);
      k := k + 1;
    }
  }

  /** One step of the first loop of `cloneNodes(nodes)`: clone `xs[k]`,
      scan its list and record the clone. */
  method CloneNext(src: Arena, dst: Arena, ghost w0: Wiring, xs: seq<NodeRef>, k: nat, newNodes: seq<NodeRef>,
                   connections: seq<ConnRef>, nodesMap: map<NodeRef, NodeRef>)
    returns (newNodes': seq<NodeRef>, connections': seq<ConnRef>, nodesMap': map<NodeRef, NodeRef>)
    requires src != dst && src.Valid() && dst.Valid() && Grown(w0, dst.wiring) && k < |xs|
    requires forall x :: x in xs ==> x in src.wiring.nodes && HasLayout(src.wiring, x)
    requires |newNodes| == k && NoDup(newNodes)
    requires forall j :: 0 <= j < k ==> CloneOf(src.wiring, w0, dst.wiring, xs[j], newNodes[j])
    requires forall n :: n in dst.wiring.nodes <==> n in w0.nodes || n in newNodes
    requires connections == Gathered(src.wiring, xs, k)
    requires nodesMap == Remap(xs, newNodes, k)
    modifies dst`wiring, dst`next
    ensures dst.Valid() && Grown(w0, dst.wiring)
    ensures |newNodes'| == k + 1 && NoDup(newNodes')
    ensures forall j :: 0 <= j < k + 1 ==> CloneOf(src.wiring, w0, dst.wiring, xs[j], newNodes'[j])
    ensures forall n :: n in dst.wiring.nodes <==> n in w0.nodes || n in newNodes'
    ensures connections' == Gathered(src.wiring, xs, k + 1)
    ensures nodesMap' == Remap(xs, newNodes', k + 1)
  {
    ghost var w1 := dst.wiring;
    var y := CloneNode(src, dst, xs[k]);
    CloneNextStep(src.wiring, w0, w1, dst.wiring, xs, k, newNodes, y);
    connections' := ScanList(src.wiring, xs, connections, src.wiring.nodes[xs[k]].connections);
    RemapGrow(xs, newNodes, y, k);
    newNodes' := newNodes + [y];
    nodesMap' := nodesMap[xs[k] := y];
  }

  /** What one cloning step keeps. */
  lemma CloneNextStep(ws: Wiring, w0: Wiring, w1: Wiring, w: Wiring, xs: seq<NodeRef>, k: nat,
                      newNodes: seq<NodeRef>, y: NodeRef)
    requires Grown(w0, w1) && Grown(w1, w) && k < |xs| && |newNodes| == k && NoDup(newNodes)
    requires forall j :: 0 <= j < k ==> CloneOf(ws, w0, w1, xs[j], newNodes[j])
    requires forall n :: n in w1.nodes <==> n in w0.nodes || n in newNodes
    requires CloneOf(ws, w1, w, xs[k], y) && w.nodes.Keys == w1.nodes.Keys + {y}
    ensures Grown(w0, w) && NoDup(newNodes + [y])
    ensures forall j :: 0 <= j < k + 1 ==> CloneOf(ws, w0, w, xs[j], (newNodes + [y])[j])
    ensures forall n :: n in w.nodes <==> n in w0.nodes || n in newNodes + [y]
  {
    GrownTrans(w0, w1, w);
    CloneOfEarlier(ws, w0, w1, w, xs[k], y);
    forall j | 0 <= j < k + 1 ensures CloneOf(ws, w0, w, xs[j], (newNodes + [y])[j]) {
      if j < k {
        assert (newNodes + [y])[j] == newNodes[j];
        CloneOfExtends(ws, w0, w1, w, xs[j], newNodes[j]);
      }
    }
    AppendFreshNoDup(newNodes, y);
  }

  /** One step of the second loop of `cloneNodes(nodes)`: a new connection
      between the clones' sockets at the positions `c` uses. */
  method Recreate(src: Arena, dst: Arena, ghost w0: Wiring, ghost w1: Wiring, xs: seq<NodeRef>, newNodes: seq<NodeRef>,
                  nodesMap: map<NodeRef, NodeRef>, c: ConnRef) returns (d: ConnRef)
    requires src != dst && src.Valid() && dst.Valid() && Extends(w0, dst.wiring) && |newNodes| == |xs|
    requires forall k :: 0 <= k < |xs| ==> CloneOf(src.wiring, w0, w1, xs[k], newNodes[k])
    requires dst.wiring.nodes == w1.nodes && dst.wiring.inputs == w1.inputs && dst.wiring.outputs == w1.outputs
    requires nodesMap == Remap(xs, newNodes, |xs|) && Internal(src.wiring, xs, c)
    modifies dst`wiring, dst`next
    ensures dst.Valid() && d !in old(dst.wiring.conns) && d in dst.wiring.conns
    ensures dst.wiring == old(dst.wiring).(conns := old(dst.wiring.conns)[d := dst.wiring.conns[d]])
    ensures Grown(old(dst.wiring), dst.wiring)
    ensures Recreated(src.wiring, w0, dst.wiring, nodesMap, c, d)
  {
    var ws := src.wiring;
    var cc := ws.conns[c];
    var a := ws.inputs[cc.input].node.value;
    var b := ws.outputs[cc.output].node.value;
    RemapKeys(xs, newNodes, |xs|);
    ghost var ka := RemapAt(xs, newNodes, |xs|, a);
    ghost var kb := RemapAt(xs, newNodes, |xs|, b);
    assert CloneOf(ws, w0, w1, a, nodesMap[a]) && CloneOf(ws, w0, w1, b, nodesMap[b]);
    assert cc.input in ws.nodes[a].inputs && cc.output in ws.nodes[b].outputs;
    var inputNode := nodesMap[a];
    var input := dst.wiring.nodes[inputNode].inputs[IndexOf(ws.nodes[a].inputs, cc.input)];
    var outputNode := nodesMap[b];
    var output := dst.wiring.nodes[outputNode].outputs[IndexOf(ws.nodes[b].outputs, cc.output)];
    ghost var w2 := dst.wiring;
    d := dst.NewConnection(output, input);
    GrownConn(w2, d, dst.wiring.conns[d]);
  }

  /** The second loop of `cloneNodes(nodes)`: one new connection per
      collected connection, in order.  Only connection records are added. */
  method Reconnect(src: Arena, dst: Arena, ghost w0: Wiring, xs: seq<NodeRef>, newNodes: seq<NodeRef>,
                   nodesMap: map<NodeRef, NodeRef>, connections: seq<ConnRef>) returns (newConns: seq<ConnRef>)
    requires src != dst && src.Valid() && dst.Valid() && Grown(w0, dst.wiring) && |newNodes| == |xs|
    requires forall k :: 0 <= k < |xs| ==> CloneOf(src.wiring, w0, dst.wiring, xs[k], newNodes[k])
    requires nodesMap == Remap(xs, newNodes, |xs|) && forall c :: c in connections ==> Internal(src.wiring, xs, c)
    modifies dst`wiring, dst`next
    ensures dst.Valid() && Grown(old(dst.wiring), dst.wiring)
    ensures dst.wiring.nodes == old(dst.wiring.nodes)
    ensures |newConns| == |connections| && NoDup(newConns)
    ensures forall l :: 0 <= l < |newConns| ==> Recreated(src.wiring, w0, dst.wiring, nodesMap, connections[l], newConns[l])
  {
    ghost var w1 := dst.wiring;
    newConns := [];
    var j := 0;
    while j < |connections|
      invariant 0 <= j <= |connections| && dst.Valid() && Grown(w1, dst.wiring)
      invariant dst.wiring.nodes == w1.nodes && dst.wiring.inputs == w1.inputs && dst.wiring.outputs == w1.outputs
      invariant |newConns| == j && NoDup(newConns)
      invariant forall d :: d in newConns ==> d in dst.wiring.conns && d !in w1.conns
      invariant forall l :: 0 <= l < j ==> Recreated(src.wiring, w0, dst.wiring, nodesMap, connections[l], newConns[l])
    {
      newConns := RecreateNext(src, dst, w0, w1, xs, newNodes, nodesMap, connections, j, newConns);
      j := j + 1;
    }
  }

  /** One step of the second loop of `cloneNodes(nodes)`. */
  method RecreateNext(src: Arena, dst: Arena, ghost w0: Wiring, ghost w1: Wiring, xs: seq<NodeRef>, newNodes: seq<NodeRef>,
                      nodesMap: map<NodeRef, NodeRef>, connections: seq<ConnRef>, j: nat, newConns: seq<ConnRef>)
    returns (newConns': seq<ConnRef>)
    requires src != dst && src.Valid() && dst.Valid() && Grown(w0, w1) && |newNodes| == |xs|
    requires forall k :: 0 <= k < |xs| ==> CloneOf(src.wiring, w0, w1, xs[k], newNodes[k])
    requires nodesMap == Remap(xs, newNodes, |xs|) && forall c :: c in connections ==> Internal(src.wiring, xs, c)
    requires j < |connections| && Grown(w1, dst.wiring)
    requires dst.wiring.nodes == w1.nodes && dst.wiring.inputs == w1.inputs && dst.wiring.outputs == w1.outputs
    requires |newConns| == j && NoDup(newConns)
    requires forall d :: d in newConns ==> d in dst.wiring.conns && d !in w1.conns
    requires forall l :: 0 <= l < j ==> Recreated(src.wiring, w0, dst.wiring, nodesMap, connections[l], newConns[l])
    modifies dst`wiring, dst`next
    ensures dst.Valid() && Grown(w1, dst.wiring)
    ensures dst.wiring.nodes == w1.nodes && dst.wiring.inputs == w1.inputs && dst.wiring.outputs == w1.outputs
    ensures |newConns'| == j + 1 && NoDup(newConns')
    ensures forall d :: d in newConns' ==> d in dst.wiring.conns && d !in w1.conns
    ensures forall l :: 0 <= l < j + 1 ==> Recreated(src.wiring, w0, dst.wiring, nodesMap, connections[l], newConns'[l])
  {
    ghost var w2 := dst.wiring;
    ExtendsTrans(w0, w1, w2);
    var d := Recreate(src, dst, w0, w1, xs, newNodes, nodesMap, connections[j]);
    RecreateStep(src.wiring, w0, w1, w2, dst.wiring, nodesMap, connections, newConns, d);
    newConns' := newConns + [d];
  }

  /** What one recreation step keeps. */
  lemma RecreateStep(ws: Wiring, w0: Wiring, w1: Wiring, w2: Wiring, w: Wiring, m: map<NodeRef, NodeRef>,
                     cs: seq<ConnRef>, ds: seq<ConnRef>, d: ConnRef)
    requires Grown(w1, w2) && Grown(w2, w) && |ds| < |cs| && NoDup(ds) && d !in w2.conns
    requires w.nodes == w2.nodes && w.inputs == w2.inputs && w.outputs == w2.outputs
    requires forall e :: e in ds ==> e in w2.conns && e !in w1.conns
    requires forall l :: 0 <= l < |ds| ==> Recreated(ws, w0, w2, m, cs[l], ds[l])
    requires Recreated(ws, w0, w, m, cs[|ds|], d)
    ensures Grown(w1, w) && NoDup(ds + [d])
    ensures forall e :: e in ds + [d] ==> e in w.conns && e !in w1.conns
    ensures forall l :: 0 <= l < |ds| + 1 ==> Recreated(ws, w0, w, m, cs[l], (ds + [d])[l])
  {
    GrownTrans(w1, w2, w);
    RecreatedSnoc(ws, w0, w2, w, m, cs, ds, d);
    AppendFreshNoDup(ds, d);
  }

  /** The connections recreated so far stay recreated when one more is
      added. */
  lemma RecreatedSnoc(ws: Wiring, w0: Wiring, w2: Wiring, w: Wiring, m: map<NodeRef, NodeRef>,
                      cs: seq<ConnRef>, ds: seq<ConnRef>, d: ConnRef)
    requires |ds| < |cs| && Extends(w2, w) && w.nodes == w2.nodes
    requires forall l :: 0 <= l < |ds| ==> Recreated(ws, w0, w2, m, cs[l], ds[l])
    requires Recreated(ws, w0, w, m, cs[|ds|], d)
    ensures forall l :: 0 <= l < |ds| + 1 ==> Recreated(ws, w0, w, m, cs[l], (ds + [d])[l])
  {
    forall l | 0 <= l < |ds| + 1 ensures Recreated(ws, w0, w, m, cs[l], (ds + [d])[l]) {
      if l < |ds| {
        assert (ds + [d])[l] == ds[l];
        RecreatedFrame(ws, w0, w2, w, m, cs[l], ds[l]);
      }
    }
  }

  /** The nodes `ys` of `w`, all made after `w0`, are clones of `xs` of
      `ws`, position by position, and are all that `w` added to `w0`. */
  ghost predicate Cloned(ws: Wiring, w0: Wiring, w: Wiring, xs: seq<NodeRef>, ys: seq<NodeRef>)
  {
    && |ys| == |xs| && NoDup(ys) && Grown(w0, w)
    && (forall k :: 0 <= k < |xs| ==> CloneOf(ws, w0, w, xs[k], ys[k]))
    && (forall n :: n in w.nodes <==> n in w0.nodes || n in ys)
  }

  /** The connections `ds` of `w`, all made after `w0`, recreate, in order,
      the connections of `ws` internal to `xs`, between the clones `ys`. */
  ghost predicate Reconnected(ws: Wiring, w0: Wiring, w: Wiring, xs: seq<NodeRef>, ys: seq<NodeRef>, ds: seq<ConnRef>)
  {
    && |ys| == |xs| && (forall x :: x in xs ==> x in ws.nodes)
    && |ds| == |Gathered(ws, xs, |xs|)| && NoDup(ds)
    && forall j :: 0 <= j < |ds| ==> Recreated(ws, w0, w, Remap(xs, ys, |xs|), Gathered(ws, xs, |xs|)[j], ds[j])
  }

  /** What the graph operations need of the clones: they are in the arena,
      list no connection and were not there before; the new connections are
      in the arena too. */
  lemma ClonedFacts(ws: Wiring, w0: Wiring, w: Wiring, xs: seq<NodeRef>, ys: seq<NodeRef>, ds: seq<ConnRef>)
    requires Cloned(ws, w0, w, xs, ys) && Reconnected(ws, w0, w, xs, ys, ds)
    ensures forall n :: n in ys ==> n in w.nodes && n !in w0.nodes && w.nodes[n].connections == []
    ensures forall d :: d in ds ==> d in w.conns
  {
    forall n | n in ys ensures n in w.nodes && n !in w0.nodes && w.nodes[n].connections == [] {
      var k :| 0 <= k < |ys| && ys[k] == n;
      assert CloneOf(ws, w0, w, xs[k], ys[k]);
    }
    forall d | d in ds ensures d in w.conns {
      var j :| 0 <= j < |ds| && ds[j] == d;
      assert Recreated(ws, w0, w, Remap(xs, ys, |xs|), Gathered(ws, xs, |xs|)[j], ds[j]);
    }
  }

  /** Reshaping the connections of the clones keeps their sockets, so the
      clones keep the layout of their classes. */
  lemma ClonedLayout(ws: Wiring, w0: Wiring, w: Wiring, w1: Wiring, xs: seq<NodeRef>, ys: seq<NodeRef>)
    requires Cloned(ws, w0, w, xs, ys) && Reshaped(w, w1)
    ensures forall n :: n in ys ==> n in w1.nodes && HasLayout(w1, n)
  {
    forall n | n in ys ensures n in w1.nodes && HasLayout(w1, n) {
      var k :| 0 <= k < |ys| && ys[k] == n;
      assert CloneOf(ws, w0, w, xs[k], ys[k]);
      assert w1.nodes[n] == w.nodes[n].(connections := w1.nodes[n].connections);
    }
  }

  /** `cloneNodes(nodes)`: clone every node of `src` in order, collecting the
      connections whose both ends lie among `xs` (from each node's list, as
      it is met), then create one new connection per collected one between
      the corresponding sockets of the clones.  The clones are made in
      `dst`; nothing that existed changes, and nothing new is wired into a
      node or an input. */
  method CloneNodes(src: Arena, dst: Arena, xs: seq<NodeRef>) returns (newNodes: seq<NodeRef>, newConns: seq<ConnRef>)
    requires src != dst && src.Valid() && dst.Valid()
    requires forall x :: x in xs ==> x in src.wiring.nodes && HasLayout(src.wiring, x)
    modifies dst`wiring, dst`next
    ensures dst.Valid() && Cloned(src.wiring, old(dst.wiring), dst.wiring, xs, newNodes)
    ensures Reconnected(src.wiring, old(dst.wiring), dst.wiring, xs, newNodes, newConns)
  {
    ghost var w0 := dst.wiring;
    var connections, nodesMap;
    newNodes, connections, nodesMap := CloneEach(src, dst, xs);
    GatheredSpec(src.wiring, xs, |xs|);
    ghost var w1 := dst.wiring;
    newConns := Reconnect(src, dst, w0, xs, newNodes, nodesMap, connections);
    GrownTrans(w0, w1, dst.wiring);
    forall k | 0 <= k < |xs| ensures CloneOf(src.wiring, w0, dst.wiring, xs[k], newNodes[k]) {
      CloneOfExtends(src.wiring, w0, w1, dst.wiring, xs[k], newNodes[k]);
    }
  }

  /** Growth keeps the slots matching their connections. */
  lemma SlotsMatchGrown(w0: Wiring, w: Wiring)
    requires w0.Valid() && SlotsMatch(w0) && Grown(w0, w)
    ensures SlotsMatch(w)
  {
    forall i | i in w.inputs && w.inputs[i].connection.Some? && w.inputs[i].connection.value in w.conns
      ensures w.conns[w.inputs[i].connection.value].input == i
    {
      assert i in w0.inputs;
      assert w.inputs[i] == w0.inputs[i];
    }
  }

  /** A graph stays well formed, registered and valid while its arena only
      grows. */
  lemma GraphGrown(s: Sys, w: Wiring)
    requires Wf(s) && Registered(s) && w.Valid() && Grown(s.w, w)
    ensures Wf(s.(w := w)) && Registered(s.(w := w))
    ensures GValid(s) ==> GValid(s.(w := w))
  {
    SlotsMatchGrown(s.w, w);
  }

  /** Growth keeps an arena acyclic: the new nodes' inputs are all new and
      unconnected, so the new nodes can take rank 0. */
  lemma AcyclicGrown(w0: Wiring, w: Wiring, r: map<NodeRef, nat>) returns (r2: map<NodeRef, nat>)
    requires w0.Valid() && w.Valid() && Grown(w0, w) && Acyclic(w0, r)
    ensures Acyclic(w, r2) && forall n :: n in r ==> n in r2 && r2[n] == r[n]
  {
    r2 := map n | n in w.nodes :: if n in r then r[n] else 0;
    forall n, k | n in r2 && 0 <= k < |w.nodes[n].inputs|
      ensures match SourceNode(w, w.nodes[n].inputs[k])
        case Some(m) => m in r2 && r2[m] < r2[n]
        case None => true
    {
      var i := w.nodes[n].inputs[k];
      if n in w0.nodes {
        assert w.nodes[n] == w0.nodes[n];
        assert i in w0.inputs && w.inputs[i] == w0.inputs[i];
        if w0.inputs[i].connection.Some? {
          var c := w0.inputs[i].connection.value;
          assert c in w0.conns && w.conns[c] == w0.conns[c];
          assert w0.conns[c].output in w0.outputs;
        }
        assert SourceNode(w, i) == SourceNode(w0, i);
      } else {
        assert i !in w0.inputs;
        assert SourceNode(w, i) == None;
      }
    }
  }

  /** `createNode(n)` for a node that lists no connection only appends it. */
  lemma CreateNodeBare(s: Sys, n: NodeRef, checked: bool)
    requires Wf(s) && n in s.w.nodes && s.w.nodes[n].connections == []
    ensures CreateNodeSpec(s, n, checked) == s.(nodes := s.nodes + [n])
  {
  }

  /** `ds.forEach(c => graph.createConnection(c))` */
  ghost function CreateAll(s: Sys, ds: seq<ConnRef>, checked: bool): (r: Sys)
    requires Wf(s) && forall d :: d in ds ==> d in s.w.conns
    ensures Wf(r) && Reshaped(s.w, r.w)
    ensures r.nodes == s.nodes && r.active == s.active && r.selected == s.selected
    ensures forall d :: d in r.connections ==> d in s.connections || d in ds
    decreases |ds|
  {
    if ds == [] then s
    else
      var s1 := CreateConnectionSpec(s, ds[0], checked);
      var r := CreateAll(s1, ds[1..], checked);
      ReshapedTrans(s.w, s1.w, r.w);
      assert forall d :: d in ds[1..] ==> d in ds;
      r
  }

  /** Creating a series of connections keeps the graph invariant. */
  lemma {:induction false} CreateAllValid(s: Sys, ds: seq<ConnRef>, checked: bool)
    requires GValid(s) && forall d :: d in ds ==> d in s.w.conns
    ensures GValid(CreateAll(s, ds, checked))
    decreases |ds|
  {
    if ds != [] {
      CreateConnectionValid(s, ds[0], checked);
      CreateAllValid(CreateConnectionSpec(s, ds[0], checked), ds[1..], checked);
    }
  }

  /** With the check, creating a series of connections keeps the arena
      acyclic. */
  lemma {:induction false} CreateAllAcyclic(s: Sys, ds: seq<ConnRef>, r: map<NodeRef, nat>) returns (r2: map<NodeRef, nat>)
    requires Wf(s) && (forall d :: d in ds ==> d in s.w.conns) && Acyclic(s.w, r)
    ensures r2.Keys == r.Keys && Acyclic(CreateAll(s, ds, true).w, r2)
    decreases |ds|
  {
    if ds == [] {
      r2 := r;
    } else {
      var r1 := CreateConnectionAcyclic(s, ds[0], r);
      r2 := CreateAllAcyclic(CreateConnectionSpec(s, ds[0], true), ds[1..], r1);
    }
  }

  /** `ds.forEach(c => g.createConnection(c))` */
  method CreateEach(g: Graph, ds: seq<ConnRef>, ghost rank: map<NodeRef, nat>) returns (ghost r2: map<NodeRef, nat>)
    requires g.Valid() && forall d :: d in ds ==> d in g.arena.wiring.conns
    requires g.engine != null ==> Acyclic(g.arena.wiring, rank)
    modifies g`connections, g.arena`wiring
    ensures g.Valid() && g.State() == CreateAll(old(g.State()), ds, g.engine != null)
    ensures g.engine != null ==> r2.Keys == rank.Keys && Acyclic(g.arena.wiring, r2)
  {
    ghost var s0 := g.State();
    r2 := rank;
    var k := 0;
    while k < |ds|
      invariant 0 <= k <= |ds| && g.Valid() && forall d :: d in ds ==> d in g.arena.wiring.conns
      invariant CreateAll(g.State(), ds[k..], g.engine != null) == CreateAll(s0, ds, g.engine != null)
      invariant g.engine != null ==> r2.Keys == rank.Keys && Acyclic(g.arena.wiring, r2)
    {
      assert ds[k..][1..] == ds[k + 1..];
      r2 := g.CreateConnection(ds[k], r2);
      k := k + 1;
    }
  }

  /** `ns.forEach(n => g.createNode(n))` for nodes that list no connection:
      only the node list grows. */
  method CreateBare(g: Graph, ns: seq<NodeRef>, ghost rank: map<NodeRef, nat>)
    requires g.Valid() && forall n :: n in ns ==> n in g.arena.wiring.nodes && g.arena.wiring.nodes[n].connections == []
    requires g.engine != null ==> Acyclic(g.arena.wiring, rank)
    modifies g`nodes, g`connections, g.arena`wiring
    ensures g.Valid() && g.State() == old(g.State()).(nodes := old(g.nodes) + ns)
  {
    var k := 0;
    while k < |ns|
      invariant 0 <= k <= |ns| && g.Valid() && g.State() == old(g.State()).(nodes := old(g.nodes) + ns[..k])
    {
      CreateNodeBare(g.State(), ns[k], g.engine != null);
      ghost var r := g.CreateNode(ns[k], rank);
      PrefixSnoc(ns, k);
      k := k + 1;
    }
    assert ns[..k] == ns;
  }

  /** The node loop of `pasteNodes`: `g.createNode(node); node.select()` for
      each clone, in order.  The clones list no connection and are distinct,
      so the node list and the selection each grow by exactly them. */
  method PlaceEach(g: Graph, ns: seq<NodeRef>, ghost rank: map<NodeRef, nat>)
    requires g.Valid() && NoDup(ns) && forall n :: n in ns ==> n in g.arena.wiring.nodes && g.arena.wiring.nodes[n].connections == []
    requires forall n :: n in ns ==> n !in g.selectedNodes
    requires g.engine != null ==> Acyclic(g.arena.wiring, rank)
    modifies g`nodes, g`connections, g`selectedNodes, g.arena`wiring
    ensures g.Valid()
    ensures g.State() == old(g.State()).(nodes := old(g.nodes) + ns, selected := old(g.selectedNodes) + ns)
  {
    ghost var s0 := g.State();
    var k := 0;
    while k < |ns|
      invariant 0 <= k <= |ns| && g.Valid()
      invariant g.State() == s0.(nodes := s0.nodes + ns[..k], selected := s0.selected + ns[..k])
    {
      PlaceNext(g, ns, k, s0, rank);
      k := k + 1;
    }
    assert ns[..k] == ns;
  }

  /** One step of the node loop of `pasteNodes(graph)`: `createNode` and
      then `select` the `k`-th clone. */
  method PlaceNext(g: Graph, ns: seq<NodeRef>, k: nat, ghost s0: Sys, ghost rank: map<NodeRef, nat>)
    requires g.Valid() && NoDup(ns) && k < |ns|
    requires forall n :: n in ns ==> n in s0.w.nodes && s0.w.nodes[n].connections == [] && n !in s0.selected
    requires g.engine != null ==> Acyclic(s0.w, rank)
    requires g.State() == s0.(nodes := s0.nodes + ns[..k], selected := s0.selected + ns[..k])
    modifies g`nodes, g`connections, g`selectedNodes, g.arena`wiring
    ensures g.Valid() && g.State() == s0.(nodes := s0.nodes + ns[..k + 1], selected := s0.selected + ns[..k + 1])
  {
    CreateNodeBare(g.State(), ns[k], g.engine != null);
    ghost var r := g.CreateNode(ns[k], rank);
    assert ns[k] !in ns[..k];
    g.SelectNode(ns[k]);
    PrefixSnoc(ns, k);
  }

  /** The last two loops of `copyNodes(nodes)`: create each clone, then
      each new connection, in the clipboard graph. */
  method Fill(g: Graph, ns: seq<NodeRef>, ds: seq<ConnRef>)
    requires g.Valid() && g.engine == null && g.nodes == [] && g.connections == []
    requires forall n :: n in ns ==> n in g.arena.wiring.nodes && g.arena.wiring.nodes[n].connections == []
    requires forall d :: d in ds ==> d in g.arena.wiring.conns
    modifies g`nodes, g`connections, g.arena`wiring
    ensures g.Valid() && GValid(g.State())
    ensures g.State() == CreateAll(old(g.State()).(nodes := ns), ds, false)
  {
    ghost var s0 := g.State();
    CreateBare(g, ns, map[]);
    assert g.State() == s0.(nodes := ns);
    CreateAllValid(g.State(), ds, false);
    ghost var r := CreateEach(g, ds, map[]);
  }

  /** The graph half of `pasteNodes(graph)`: clear the active node and the
      selection, create and select each clone, then create each new
      connection, checked when the graph has an engine. */
  method Place(g: Graph, ns: seq<NodeRef>, ds: seq<ConnRef>, ghost rank: map<NodeRef, nat>) returns (ghost r2: map<NodeRef, nat>)
    requires g.Valid() && NoDup(ns)
    requires forall n :: n in ns ==> n in g.arena.wiring.nodes && g.arena.wiring.nodes[n].connections == []
    requires forall d :: d in ds ==> d in g.arena.wiring.conns
    requires g.engine != null ==> Acyclic(g.arena.wiring, rank)
    modifies g`nodes, g`connections, g`activeNode, g`selectedNodes, g.arena`wiring
    ensures g.Valid()
    ensures g.State() == CreateAll(old(g.State()).(nodes := old(g.nodes) + ns, active := None, selected := ns), ds, g.engine != null)
    ensures old(GValid(g.State())) ==> GValid(g.State())
    ensures g.engine != null ==> Acyclic(g.arena.wiring, r2)
  {
    ghost var s0 := g.State();
    g.DeactivateNode();
    g.DeselectNodes();
    PlaceEach(g, ns, rank);
    ghost var s1 := g.State();
    assert s1 == s0.(nodes := s0.nodes + ns, active := None, selected := ns);
    if GValid(s0) {
      CreateAllValid(s1, ds, g.engine != null);
    }
    r2 := CreateEach(g, ds, rank);
  }

  /** After cloning into a graph's arena, the graph is still well formed
      and the clones and new connections meet what placing them needs. */
  lemma PasteReady(s0: Sys, ws: Wiring, wc: Wiring, xs: seq<NodeRef>, ys: seq<NodeRef>, ds: seq<ConnRef>)
    requires Wf(s0) && Registered(s0) && wc.Valid()
    requires Cloned(ws, s0.w, wc, xs, ys) && Reconnected(ws, s0.w, wc, xs, ys, ds)
    ensures Wf(s0.(w := wc)) && Registered(s0.(w := wc)) && (GValid(s0) ==> GValid(s0.(w := wc)))
    ensures Grown(s0.w, wc) && NoDup(ys)
    ensures forall n :: n in ys ==> n in wc.nodes && wc.nodes[n].connections == []
    ensures forall d :: d in ds ==> d in wc.conns
  {
    ClonedFacts(ws, s0.w, wc, xs, ys, ds);
    GraphGrown(s0, wc);
  }

  /** The first half of `pasteNodes(graph)`: clone the nodes `xs` of `src`
      into `g`'s arena, leaving `g`'s own fields as they were. */
  method PasteClone(src: Arena, xs: seq<NodeRef>, g: Graph, ghost rank: map<NodeRef, nat>)
    returns (clones: seq<NodeRef>, newConns: seq<ConnRef>, ghost r1: map<NodeRef, nat>)
    requires src.Valid() && g.Valid() && g.arena != src
    requires forall x :: x in xs ==> x in src.wiring.nodes && HasLayout(src.wiring, x)
    requires g.engine != null ==> Acyclic(g.arena.wiring, rank)
    modifies g.arena`wiring, g.arena`next
    ensures g.Valid() && g.State() == old(g.State()).(w := g.arena.wiring) && (old(GValid(g.State())) ==> GValid(g.State()))
    ensures Cloned(src.wiring, old(g.arena.wiring), g.arena.wiring, xs, clones)
    ensures Reconnected(src.wiring, old(g.arena.wiring), g.arena.wiring, xs, clones, newConns)
    ensures NoDup(clones) && forall n :: n in clones ==> n in g.arena.wiring.nodes && g.arena.wiring.nodes[n].connections == []
    ensures forall d :: d in newConns ==> d in g.arena.wiring.conns
    ensures g.engine != null ==> Acyclic(g.arena.wiring, r1)
  {
    ghost var s0 := g.State();
    clones, newConns := CloneNodes(src, g.arena, xs);
    PasteReady(s0, src.wiring, g.arena.wiring, xs, clones, newConns);
    r1 := rank;
    if g.engine != null {
      r1 := AcyclicGrown(s0.w, g.arena.wiring, rank);
    }
  }

  /** `pasteNodes(graph)` with the clipboard's arena `src` and node list
      `xs`: clone them into `g`'s arena, then place the clones and their
      connections in `g`. */
  method PasteInto(src: Arena, xs: seq<NodeRef>, g: Graph, ghost rank: map<NodeRef, nat>)
    returns (ghost r2: map<NodeRef, nat>, ghost wc: Wiring, newNodes: seq<NodeRef>, ghost newConns: seq<ConnRef>)
    requires src.Valid() && g.Valid() && g.arena != src
    requires forall x :: x in xs ==> x in src.wiring.nodes && HasLayout(src.wiring, x)
    requires g.engine != null ==> Acyclic(g.arena.wiring, rank)
    modifies g`nodes, g`connections, g`activeNode, g`selectedNodes, g.arena`wiring, g.arena`next
    ensures g.Valid()
    ensures Cloned(src.wiring, old(g.arena.wiring), wc, xs, newNodes)
    ensures Reconnected(src.wiring, old(g.arena.wiring), wc, xs, newNodes, newConns)
    ensures Wf(old(g.State()).(w := wc)) && forall d :: d in newConns ==> d in wc.conns
    ensures g.State() == CreateAll(old(g.State()).(w := wc, nodes := old(g.nodes) + newNodes, active := None, selected := newNodes),
                                   newConns, g.engine != null)
    ensures old(GValid(g.State())) ==> GValid(g.State())
    ensures g.engine != null ==> Acyclic(g.arena.wiring, r2)
  {
    ghost var ws := src.wiring;
    var newConnections;
    ghost var r1;
    newNodes, newConnections, r1 := PasteClone(src, xs, g, rank);
    newConns := newConnections;
    wc := g.arena.wiring;
    r2 := Place(g, newNodes, newConnections, r1);
    assert src.wiring == ws;
  }

  /** A clone of a clone is a clone of the original, even after the middle
      copy's connections were reshaped. */
  lemma CloneOfCompose(ws: Wiring, w0: Wiring, w1: Wiring, w1': Wiring, v0: Wiring, v: Wiring,
                       x: NodeRef, y: NodeRef, z: NodeRef)
    requires CloneOf(ws, w0, w1, x, y) && Reshaped(w1, w1') && CloneOf(w1', v0, v, y, z)
    ensures CloneOf(ws, v0, v, x, z)
  {
    var t := ws.nodes[x].kind;
    assert w1'.nodes[y] == w1.nodes[y].(connections := w1'.nodes[y].connections);
    forall k | 0 <= k < |t.inputs|
      ensures w1'.inputs[w1'.nodes[y].inputs[k]].value == ws.inputs[ws.nodes[x].inputs[k]].value
    {
      var i := w1.nodes[y].inputs[k];
      assert w1'.inputs[i] == w1.inputs[i].(connection := w1'.inputs[i].connection);
    }
  }

  /** Cloning `xs` into the clipboard and the clones back out yields clones
      of `xs`, whatever the clipboard graph did to its copies' lists. */
  lemma DuplicateClones(w0: Wiring, wk: Wiring, wc: Wiring, wc': Wiring, wp: Wiring,
                        xs: seq<NodeRef>, ys: seq<NodeRef>, zs: seq<NodeRef>)
    requires Cloned(w0, wk, wc, xs, ys) && Reshaped(wc, wc') && Cloned(wc', w0, wp, ys, zs)
    ensures |zs| == |xs|
    ensures forall k :: 0 <= k < |xs| ==> CloneOf(w0, w0, wp, xs[k], zs[k])
  {
    forall k | 0 <= k < |xs| ensures CloneOf(w0, w0, wp, xs[k], zs[k]) {
      assert CloneOf(w0, wk, wc, xs[k], ys[k]);
      assert CloneOf(wc', w0, wp, ys[k], zs[k]);
      CloneOfCompose(w0, wk, wc, wc', w0, wp, xs[k], ys[k], zs[k]);
    }
  }

  /** The clipboard: a graph without an editor, over an arena of its own.
      No connection ever joins a clipboard node to an editor node, so the
      two arenas never share a record. */
  class Clipboard {
    const graph: Graph

    ghost predicate Valid()
      reads this, graph, graph.arena
    {
      && graph.Valid() && graph.engine == null
      && forall n :: n in graph.nodes ==> n in graph.arena.wiring.nodes && HasLayout(graph.arena.wiring, n)
    }

    constructor ()
      ensures Valid() && fresh(graph) && fresh(graph.arena)
      ensures graph.nodes == [] && graph.connections == []
    {
      var a := new Arena();
      graph := new Graph(a, null);
    }

    /** `copyNodes(nodes)`: empty the clipboard graph's lists, clone the
        nodes of `src` with the connections among them into the clipboard's
        arena, and create the clones and then their connections in the
        clipboard graph, unchecked.  `wc` is the clipboard's arena right
        after cloning and `newConns` the new connections. */
    method CopyNodes(src: Arena, xs: seq<NodeRef>) returns (ghost wc: Wiring, ghost newConns: seq<ConnRef>)
      requires Valid() && src.Valid() && src != graph.arena
      requires forall x :: x in xs ==> x in src.wiring.nodes && HasLayout(src.wiring, x)
      modifies graph`nodes, graph`connections, graph.arena`wiring, graph.arena`next
      ensures Valid() && GValid(graph.State())
      ensures Cloned(src.wiring, old(graph.arena.wiring), wc, xs, graph.nodes)
      ensures Reconnected(src.wiring, old(graph.arena.wiring), wc, xs, graph.nodes, newConns)
      ensures wc.Valid() && SlotsMatch(wc) && forall d :: d in newConns ==> d in wc.conns
      ensures graph.State() == CreateAll(Sys(graph.nodes, [], old(graph.activeNode), old(graph.selectedNodes), wc), newConns, false)
      ensures forall d :: d in graph.connections ==> d in newConns
    {
      graph.nodes := [];
      graph.connections := [];
      ghost var s0 := graph.State();
      var newNodes, newConnections := CloneNodes(src, graph.arena, xs);
      wc := graph.arena.wiring;
      newConns := newConnections;
      ClonedFacts(src.wiring, s0.w, wc, xs, newNodes, newConns);
      GraphGrown(s0, wc);
      ghost var s1 := s0.(w := wc).(nodes := newNodes);
      assert s1 == Sys(newNodes, [], old(graph.activeNode), old(graph.selectedNodes), wc);
      Fill(graph, newNodes, newConnections);
      assert graph.State() == CreateAll(s1, newConns, false);
      assert graph.nodes == newNodes;
      ClonedLayout(src.wiring, s0.w, wc, graph.arena.wiring, xs, newNodes);
    }

    /** `cutNodes(graph, nodes)`: copy, then delete the nodes from `g`. */
    method CutNodes(g: Graph, xs: seq<NodeRef>) returns (ghost wc: Wiring, ghost newConns: seq<ConnRef>)
      requires Valid() && g.Valid() && g.arena != graph.arena
      requires forall x :: x in xs ==> x in g.arena.wiring.nodes && HasLayout(g.arena.wiring, x)
      modifies graph`nodes, graph`connections, graph.arena`wiring, graph.arena`next
      modifies g`nodes, g`connections, g`activeNode, g`selectedNodes, g.arena`wiring
      ensures Valid() && GValid(graph.State()) && g.Valid()
      ensures g.State() == DeleteNodesSpec(old(g.State()), xs)
      ensures Cloned(old(g.arena.wiring), old(graph.arena.wiring), wc, xs, graph.nodes)
      ensures Reconnected(old(g.arena.wiring), old(graph.arena.wiring), wc, xs, graph.nodes, newConns)
      ensures wc.Valid() && SlotsMatch(wc) && forall d :: d in newConns ==> d in wc.conns
      ensures graph.State() == CreateAll(Sys(graph.nodes, [], old(graph.activeNode), old(graph.selectedNodes), wc), newConns, false)
      ensures old(NoDup(g.nodes) && NoDup(g.selectedNodes)) ==>
        forall x :: x in xs ==> x !in g.nodes && x !in g.selectedNodes && g.activeNode != Some(x)
    {
      ghost var s0 := g.State();
      wc, newConns := CopyNodes(g.arena, xs);
      ghost var cs := graph.State();
      g.DeleteNodes(xs);
      assert graph.State() == cs;
      if NoDup(s0.nodes) && NoDup(s0.selected) {
        DeleteNodesEffect(s0, xs);
      }
    }

    /** `pasteNodes(graph)`: clone the clipboard graph's nodes and their
        connections into `g`'s arena, clear `g`'s active node and selection,
        create and select each clone in `g`, then create the new connections
        in `g`, checked for cycles when `g` has an engine.  The clipboard is
        left as it was. */
    method PasteNodes(g: Graph, ghost rank: map<NodeRef, nat>)
      returns (ghost r2: map<NodeRef, nat>, ghost wc: Wiring, newNodes: seq<NodeRef>, ghost newConns: seq<ConnRef>)
      requires Valid() && g.Valid() && g.arena != graph.arena
      requires g.engine != null ==> Acyclic(g.arena.wiring, rank)
      modifies g`nodes, g`connections, g`activeNode, g`selectedNodes, g.arena`wiring, g.arena`next
      ensures Valid() && g.Valid()
      ensures Cloned(graph.arena.wiring, old(g.arena.wiring), wc, graph.nodes, newNodes)
      ensures Reconnected(graph.arena.wiring, old(g.arena.wiring), wc, graph.nodes, newNodes, newConns)
      ensures Wf(old(g.State()).(w := wc)) && forall d :: d in newConns ==> d in wc.conns
      ensures g.State() == CreateAll(old(g.State()).(w := wc, nodes := old(g.nodes) + newNodes, active := None, selected := newNodes),
                                     newConns, g.engine != null)
      ensures g.activeNode == None && g.selectedNodes == newNodes && g.nodes == old(g.nodes) + newNodes
      ensures graph.nodes == old(graph.nodes) && graph.connections == old(graph.connections)
      ensures old(GValid(g.State())) ==> GValid(g.State())
      ensures g.engine != null ==> Acyclic(g.arena.wiring, r2)
    {
      r2, wc, newNodes, newConns := PasteInto(graph.arena, graph.nodes, g, rank);
      assert unchanged(graph, graph.arena);
    }

    /** `duplicateNodes(graph, nodes)`: copy, then paste into the same
        graph.  The clipboard ends holding fresh clones of `xs` and their
        internal connections (`wc` and `clipConns`, as `copyNodes` leaves
        them); the graph gains clones of those, connected as `pasteNodes`
        connects them (`newConns`).  Each pasted node is a clone of the node
        it duplicates. */
    method DuplicateNodes(g: Graph, xs: seq<NodeRef>, ghost rank: map<NodeRef, nat>)
      returns (ghost r2: map<NodeRef, nat>, ghost wp: Wiring, newNodes: seq<NodeRef>,
               ghost wc: Wiring, ghost clipConns: seq<ConnRef>, ghost newConns: seq<ConnRef>)
      requires Valid() && g.Valid() && g.arena != graph.arena
      requires forall x :: x in xs ==> x in g.arena.wiring.nodes && HasLayout(g.arena.wiring, x)
      requires g.engine != null ==> Acyclic(g.arena.wiring, rank)
      modifies graph`nodes, graph`connections, graph.arena`wiring, graph.arena`next
      modifies g`nodes, g`connections, g`activeNode, g`selectedNodes, g.arena`wiring, g.arena`next
      ensures Valid() && g.Valid() && GValid(graph.State())
      ensures Cloned(old(g.arena.wiring), old(graph.arena.wiring), wc, xs, graph.nodes)
      ensures Reconnected(old(g.arena.wiring), old(graph.arena.wiring), wc, xs, graph.nodes, clipConns)
      ensures wc.Valid() && SlotsMatch(wc) && forall d :: d in clipConns ==> d in wc.conns
      ensures graph.State() == CreateAll(Sys(graph.nodes, [], old(graph.activeNode), old(graph.selectedNodes), wc), clipConns, false)
      ensures Cloned(graph.arena.wiring, old(g.arena.wiring), wp, graph.nodes, newNodes)
      ensures Reconnected(graph.arena.wiring, old(g.arena.wiring), wp, graph.nodes, newNodes, newConns)
      ensures Wf(old(g.State()).(w := wp)) && forall d :: d in newConns ==> d in wp.conns
      ensures g.State() == CreateAll(old(g.State()).(w := wp, nodes := old(g.nodes) + newNodes, active := None, selected := newNodes),
                                     newConns, g.engine != null)
      ensures g.activeNode == None && g.selectedNodes == newNodes && g.nodes == old(g.nodes) + newNodes
      ensures Grown(old(g.arena.wiring), wp) && |newNodes| == |xs|
      ensures forall k :: 0 <= k < |xs| ==> CloneOf(old(g.arena.wiring), old(g.arena.wiring), wp, xs[k], newNodes[k])
      ensures old(GValid(g.State())) ==> GValid(g.State())
      ensures g.engine != null ==> Acyclic(g.arena.wiring, r2)
    {
      ghost var w0 := g.arena.wiring;
      ghost var wk := graph.arena.wiring;
      wc, clipConns := CopyNodes(g.arena, xs);
      r2, wp, newNodes, newConns := PasteNodes(g, rank);
      DuplicateClones(w0, wk, wc, graph.arena.wiring, wp, xs, graph.nodes, newNodes);
    }
  }
}
