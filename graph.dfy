/** A graph of nodes: its node list, its connection list, the active node and
    the selection, over the shared arena.  Each operation is specified by a
    transition function on `Sys` (the graph's fields together with the
    arena's wiring); the `Graph` class's methods are proved to perform
    exactly those transitions. */
module Graphs {
  import opened Base
  import opened Model
  import opened Engine
  import opened Cycles

  datatype Sys = Sys(nodes: seq<NodeRef>, connections: seq<ConnRef>, active: Option<NodeRef>,
                     selected: seq<NodeRef>, w: Wiring)

  /** An input's slot holds a connection whose input end is that input. */
  ghost predicate SlotsMatch(w: Wiring) {
    forall i :: i in w.inputs && w.inputs[i].connection.Some? && w.inputs[i].connection.value in w.conns ==>
      w.conns[w.inputs[i].connection.value].input == i
  }

  /** The arena is consistent and the graph lists only existing connections. */
  ghost predicate Wf(s: Sys) {
    s.w.Valid() && SlotsMatch(s.w) && forall c :: c in s.connections ==> c in s.w.conns
  }

  /** The graph's own invariant: its connections are distinct and each one is
      the current connection of its input. */
  ghost predicate GValid(s: Sys) {
    && Wf(s) && NoDup(s.connections)
    && forall c :: c in s.connections ==> s.w.inputs[s.w.conns[c].input].connection == Some(c)
  }

  /** `w1` differs from `w0` at most in the nodes' connection lists and the
      inputs' connection slots. */
  ghost predicate Reshaped(w0: Wiring, w1: Wiring) {
    && w1.nodes.Keys == w0.nodes.Keys && w1.inputs.Keys == w0.inputs.Keys
    && w1.outputs == w0.outputs && w1.conns == w0.conns
    && (forall n :: n in w0.nodes ==> w1.nodes[n] == w0.nodes[n].(connections := w1.nodes[n].connections))
    && (forall i :: i in w0.inputs ==> w1.inputs[i] == w0.inputs[i].(connection := w1.inputs[i].connection))
  }

  /** Every connection list of `w1` holds only what the same list of `w0`
      held, plus possibly `c`. */
  ghost predicate ListsWithin(w0: Wiring, w1: Wiring, c: ConnRef)
    requires w1.nodes.Keys == w0.nodes.Keys
  {
    forall n, d :: n in w1.nodes && d in w1.nodes[n].connections ==> d in w0.nodes[n].connections || d == c
  }

  /** Every connection list of `w1` holds only what the same list of `w0`
      held. */
  ghost predicate ListsShrink(w0: Wiring, w1: Wiring)
    requires w1.nodes.Keys == w0.nodes.Keys
  {
    forall n, d :: n in w1.nodes && d in w1.nodes[n].connections ==> d in w0.nodes[n].connections
  }

  /** Only the slot of input `i` may differ. */
  ghost predicate SlotsAgree(w0: Wiring, w1: Wiring, i: InputRef)
    requires w1.inputs.Keys == w0.inputs.Keys
  {
    forall x :: x in w0.inputs && x != i ==> w1.inputs[x].connection == w0.inputs[x].connection
  }

  /** A slot write that fills input `i` with a connection ending at `i` (or
      empties it) keeps the slots matching. */
  lemma SlotsMatchFrame(w0: Wiring, w1: Wiring, i: InputRef)
    requires SlotsMatch(w0) && Reshaped(w0, w1) && SlotsAgree(w0, w1, i)
    requires i in w1.inputs && w1.inputs[i].connection.Some? && w1.inputs[i].connection.value in w1.conns ==>
      w1.conns[w1.inputs[i].connection.value].input == i
    ensures SlotsMatch(w1)
  {
  }

  lemma ReshapedTrans(w0: Wiring, w1: Wiring, w2: Wiring)
    requires Reshaped(w0, w1) && Reshaped(w1, w2)
    ensures Reshaped(w0, w2)
  {
  }

  /** `node?.deleteConnection(c)` on an optional node. */
  function DropFrom(w: Wiring, n: Option<NodeRef>, c: ConnRef): (r: Wiring)
    requires w.Valid() && (n.Some? ==> n.value in w.nodes)
    ensures r.Valid() && Reshaped(w, r) && ListsShrink(w, r) && r.inputs == w.inputs
  {
    match n
    case None => w
    case Some(m) =>
      NodeDeleteConnectionSpec(w, m, c);
      RemoveFirstSubset(w.nodes[m].connections, c);
      w.DeleteConnection(m, c)
  }

  /** `node?.addConnection(c)` on an optional node. */
  function PushTo(w: Wiring, n: Option<NodeRef>, c: ConnRef): (r: Wiring)
    requires w.Valid() && c in w.conns && (n.Some? ==> n.value in w.nodes)
    ensures r.Valid() && Reshaped(w, r) && ListsWithin(w, r, c) && r.inputs == w.inputs
    ensures n.Some? ==> c in r.nodes[n.value].connections
  {
    match n
    case None => w
    case Some(m) =>
      NodeAddConnectionSpec(w, m, c);
      w.AddConnection(m, c)
  }

  /** `deleteConnection(c)`: when the graph holds `c`, take it out of both
      endpoint nodes' lists, clear its input's slot and drop it from the
      graph's list; otherwise nothing happens. */
  function DeleteConnectionSpec(s: Sys, c: ConnRef): (r: Sys)
    requires Wf(s)
    ensures Wf(r) && Reshaped(s.w, r.w) && ListsShrink(s.w, r.w)
    ensures r.nodes == s.nodes && r.active == s.active && r.selected == s.selected
    ensures c !in s.connections ==> r == s
    ensures c in s.connections ==>
      (SlotsAgree(s.w, r.w, s.w.conns[c].input) && r.w.inputs[s.w.conns[c].input].connection == None)
    ensures forall d :: d in r.connections ==> d in s.connections
  {
    if c in s.connections then
      var cc := s.w.conns[c];
      var w1 := DropFrom(s.w, s.w.inputs[cc.input].node, c);
      var w2 := DropFrom(w1, w1.outputs[cc.output].node, c);
      SetSlotValid(w2, cc.input, None);
      DeleteFrame(s.w, w1, w2, w2.SetSlot(cc.input, None), cc.input);
      RemoveFirstSubset(s.connections, c);
      s.(w := w2.SetSlot(cc.input, None), connections := RemoveFirst(s.connections, c))
    else s
  }

  /** `if (connection.input.connection) deleteConnection(...)`: free input
      `i` by deleting its current connection (a no-op when the graph does
      not hold that connection). */
  function Free(s: Sys, i: InputRef): (r: Sys)
    requires Wf(s) && i in s.w.inputs
    ensures Wf(r) && Reshaped(s.w, r.w) && ListsShrink(s.w, r.w) && SlotsAgree(s.w, r.w, i)
    ensures r.nodes == s.nodes && r.active == s.active && r.selected == s.selected
    ensures forall d :: d in r.connections ==> d in s.connections
    ensures r.w.inputs[i].connection.Some? ==> r.w.inputs[i].connection == s.w.inputs[i].connection && r == s
  {
    match s.w.inputs[i].connection
    case Some(d) => DeleteConnectionSpec(s, d)
    case None => s
  }

  lemma DeleteFrame(w0: Wiring, w1: Wiring, w2: Wiring, w3: Wiring, i: InputRef)
    requires SlotsMatch(w0)
    requires Reshaped(w0, w1) && ListsShrink(w0, w1) && w1.inputs == w0.inputs
    requires Reshaped(w1, w2) && ListsShrink(w1, w2) && w2.inputs == w1.inputs
    requires i in w2.inputs && w3 == w2.SetSlot(i, None)
    ensures Reshaped(w0, w3) && ListsShrink(w0, w3) && SlotsMatch(w3) && SlotsAgree(w0, w3, i)
  {
  }

  /** `c.input.node?.addConnection(c); c.output.node?.addConnection(c);
      c.input.connection = c` */
  function Link(w: Wiring, c: ConnRef): (r: Wiring)
    requires w.Valid() && c in w.conns
    ensures r.Valid() && Reshaped(w, r) && ListsWithin(w, r, c)
    ensures SlotsAgree(w, r, w.conns[c].input) && r.inputs[w.conns[c].input].connection == Some(c)
    ensures SlotsMatch(w) ==> SlotsMatch(r)
  {
    var cc := w.conns[c];
    var w2 := PushTo(w, w.inputs[cc.input].node, c);
    var w3 := PushTo(w2, w2.outputs[cc.output].node, c);
    SetSlotValid(w3, cc.input, Some(c));
    LinkFrame(w, w2, w3, w3.SetSlot(cc.input, Some(c)), c);
    w3.SetSlot(cc.input, Some(c))
  }

  lemma LinkFrame(w1: Wiring, w2: Wiring, w3: Wiring, w4: Wiring, c: ConnRef)
    requires c in w1.conns
    requires Reshaped(w1, w2) && ListsWithin(w1, w2, c) && w2.inputs == w1.inputs
    requires Reshaped(w2, w3) && ListsWithin(w2, w3, c) && w3.inputs == w2.inputs
    requires w1.conns[c].input in w3.inputs && w4 == w3.SetSlot(w1.conns[c].input, Some(c))
    ensures Reshaped(w1, w4) && ListsWithin(w1, w4, c) && SlotsAgree(w1, w4, w1.conns[c].input)
    ensures SlotsMatch(w1) ==> SlotsMatch(w4)
  {
  }

  /** `createConnection(c)` up to the recursion check: free `c`'s input, link
      `c` and add it to the graph's list if absent. */
  function Attach(s: Sys, c: ConnRef): (r: Sys)
    requires Wf(s) && c in s.w.conns
    ensures Wf(r) && Reshaped(s.w, r.w) && ListsWithin(s.w, r.w, c)
    ensures r.nodes == s.nodes && r.active == s.active && r.selected == s.selected
    ensures SlotsAgree(s.w, r.w, s.w.conns[c].input) && r.w.inputs[s.w.conns[c].input].connection == Some(c)
    ensures c in r.connections && forall d :: d in r.connections ==> d in s.connections || d == c
  {
    var s1 := Free(s, s.w.conns[c].input);
    AttachFrame(s.w, s1.w, Link(s1.w, c), c);
    s1.(w := Link(s1.w, c), connections := if c in s1.connections then s1.connections else s1.connections + [c])
  }

  lemma AttachFrame(w0: Wiring, w1: Wiring, w2: Wiring, c: ConnRef)
    requires c in w0.conns
    requires Reshaped(w0, w1) && ListsShrink(w0, w1) && SlotsAgree(w0, w1, w0.conns[c].input)
    requires Reshaped(w1, w2) && ListsWithin(w1, w2, c) && SlotsAgree(w1, w2, w0.conns[c].input)
    ensures Reshaped(w0, w2) && ListsWithin(w0, w2, c) && SlotsAgree(w0, w2, w0.conns[c].input)
  {
  }

  /** `createConnection(c)`: attach `c`; then, when the graph has an engine
      (`checked`) and the output belongs to a node that now lies on a cycle
      (what `checkNode` detects), delete `c` again. */
  ghost function CreateConnectionSpec(s: Sys, c: ConnRef, checked: bool): (r: Sys)
    requires Wf(s) && c in s.w.conns
    ensures Wf(r) && Reshaped(s.w, r.w) && ListsWithin(s.w, r.w, c)
    ensures r.nodes == s.nodes && r.active == s.active && r.selected == s.selected
    ensures SlotsAgree(s.w, r.w, s.w.conns[c].input)
    ensures forall d :: d in r.connections ==> d in s.connections || d == c
  {
    var s3 := Attach(s, c);
    var u := s3.w.outputs[s.w.conns[c].output].node;
    if u.Some? && checked && CycleThrough(s3.w, u.value) then
      ReshapedTrans(s.w, s3.w, DeleteConnectionSpec(s3, c).w);
      DeleteConnectionSpec(s3, c)
    else s3
  }

  /** Whether the recursion check of `createConnection(c)` rejects it. */
  ghost predicate Rejected(s: Sys, c: ConnRef, checked: bool)
    requires Wf(s) && c in s.w.conns
  {
    var u := s.w.outputs[s.w.conns[c].output].node;
    u.Some? && checked && CycleThrough(Attach(s, c).w, u.value)
  }

  /** A connection is kept exactly when the check does not reject it; a kept
      connection fills its input, and a rejected one leaves the input empty
      (a connection it displaced is not restored). */
  lemma CreateConnectionOutcome(s: Sys, c: ConnRef, checked: bool)
    requires GValid(s) && c in s.w.conns
    ensures var r := CreateConnectionSpec(s, c, checked);
      && (c in r.connections <==> !Rejected(s, c, checked))
      && (!Rejected(s, c, checked) ==> r.w.inputs[s.w.conns[c].input].connection == Some(c))
      && (Rejected(s, c, checked) ==> r.w.inputs[s.w.conns[c].input].connection == None)
  {
    var s3 := Attach(s, c);
    AttachValid(s, c);
    if Rejected(s, c, checked) {
      RemoveFirstNoDup(s3.connections, c);
    }
  }

  /** `node?.addConnection(c)` adds one occurrence of `c` to that node's
      list and touches no other list. */
  lemma PushToCount(w: Wiring, n: Option<NodeRef>, c: ConnRef, m: NodeRef)
    requires w.Valid() && c in w.conns && (n.Some? ==> n.value in w.nodes) && m in w.nodes
    ensures multiset(PushTo(w, n, c).nodes[m].connections) ==
            multiset(w.nodes[m].connections) + (if n == Some(m) then multiset{c} else multiset{})
  {
  }

  /** `node?.deleteConnection(c)` takes one occurrence of `c` out of that
      node's list and touches no other list. */
  lemma DropFromCount(w: Wiring, n: Option<NodeRef>, c: ConnRef, m: NodeRef)
    requires w.Valid() && (n.Some? ==> n.value in w.nodes) && m in w.nodes
    ensures multiset(DropFrom(w, n, c).nodes[m].connections) ==
            multiset(w.nodes[m].connections) - (if n == Some(m) then multiset{c} else multiset{})
  {
    if n.Some? {
      NodeDeleteConnectionSpec(w, n.value, c);
    }
  }

  /** The occurrences of `c` that linking it adds to node `m`'s list: one
      for each endpoint of `c` that belongs to `m`. */
  ghost function Ends(w: Wiring, c: ConnRef, m: NodeRef): multiset<ConnRef>
    requires w.Valid() && c in w.conns
  {
    (if w.inputs[w.conns[c].input].node == Some(m) then multiset{c} else multiset{}) +
    (if w.outputs[w.conns[c].output].node == Some(m) then multiset{c} else multiset{})
  }

  /** Linking `c` adds its endpoint occurrences to each list. */
  lemma LinkCount(w: Wiring, c: ConnRef, m: NodeRef)
    requires w.Valid() && c in w.conns && m in w.nodes
    ensures multiset(Link(w, c).nodes[m].connections) == multiset(w.nodes[m].connections) + Ends(w, c, m)
  {
    var cc := w.conns[c];
    var a, b := w.inputs[cc.input].node, w.outputs[cc.output].node;
    var w2 := PushTo(w, a, c);
    PushToCount(w, a, c, m);
    PushToCount(w2, b, c, m);
  }

  /** Deleting a connection the graph holds takes its endpoint occurrences
      out of each list. */
  lemma DeleteCount(s: Sys, c: ConnRef, m: NodeRef)
    requires Wf(s) && c in s.connections && m in s.w.nodes
    ensures multiset(DeleteConnectionSpec(s, c).w.nodes[m].connections) ==
            multiset(s.w.nodes[m].connections) - Ends(s.w, c, m)
  {
    var cc := s.w.conns[c];
    var a, b := s.w.inputs[cc.input].node, s.w.outputs[cc.output].node;
    var w1 := DropFrom(s.w, a, c);
    var w2 := DropFrom(w1, b, c);
    assert DeleteConnectionSpec(s, c).w == w2.SetSlot(cc.input, None);
    DropFromCount(s.w, a, c, m);
    DropFromCount(w1, b, c, m);
    MinusTwice(multiset(s.w.nodes[m].connections),
               if a == Some(m) then multiset{c} else multiset{},
               if b == Some(m) then multiset{c} else multiset{});
  }

  lemma MinusTwice<T>(x: multiset<T>, a: multiset<T>, b: multiset<T>)
    ensures x - a - b == x - (a + b)
  {
  }

  /** A rejected connection leaves every node's connection list holding what
      it held once the input was freed: the rollback takes out of each
      endpoint node's list the one occurrence that linking put in. */
  lemma RejectedRestoresLists(s: Sys, c: ConnRef, checked: bool, m: NodeRef)
    requires Wf(s) && c in s.w.conns && Rejected(s, c, checked) && m in s.w.nodes
    ensures multiset(CreateConnectionSpec(s, c, checked).w.nodes[m].connections) ==
            multiset(Free(s, s.w.conns[c].input).w.nodes[m].connections)
  {
    var s1 := Free(s, s.w.conns[c].input);
    var s3 := Attach(s, c);
    assert s3.w == Link(s1.w, c);
    LinkCount(s1.w, c, m);
    DeleteCount(s3, c, m);
    EndsReshaped(s1.w, s3.w, c, m);
    PlusMinus(multiset(s1.w.nodes[m].connections), Ends(s1.w, c, m));
    assert CreateConnectionSpec(s, c, checked) == DeleteConnectionSpec(s3, c);
  }

  /** Reshaping moves no socket, so the endpoint occurrences stay the same. */
  lemma EndsReshaped(w0: Wiring, w1: Wiring, c: ConnRef, m: NodeRef)
    requires w0.Valid() && w1.Valid() && c in w0.conns && Reshaped(w0, w1)
    ensures Ends(w1, c, m) == Ends(w0, c, m)
  {
    var cc := w0.conns[c];
    assert w1.inputs[cc.input].node == w0.inputs[cc.input].node;
  }

  lemma PlusMinus<T>(x: multiset<T>, a: multiset<T>)
    ensures x + a - a == x
  {
  }

  /** `deleteConnection` keeps the graph invariant, removes `c` entirely and
      keeps every other connection. */
  lemma DeleteConnectionValid(s: Sys, c: ConnRef)
    requires GValid(s)
    ensures var r := DeleteConnectionSpec(s, c);
      GValid(r) && c !in r.connections && forall d :: d != c ==> (d in r.connections <==> d in s.connections)
  {
    var r := DeleteConnectionSpec(s, c);
    if c in s.connections {
      RemoveFirstNoDup(s.connections, c);
      forall e | e in r.connections
        ensures r.w.inputs[r.w.conns[e].input].connection == Some(e)
      {
        assert s.w.inputs[s.w.conns[e].input].connection == Some(e);
      }
    }
  }

  /** Deleting twice is deleting once. */
  lemma DeleteConnectionIdempotent(s: Sys, c: ConnRef)
    requires GValid(s)
    ensures DeleteConnectionSpec(DeleteConnectionSpec(s, c), c) == DeleteConnectionSpec(s, c)
  {
    DeleteConnectionValid(s, c);
  }

  lemma AttachValid(s: Sys, c: ConnRef)
    requires GValid(s) && c in s.w.conns
    ensures GValid(Attach(s, c))
  {
    var cc := s.w.conns[c];
    var s1 := Free(s, cc.input);
    if s.w.inputs[cc.input].connection.Some? {
      DeleteConnectionValid(s, s.w.inputs[cc.input].connection.value);
    }
    assert GValid(s1);
    assert s1.w.inputs[cc.input].connection.Some? ==> s1.w.inputs[cc.input].connection.value !in s1.connections;
    var r := Attach(s, c);
    assert r.connections == if c in s1.connections then s1.connections else s1.connections + [c];
    if c !in s1.connections {
      AppendFreshNoDup(s1.connections, c);
    }
    forall e | e in r.connections
      ensures r.w.inputs[r.w.conns[e].input].connection == Some(e)
    {
      if e != c {
        assert s1.w.inputs[s1.w.conns[e].input].connection == Some(e);
      }
    }
  }

  /** `createConnection` keeps the graph invariant, whatever the check says:
      in particular no two connections of the graph share an input. */
  lemma CreateConnectionValid(s: Sys, c: ConnRef, checked: bool)
    requires GValid(s) && c in s.w.conns
    ensures GValid(CreateConnectionSpec(s, c, checked))
  {
    AttachValid(s, c);
    DeleteConnectionValid(Attach(s, c), c);
  }

  /** Under the graph invariant each input carries at most one connection of
      the graph. */
  lemma OneConnectionPerInput(s: Sys, c: ConnRef, d: ConnRef)
    requires GValid(s) && c in s.connections && d in s.connections
    requires s.w.conns[c].input == s.w.conns[d].input
    ensures c == d
  {
  }

  /** A reshaping keeps every input's source node: each input's new source
      is its old one, except at input `i`. */
  lemma SourcesAgree(w0: Wiring, w1: Wiring, i: InputRef)
    requires Reshaped(w0, w1) && SlotsAgree(w0, w1, i)
    ensures forall x :: x != i ==> SourceNode(w1, x) == SourceNode(w0, x)
  {
    forall x | x != i ensures SourceNode(w1, x) == SourceNode(w0, x) {
      if x in w0.inputs { assert w1.inputs[x].connection == w0.inputs[x].connection; }
    }
  }

  /** Removing or keeping sources keeps a numbering valid. */
  lemma RankedMono(w0: Wiring, w1: Wiring, r: map<NodeRef, nat>)
    requires Ranked(w0, r) && Reshaped(w0, w1)
    requires forall x :: SourceNode(w1, x).Some? ==> SourceNode(w1, x) == SourceNode(w0, x)
    ensures Ranked(w1, r)
  {
    forall n | n in r ensures w1.nodes[n].inputs == w0.nodes[n].inputs {
      assert w1.nodes[n] == w0.nodes[n].(connections := w1.nodes[n].connections);
    }
  }

  /** `m` is reached upstream from a node feeding `u` without passing `u`. */
  ghost predicate ReachedFrom(w: Wiring, u: NodeRef, m: NodeRef)
  {
    exists p :: Walk(w, u, p) && Feeds(w, p[0], u) && p[|p| - 1] == m
  }

  /** Extending a reaching path by one upstream step. */
  lemma ReachedStep(w: Wiring, u: NodeRef, n: NodeRef, m: NodeRef)
    requires ReachedFrom(w, u, n) && n != u && Feeds(w, m, n)
    ensures ReachedFrom(w, u, m)
  {
    var p :| Walk(w, u, p) && Feeds(w, p[0], u) && p[|p| - 1] == n;
    var q := p + [m];
    assert Walk(w, u, q) by {
      forall j | 0 <= j < |q| - 1 ensures q[j] != u && Feeds(w, q[j + 1], q[j]) {
        if j < |p| - 1 { assert q[j] == p[j] && q[j + 1] == p[j + 1]; }
      }
    }
  }

  /** Feeding input `x` of `n` with `SourceNode(x) == Some(m)` is a `Feeds`. */
  lemma FeedsAt(w: Wiring, n: NodeRef, k: int, m: NodeRef)
    requires n in w.nodes && 0 <= k < |w.nodes[n].inputs| && SourceNode(w, w.nodes[n].inputs[k]) == Some(m)
    ensures Feeds(w, m, n)
  {
  }

  /** The numbering `createConnection` keeps when the new connection from
      `u` is accepted: the nodes above `u` (and `u`) keep their numbers, all
      others move above `u`. */
  ghost function Shifted(w: Wiring, r: map<NodeRef, nat>, u: NodeRef): (r2: map<NodeRef, nat>)
    requires u in r
    ensures r2.Keys == r.Keys
  {
    map m | m in r :: if m == u || ReachedFrom(w, u, m) then r[m] else r[m] + r[u] + 1
  }

  /** Filling input `i` with a connection from `u` keeps the arena ranked
      when `u` lies on no cycle afterwards. */
  lemma ShiftRanked(w0: Wiring, w1: Wiring, r: map<NodeRef, nat>, u: NodeRef, i: InputRef)
    returns (r2: map<NodeRef, nat>)
    requires w0.Valid() && Ranked(w0, r) && u in r && Reshaped(w0, w1) && i in w0.inputs
    requires forall x :: x != i ==> SourceNode(w1, x) == SourceNode(w0, x)
    requires SourceNode(w1, i) == Some(u)
    requires !CycleThrough(w1, u)
    ensures r2.Keys == r.Keys && Ranked(w1, r2)
  {
    var v := w0.inputs[i].node;
    SameInputs(w0, w1, r);
    if v.None? || v.value !in r {
      r2 := r;
      forall n, k | n in r && 0 <= k < |w1.nodes[n].inputs|
        ensures w1.nodes[n].inputs[k] != i
      {
        assert w0.inputs[w0.nodes[n].inputs[k]].node == Some(n);
      }
      return;
    }
    r2 := Shifted(w1, r, u);
    forall n, k | n in r2 && 0 <= k < |w1.nodes[n].inputs| && SourceNode(w1, w1.nodes[n].inputs[k]).Some?
      ensures var m := SourceNode(w1, w1.nodes[n].inputs[k]).value; m in r2 && r2[m] < r2[n]
    {
      ShiftEdge(w0, w1, r, u, i, n, k);
    }
  }

  lemma SameInputs(w0: Wiring, w1: Wiring, r: map<NodeRef, nat>)
    requires Reshaped(w0, w1) && forall n :: n in r ==> n in w0.nodes
    ensures forall n :: n in r ==> w1.nodes[n].inputs == w0.nodes[n].inputs
  {
    forall n | n in r ensures w1.nodes[n].inputs == w0.nodes[n].inputs {
      assert w1.nodes[n] == w0.nodes[n].(connections := w1.nodes[n].connections);
    }
  }

  /** One connection of the reshaped arena respects the shifted numbering. */
  lemma ShiftEdge(w0: Wiring, w1: Wiring, r: map<NodeRef, nat>, u: NodeRef, i: InputRef, n: NodeRef, k: int)
    requires w0.Valid() && Ranked(w0, r) && u in r && Reshaped(w0, w1) && i in w0.inputs
    requires forall x :: x != i ==> SourceNode(w1, x) == SourceNode(w0, x)
    requires SourceNode(w1, i) == Some(u)
    requires !CycleThrough(w1, u)
    requires w0.inputs[i].node.Some? && w0.inputs[i].node.value in r
    requires n in r && w1.nodes[n].inputs == w0.nodes[n].inputs
    requires 0 <= k < |w1.nodes[n].inputs| && SourceNode(w1, w1.nodes[n].inputs[k]).Some?
    ensures var m := SourceNode(w1, w1.nodes[n].inputs[k]).value;
      var r2 := Shifted(w1, r, u); m in r2 && r2[m] < r2[n]
  {
    var x := w1.nodes[n].inputs[k];
    var m := SourceNode(w1, x).value;
    FeedsAt(w1, n, k, m);
    if x == i {
      assert w0.inputs[w0.nodes[n].inputs[k]].node == Some(n);
      assert m == u;
    } else {
      assert SourceNode(w0, w0.nodes[n].inputs[k]) == Some(m);
      assert m in r && r[m] < r[n];
    }
    ShiftedFeeds(w1, r, u, m, n);
  }

  /** An edge `m -> n` that was ranked upwards, or that leaves `u` itself,
      climbs under the shifted numbering when `u` lies on no cycle. */
  lemma ShiftedFeeds(w: Wiring, r: map<NodeRef, nat>, u: NodeRef, m: NodeRef, n: NodeRef)
    requires u in r && m in r && n in r && Feeds(w, m, n) && !CycleThrough(w, u)
    requires m == u || r[m] < r[n]
    ensures var r2 := Shifted(w, r, u); r2[m] < r2[n]
  {
    var r2 := Shifted(w, r, u);
    if m == u {
      if n == u {
        assert Walk(w, u, [u]);
        assert false;
      } else if ReachedFrom(w, u, n) {
        ReachedStep(w, u, n, u);
        assert false;
      } else {
        assert r2[m] == r[u] && r2[n] == r[n] + r[u] + 1;
      }
    } else if n == u {
      assert Walk(w, u, [m]) && [m][0] == m;
      assert ReachedFrom(w, u, m);
      assert r2[m] == r[m] && r2[n] == r[n];
    } else if ReachedFrom(w, u, n) {
      ReachedStep(w, u, n, m);
      assert r2[m] == r[m] && r2[n] == r[n];
    } else {
      assert r2[n] == r[n] + r[u] + 1;
    }
  }

  /** The numbering under which `checkNode(u)` terminates right after a
      connection from `u` was attached: `u` first, every other ranked node
      one above its old number. */
  ghost function CheckRankFor(r: map<NodeRef, nat>, u: NodeRef): (rk: map<NodeRef, nat>)
    ensures rk.Keys == r.Keys
  {
    map n | n in r :: if n == u then 0 else r[n] + 1
  }

  lemma CheckReadyAfter(w0: Wiring, w1: Wiring, r: map<NodeRef, nat>, u: NodeRef, i: InputRef)
    requires Ranked(w0, r) && u in r && Reshaped(w0, w1) && w1.Valid()
    requires forall x :: x != i ==> SourceNode(w1, x) == SourceNode(w0, x)
    requires SourceNode(w1, i) == Some(u)
    ensures CheckReady(w1, u, CheckRankFor(r, u))
  {
    forall n | n in r ensures w1.nodes[n].inputs == w0.nodes[n].inputs {
      assert w1.nodes[n] == w0.nodes[n].(connections := w1.nodes[n].connections);
    }
  }

  /** The source node of the new connection's input after `Attach`. */
  lemma AttachSources(s: Sys, c: ConnRef)
    requires Wf(s) && c in s.w.conns
    ensures var w1 := Attach(s, c).w; var i := s.w.conns[c].input;
      && (forall x :: x != i ==> SourceNode(w1, x) == SourceNode(s.w, x))
      && SourceNode(w1, i) == s.w.outputs[s.w.conns[c].output].node
  {
    SourcesAgree(s.w, Attach(s, c).w, s.w.conns[c].input);
  }

  /** `createConnection` with the check keeps the graph acyclic: a numbering
      of an upstream-closed set of nodes that includes the connection's
      source node survives, renumbered, on the same set. */
  lemma CreateConnectionRanked(s: Sys, c: ConnRef, r: map<NodeRef, nat>) returns (r2: map<NodeRef, nat>)
    requires Wf(s) && c in s.w.conns && Ranked(s.w, r)
    requires s.w.outputs[s.w.conns[c].output].node.Some? ==> s.w.outputs[s.w.conns[c].output].node.value in r
    ensures r2.Keys == r.Keys && Ranked(CreateConnectionSpec(s, c, true).w, r2)
  {
    var u := s.w.outputs[s.w.conns[c].output].node;
    AttachSources(s, c);
    if Rejected(s, c, true) {
      RejectedRanked(s, c, r);
      r2 := r;
    } else if u.None? {
      RankedMono(s.w, Attach(s, c).w, r);
      r2 := r;
    } else {
      r2 := ShiftRanked(s.w, Attach(s, c).w, r, u.value, s.w.conns[c].input);
    }
  }

  /** A rejected connection leaves only sources that were already there. */
  lemma RejectedRanked(s: Sys, c: ConnRef, r: map<NodeRef, nat>)
    requires Wf(s) && c in s.w.conns && Ranked(s.w, r) && Rejected(s, c, true)
    ensures Ranked(CreateConnectionSpec(s, c, true).w, r)
  {
    var s3 := Attach(s, c);
    var r3 := DeleteConnectionSpec(s3, c);
    assert CreateConnectionSpec(s, c, true) == r3;
    AttachSources(s, c);
    DetachedRanked(s.w, s3.w, r3.w, r, s.w.conns[c].input);
  }

  lemma DetachedRanked(w0: Wiring, w1: Wiring, w2: Wiring, r: map<NodeRef, nat>, i: InputRef)
    requires Ranked(w0, r) && Reshaped(w0, w1) && Reshaped(w1, w2) && SlotsAgree(w1, w2, i)
    requires forall x :: x != i ==> SourceNode(w1, x) == SourceNode(w0, x)
    requires i in w2.inputs && w2.inputs[i].connection == None
    ensures Ranked(w2, r)
  {
    SourcesAgree(w1, w2, i);
    ReshapedTrans(w0, w1, w2);
    RankedMono(w0, w2, r);
  }

  /** `node.connections.forEach(c => createConnection(c))` from position `k`:
      JavaScript's `forEach` visits positions below the length `len` the list
      had when the loop began, each time reading the list as it is then (it may
      have shrunk or shifted meanwhile). */
  ghost function ForEachConn(s: Sys, n: NodeRef, k: nat, len: nat, checked: bool): (r: Sys)
    requires Wf(s) && n in s.w.nodes && k <= len
    ensures Wf(r) && Reshaped(s.w, r.w)
    ensures r.nodes == s.nodes && r.active == s.active && r.selected == s.selected
    decreases len - k
  {
    if k == len then s
    else if k < |s.w.nodes[n].connections| then
      var s1 := CreateConnectionSpec(s, s.w.nodes[n].connections[k], checked);
      var r := ForEachConn(s1, n, k + 1, len, checked);
      ReshapedTrans(s.w, s1.w, r.w);
      r
    else ForEachConn(s, n, k + 1, len, checked)
  }

  /** `createNode(n)`: append `n` to the node list, then create each
      connection in `n`'s list. */
  ghost function CreateNodeSpec(s: Sys, n: NodeRef, checked: bool): (r: Sys)
    requires Wf(s) && n in s.w.nodes
    ensures Wf(r) && Reshaped(s.w, r.w)
    ensures r.nodes == s.nodes + [n] && r.active == s.active && r.selected == s.selected
  {
    ForEachConn(s.(nodes := s.nodes + [n]), n, 0, |s.w.nodes[n].connections|, checked)
  }

  /** `cs.forEach(c => deleteConnection(c))` over a fixed list. */
  function DeleteAll(s: Sys, cs: seq<ConnRef>): (r: Sys)
    requires Wf(s)
    ensures Wf(r) && Reshaped(s.w, r.w) && ListsShrink(s.w, r.w)
    ensures r.nodes == s.nodes && r.active == s.active && r.selected == s.selected
    ensures forall d :: d in r.connections ==> d in s.connections
    decreases |cs|
  {
    if cs == [] then s
    else
      var s1 := DeleteConnectionSpec(s, cs[0]);
      var r := DeleteAll(s1, cs[1..]);
      ReshapedTrans(s.w, s1.w, r.w);
      ListsShrinkTrans(s.w, s1.w, r.w);
      r
  }

  lemma ListsShrinkTrans(w0: Wiring, w1: Wiring, w2: Wiring)
    requires w1.nodes.Keys == w0.nodes.Keys && w2.nodes.Keys == w1.nodes.Keys
    requires ListsShrink(w0, w1) && ListsShrink(w1, w2)
    ensures ListsShrink(w0, w2)
  {
  }

  /** The graph invariant survives a series of deletions, and exactly the
      listed connections leave the graph. */
  lemma DeleteAllValid(s: Sys, cs: seq<ConnRef>)
    requires GValid(s)
    ensures GValid(DeleteAll(s, cs))
    ensures forall d :: d in DeleteAll(s, cs).connections <==> d in s.connections && d !in cs
    decreases |cs|
  {
    if cs != [] {
      DeleteConnectionValid(s, cs[0]);
      DeleteAllValid(DeleteConnectionSpec(s, cs[0]), cs[1..]);
      assert forall d :: d in cs <==> d == cs[0] || d in cs[1..];
    }
  }

  /** `deleteNode(n)`: delete the connections in (a copy of) `n`'s list, then
      drop `n` from the node list and the selection and clear `activeNode` if
      it was `n`. */
  function DeleteNodeSpec(s: Sys, n: NodeRef): (r: Sys)
    requires Wf(s) && n in s.w.nodes
    ensures Wf(r) && Reshaped(s.w, r.w)
  {
    var s1 := DeleteAll(s, s.w.nodes[n].connections);
    s1.(nodes := RemoveFirst(s1.nodes, n),
        active := if s1.active == Some(n) then None else s1.active,
        selected := RemoveFirst(s1.selected, n))
  }

  /** After `deleteNode(n)` none of `n`'s connections is in the graph, `n`
      is neither active nor selected nor in the node list (the lists being
      duplicate-free), and every other node and connection stays. */
  lemma DeleteNodeEffect(s: Sys, n: NodeRef)
    requires Wf(s) && n in s.w.nodes
    ensures var r := DeleteNodeSpec(s, n);
      && r.active != Some(n)
      && (NoDup(s.nodes) ==> n !in r.nodes && NoDup(r.nodes))
      && (NoDup(s.selected) ==> n !in r.selected && NoDup(r.selected))
      && (forall m :: m != n ==> (m in r.nodes <==> m in s.nodes))
      && (forall m :: m != n ==> (m in r.selected <==> m in s.selected))
      && (GValid(s) ==>
            (GValid(r) && forall d :: d in r.connections <==> d in s.connections && d !in s.w.nodes[n].connections))
  {
    var s1 := DeleteAll(s, s.w.nodes[n].connections);
    if NoDup(s.nodes) { RemoveFirstNoDup(s.nodes, n); }
    if NoDup(s.selected) { RemoveFirstNoDup(s.selected, n); }
    forall m | m != n ensures (m in RemoveFirst(s.nodes, n) <==> m in s.nodes) && (m in RemoveFirst(s.selected, n) <==> m in s.selected) {
      RemoveFirstKeeps(s.nodes, n, m);
      RemoveFirstKeeps(s.selected, n, m);
    }
    if GValid(s) { DeleteAllValid(s, s.w.nodes[n].connections); }
  }

  /** `deleteNodes(ns)`: `deleteNode` for each node of a copy of `ns`. */
  function DeleteNodesSpec(s: Sys, ns: seq<NodeRef>): (r: Sys)
    requires Wf(s) && forall n :: n in ns ==> n in s.w.nodes
    ensures Wf(r) && Reshaped(s.w, r.w)
    decreases |ns|
  {
    if ns == [] then s
    else
      var s1 := DeleteNodeSpec(s, ns[0]);
      var r := DeleteNodesSpec(s1, ns[1..]);
      ReshapedTrans(s.w, s1.w, r.w);
      r
  }

  /** Because `deleteNodes` works on a copy, every listed node leaves the
      graph, even when the list is the selection itself; other nodes stay. */
  lemma {:induction false} DeleteNodesEffect(s: Sys, ns: seq<NodeRef>)
    requires Wf(s) && (forall n :: n in ns ==> n in s.w.nodes) && NoDup(s.nodes) && NoDup(s.selected)
    ensures var r := DeleteNodesSpec(s, ns);
      && NoDup(r.nodes) && NoDup(r.selected)
      && (forall n :: n in ns ==> n !in r.nodes && n !in r.selected && r.active != Some(n))
      && (forall m :: m !in ns ==> (m in r.nodes <==> m in s.nodes) && (m in r.selected <==> m in s.selected))
    decreases |ns|
  {
    if ns != [] {
      var s1 := DeleteNodeSpec(s, ns[0]);
      DeleteNodeEffect(s, ns[0]);
      DeleteNodesEffect(s1, ns[1..]);
      NotReinserted(s1, ns[1..], ns[0]);
      assert forall n :: n in ns <==> n == ns[0] || n in ns[1..];
    }
  }

  /** `deleteNodes` keeps the graph invariant. */
  lemma {:induction false} DeleteNodesValid(s: Sys, ns: seq<NodeRef>)
    requires GValid(s) && forall n :: n in ns ==> n in s.w.nodes
    ensures GValid(DeleteNodesSpec(s, ns))
    decreases |ns|
  {
    if ns != [] {
      DeleteNodeEffect(s, ns[0]);
      DeleteNodesValid(DeleteNodeSpec(s, ns[0]), ns[1..]);
    }
  }

  /** Deleting further nodes never brings a node back. */
  lemma NotReinserted(s: Sys, ns: seq<NodeRef>, n: NodeRef)
    requires Wf(s) && (forall m :: m in ns ==> m in s.w.nodes)
    requires n !in s.nodes && n !in s.selected && s.active != Some(n)
    ensures var r := DeleteNodesSpec(s, ns); n !in r.nodes && n !in r.selected && r.active != Some(n)
    decreases |ns|
  {
    if ns != [] {
      var s1 := DeleteNodeSpec(s, ns[0]);
      DeleteNodeEffect(s, ns[0]);
      RemoveFirstSubset(s.nodes, ns[0]);
      RemoveFirstSubset(s.selected, ns[0]);
      NotReinserted(s1, ns[1..], n);
    }
  }

  /** `selectNode(n)`: add `n` to the selection unless already there. */
  function SelectNodeSpec(sel: seq<NodeRef>, n: NodeRef): (r: seq<NodeRef>)
    ensures n in r && sel <= r
    ensures forall m :: m in r <==> m in sel || m == n
    ensures NoDup(sel) ==> NoDup(r)
  {
    if n in sel then sel else sel + [n]
  }

  /** `selectNode` is idempotent. */
  lemma SelectNodeIdempotent(sel: seq<NodeRef>, n: NodeRef)
    ensures SelectNodeSpec(SelectNodeSpec(sel, n), n) == SelectNodeSpec(sel, n)
  {
  }

  /** `selectNodes(ns)`: `selectNode` for each node of `ns`, in order. */
  function SelectNodesSpec(sel: seq<NodeRef>, ns: seq<NodeRef>): (r: seq<NodeRef>)
    ensures sel <= r
    ensures forall m :: m in r <==> m in sel || m in ns
    ensures NoDup(sel) ==> NoDup(r)
    decreases |ns|
  {
    if ns == [] then sel
    else
      assert forall m :: m in ns <==> m == ns[0] || m in ns[1..];
      SelectNodesSpec(SelectNodeSpec(sel, ns[0]), ns[1..])
  }

  /** Selecting the same nodes again changes nothing. */
  lemma {:induction false} SelectNodesIdempotent(sel: seq<NodeRef>, ns: seq<NodeRef>)
    requires forall m :: m in ns ==> m in sel
    ensures SelectNodesSpec(sel, ns) == sel
    decreases |ns|
  {
    if ns != [] {
      assert ns[0] in sel;
      SelectNodesIdempotent(sel, ns[1..]);
    }
  }

  /** The nodes listed in `ns` that are not yet in `sel`, in first-occurrence
      order. */
  function NewOnes(sel: seq<NodeRef>, ns: seq<NodeRef>): seq<NodeRef>
    decreases |ns|
  {
    if ns == [] then []
    else if ns[0] in sel then NewOnes(sel, ns[1..])
    else [ns[0]] + NewOnes(sel + [ns[0]], ns[1..])
  }

  /** `selectNodes` keeps the old selection in place and appends the new
      nodes in the order they are first listed. */
  lemma {:induction false} SelectNodesAppends(sel: seq<NodeRef>, ns: seq<NodeRef>)
    ensures SelectNodesSpec(sel, ns) == sel + NewOnes(sel, ns)
    decreases |ns|
  {
    if ns != [] {
      var x, rest := ns[0], ns[1..];
      assert SelectNodesSpec(sel, ns) == SelectNodesSpec(SelectNodeSpec(sel, x), rest);
      if x in sel {
        assert SelectNodeSpec(sel, x) == sel;
        assert NewOnes(sel, ns) == NewOnes(sel, rest);
        SelectNodesAppends(sel, rest);
      } else {
        assert SelectNodeSpec(sel, x) == sel + [x];
        var t := NewOnes(sel + [x], rest);
        assert NewOnes(sel, ns) == [x] + t;
        SelectNodesAppends(sel + [x], rest);
        assert (sel + [x]) + t == sel + ([x] + t);
      }
    }
  }

  /** `recalculate()`: empty the connection list, then for each node in
      order re-create the connections in its (live) list. */
  ghost function RecalculateSpec(s: Sys, checked: bool): (r: Sys)
    requires Wf(s) && forall n :: n in s.nodes ==> n in s.w.nodes
    ensures Wf(r) && Reshaped(s.w, r.w) && r.nodes == s.nodes
  {
    RecalcFrom(s.(connections := []), 0, checked)
  }

  /** The node loop of `recalculate` from position `k`. */
  ghost function RecalcFrom(s: Sys, k: nat, checked: bool): (r: Sys)
    requires Wf(s) && k <= |s.nodes| && forall n :: n in s.nodes ==> n in s.w.nodes
    ensures Wf(r) && Reshaped(s.w, r.w) && r.nodes == s.nodes
    decreases |s.nodes| - k
  {
    if k == |s.nodes| then s
    else
      var n := s.nodes[k];
      var s1 := ForEachConn(s, n, 0, |s.w.nodes[n].connections|, checked);
      var r := RecalcFrom(s1, k + 1, checked);
      ReshapedTrans(s.w, s1.w, r.w);
      r
  }

  /** Every node of the arena is numbered by an upstream-closed numbering:
      the connections form no cycle. */
  ghost predicate Acyclic(w: Wiring, r: map<NodeRef, nat>) {
    Ranked(w, r) && forall n :: n in w.nodes ==> n in r
  }

  /** Deleting a connection keeps any numbering valid. */
  lemma DeleteConnectionRanked(s: Sys, c: ConnRef, r: map<NodeRef, nat>)
    requires Wf(s) && Ranked(s.w, r)
    ensures Ranked(DeleteConnectionSpec(s, c).w, r)
  {
    if c in s.connections {
      var w1 := DeleteConnectionSpec(s, c).w;
      SourcesAgree(s.w, w1, s.w.conns[c].input);
      RankedMono(s.w, w1, r);
    }
  }

  /** `createConnection` with the check keeps the arena acyclic. */
  lemma CreateConnectionAcyclic(s: Sys, c: ConnRef, r: map<NodeRef, nat>) returns (r2: map<NodeRef, nat>)
    requires Wf(s) && c in s.w.conns && Acyclic(s.w, r)
    ensures r2.Keys == r.Keys && Acyclic(CreateConnectionSpec(s, c, true).w, r2)
  {
    r2 := CreateConnectionRanked(s, c, r);
  }

  /** Walking a node's list with `createConnection` keeps the graph
      invariant. */
  lemma {:induction false} ForEachConnValid(s: Sys, n: NodeRef, k: nat, len: nat, checked: bool)
    requires GValid(s) && n in s.w.nodes && k <= len
    ensures GValid(ForEachConn(s, n, k, len, checked))
    decreases len - k
  {
    if k < len {
      if k < |s.w.nodes[n].connections| {
        var c := s.w.nodes[n].connections[k];
        var s1 := CreateConnectionSpec(s, c, checked);
        assert ForEachConn(s, n, k, len, checked) == ForEachConn(s1, n, k + 1, len, checked);
        CreateConnectionValid(s, c, checked);
        ForEachConnValid(s1, n, k + 1, len, checked);
      } else {
        assert ForEachConn(s, n, k, len, checked) == ForEachConn(s, n, k + 1, len, checked);
        ForEachConnValid(s, n, k + 1, len, checked);
      }
    }
  }

  /** ... and, with the check, keeps the arena acyclic. */
  lemma {:induction false} ForEachConnAcyclic(s: Sys, n: NodeRef, k: nat, len: nat, r: map<NodeRef, nat>)
    returns (r2: map<NodeRef, nat>)
    requires Wf(s) && n in s.w.nodes && k <= len && Acyclic(s.w, r)
    ensures r2.Keys == r.Keys && Acyclic(ForEachConn(s, n, k, len, true).w, r2)
    decreases len - k
  {
    if k == len {
      r2 := r;
    } else if k < |s.w.nodes[n].connections| {
      var c := s.w.nodes[n].connections[k];
      var r1 := CreateConnectionAcyclic(s, c, r);
      r2 := ForEachConnAcyclic(CreateConnectionSpec(s, c, true), n, k + 1, len, r1);
    } else {
      r2 := ForEachConnAcyclic(s, n, k + 1, len, r);
    }
  }

  /** `createNode` keeps the graph invariant. */
  lemma CreateNodeValid(s: Sys, n: NodeRef, checked: bool)
    requires GValid(s) && n in s.w.nodes
    ensures GValid(CreateNodeSpec(s, n, checked))
  {
    ForEachConnValid(s.(nodes := s.nodes + [n]), n, 0, |s.w.nodes[n].connections|, checked);
  }

  /** `createNode` with the check keeps the arena acyclic. */
  lemma CreateNodeAcyclic(s: Sys, n: NodeRef, r: map<NodeRef, nat>) returns (r2: map<NodeRef, nat>)
    requires Wf(s) && n in s.w.nodes && Acyclic(s.w, r)
    ensures r2.Keys == r.Keys && Acyclic(CreateNodeSpec(s, n, true).w, r2)
  {
    r2 := ForEachConnAcyclic(s.(nodes := s.nodes + [n]), n, 0, |s.w.nodes[n].connections|, r);
  }

  /** A series of deletions keeps any numbering valid. */
  lemma {:induction false} DeleteAllRanked(s: Sys, cs: seq<ConnRef>, r: map<NodeRef, nat>)
    requires Wf(s) && Ranked(s.w, r)
    ensures Ranked(DeleteAll(s, cs).w, r)
    decreases |cs|
  {
    if cs != [] {
      DeleteConnectionRanked(s, cs[0], r);
      DeleteAllRanked(DeleteConnectionSpec(s, cs[0]), cs[1..], r);
    }
  }

  /** Deleting nodes keeps any numbering valid; the nodes stay in the arena. */
  lemma {:induction false} DeleteNodesRanked(s: Sys, ns: seq<NodeRef>, r: map<NodeRef, nat>)
    requires Wf(s) && (forall n :: n in ns ==> n in s.w.nodes) && Ranked(s.w, r)
    ensures Ranked(DeleteNodesSpec(s, ns).w, r)
    decreases |ns|
  {
    if ns != [] {
      DeleteAllRanked(s, s.w.nodes[ns[0]].connections, r);
      DeleteNodesRanked(DeleteNodeSpec(s, ns[0]), ns[1..], r);
    }
  }

  /** `recalculate` restores the graph invariant from any well-formed state,
      whatever its connection list held before. */
  lemma RecalculateValid(s: Sys, checked: bool)
    requires Wf(s) && forall n :: n in s.nodes ==> n in s.w.nodes
    ensures GValid(RecalculateSpec(s, checked))
  {
    RecalcFromValid(s.(connections := []), 0, checked);
  }

  lemma {:induction false} RecalcFromValid(s: Sys, k: nat, checked: bool)
    requires GValid(s) && k <= |s.nodes| && forall n :: n in s.nodes ==> n in s.w.nodes
    ensures GValid(RecalcFrom(s, k, checked))
    decreases |s.nodes| - k
  {
    if k < |s.nodes| {
      var n := s.nodes[k];
      ForEachConnValid(s, n, 0, |s.w.nodes[n].connections|, checked);
      RecalcFromValid(ForEachConn(s, n, 0, |s.w.nodes[n].connections|, checked), k + 1, checked);
    }
  }

  /** `recalculate` with the check keeps the arena acyclic. */
  lemma RecalculateAcyclic(s: Sys, r: map<NodeRef, nat>) returns (r2: map<NodeRef, nat>)
    requires Wf(s) && (forall n :: n in s.nodes ==> n in s.w.nodes) && Acyclic(s.w, r)
    ensures r2.Keys == r.Keys && Acyclic(RecalculateSpec(s, true).w, r2)
  {
    r2 := RecalcFromAcyclic(s.(connections := []), 0, r);
  }

  lemma {:induction false} RecalcFromAcyclic(s: Sys, k: nat, r: map<NodeRef, nat>) returns (r2: map<NodeRef, nat>)
    requires Wf(s) && k <= |s.nodes| && (forall n :: n in s.nodes ==> n in s.w.nodes) && Acyclic(s.w, r)
    ensures r2.Keys == r.Keys && Acyclic(RecalcFrom(s, k, true).w, r2)
    decreases |s.nodes| - k
  {
    if k == |s.nodes| {
      r2 := r;
    } else {
      var n := s.nodes[k];
      var r1 := ForEachConnAcyclic(s, n, 0, |s.w.nodes[n].connections|, r);
      r2 := RecalcFromAcyclic(ForEachConn(s, n, 0, |s.w.nodes[n].connections|, true), k + 1, r1);
    }
  }

  /** `d` is in the connection list of one of the graph's nodes in `s0`. */
  ghost predicate Listed(s0: Sys, d: ConnRef) {
    exists n :: n in s0.nodes && n in s0.w.nodes && d in s0.w.nodes[n].connections
  }

  /** Every list entry of `s` was in the same list in `s0` or is listed
      there, and so is every connection of the graph. */
  ghost predicate FromLists(s0: Sys, s: Sys)
    requires s.w.nodes.Keys == s0.w.nodes.Keys
  {
    && s.nodes == s0.nodes
    && (forall m, d :: m in s.w.nodes && d in s.w.nodes[m].connections ==> d in s0.w.nodes[m].connections || Listed(s0, d))
    && (forall d :: d in s.connections ==> Listed(s0, d))
  }

  lemma {:induction false} ForEachConnFromLists(s0: Sys, s: Sys, n: NodeRef, k: nat, len: nat, checked: bool)
    requires Wf(s) && n in s.nodes && n in s.w.nodes && k <= len
    requires s.w.nodes.Keys == s0.w.nodes.Keys && FromLists(s0, s)
    ensures ForEachConn(s, n, k, len, checked).w.nodes.Keys == s0.w.nodes.Keys
    ensures FromLists(s0, ForEachConn(s, n, k, len, checked))
    decreases len - k
  {
    if k < len {
      if k < |s.w.nodes[n].connections| {
        var c := s.w.nodes[n].connections[k];
        assert Listed(s0, c);
        ForEachConnFromLists(s0, CreateConnectionSpec(s, c, checked), n, k + 1, len, checked);
      } else {
        ForEachConnFromLists(s0, s, n, k + 1, len, checked);
      }
    }
  }

  lemma {:induction false} RecalcFromLists(s0: Sys, s: Sys, k: nat, checked: bool)
    requires Wf(s) && k <= |s.nodes| && (forall n :: n in s.nodes ==> n in s.w.nodes)
    requires s.w.nodes.Keys == s0.w.nodes.Keys && FromLists(s0, s)
    ensures FromLists(s0, RecalcFrom(s, k, checked))
    decreases |s.nodes| - k
  {
    if k < |s.nodes| {
      var n := s.nodes[k];
      var s1 := ForEachConn(s, n, 0, |s.w.nodes[n].connections|, checked);
      ForEachConnFromLists(s0, s, n, 0, |s.w.nodes[n].connections|, checked);
      assert s1.nodes == s.nodes && s1.w.nodes.Keys == s.w.nodes.Keys;
      RecalcFromLists(s0, s1, k + 1, checked);
      assert RecalcFrom(s, k, checked) == RecalcFrom(s1, k + 1, checked);
    }
  }

  /** After `recalculate` every connection of the graph came from the
      connection list of one of its nodes. */
  lemma RecalculateFromLists(s: Sys, checked: bool)
    requires Wf(s) && forall n :: n in s.nodes ==> n in s.w.nodes
    ensures forall d :: d in RecalculateSpec(s, checked).connections ==> Listed(s, d)
  {
    RecalcFromLists(s, s.(connections := []), 0, checked);
  }

  /** The nodes the graph lists, selects or activates exist in the arena. */
  ghost predicate Registered(s: Sys) {
    && (forall n :: n in s.nodes ==> n in s.w.nodes)
    && (forall n :: n in s.selected ==> n in s.w.nodes)
    && (s.active.Some? ==> s.active.value in s.w.nodes)
  }

  /** Registration survives any step that keeps the graph's node fields and
      the arena's nodes. */
  lemma RegisteredFrame(s: Sys, r: Sys)
    requires Registered(s) && r.w.nodes.Keys == s.w.nodes.Keys
    requires r.nodes == s.nodes && r.selected == s.selected && r.active == s.active
    ensures Registered(r)
  {
  }

  /** `node?.addConnection(connection)` on the arena. */
  method PushOnto(arena: Arena, n: Option<NodeRef>, c: ConnRef)
    requires arena.Valid() && c in arena.wiring.conns && (n.Some? ==> n.value in arena.wiring.nodes)
    modifies arena`wiring
    ensures arena.Valid() && arena.wiring == PushTo(old(arena.wiring), n, c)
  {
    if n.Some? {
      arena.AddConnection(n.value, c);
    }
  }

  /** `Link` on the arena. */
  method LinkOn(arena: Arena, c: ConnRef)
    requires arena.Valid() && c in arena.wiring.conns
    modifies arena`wiring
    ensures arena.Valid() && arena.wiring == Link(old(arena.wiring), c)
  {
    var cc := arena.wiring.conns[c];
    PushOnto(arena, arena.wiring.inputs[cc.input].node, c);
    PushOnto(arena, arena.wiring.outputs[cc.output].node, c);
    arena.SetSlot(cc.input, Some(c));
  }

  /** `node?.deleteConnection(connection)` on the arena. */
  method DropOff(arena: Arena, n: Option<NodeRef>, c: ConnRef)
    requires arena.Valid() && (n.Some? ==> n.value in arena.wiring.nodes)
    modifies arena`wiring
    ensures arena.Valid() && arena.wiring == DropFrom(old(arena.wiring), n, c)
  {
    if n.Some? {
      arena.DeleteConnection(n.value, c);
    }
  }

  /** A graph over the shared arena.  `engine` is the engine of the graph's
      editor (`editor?.engine`): null for a graph without one, such as the
      clipboard's, whose connections are then never checked for cycles. */
  class Graph {
    var nodes: seq<NodeRef>
    var connections: seq<ConnRef>
    var activeNode: Option<NodeRef>
    var selectedNodes: seq<NodeRef>
    const arena: Arena
    const engine: Engine?

    /** The graph's fields together with the arena's wiring. */
    ghost function State(): Sys
      reads this, arena
    {
      Sys(nodes, connections, activeNode, selectedNodes, arena.wiring)
    }

    ghost predicate Valid()
      reads this, arena
    {
      arena.Valid() && Wf(State()) && Registered(State())
    }

    constructor (arena: Arena, engine: Engine?)
      requires arena.Valid() && SlotsMatch(arena.wiring)
      ensures Valid() && this.arena == arena && this.engine == engine
      ensures nodes == [] && connections == [] && activeNode == None && selectedNodes == []
    {
      this.arena := arena;
      this.engine := engine;
      nodes := [];
      connections := [];
      activeNode := None;
      selectedNodes := [];
    }

    /** `deleteConnection(connection)` */
    method DeleteConnection(c: ConnRef)
      requires Valid()
      modifies this`connections, arena`wiring
      ensures Valid() && State() == DeleteConnectionSpec(old(State()), c)
    {
      ghost var s := State();
      if c in connections {
        var cc := arena.wiring.conns[c];
        DropOff(arena, arena.wiring.inputs[cc.input].node, c);
        DropOff(arena, arena.wiring.outputs[cc.output].node, c);
        arena.SetSlot(cc.input, None);
        var index := IndexOf(connections, c);
        if index > -1 {
          connections := connections[..index] + connections[index + 1..];
        }
        assert State() == DeleteConnectionSpec(s, c);
        RegisteredFrame(s, State());
      }
    }

    /** The first part of `createConnection(connection)`: free the input,
        register the connection with both endpoint nodes, fill the input and
        add the connection to the graph's list if absent. */
    method AttachConnection(c: ConnRef)
      requires Valid() && c in arena.wiring.conns
      modifies this`connections, arena`wiring
      ensures Valid() && State() == Attach(old(State()), c)
    {
      ghost var s := State();
      var cc := arena.wiring.conns[c];
      var slot := arena.wiring.inputs[cc.input].connection;
      if slot.Some? {
        DeleteConnection(slot.value);
      }
      assert State() == Free(s, cc.input);
      LinkConnection(c);
      assert State() == Attach(s, c);
      RegisteredFrame(s, State());
    }

    /** The rest of the first part of `createConnection(connection)`:
        register `c` with both endpoint nodes, fill its input and list it
        if absent. */
    method LinkConnection(c: ConnRef)
      requires arena.Valid() && c in arena.wiring.conns
      modifies this`connections, arena`wiring
      ensures arena.Valid()
      ensures State() == old(State()).(w := Link(old(arena.wiring), c),
                                       connections := if c in old(connections) then old(connections) else old(connections) + [c])
    {
      LinkOn(arena, c);
      if c !in connections {
        connections := connections + [c];
      }
    }

    /** `createConnection(connection)`.  With an engine, an arena that was
        acyclic stays acyclic (`r2` numbers it afterwards). */
    method CreateConnection(c: ConnRef, ghost rank: map<NodeRef, nat>) returns (ghost r2: map<NodeRef, nat>)
      requires Valid() && c in arena.wiring.conns
      requires engine != null ==> Acyclic(arena.wiring, rank)
      modifies this`connections, arena`wiring
      ensures Valid() && State() == CreateConnectionSpec(old(State()), c, engine != null)
      ensures engine != null ==> r2.Keys == rank.Keys && Acyclic(arena.wiring, r2)
    {
      ghost var s := State();
      r2 := rank;
      AttachConnection(c);
      ghost var s3 := State();
      if engine != null {
        r2 := CreateConnectionAcyclic(s, c, rank);
      }
      var outNode := arena.wiring.outputs[arena.wiring.conns[c].output].node;
      if outNode.None? {
        return;
      }
      if engine != null {
        ghost var rk := CheckRankFor(rank, outNode.value);
        AttachSources(s, c);
        CheckReadyAfter(s.w, s3.w, rank, outNode.value, s.w.conns[c].input);
        var recursion := engine.CheckNode(arena, outNode.value, rk);
        ClosesCycleIff(s3.w, outNode.value, rk);
        if recursion {
          DeleteConnection(c);
        }
      }
    }

    /** `node.connections.forEach(connection => this.createConnection(connection))` */
    method CreateListed(n: NodeRef, ghost rank: map<NodeRef, nat>) returns (ghost r2: map<NodeRef, nat>)
      requires Valid() && n in arena.wiring.nodes
      requires engine != null ==> Acyclic(arena.wiring, rank)
      modifies this`connections, arena`wiring
      ensures Valid()
      ensures State() == ForEachConn(old(State()), n, 0, |old(arena.wiring.nodes[n].connections)|, engine != null)
      ensures engine != null ==> r2.Keys == rank.Keys && Acyclic(arena.wiring, r2)
    {
      ghost var s0 := State();
      r2 := rank;
      var len := |arena.wiring.nodes[n].connections|;
      var k := 0;
      while k < len
        invariant 0 <= k <= len && Valid() && n in arena.wiring.nodes
        invariant ForEachConn(State(), n, k, len, engine != null) == ForEachConn(s0, n, 0, len, engine != null)
        invariant engine != null ==> r2.Keys == rank.Keys && Acyclic(arena.wiring, r2)
      {
        if k < |arena.wiring.nodes[n].connections| {
          r2 := CreateConnection(arena.wiring.nodes[n].connections[k], r2);
        }
        k := k + 1;
      }
    }

    /** `createNode(node)` */
    method CreateNode(n: NodeRef, ghost rank: map<NodeRef, nat>) returns (ghost r2: map<NodeRef, nat>)
      requires Valid() && n in arena.wiring.nodes
      requires engine != null ==> Acyclic(arena.wiring, rank)
      modifies this`nodes, this`connections, arena`wiring
      ensures Valid() && State() == CreateNodeSpec(old(State()), n, engine != null)
      ensures engine != null ==> r2.Keys == rank.Keys && Acyclic(arena.wiring, r2)
    {
      nodes := nodes + [n];
      r2 := CreateListed(n, rank);
    }

    /** `cs.forEach(connection => this.deleteConnection(connection))` */
    method DeleteEach(cs: seq<ConnRef>)
      requires Valid()
      modifies this`connections, arena`wiring
      ensures Valid() && State() == DeleteAll(old(State()), cs)
    {
      ghost var s0 := State();
      var k := 0;
      while k < |cs|
        invariant 0 <= k <= |cs| && Valid()
        invariant DeleteAll(State(), cs[k..]) == DeleteAll(s0, cs)
      {
        assert cs[k..][1..] == cs[k + 1..];
        DeleteConnection(cs[k]);
        k := k + 1;
      }
    }

    /** `deleteNode(node)`: the connections of a copy of its list go first. */
    method DeleteNode(n: NodeRef)
      requires Valid() && n in arena.wiring.nodes
      modifies this`nodes, this`connections, this`activeNode, this`selectedNodes, arena`wiring
      ensures Valid() && State() == DeleteNodeSpec(old(State()), n)
    {
      ghost var s0 := State();
      DeleteEach(arena.wiring.nodes[n].connections);
      ghost var s1 := State();
      var index := IndexOf(nodes, n);
      if index > -1 {
        nodes := nodes[..index] + nodes[index + 1..];
      }
      if activeNode == Some(n) {
        activeNode := None;
      }
      index := IndexOf(selectedNodes, n);
      if index > -1 {
        selectedNodes := selectedNodes[..index] + selectedNodes[index + 1..];
      }
      RemoveFirstSubset(s1.nodes, n);
      RemoveFirstSubset(s1.selected, n);
      assert State() == DeleteNodeSpec(s0, n);
    }

    /** `deleteNodes(nodes)`: over a copy of the list, which in Dafny is the
        value passed in. */
    method DeleteNodes(ns: seq<NodeRef>)
      requires Valid() && forall n :: n in ns ==> n in arena.wiring.nodes
      modifies this`nodes, this`connections, this`activeNode, this`selectedNodes, arena`wiring
      ensures Valid() && State() == DeleteNodesSpec(old(State()), ns)
    {
      ghost var s0 := State();
      var k := 0;
      while k < |ns|
        invariant 0 <= k <= |ns| && Valid() && arena.wiring.nodes.Keys == s0.w.nodes.Keys
        invariant DeleteNodesSpec(State(), ns[k..]) == DeleteNodesSpec(s0, ns)
      {
        assert ns[k..][1..] == ns[k + 1..];
        DeleteNode(ns[k]);
        k := k + 1;
      }
    }

    /** `activateNode(node)` */
    method ActivateNode(n: NodeRef)
      requires Valid() && n in arena.wiring.nodes
      modifies this`activeNode
      ensures Valid() && State() == old(State()).(active := Some(n))
    {
      DeactivateNode();
      activeNode := Some(n);
    }

    /** `deactivateNode()` */
    method DeactivateNode()
      requires Valid()
      modifies this`activeNode
      ensures Valid() && State() == old(State()).(active := None)
    {
      if activeNode.Some? {
        activeNode := None;
      }
    }

    /** `selectNode(node)` */
    method SelectNode(n: NodeRef)
      requires Valid() && n in arena.wiring.nodes
      modifies this`selectedNodes
      ensures Valid() && State() == old(State()).(selected := SelectNodeSpec(old(selectedNodes), n))
    {
      if n !in selectedNodes {
        selectedNodes := selectedNodes + [n];
      }
    }

    /** `selectNodes(nodes)` */
    method SelectNodes(ns: seq<NodeRef>)
      requires Valid() && forall n :: n in ns ==> n in arena.wiring.nodes
      modifies this`selectedNodes
      ensures Valid() && State() == old(State()).(selected := SelectNodesSpec(old(selectedNodes), ns))
    {
      var k := 0;
      while k < |ns|
        invariant 0 <= k <= |ns| && Valid() && State() == old(State()).(selected := selectedNodes)
        invariant SelectNodesSpec(selectedNodes, ns[k..]) == SelectNodesSpec(old(selectedNodes), ns)
      {
        assert ns[k..][1..] == ns[k + 1..];
        SelectNode(ns[k]);
        k := k + 1;
      }
    }

    /** `selectAllNodes()` */
    method SelectAllNodes()
      requires Valid()
      modifies this`selectedNodes
      ensures Valid() && State() == old(State()).(selected := SelectNodesSpec(old(selectedNodes), nodes))
    {
      SelectNodes(nodes);
    }

    /** `deselectNodes()` */
    method DeselectNodes()
      requires Valid()
      modifies this`selectedNodes
      ensures Valid() && State() == old(State()).(selected := [])
    {
      selectedNodes := [];
    }

    /** `recalculate()` */
    method Recalculate(ghost rank: map<NodeRef, nat>) returns (ghost r2: map<NodeRef, nat>)
      requires Valid()
      requires engine != null ==> Acyclic(arena.wiring, rank)
      modifies this`connections, arena`wiring
      ensures Valid() && State() == RecalculateSpec(old(State()), engine != null)
      ensures engine != null ==> r2.Keys == rank.Keys && Acyclic(arena.wiring, r2)
    {
      connections := [];
      assert State() == old(State()).(connections := []);
      r2 := RecreateListed(rank);
    }

    /** The node loop of `recalculate()`: `createConnection` for each entry
        of each node's list, node by node. */
    method RecreateListed(ghost rank: map<NodeRef, nat>) returns (ghost r2: map<NodeRef, nat>)
      requires Valid()
      requires engine != null ==> Acyclic(arena.wiring, rank)
      modifies this`connections, arena`wiring
      ensures Valid() && State() == RecalcFrom(old(State()), 0, engine != null)
      ensures engine != null ==> r2.Keys == rank.Keys && Acyclic(arena.wiring, r2)
    {
      ghost var s1 := State();
      r2 := rank;
      var k := 0;
      while k < |nodes|
        invariant 0 <= k <= |nodes| && Valid() && nodes == s1.nodes
        invariant RecalcFrom(State(), k, engine != null) == RecalcFrom(s1, 0, engine != null)
        invariant engine != null ==> r2.Keys == rank.Keys && Acyclic(arena.wiring, r2)
      {
        r2 := RecalcNext(k, s1, r2);
        k := k + 1;
      }
      assert RecalcFrom(State(), k, engine != null) == State();
    }

    /** One step of the node loop of `recalculate()`: re-create the
        connections listed by the `k`-th node. */
    method RecalcNext(k: nat, ghost s1: Sys, ghost rank: map<NodeRef, nat>) returns (ghost r2: map<NodeRef, nat>)
      requires Valid() && k < |nodes| && nodes == s1.nodes
      requires Wf(s1) && forall n :: n in s1.nodes ==> n in s1.w.nodes
      requires RecalcFrom(State(), k, engine != null) == RecalcFrom(s1, 0, engine != null)
      requires engine != null ==> Acyclic(arena.wiring, rank)
      modifies this`connections, arena`wiring
      ensures Valid() && nodes == s1.nodes
      ensures RecalcFrom(State(), k + 1, engine != null) == RecalcFrom(s1, 0, engine != null)
      ensures engine != null ==> r2.Keys == rank.Keys && Acyclic(arena.wiring, r2)
    {
      ghost var sk := State();
      r2 := CreateListed(nodes[k], rank);
      assert State() == ForEachConn(sk, sk.nodes[k], 0, |sk.w.nodes[sk.nodes[k]].connections|, engine != null);
    }
  }
}
