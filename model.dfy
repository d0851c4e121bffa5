/** The editor's object graph as an arena. Nodes, input sockets, output
    sockets and connections are records addressed by references; every field
    the source reads through an object reference (`input.node`,
    `input.connection`, `connection.output`, `node.inputs`, ...) is a field of
    the record stored under that reference.  The memo cell of each output
    (`output.value = {index, value}`) is kept in its own map, because it is the
    only thing evaluation writes. */
module Model {
  import opened Base

  datatype NodeRef = NodeRef(id: nat)
  datatype InputRef = InputRef(id: nat)
  datatype OutputRef = OutputRef(id: nat)
  datatype ConnRef = ConnRef(id: nat)

  /** Socket values are untyped at this layer; output functions give them
      meaning.  `Undefined` is what `calculateOutput` returns for an output
      that belongs to no node. */
  datatype Value = Undefined | Null | Bool(b: bool) | Num(n: int) | Str(s: string) | List(items: seq<Value>)

  /** The user-supplied computation of an output, left uninterpreted. */
  type OutputFn = seq<Value> -> Value

  datatype InputSpec = InputSpec(name: string, defaultValue: Value)
  datatype OutputSpec = OutputSpec(name: string, fn: OutputFn)

  /** A node class: the name and the fixed socket layout its constructor
      builds.  Cloning instantiates the class of the original. */
  datatype NodeType = NodeType(name: string, inputs: seq<InputSpec>, outputs: seq<OutputSpec>)

  /** `config.defaultNodeWidth`. */
  const DefaultNodeWidth: int := 120

  datatype InputRec = InputRec(name: string, value: Value, defaultValue: Value,
                               connection: Option<ConnRef>, node: Option<NodeRef>)
  datatype OutputRec = OutputRec(name: string, fn: OutputFn, node: Option<NodeRef>)
  /** `new Connection(output, input)`: immutable once built. */
  datatype Conn = Conn(output: OutputRef, input: InputRef)
  /** A node: its class, name, sockets in order, the local connection list
      (which may hold the same connection more than once) and the parts of
      `nodeBox` the core uses. */
  datatype NodeRec = NodeRec(kind: NodeType, name: string, inputs: seq<InputRef>,
                             outputs: seq<OutputRef>, connections: seq<ConnRef>,
                             pos: (int, int), width: int, collapsed: bool)

  /** One evaluation result: the epoch it was computed in and the value. */
  datatype Memo = Memo(index: int, value: Value)

  /** `collapse(collapse?)`: the new `nodeBox.collapsed`.  Any call whose
      argument is not literally `true` toggles, except that it cannot expand
      an expanded node. */
  function CollapseStep(collapsed: bool, arg: Option<bool>): (r: bool)
    ensures arg == None ==> r == !collapsed
    ensures arg == Some(true) ==> r
    ensures arg == Some(false) ==> r == !collapsed
  {
    if arg == Some(true) || !collapsed then true else false
  }

  datatype Wiring = Wiring(nodes: map<NodeRef, NodeRec>, inputs: map<InputRef, InputRec>,
                           outputs: map<OutputRef, OutputRec>, conns: map<ConnRef, Conn>)
  {
    /** No dangling reference, and every socket's `node` back-reference names
        the node whose socket list holds it (and no other node holds it). */
    ghost predicate Valid() {
      && (forall n, k :: n in nodes && 0 <= k < |nodes[n].inputs| ==>
            nodes[n].inputs[k] in inputs && inputs[nodes[n].inputs[k]].node == Some(n))
      && (forall n, k :: n in nodes && 0 <= k < |nodes[n].outputs| ==>
            nodes[n].outputs[k] in outputs && outputs[nodes[n].outputs[k]].node == Some(n))
      && (forall n, k :: n in nodes && 0 <= k < |nodes[n].connections| ==>
            nodes[n].connections[k] in conns)
      && (forall i :: i in inputs && inputs[i].node.Some? ==>
            inputs[i].node.value in nodes && i in nodes[inputs[i].node.value].inputs)
      && (forall i :: i in inputs && inputs[i].connection.Some? ==> inputs[i].connection.value in conns)
      && (forall o :: o in outputs && outputs[o].node.Some? ==>
            outputs[o].node.value in nodes && o in nodes[outputs[o].node.value].outputs)
      && (forall c :: c in conns ==> conns[c].output in outputs && conns[c].input in inputs)
    }

    /** The node an input belongs to (`input.node`), if any. */
    function InputNode(i: InputRef): Option<NodeRef>
      requires i in inputs
    {
      inputs[i].node
    }

    /** The node an output belongs to (`output.node`), if any. */
    function OutputNode(o: OutputRef): Option<NodeRef>
      requires o in outputs
    {
      outputs[o].node
    }

    /** `node.inputs.push(input); input.node = node` */
    function AddInput(n: NodeRef, i: InputRef): Wiring
      requires n in nodes && i in inputs
    {
      this.(nodes := nodes[n := nodes[n].(inputs := nodes[n].inputs + [i])],
            inputs := inputs[i := inputs[i].(node := Some(n))])
    }

    /** `node.outputs.push(output); output.node = node` */
    function AddOutput(n: NodeRef, o: OutputRef): Wiring
      requires n in nodes && o in outputs
    {
      this.(nodes := nodes[n := nodes[n].(outputs := nodes[n].outputs + [o])],
            outputs := outputs[o := outputs[o].(node := Some(n))])
    }

    /** `node.connections.push(connection)`, even when already present. */
    function AddConnection(n: NodeRef, c: ConnRef): Wiring
      requires n in nodes
    {
      this.(nodes := nodes[n := nodes[n].(connections := nodes[n].connections + [c])])
    }

    /** `Node.deleteConnection`: drop the first occurrence, if any. */
    function DeleteConnection(n: NodeRef, c: ConnRef): Wiring
      requires n in nodes
    {
      this.(nodes := nodes[n := nodes[n].(connections := RemoveFirst(nodes[n].connections, c))])
    }

    /** `input.connection = slot` */
    function SetSlot(i: InputRef, slot: Option<ConnRef>): Wiring
      requires i in inputs
    {
      this.(inputs := inputs[i := inputs[i].(connection := slot)])
    }

    /** `input.setValue(v)` (and the plain assignment `input.value = v`). */
    function SetValue(i: InputRef, v: Value): Wiring
      requires i in inputs
    {
      this.(inputs := inputs[i := inputs[i].(value := v)])
    }

    function SetName(n: NodeRef, name: string): Wiring
      requires n in nodes
    {
      this.(nodes := nodes[n := nodes[n].(name := name)])
    }

    function Collapse(n: NodeRef, arg: Option<bool>): Wiring
      requires n in nodes
    {
      this.(nodes := nodes[n := nodes[n].(collapsed := CollapseStep(nodes[n].collapsed, arg))])
    }

    /** `newNode.nodeBox.pos = [...]; newNode.nodeBox.width = ...` */
    function SetBox(n: NodeRef, pos: (int, int), width: int): Wiring
      requires n in nodes
    {
      this.(nodes := nodes[n := nodes[n].(pos := pos, width := width)])
    }
  }

  /** `addInput` appends the socket as the last input, points its back-reference
      at the node, leaves the earlier inputs in place and, for a socket that
      belongs to no node yet, keeps the arena consistent. */
  lemma AddInputSpec(w: Wiring, n: NodeRef, i: InputRef)
    requires w.Valid() && n in w.nodes && i in w.inputs && w.inputs[i].node == None
    ensures var r := w.AddInput(n, i);
      && r.Valid()
      && |r.nodes[n].inputs| == |w.nodes[n].inputs| + 1
      && r.nodes[n].inputs[|w.nodes[n].inputs|] == i
      && r.nodes[n].inputs[..|w.nodes[n].inputs|] == w.nodes[n].inputs
      && r.inputs[i].node == Some(n)
  {
    var r := w.AddInput(n, i);
    forall m, k | m in r.nodes && 0 <= k < |r.nodes[m].inputs|
      ensures r.nodes[m].inputs[k] in r.inputs && r.inputs[r.nodes[m].inputs[k]].node == Some(m)
    {
      if m == n && k == |w.nodes[n].inputs| {
      } else {
        var j := r.nodes[m].inputs[k];
        assert j == w.nodes[m].inputs[k];
        assert j != i;
      }
    }
  }

  /** `addOutput` appends the socket as the last output and points its
      back-reference at the node, keeping the arena consistent. */
  lemma AddOutputSpec(w: Wiring, n: NodeRef, o: OutputRef)
    requires w.Valid() && n in w.nodes && o in w.outputs && w.outputs[o].node == None
    ensures var r := w.AddOutput(n, o);
      && r.Valid()
      && |r.nodes[n].outputs| == |w.nodes[n].outputs| + 1
      && r.nodes[n].outputs[|w.nodes[n].outputs|] == o
      && r.nodes[n].outputs[..|w.nodes[n].outputs|] == w.nodes[n].outputs
      && r.outputs[o].node == Some(n)
  {
    var r := w.AddOutput(n, o);
    forall m, k | m in r.nodes && 0 <= k < |r.nodes[m].outputs|
      ensures r.nodes[m].outputs[k] in r.outputs && r.outputs[r.nodes[m].outputs[k]].node == Some(m)
    {
      if m == n && k == |w.nodes[n].outputs| {
      } else {
        var j := r.nodes[m].outputs[k];
        assert j == w.nodes[m].outputs[k];
        assert j != o;
      }
    }
  }

  /** `Node.addConnection` appends even a connection already in the list, so
      the number of its occurrences goes up by exactly one. */
  lemma NodeAddConnectionSpec(w: Wiring, n: NodeRef, c: ConnRef)
    requires w.Valid() && n in w.nodes && c in w.conns
    ensures var r := w.AddConnection(n, c);
      && r.Valid()
      && r.nodes[n].connections == w.nodes[n].connections + [c]
      && multiset(r.nodes[n].connections)[c] == multiset(w.nodes[n].connections)[c] + 1
  {
  }

  /** `Node.deleteConnection` takes out exactly one occurrence of `c` (none if
      absent) and keeps the order of the rest. */
  lemma NodeDeleteConnectionSpec(w: Wiring, n: NodeRef, c: ConnRef)
    requires w.Valid() && n in w.nodes
    ensures var r := w.DeleteConnection(n, c);
      && r.Valid()
      && (c !in w.nodes[n].connections ==> r == w)
      && multiset(r.nodes[n].connections) == multiset(w.nodes[n].connections) - multiset{c}
  {
    RemoveFirstMultiset(w.nodes[n].connections, c);
    ListDeleteValid(w, n, c);
    if c !in w.nodes[n].connections {
      assert w.nodes[n := w.nodes[n]] == w.nodes;
    }
  }

  /** Removing a list entry keeps the arena consistent. */
  lemma ListDeleteValid(w: Wiring, n: NodeRef, c: ConnRef)
    requires w.Valid() && n in w.nodes
    ensures w.DeleteConnection(n, c).Valid()
  {
    var r := w.DeleteConnection(n, c);
    RemoveFirstSubset(w.nodes[n].connections, c);
    forall m, k | m in r.nodes && 0 <= k < |r.nodes[m].connections|
      ensures r.nodes[m].connections[k] in r.conns
    {
      assert r.nodes[m].connections[k] in w.nodes[m].connections;
    }
    ValidFrame(w, r);
  }

  /** Consistency depends only on the socket lists, the back-references, the
      connection slots and the connection records: a write that keeps those (and
      puts only existing connections in node lists) keeps the arena consistent. */
  lemma ValidFrame(w: Wiring, r: Wiring)
    requires w.Valid()
    requires r.nodes.Keys == w.nodes.Keys && r.inputs.Keys == w.inputs.Keys
    requires r.outputs.Keys == w.outputs.Keys && r.conns == w.conns
    requires forall n :: n in r.nodes ==> r.nodes[n].inputs == w.nodes[n].inputs && r.nodes[n].outputs == w.nodes[n].outputs
    requires forall n, k :: n in r.nodes && 0 <= k < |r.nodes[n].connections| ==> r.nodes[n].connections[k] in r.conns
    requires forall i :: i in r.inputs ==> r.inputs[i].node == w.inputs[i].node && r.inputs[i].connection == w.inputs[i].connection
    requires forall o :: o in r.outputs ==> r.outputs[o].node == w.outputs[o].node
    ensures r.Valid()
  {
  }

  /** Writing an input's connection slot keeps the arena consistent as long as
      the slot names an existing connection. */
  lemma SetSlotValid(w: Wiring, i: InputRef, slot: Option<ConnRef>)
    requires w.Valid() && i in w.inputs && (slot.Some? ==> slot.value in w.conns)
    ensures w.SetSlot(i, slot).Valid()
  {
  }

  /** Every reference stored in the arena is below `next`, so references built
      from `next` upward are fresh. */
  ghost predicate Below(w: Wiring, next: nat) {
    && (forall n :: n in w.nodes ==> n.id < next)
    && (forall i :: i in w.inputs ==> i.id < next)
    && (forall o :: o in w.outputs ==> o.id < next)
    && (forall c :: c in w.conns ==> c.id < next)
  }

  /** `w1` only adds records to `w0`: every record of `w0` is still there,
      unchanged. */
  ghost predicate Extends(w0: Wiring, w1: Wiring) {
    && (forall n :: n in w0.nodes ==> n in w1.nodes && w1.nodes[n] == w0.nodes[n])
    && (forall i :: i in w0.inputs ==> i in w1.inputs && w1.inputs[i] == w0.inputs[i])
    && (forall o :: o in w0.outputs ==> o in w1.outputs && w1.outputs[o] == w0.outputs[o])
    && (forall c :: c in w0.conns ==> c in w1.conns && w1.conns[c] == w0.conns[c])
  }

  /** Everything a constructor under way keeps: `w` is `w0` plus the new
      node `n` and sockets of its own, every new input is free. */
  ghost predicate Growing(w0: Wiring, w: Wiring, n: NodeRef) {
    && n !in w0.nodes && n in w.nodes && w.nodes.Keys == w0.nodes.Keys + {n} && Extends(w0, w)
    && (forall j :: 0 <= j < |w.nodes[n].inputs| ==> w.nodes[n].inputs[j] !in w0.inputs)
    && (forall j :: 0 <= j < |w.nodes[n].outputs| ==> w.nodes[n].outputs[j] !in w0.outputs)
    && (forall i :: i in w.inputs && i !in w0.inputs ==> w.inputs[i].connection == None)
  }

  /** A node still has exactly the sockets its class's constructor gave it. */
  ghost predicate HasLayout(w: Wiring, n: NodeRef)
    requires n in w.nodes
  {
    |w.nodes[n].inputs| == |w.nodes[n].kind.inputs| && |w.nodes[n].outputs| == |w.nodes[n].kind.outputs|
  }

  /** Node `n` of class `t` as its constructor leaves it after its first `ni`
      inputs and first `no` outputs: the class's name, these sockets in layout
      order (each owned by `n`, holding its default value, unconnected) and
      the default node box. */
  ghost predicate Built(w: Wiring, n: NodeRef, t: NodeType, ni: nat, no: nat)
  {
    && n in w.nodes
    && var r := w.nodes[n];
    && r.kind == t && r.name == t.name && r.connections == []
    && r.pos == (0, 0) && r.width == DefaultNodeWidth && !r.collapsed
    && |r.inputs| == ni <= |t.inputs| && |r.outputs| == no <= |t.outputs|
    && NoDup(r.inputs)
    && (forall k :: 0 <= k < ni ==>
          (r.inputs[k] in w.inputs &&
           w.inputs[r.inputs[k]] == InputRec(t.inputs[k].name, t.inputs[k].defaultValue,
                                             t.inputs[k].defaultValue, None, Some(n))))
    && (forall k :: 0 <= k < no ==>
          (r.outputs[k] in w.outputs &&
           w.outputs[r.outputs[k]] == OutputRec(t.outputs[k].name, t.outputs[k].fn, Some(n))))
  }

  /** What the constructor of node class `t` leaves behind for node `n`. */
  ghost predicate Constructed(w: Wiring, n: NodeRef, t: NodeType)
  {
    Built(w, n, t, |t.inputs|, |t.outputs|)
  }

  /** One `this.input(...)` step of a constructor: a fresh input with the
      layout's k-th name and default, attached to `n`, extends the build. */
  lemma BuiltAddInput(w: Wiring, n: NodeRef, t: NodeType, k: nat, i: InputRef)
    requires Built(w, n, t, k, 0) && k < |t.inputs| && i !in w.inputs
    ensures var rec := InputRec(t.inputs[k].name, t.inputs[k].defaultValue, t.inputs[k].defaultValue, None, None);
      Built(w.(inputs := w.inputs[i := rec]).AddInput(n, i), n, t, k + 1, 0)
  {
    var rec := InputRec(t.inputs[k].name, t.inputs[k].defaultValue, t.inputs[k].defaultValue, None, None);
    var w1 := w.(inputs := w.inputs[i := rec]).AddInput(n, i);
    assert w1.nodes[n].inputs == w.nodes[n].inputs + [i];
    forall j | 0 <= j < k + 1
      ensures w1.nodes[n].inputs[j] in w1.inputs &&
              w1.inputs[w1.nodes[n].inputs[j]] == InputRec(t.inputs[j].name, t.inputs[j].defaultValue,
                                                           t.inputs[j].defaultValue, None, Some(n))
    {
      if j < k { assert w1.nodes[n].inputs[j] == w.nodes[n].inputs[j] != i; }
    }
  }

  /** One `this.output(...)` step of a constructor. */
  lemma BuiltAddOutput(w: Wiring, n: NodeRef, t: NodeType, k: nat, o: OutputRef)
    requires Built(w, n, t, |t.inputs|, k) && k < |t.outputs| && o !in w.outputs
    ensures var rec := OutputRec(t.outputs[k].name, t.outputs[k].fn, None);
      Built(w.(outputs := w.outputs[o := rec]).AddOutput(n, o), n, t, |t.inputs|, k + 1)
  {
    var rec := OutputRec(t.outputs[k].name, t.outputs[k].fn, None);
    var w1 := w.(outputs := w.outputs[o := rec]).AddOutput(n, o);
    assert w1.nodes[n].outputs == w.nodes[n].outputs + [o];
    forall j | 0 <= j < k + 1
      ensures w1.nodes[n].outputs[j] in w1.outputs &&
              w1.outputs[w1.nodes[n].outputs[j]] == OutputRec(t.outputs[j].name, t.outputs[j].fn, Some(n))
    {
      if j < k { assert w1.nodes[n].outputs[j] == w.nodes[n].outputs[j] != o; }
    }
  }

  /** Attaching a fresh input to a node created after `w0` keeps every record
      of `w0` and keeps that node's inputs fresh with respect to `w0`. */
  lemma ExtendsAddInput(w0: Wiring, w: Wiring, n: NodeRef, i: InputRef, rec: InputRec)
    requires Extends(w0, w) && n in w.nodes && n !in w0.nodes && i !in w.inputs
    requires forall j :: 0 <= j < |w.nodes[n].inputs| ==> w.nodes[n].inputs[j] !in w0.inputs
    ensures var w1 := w.(inputs := w.inputs[i := rec]).AddInput(n, i);
      && Extends(w0, w1) && w1.nodes.Keys == w.nodes.Keys
      && forall j :: 0 <= j < |w1.nodes[n].inputs| ==> w1.nodes[n].inputs[j] !in w0.inputs
  {
    var w1 := w.(inputs := w.inputs[i := rec]).AddInput(n, i);
    assert w1.nodes[n].inputs == w.nodes[n].inputs + [i];
  }

  /** Attaching a fresh output, likewise. */
  lemma ExtendsAddOutput(w0: Wiring, w: Wiring, n: NodeRef, o: OutputRef, rec: OutputRec)
    requires Extends(w0, w) && n in w.nodes && n !in w0.nodes && o !in w.outputs
    requires forall j :: 0 <= j < |w.nodes[n].outputs| ==> w.nodes[n].outputs[j] !in w0.outputs
    ensures var w1 := w.(outputs := w.outputs[o := rec]).AddOutput(n, o);
      && Extends(w0, w1) && w1.nodes.Keys == w.nodes.Keys
      && w1.nodes[n].inputs == w.nodes[n].inputs
      && forall j :: 0 <= j < |w1.nodes[n].outputs| ==> w1.nodes[n].outputs[j] !in w0.outputs
  {
    var w1 := w.(outputs := w.outputs[o := rec]).AddOutput(n, o);
    assert w1.nodes[n].outputs == w.nodes[n].outputs + [o];
  }

  /** The heap.  Methods of this class are the field writes and allocations
      the source performs on node, socket and connection objects. */
  class Arena {
    var wiring: Wiring
    var memo: map<OutputRef, Memo>
    var next: nat

    ghost predicate Valid()
      reads this
    {
      wiring.Valid() && Below(wiring, next)
    }

    constructor ()
      ensures Valid() && wiring == Wiring(map[], map[], map[], map[]) && memo == map[]
    {
      wiring := Wiring(map[], map[], map[], map[]);
      memo := map[];
      next := 0;
    }

    /** `new Input(name, defaultValue)`: a fresh socket holding its default,
        unconnected and owned by no node. */
    method NewInput(name: string, defaultValue: Value) returns (i: InputRef)
      requires Valid()
      modifies this`wiring, this`next
      ensures Valid() && old(next) <= next && i !in old(wiring.inputs)
      ensures wiring == old(wiring).(inputs := old(wiring.inputs)[i := InputRec(name, defaultValue, defaultValue, None, None)])
    {
      i := InputRef(next);
      wiring := wiring.(inputs := wiring.inputs[i := InputRec(name, defaultValue, defaultValue, None, None)]);
      next := next + 1;
    }

    /** `new Output(name, fn)`: a fresh socket owned by no node. */
    method NewOutput(name: string, fn: OutputFn) returns (o: OutputRef)
      requires Valid()
      modifies this`wiring, this`next
      ensures Valid() && old(next) <= next && o !in old(wiring.outputs)
      ensures wiring == old(wiring).(outputs := old(wiring.outputs)[o := OutputRec(name, fn, None)])
    {
      o := OutputRef(next);
      wiring := wiring.(outputs := wiring.outputs[o := OutputRec(name, fn, None)]);
      next := next + 1;
    }

    /** `new Connection(output, input)`: registered nowhere yet. */
    method NewConnection(o: OutputRef, i: InputRef) returns (c: ConnRef)
      requires Valid() && o in wiring.outputs && i in wiring.inputs
      modifies this`wiring, this`next
      ensures Valid() && old(next) <= next && c !in old(wiring.conns)
      ensures wiring == old(wiring).(conns := old(wiring.conns)[c := Conn(o, i)])
    {
      c := ConnRef(next);
      wiring := wiring.(conns := wiring.conns[c := Conn(o, i)]);
      next := next + 1;
    }

    /** The `Node` constructor: named after its class, no sockets, no
        connections, the default node box. */
    method NewBareNode(t: NodeType) returns (n: NodeRef)
      requires Valid()
      modifies this`wiring, this`next
      ensures Valid() && old(next) <= next && n !in old(wiring.nodes)
      ensures wiring == old(wiring).(nodes := old(wiring.nodes)[n := NodeRec(t, t.name, [], [], [], (0, 0), DefaultNodeWidth, false)])
    {
      n := NodeRef(next);
      wiring := wiring.(nodes := wiring.nodes[n := NodeRec(t, t.name, [], [], [], (0, 0), DefaultNodeWidth, false)]);
      next := next + 1;
    }

    /** A node class's constructor: `super(...)`, then one `this.input(...)`
        per input and one `this.output(...)` per output of its layout, in
        order.  Everything it creates is fresh; nothing that existed changes. */
    method Instantiate(t: NodeType) returns (n: NodeRef)
      requires Valid()
      modifies this`wiring, this`next
      ensures Valid() && old(next) <= next
      ensures n !in old(wiring.nodes) && Constructed(wiring, n, t) && HasLayout(wiring, n)
      ensures Extends(old(wiring), wiring)
      ensures forall k :: 0 <= k < |wiring.nodes[n].inputs| ==> wiring.nodes[n].inputs[k] !in old(wiring.inputs)
      ensures forall k :: 0 <= k < |wiring.nodes[n].outputs| ==> wiring.nodes[n].outputs[k] !in old(wiring.outputs)
      ensures wiring.nodes.Keys == old(wiring.nodes.Keys) + {n}
      ensures forall i :: i in wiring.inputs && i !in old(wiring.inputs) ==> wiring.inputs[i].connection == None
    {
      ghost var w00 := wiring;
      n := NewBareNode(t);
      var k := 0;
      while k < |t.inputs|
        invariant 0 <= k <= |t.inputs|
        invariant Valid() && old(next) <= next
        invariant Growing(w00, wiring, n) && Built(wiring, n, t, k, 0)
      {
        PutInput(n, t, k, w00);
        k := k + 1;
      }
      k := 0;
      while k < |t.outputs|
        invariant 0 <= k <= |t.outputs|
        invariant Valid() && old(next) <= next
        invariant Growing(w00, wiring, n) && Built(wiring, n, t, |t.inputs|, k)
      {
        PutOutput(n, t, k, w00);
        k := k + 1;
      }
    }

    /** One `this.input(...)` call of a constructor: the `k`-th input of the
        layout. */
    method PutInput(n: NodeRef, t: NodeType, k: nat, ghost w00: Wiring)
      requires Valid() && Growing(w00, wiring, n) && Built(wiring, n, t, k, 0) && k < |t.inputs|
      modifies this`wiring, this`next
      ensures Valid() && old(next) <= next
      ensures Growing(w00, wiring, n) && Built(wiring, n, t, k + 1, 0)
    {
      ghost var w0 := wiring;
      var i := NewInput(t.inputs[k].name, t.inputs[k].defaultValue);
      BuiltAddInput(w0, n, t, k, i);
      ExtendsAddInput(w00, w0, n, i, wiring.inputs[i]);
      AddInput(n, i);
    }

    /** One `this.output(...)` call of a constructor: the `k`-th output of
        the layout. */
    method PutOutput(n: NodeRef, t: NodeType, k: nat, ghost w00: Wiring)
      requires Valid() && Growing(w00, wiring, n) && Built(wiring, n, t, |t.inputs|, k) && k < |t.outputs|
      modifies this`wiring, this`next
      ensures Valid() && old(next) <= next
      ensures Growing(w00, wiring, n) && Built(wiring, n, t, |t.inputs|, k + 1)
    {
      ghost var w0 := wiring;
      var o := NewOutput(t.outputs[k].name, t.outputs[k].fn);
      BuiltAddOutput(w0, n, t, k, o);
      ExtendsAddOutput(w00, w0, n, o, wiring.outputs[o]);
      AddOutput(n, o);
    }

    method AddInput(n: NodeRef, i: InputRef)
      requires Valid() && n in wiring.nodes && i in wiring.inputs && wiring.inputs[i].node == None
      modifies this`wiring
      ensures Valid() && wiring == old(wiring).AddInput(n, i)
    {
      AddInputSpec(wiring, n, i);
      wiring := wiring.AddInput(n, i);
    }

    method AddOutput(n: NodeRef, o: OutputRef)
      requires Valid() && n in wiring.nodes && o in wiring.outputs && wiring.outputs[o].node == None
      modifies this`wiring
      ensures Valid() && wiring == old(wiring).AddOutput(n, o)
    {
      AddOutputSpec(wiring, n, o);
      wiring := wiring.AddOutput(n, o);
    }

    method AddConnection(n: NodeRef, c: ConnRef)
      requires Valid() && n in wiring.nodes && c in wiring.conns
      modifies this`wiring
      ensures Valid() && wiring == old(wiring).AddConnection(n, c)
    {
      NodeAddConnectionSpec(wiring, n, c);
      wiring := wiring.AddConnection(n, c);
    }

    method DeleteConnection(n: NodeRef, c: ConnRef)
      requires Valid() && n in wiring.nodes
      modifies this`wiring
      ensures Valid() && wiring == old(wiring).DeleteConnection(n, c)
    {
      NodeDeleteConnectionSpec(wiring, n, c);
      if c in wiring.nodes[n].connections {
        var index := IndexOf(wiring.nodes[n].connections, c);
        if index > -1 {
          var cs := wiring.nodes[n].connections;
          wiring := wiring.(nodes := wiring.nodes[n := wiring.nodes[n].(connections := cs[..index] + cs[index + 1..])]);
        }
      }
    }

    method SetSlot(i: InputRef, slot: Option<ConnRef>)
      requires Valid() && i in wiring.inputs && (slot.Some? ==> slot.value in wiring.conns)
      modifies this`wiring
      ensures Valid() && wiring == old(wiring).SetSlot(i, slot)
    {
      SetSlotValid(wiring, i, slot);
      wiring := wiring.SetSlot(i, slot);
    }

    method SetValue(i: InputRef, v: Value)
      requires Valid() && i in wiring.inputs
      modifies this`wiring
      ensures Valid() && wiring == old(wiring).SetValue(i, v)
    {
      ValidFrame(wiring, wiring.SetValue(i, v));
      wiring := wiring.SetValue(i, v);
    }

    method SetName(n: NodeRef, name: string)
      requires Valid() && n in wiring.nodes
      modifies this`wiring
      ensures Valid() && wiring == old(wiring).SetName(n, name)
      ensures wiring.nodes[n].name == name
    {
      ValidFrame(wiring, wiring.SetName(n, name));
      wiring := wiring.SetName(n, name);
    }

    method Collapse(n: NodeRef, arg: Option<bool>)
      requires Valid() && n in wiring.nodes
      modifies this`wiring
      ensures Valid() && wiring == old(wiring).Collapse(n, arg)
    {
      ValidFrame(wiring, wiring.Collapse(n, arg));
      if arg == Some(true) || !wiring.nodes[n].collapsed {
        wiring := wiring.(nodes := wiring.nodes[n := wiring.nodes[n].(collapsed := true)]);
      } else {
        wiring := wiring.(nodes := wiring.nodes[n := wiring.nodes[n].(collapsed := false)]);
      }
    }

    method SetBox(n: NodeRef, pos: (int, int), width: int)
      requires Valid() && n in wiring.nodes
      modifies this`wiring
      ensures Valid() && wiring == old(wiring).SetBox(n, pos, width)
    {
      ValidFrame(wiring, wiring.SetBox(n, pos, width));
      wiring := wiring.SetBox(n, pos, width);
    }
  }
}
