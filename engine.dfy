/** The evaluation engine: pull-based evaluation of output sockets with one
    memo cell per output, invalidated by an epoch number (`engine.index`), and
    the upstream walk that detects a connection closing a cycle. */
module Engine {
  import opened Base
  import opened Model

  /** The output whose value reaches input `i` through its connection slot. */
  function Source(w: Wiring, i: InputRef): Option<OutputRef>
  {
    if i in w.inputs && w.inputs[i].connection.Some? && w.inputs[i].connection.value in w.conns
    then Some(w.conns[w.inputs[i].connection.value].output)
    else None
  }

  /** The node owning that output, if it has one. */
  function SourceNode(w: Wiring, i: InputRef): Option<NodeRef>
  {
    match Source(w, i)
    case Some(o) => if o in w.outputs then w.outputs[o].node else None
    case None => None
  }

  /** A topological numbering of an upstream-closed set of nodes: every
      connected input of a ranked node is fed by a ranked node of smaller
      rank.  Evaluation of an output of a ranked node terminates. */
  ghost predicate Ranked(w: Wiring, rank: map<NodeRef, nat>)
  {
    forall n :: n in rank ==> n in w.nodes && forall k :: 0 <= k < |w.nodes[n].inputs| ==>
      match SourceNode(w, w.nodes[n].inputs[k])
      case Some(m) => m in rank && rank[m] < rank[n]
      case None => true
  }

  /** An output is evaluable under `rank` when its node (if any) is ranked. */
  ghost predicate Covered(w: Wiring, rank: map<NodeRef, nat>, o: OutputRef)
    requires o in w.outputs
  {
    w.outputs[o].node.Some? ==> w.outputs[o].node.value in rank
  }

  ghost function Height(w: Wiring, rank: map<NodeRef, nat>, o: OutputRef): nat
    requires o in w.outputs && Covered(w, rank, o)
  {
    if w.outputs[o].node.Some? then rank[w.outputs[o].node.value] + 1 else 0
  }

  /** The value `calculateOutput` computes for `o` on a fresh epoch: an output
      without a node is `undefined`; otherwise its function applied to the
      node's inputs in order, a connected input giving the value of the output
      it is connected to and an unconnected one its own value. */
  ghost function Eval(w: Wiring, rank: map<NodeRef, nat>, o: OutputRef): Value
    requires w.Valid() && Ranked(w, rank) && o in w.outputs && Covered(w, rank, o)
    decreases Height(w, rank, o), 2
  {
    match w.outputs[o].node
    case None => Undefined
    case Some(n) => w.outputs[o].fn(Args(w, rank, n))
  }

  /** An output that belongs to no node evaluates to `undefined`. */
  lemma EvalUnowned(w: Wiring, rank: map<NodeRef, nat>, o: OutputRef)
    requires w.Valid() && Ranked(w, rank) && o in w.outputs && w.outputs[o].node.None?
    ensures Eval(w, rank, o) == Undefined
  {
  }

  /** The argument list passed to the functions of node `n`'s outputs. */
  ghost function Args(w: Wiring, rank: map<NodeRef, nat>, n: NodeRef): seq<Value>
    requires w.Valid() && Ranked(w, rank) && n in rank
    decreases rank[n] + 1, 1
  {
    seq(|w.nodes[n].inputs|, k requires 0 <= k < |w.nodes[n].inputs| =>
      InputValue(w, rank, n, w.nodes[n].inputs[k]))
  }

  /** The value one input of `n` contributes. */
  ghost function InputValue(w: Wiring, rank: map<NodeRef, nat>, n: NodeRef, i: InputRef): Value
    requires w.Valid() && Ranked(w, rank) && n in rank && i in w.nodes[n].inputs
    decreases rank[n] + 1, 0
  {
    match w.inputs[i].connection
    case Some(c) =>
      assert SourceNode(w, i) == w.outputs[w.conns[c].output].node;
      Eval(w, rank, w.conns[c].output)
    case None => w.inputs[i].value
  }

  /** `Eval` is a property of the wiring alone: any two rankings that cover
      an output give it the same value. */
  lemma {:induction false} EvalRankFree(w: Wiring, r1: map<NodeRef, nat>, r2: map<NodeRef, nat>, o: OutputRef)
    requires w.Valid() && Ranked(w, r1) && Ranked(w, r2) && o in w.outputs
    requires Covered(w, r1, o) && Covered(w, r2, o)
    ensures Eval(w, r1, o) == Eval(w, r2, o)
    decreases Height(w, r1, o)
  {
    match w.outputs[o].node
    case None =>
    case Some(n) =>
      var xs := w.nodes[n].inputs;
      forall k | 0 <= k < |xs|
        ensures InputValue(w, r1, n, xs[k]) == InputValue(w, r2, n, xs[k])
      {
        match w.inputs[xs[k]].connection
        case Some(c) =>
          assert SourceNode(w, xs[k]) == w.outputs[w.conns[c].output].node;
          EvalRankFree(w, r1, r2, w.conns[c].output);
        case None =>
      }
      assert Args(w, r1, n) == Args(w, r2, n);
  }

  /** The walk on behalf of `u` continues through input `x` unless `x`
      belongs to `u` (`input.node !== node`). */
  predicate Recurses(w: Wiring, u: NodeRef, x: InputRef)
  {
    x in w.inputs && w.inputs[x].node != Some(u)
  }

  /** A numbering under which `checkOutput`'s walk on behalf of `u`
      terminates: it recurses into the inputs of every node except `u`'s. */
  ghost predicate CheckRanked(w: Wiring, u: NodeRef, rk: map<NodeRef, nat>)
  {
    forall n :: n in rk ==> n in w.nodes && forall k :: 0 <= k < |w.nodes[n].inputs| ==>
      (Recurses(w, u, w.nodes[n].inputs[k]) ==>
        match SourceNode(w, w.nodes[n].inputs[k])
        case Some(m) => m in rk && rk[m] < rk[n]
        case None => true)
  }

  /** What `checkNode(u)` needs to terminate: the walk is ranked and the
      nodes feeding `u` are numbered. */
  ghost predicate CheckReady(w: Wiring, u: NodeRef, rk: map<NodeRef, nat>)
  {
    && CheckRanked(w, u, rk) && u in w.nodes
    && forall k :: 0 <= k < |w.nodes[u].inputs| ==>
         match SourceNode(w, w.nodes[u].inputs[k])
         case Some(m) => m in rk
         case None => true
  }

  ghost function CheckHeight(w: Wiring, rk: map<NodeRef, nat>, o: OutputRef): nat
    requires o in w.outputs && (w.outputs[o].node.Some? ==> w.outputs[o].node.value in rk)
  {
    if w.outputs[o].node.Some? then rk[w.outputs[o].node.value] + 1 else 0
  }

  /** `checkOutput(node, output)`: the nodes met walking upstream from the
      output's node, each listed after everything found above it; the walk
      does not continue past inputs that belong to `u`. */
  function CheckOutput(w: Wiring, u: NodeRef, o: OutputRef, ghost rk: map<NodeRef, nat>): (r: seq<NodeRef>)
    requires w.Valid() && CheckRanked(w, u, rk) && o in w.outputs
    requires w.outputs[o].node.Some? ==> w.outputs[o].node.value in rk
    decreases CheckHeight(w, rk, o), 1, 0
  {
    match w.outputs[o].node
    case None => []
    case Some(n) => CheckInputs(w, u, n, 0, rk) + [n]
  }

  /** The concatenated walks from inputs `k..` of node `n` (`map(...).flat()`). */
  function CheckInputs(w: Wiring, u: NodeRef, n: NodeRef, k: nat, ghost rk: map<NodeRef, nat>): (r: seq<NodeRef>)
    requires w.Valid() && CheckRanked(w, u, rk) && n in rk && k <= |w.nodes[n].inputs|
    decreases rk[n] + 1, 0, |w.nodes[n].inputs| - k
  {
    if k == |w.nodes[n].inputs| then []
    else
      var x := w.nodes[n].inputs[k];
      (if w.inputs[x].connection.Some? && Recurses(w, u, x) then
         assert SourceNode(w, x) == w.outputs[w.conns[w.inputs[x].connection.value].output].node;
         CheckOutput(w, u, w.conns[w.inputs[x].connection.value].output, rk)
       else []) + CheckInputs(w, u, n, k + 1, rk)
  }

  /** Input `j` of `u` is connected and its walk meets `u`. */
  ghost predicate Closes(w: Wiring, u: NodeRef, rk: map<NodeRef, nat>, j: int)
    requires w.Valid() && CheckReady(w, u, rk)
  {
    && 0 <= j < |w.nodes[u].inputs|
    && var x := w.nodes[u].inputs[j];
    && w.inputs[x].connection.Some?
    && assert SourceNode(w, x) == w.outputs[w.conns[w.inputs[x].connection.value].output].node;
       u in CheckOutput(w, u, w.conns[w.inputs[x].connection.value].output, rk)
  }

  /** What `checkNode(u)` returns. */
  ghost predicate ClosesCycle(w: Wiring, u: NodeRef, rk: map<NodeRef, nat>)
    requires w.Valid() && CheckReady(w, u, rk)
  {
    exists j :: Closes(w, u, rk, j)
  }

  /** Every memo stamped with the current epoch holds the value `Eval` gives. */
  ghost predicate MemoSound(w: Wiring, rank: map<NodeRef, nat>, memo: map<OutputRef, Memo>, index: int)
    requires w.Valid() && Ranked(w, rank)
  {
    forall o :: o in memo && memo[o].index == index && o in w.outputs && Covered(w, rank, o) ==>
      memo[o].value == Eval(w, rank, o)
  }

  /** Whether `o` has a memo stamped with epoch `index`. */
  predicate Current(memo: map<OutputRef, Memo>, index: int, o: OutputRef)
  {
    o in memo && memo[o].index == index
  }

  /** The functions invoked since position `since` of the log: each at most
      once, and each with a memo of the current epoch. */
  ghost predicate LogInv(calls: seq<OutputRef>, since: nat, memo: map<OutputRef, Memo>, index: int)
  {
    since <= |calls| && NoDup(calls[since..]) &&
    forall j :: since <= j < |calls| ==> Current(memo, index, calls[j])
  }

  /** Every output with a memo of the current epoch had its function
      invoked since position `since` of the log. */
  ghost predicate Logged(calls: seq<OutputRef>, since: nat, memo: map<OutputRef, Memo>, index: int)
  {
    since <= |calls| && forall p :: Current(memo, index, p) ==> p in calls[since..]
  }

  /** No memo carries epoch `now`: `Date.now()` has moved on since the last
      evaluation. */
  ghost predicate FreshEpoch(memo: map<OutputRef, Memo>, now: int)
  {
    forall o :: o in memo ==> memo[o].index != now
  }

  /** From `m0` to `m1` memos were only added or overwritten, each time for an
      output that was not current and now is, of height at most `h`. */
  ghost predicate Advanced(w: Wiring, rank: map<NodeRef, nat>, m0: map<OutputRef, Memo>,
                           m1: map<OutputRef, Memo>, index: int, h: nat)
  {
    && m0.Keys <= m1.Keys
    && forall p :: p in m1 && (p !in m0 || m1[p] != m0[p]) ==>
         && !Current(m0, index, p) && Current(m1, index, p)
         && p in w.outputs && Covered(w, rank, p) && Height(w, rank, p) <= h
  }

  lemma AdvancedTrans(w: Wiring, rank: map<NodeRef, nat>, m0: map<OutputRef, Memo>,
                      m1: map<OutputRef, Memo>, m2: map<OutputRef, Memo>, index: int, h: nat)
    requires Advanced(w, rank, m0, m1, index, h) && Advanced(w, rank, m1, m2, index, h)
    ensures Advanced(w, rank, m0, m2, index, h)
  {
  }

  /** On a fresh epoch nothing is current, so nothing needs a log entry. */
  lemma FreshLogged(calls: seq<OutputRef>, memo: map<OutputRef, Memo>, now: int)
    requires FreshEpoch(memo, now)
    ensures Logged(calls, |calls|, memo, now) && LogInv(calls, |calls|, memo, now)
  {
    assert calls[|calls|..] == [];
  }

  /** Outputs that are current were logged. */
  lemma CurrentLogged(calls: seq<OutputRef>, since: nat, memo: map<OutputRef, Memo>, index: int, os: seq<OutputRef>)
    requires Logged(calls, since, memo, index)
    requires forall j :: 0 <= j < |os| ==> Current(memo, index, os[j])
    ensures forall j :: 0 <= j < |os| ==> os[j] in calls[since..]
  {
  }

  /** How far `calculateNode(n)` has got: `values` are the first outputs'
      `Eval`s and those outputs are current, with the memo and log
      invariants kept. */
  ghost predicate NodeProgress(w: Wiring, rank: map<NodeRef, nat>, memo: map<OutputRef, Memo>, index: int,
                               calls: seq<OutputRef>, since: nat, n: NodeRef, values: seq<Value>)
    requires w.Valid() && Ranked(w, rank) && n in rank
  {
    && n in w.nodes && |values| <= |w.nodes[n].outputs|
    && MemoSound(w, rank, memo, index)
    && LogInv(calls, since, memo, index) && Logged(calls, since, memo, index)
    && forall j :: 0 <= j < |values| ==>
         && w.nodes[n].outputs[j] in w.outputs && Covered(w, rank, w.nodes[n].outputs[j])
         && values[j] == Eval(w, rank, w.nodes[n].outputs[j])
         && Current(memo, index, w.nodes[n].outputs[j])
  }

  /** An advance never takes a memo off the current epoch. */
  lemma AdvancedKeepsCurrent(w: Wiring, rank: map<NodeRef, nat>, m0: map<OutputRef, Memo>,
                             m1: map<OutputRef, Memo>, index: int, h: nat)
    requires Advanced(w, rank, m0, m1, index, h)
    ensures forall p :: Current(m0, index, p) ==> Current(m1, index, p)
  {
  }

  class Engine {
    /** `engine.index`: the current epoch. */
    var index: int
    /** Every invocation of an output's function, in order (instrumentation). */
    ghost var calls: seq<OutputRef>

    constructor()
      ensures index == 0 && calls == []
    {
      index := 0;
      calls := [];
    }

    /** `calculateOutput(output)`: the output's value on the current epoch,
        computed at most once per epoch.  A memo of the current epoch is
        returned as is; otherwise the node's inputs are evaluated in order,
        the function is applied and the result is stamped with the epoch. */
    method CalculateOutput(arena: Arena, o: OutputRef, ghost rank: map<NodeRef, nat>, ghost since: nat)
      returns (v: Value)
      requires arena.Valid() && o in arena.wiring.outputs
      requires Ranked(arena.wiring, rank) && Covered(arena.wiring, rank, o)
      requires MemoSound(arena.wiring, rank, arena.memo, index)
      requires LogInv(calls, since, arena.memo, index)
      modifies arena`memo, this`calls
      decreases Height(arena.wiring, rank, o), 2
      ensures v == Eval(arena.wiring, rank, o)
      ensures MemoSound(arena.wiring, rank, arena.memo, index)
      ensures LogInv(calls, since, arena.memo, index) && old(calls) <= calls
      ensures Advanced(arena.wiring, rank, old(arena.memo), arena.memo, index, Height(arena.wiring, rank, o))
      ensures arena.wiring.outputs[o].node.Some? ==> Current(arena.memo, index, o) && arena.memo[o].value == v
      ensures arena.wiring.outputs[o].node.None? || Current(old(arena.memo), index, o) ==>
        arena.memo == old(arena.memo) && calls == old(calls)
      ensures arena.wiring.outputs[o].node.Some? && !Current(old(arena.memo), index, o) ==> o in calls[|old(calls)|..]
      ensures old(Logged(calls, since, arena.memo, index)) ==> Logged(calls, since, arena.memo, index)
    {
      if arena.wiring.outputs[o].node.None? {
        return Undefined;
      }
      if Current(arena.memo, index, o) {
        return arena.memo[o].value;
      }
      v := Recompute(arena, o, rank, since);
    }

    /** The recomputing path of `calculateOutput`: the node's inputs are
        evaluated in order, the function is invoked on them (once, logged)
        and the result is stamped with the current epoch. */
    method Recompute(arena: Arena, o: OutputRef, ghost rank: map<NodeRef, nat>, ghost since: nat)
      returns (v: Value)
      requires arena.Valid() && o in arena.wiring.outputs && arena.wiring.outputs[o].node.Some?
      requires Ranked(arena.wiring, rank) && Covered(arena.wiring, rank, o)
      requires MemoSound(arena.wiring, rank, arena.memo, index) && !Current(arena.memo, index, o)
      requires LogInv(calls, since, arena.memo, index)
      modifies arena`memo, this`calls
      decreases Height(arena.wiring, rank, o), 1
      ensures v == Eval(arena.wiring, rank, o)
      ensures MemoSound(arena.wiring, rank, arena.memo, index)
      ensures LogInv(calls, since, arena.memo, index) && old(calls) <= calls
      ensures Advanced(arena.wiring, rank, old(arena.memo), arena.memo, index, Height(arena.wiring, rank, o))
      ensures Current(arena.memo, index, o) && arena.memo[o].value == v
      ensures o in calls[|old(calls)|..]
      ensures old(Logged(calls, since, arena.memo, index)) ==> Logged(calls, since, arena.memo, index)
    {
      var w := arena.wiring;
      var n := w.outputs[o].node.value;
      var args := CalculateArgs(arena, n, rank, since);
      v := w.outputs[o].fn(args);
      assert o !in calls[since..];
      ghost var c0 := calls;
      calls := calls + [o];
      arena.memo := arena.memo[o := Memo(index, v)];
      assert calls[|old(calls)|..] == c0[|old(calls)|..] + [o];
      assert calls[since..] == c0[since..] + [o];
    }

    /** `output.node.inputs.map(...)`: the argument list, evaluating the
        output behind each connected input. */
    method CalculateArgs(arena: Arena, n: NodeRef, ghost rank: map<NodeRef, nat>, ghost since: nat)
      returns (args: seq<Value>)
      requires arena.Valid() && Ranked(arena.wiring, rank) && n in rank
      requires MemoSound(arena.wiring, rank, arena.memo, index)
      requires LogInv(calls, since, arena.memo, index)
      modifies arena`memo, this`calls
      decreases rank[n] + 1, 0
      ensures args == Args(arena.wiring, rank, n)
      ensures MemoSound(arena.wiring, rank, arena.memo, index)
      ensures LogInv(calls, since, arena.memo, index) && old(calls) <= calls
      ensures Advanced(arena.wiring, rank, old(arena.memo), arena.memo, index, rank[n])
      ensures old(Logged(calls, since, arena.memo, index)) ==> Logged(calls, since, arena.memo, index)
    {
      var w := arena.wiring;
      var xs := w.nodes[n].inputs;
      ghost var full := Args(w, rank, n);
      args := [];
      var k := 0;
      while k < |xs|
        invariant 0 <= k <= |xs| && arena.wiring == w
        invariant args == full[..k]
        invariant MemoSound(w, rank, arena.memo, index)
        invariant LogInv(calls, since, arena.memo, index) && old(calls) <= calls
        invariant Advanced(w, rank, old(arena.memo), arena.memo, index, rank[n])
        invariant old(Logged(calls, since, arena.memo, index)) ==> Logged(calls, since, arena.memo, index)
      {
        var x := xs[k];
        var a;
        match w.inputs[x].connection {
          case Some(c) =>
            assert SourceNode(w, x) == w.outputs[w.conns[c].output].node;
            ghost var m0 := arena.memo;
            a := CalculateOutput(arena, w.conns[c].output, rank, since);
            AdvancedTrans(w, rank, old(arena.memo), m0, arena.memo, index, rank[n]);
            assert a == InputValue(w, rank, n, x);
          case None =>
            a := w.inputs[x].value;
            assert a == InputValue(w, rank, n, x);
        }
        assert full[k] == InputValue(w, rank, n, x);
        PrefixSnoc(full, k);
        args := args + [a];
        k := k + 1;
      }
      assert args == full;
    }

    /** `calculate(start)`: opens a new epoch and evaluates one output.  Its
        value is `Eval`'s, and no output function runs twice. */
    method Calculate(arena: Arena, start: OutputRef, now: int, ghost rank: map<NodeRef, nat>)
      returns (v: Value)
      requires arena.Valid() && start in arena.wiring.outputs
      requires Ranked(arena.wiring, rank) && Covered(arena.wiring, rank, start)
      requires FreshEpoch(arena.memo, now)
      modifies this`index, this`calls, arena`memo
      ensures index == now && v == Eval(arena.wiring, rank, start)
      ensures old(calls) <= calls && NoDup(calls[|old(calls)|..])
      ensures arena.wiring.outputs[start].node.Some? ==> start in calls[|old(calls)|..]
      ensures MemoSound(arena.wiring, rank, arena.memo, index)
    {
      index := now;
      v := CalculateOutput(arena, start, rank, |calls|);
    }

    /** `calculateNode(node)`: opens a new epoch and evaluates every output of
        the node, in order.  An output shared by several evaluations is still
        computed once. */
    method CalculateNode(arena: Arena, n: NodeRef, now: int, ghost rank: map<NodeRef, nat>)
      returns (values: seq<Value>)
      requires arena.Valid() && Ranked(arena.wiring, rank) && n in rank
      requires FreshEpoch(arena.memo, now)
      modifies this`index, this`calls, arena`memo
      ensures index == now
      ensures |values| == |arena.wiring.nodes[n].outputs|
      ensures forall k :: 0 <= k < |values| ==>
        (arena.wiring.nodes[n].outputs[k] in arena.wiring.outputs &&
         Covered(arena.wiring, rank, arena.wiring.nodes[n].outputs[k]) &&
         values[k] == Eval(arena.wiring, rank, arena.wiring.nodes[n].outputs[k]))
      ensures old(calls) <= calls && NoDup(calls[|old(calls)|..])
      ensures forall k :: 0 <= k < |values| ==> arena.wiring.nodes[n].outputs[k] in calls[|old(calls)|..]
      ensures MemoSound(arena.wiring, rank, arena.memo, index)
    {
      index := now;
      ghost var since := |calls|;
      var w := arena.wiring;
      var os := w.nodes[n].outputs;
      FreshLogged(calls, arena.memo, now);
      values := [];
      var k := 0;
      while k < |os|
        invariant 0 <= k <= |os| && arena.wiring == w && index == now && |values| == k
        invariant old(calls) <= calls
        invariant NodeProgress(w, rank, arena.memo, index, calls, since, n, values)
      {
        var v := CalculateAt(arena, n, values, rank, since);
        values := values + [v];
        k := k + 1;
      }
      CurrentLogged(calls, since, arena.memo, index, os);
    }

    /** One iteration of `calculateNode(n)`'s loop: `calculateOutput` of the
        next output, keeping the outputs evaluated before it current. */
    method CalculateAt(arena: Arena, n: NodeRef, values: seq<Value>, ghost rank: map<NodeRef, nat>, ghost since: nat)
      returns (v: Value)
      requires arena.Valid() && Ranked(arena.wiring, rank) && n in rank
      requires |values| < |arena.wiring.nodes[n].outputs|
      requires NodeProgress(arena.wiring, rank, arena.memo, index, calls, since, n, values)
      modifies arena`memo, this`calls
      ensures old(calls) <= calls
      ensures NodeProgress(arena.wiring, rank, arena.memo, index, calls, since, n, values + [v])
    {
      var o := arena.wiring.nodes[n].outputs[|values|];
      assert o in arena.wiring.outputs && arena.wiring.outputs[o].node == Some(n);
      ghost var m0 := arena.memo;
      v := CalculateOutput(arena, o, rank, since);
      AdvancedKeepsCurrent(arena.wiring, rank, m0, arena.memo, index, Height(arena.wiring, rank, o));
      ghost var vs := values + [v];
      assert forall j :: 0 <= j < |values| ==> vs[j] == values[j];
    }

    /** `checkNode(node)`: whether some connected input of `u` is fed, through
        the upstream walk of `checkOutput`, by `u` itself. */
    method CheckNode(arena: Arena, u: NodeRef, ghost rk: map<NodeRef, nat>) returns (rec: bool)
      requires arena.Valid() && CheckReady(arena.wiring, u, rk)
      ensures rec == ClosesCycle(arena.wiring, u, rk)
    {
      var w := arena.wiring;
      var xs := w.nodes[u].inputs;
      rec := false;
      var k := 0;
      while k < |xs|
        invariant 0 <= k <= |xs|
        invariant rec <==> exists j :: 0 <= j < k && Closes(w, u, rk, j)
      {
        var x := xs[k];
        if w.inputs[x].connection.Some? {
          assert SourceNode(w, x) == w.outputs[w.conns[w.inputs[x].connection.value].output].node;
          var check := CheckOutput(w, u, w.conns[w.inputs[x].connection.value].output, rk);
          if u in check {
            rec := true;
          }
          assert Closes(w, u, rk, k) <==> u in check;
        } else {
          assert !Closes(w, u, rk, k);
        }
        k := k + 1;
      }
    }
  }
}
