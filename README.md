# TSNodes dataflow core in Dafny

TSNodes is a browser node editor. A graph holds nodes. Each node has ordered
input and output sockets. A connection joins one output to one input, and
an engine evaluates outputs on demand. This project models the core of that
system and proves what it promises:

- the object graph (nodes, sockets, connections);
- the `Graph` mutation protocol: wire a connection, check for a cycle, roll
  back; cascade deletion of a node's connections; the active node and the
  selection;
- the lazy, epoch-memoised evaluation of the `Engine`, and its upstream
  cycle check;
- the clipboard's cloning of a set of nodes with their internal
  connections, and copy, cut, paste and duplicate;
- the keyboard-shortcut parser and matching rule, the modifier-key state
  machine of the keyboard controller and its dispatch;
- the enable/disable context-menu group;
- the clamped integer field of `InputNumber`.

Structure, one Dafny module per source concern:

- `base.dfy` (`Base`): duplicate-free sequences; `indexOf`/`splice(index, 1)`
  as `IndexOf`/`RemoveFirst`.
- `model.dfy` (`Model`): the heap as an arena. `Wiring` holds maps from
  node, input, output and connection references to their records, and
  `Wiring.Valid` ties each socket's `node` back-reference to its owner's
  socket list. The class `Arena` holds the wiring and the memo cells
  (`output.value = {index, value}`). Its methods are the field writes the
  source performs on nodes and sockets (`addInput`, `addConnection`,
  `deleteConnection`, `setName`, `collapse`, ...) and a node class's
  constructor (`Instantiate`).
- `engine.dfy` (`Engine`): `Eval`, the value an output has on a fresh
  epoch, defined over a ghost ranking (a topological numbering that makes the
  upstream recursion terminate). The class `Engine` holds `calculateOutput`,
  `calculate`, `calculateNode` and `checkNode`; `CheckOutput` is the
  upstream walk. A ghost log `calls` records each invocation of an output
  function, so "at most once per epoch" can be stated.
- `cycles.dfy` (`Cycles`): what the walk computes, stated without it. A
  node's check fires exactly when the node lies on a cycle
  (`CycleThrough`), and a ranked node never does.
- `graph.dfy` (`Graphs`): every `Graph` operation as a transition function on
  `Sys` (the graph's four fields plus the wiring). The class `Graph`'s
  methods are proved to perform exactly those transitions. Lemmas cover the
  graph invariant `GValid` (distinct connections, each the one its input
  holds), acyclicity (`Acyclic`: a ranking exists) and the selection.
- `clipboard.dfy` (`Clipboards`): `cloneNodes`, `copyNodes`, `cutNodes`,
  `pasteNodes`, `duplicateNodes`; the clipboard graph lives in an arena of
  its own.
- `shortcuts.dfy`, `keyboard.dfy`, `context_menu.dfy`, `input_number.dfy`:
  the smaller pieces.

Inputs and outputs follow the fields the rest of the code uses: `node`,
`connection`, the memo `value`, `setValue`. They do not follow the older
class bodies in `src/Input.ts` and `src/Output.ts`, which lack those
members.

`createConnection` asks the engine's `checkNode` about the output's node
after wiring. The model states the check's outcome as `CycleThrough`, and
`Cycles.ClosesCycleIff` proves `checkNode` returns exactly that.
`CreateConnection` takes `engine != null` as the `checked` flag: the
clipboard graph, which has no editor, never checks.

## Model

| member | source | states |
|---|---|---|
| Base.IndexOf | src/Graph.ts:76 | `indexOf`: -1 exactly when absent, else the first position holding the element |
| Base.RemoveFirst | src/Node.ts:118-125 | `splice(indexOf(x), 1)`: unchanged when absent, else one element shorter with exactly the first occurrence cut out |
| Base.RemoveFirstMultiset | src/Node.ts:118-125 | removing the first occurrence takes exactly one copy of `x` out of the multiset |
| Base.RemoveFirstNoDup | src/Graph.ts:40-43 | on a duplicate-free list the element is gone afterwards, the list stays duplicate-free and every other element stays |
| Base.RemoveFirstKeeps | src/Graph.ts:76-79 | any element other than the removed one is present afterwards iff it was before |
| Base.RemoveFirstSubset | src/Node.ts:118-125 | removing never introduces an element |
| Base.AppendFreshNoDup | src/Graph.ts:60-62 | pushing an element not yet present keeps a list duplicate-free |
| Model.CollapseStep | src/Node.ts:89-96 | `collapse()` toggles, `collapse(true)` always collapses, `collapse(false)` toggles too (so it collapses an expanded node) |
| Model.AddInputSpec | src/Node.ts:102-106 | `addInput` appends the socket as the last input, keeps earlier inputs, sets its back-reference and keeps the arena consistent |
| Model.AddOutputSpec | src/Node.ts:108-112 | `addOutput` appends as the last output, keeps earlier outputs, sets its back-reference, keeps consistency |
| Model.NodeAddConnectionSpec | src/Node.ts:114-116 | `addConnection` appends even when present: the list is the old list plus `c`, with one more occurrence of `c` |
| Model.NodeDeleteConnectionSpec | src/Node.ts:118-125 | `deleteConnection` is a no-op when `c` is absent and otherwise removes exactly one occurrence |
| Model.ListDeleteValid | src/Node.ts:118-125 | removing a list entry keeps the arena consistent |
| Model.SetSlotValid | src/Graph.ts:59 | writing `input.connection` with an existing connection keeps the arena consistent |
| Model.BuiltAddInput | src/Node.ts:46-48 | one `this.input(name, default)` call extends a constructor's build by the next input of the layout, holding its default and unconnected |
| Model.BuiltAddOutput | src/Node.ts:62-64 | one `this.output(name, fn)` call extends the build by the next output of the layout |
| Model.Arena.NewInput | src/Input.ts:6-10 | `new Input(name, defaultValue)`: a fresh reference whose record holds the default as value, no connection, no node; nothing else changes |
| Model.Arena.NewOutput | src/Output.ts:53-58 | `new Output(name, fn)`: a fresh reference owned by no node; nothing else changes |
| Model.Arena.NewConnection | src/Connection.ts:9 | `new Connection(output, input)`: a fresh reference to the pair, registered in no list |
| Model.Arena.NewBareNode | src/Node.ts:27-44 | the `Node` constructor: a fresh node with the class name, no sockets, no connections, position (0, 0), width 120, expanded |
| Model.Arena.Instantiate | src/Clipboard.ts:22 | a node class's constructor: a fresh node holding exactly its class's layout with fresh free sockets in order; every earlier record is kept unchanged |
| Model.Arena.PutInput | src/Node.ts:46-48 | the `k`-th `this.input(...)` of a constructor: the build now covers `k + 1` inputs and the arena stays consistent |
| Model.Arena.PutOutput | src/Node.ts:62-64 | the `k`-th `this.output(...)` of a constructor |
| Model.Arena.AddInput | src/Node.ts:102-106 | the wiring becomes `AddInput` of the old wiring and stays consistent |
| Model.Arena.AddOutput | src/Node.ts:108-112 | the wiring becomes `AddOutput` of the old wiring and stays consistent |
| Model.Arena.AddConnection | src/Node.ts:114-116 | the wiring becomes `AddConnection` of the old wiring |
| Model.Arena.DeleteConnection | src/Node.ts:118-125 | the `includes`/`indexOf`/`splice` code computes `DeleteConnection` of the old wiring (first occurrence removed) |
| Model.Arena.SetSlot | src/Graph.ts:59 | `input.connection = c`, the arena staying consistent |
| Model.Arena.SetValue | src/Clipboard.ts:27 | `input.setValue(v)` changes only that input's value |
| Model.Arena.SetName | src/Node.ts:84-87 | `setName(s)` leaves the node's name equal to `s` and nothing else changed |
| Model.Arena.Collapse | src/Node.ts:89-100 | the branch on `collapse === true \|\| !collapsed` computes `CollapseStep` |
| Model.Arena.SetBox | src/Clipboard.ts:23-24 | copying position and width changes only that node's box |
| Engine.EvalUnowned | src/Engine.ts:26 | an output with no node evaluates to `undefined` |
| Engine.EvalRankFree | src/Engine.ts:25-42 | the value of an output depends on the wiring only, not on the ranking used to define it |
| Engine.Engine.constructor | src/Engine.ts:5-9 | the epoch starts at 0 and no function has run |
| Engine.Engine.CalculateOutput | src/Engine.ts:25-42 | returns `Eval`: undefined for an unowned output with nothing changed; a current-epoch memo is returned with memo and call log unchanged; otherwise its function runs (the output joins the call log) and the memo ends current and holding the returned value; each function runs at most once per epoch; every output made current since the epoch began has run; only memo cells are written |
| Engine.Engine.Recompute | src/Engine.ts:27-39 | the stale-memo branch: the result is `Eval`, the function runs once (logged), and the memo ends current holding the result |
| Engine.Engine.CalculateArgs | src/Engine.ts:28-34 | the argument list has one entry per input in order: the upstream value for a connected input, the local value otherwise |
| Engine.Engine.Calculate | src/Engine.ts:19-23 | on a fresh epoch `now`: the index becomes `now`, the result is `Eval`, an owned start output's function runs again even if it ran in an earlier epoch, and no function runs twice |
| Engine.Engine.CalculateNode | src/Engine.ts:11-17 | on a fresh epoch: one value per output of the node in order, each its `Eval`; every output's function runs on the new epoch exactly once (diamonds included) |
| Engine.Engine.CalculateAt | src/Engine.ts:13-15 | one step of the `map` over the node's outputs: the next output's `Eval` is appended and every output evaluated so far stays current |
| Engine.Engine.CheckNode | src/Engine.ts:44-55 | the `forEach` loop's flag equals "some connected input's walk contains the node" |
| Cycles.CheckOutputUnowned | src/Engine.ts:58 | `checkOutput` of an output with no node is `[]` |
| Cycles.CheckOutputEnds | src/Engine.ts:68-70 | otherwise the walk's result ends with the output's node |
| Cycles.CheckOutputAtOrigin | src/Engine.ts:60-66 | from an output of `n` itself the walk does not recurse through `n`'s inputs: the result is `[n]` |
| Cycles.CheckInputsAtOrigin | src/Engine.ts:60-66 | the mapped walks over `n`'s own inputs are all empty |
| Cycles.CheckOutputSound | src/Engine.ts:57-71 | every node the walk reports is reached from the output's node by an upstream path not leaving through `n` |
| Cycles.CheckInputsSound | src/Engine.ts:60-66 | every node in the flattened input walks is reached from a node feeding that node |
| Cycles.CheckInputSound | src/Engine.ts:61-62 | the same for one recursing input |
| Cycles.CheckOutputComplete | src/Engine.ts:57-71 | every end of such a path is reported: the walk computes exactly the upstream closure |
| Cycles.CheckInputsIncludes | src/Engine.ts:60-66 | `flat()` keeps each recursing input's walk in the result |
| Cycles.ClosesCycleIff | src/Engine.ts:44-55 | `checkNode(n)` is true iff `n` lies on a cycle of connections (self-loops included) |
| Cycles.WalkRanks | src/Engine.ts:57-71 | along an upstream path ranks never increase |
| Cycles.RankedNoCycle | src/Graph.ts:63-67 | a node of an acyclic (ranked) graph never passes the check |
| Graphs.PushTo | src/Graph.ts:57-58 | `node?.addConnection(c)`: the node's list gains `c`, nothing outside the lists and slots changes |
| Graphs.DropFrom | src/Graph.ts:73-74 | `node?.deleteConnection(c)`: lists only shrink; nothing else changes |
| Graphs.DeleteConnectionSpec | src/Graph.ts:71-82 | a connection not in the graph changes nothing; otherwise its input is freed, lists only shrink, no new connection appears |
| Graphs.Free | src/Graph.ts:54-56 | an occupied input is freed by deleting its connection; only that slot and the lists change |
| Graphs.Link | src/Graph.ts:57-59 | both endpoint lists gain `c` and the input's slot becomes `c`; slots still match their connections' inputs |
| Graphs.Attach | src/Graph.ts:54-62 | free, link, and register once: `c` is in the graph and the input holds it, no other connection is added |
| Graphs.CreateConnectionSpec | src/Graph.ts:53-69 | `createConnection`: attach, then with an engine and an owned output roll back iff the output's node now lies on a cycle |
| Graphs.CreateConnectionOutcome | src/Graph.ts:53-69 | `c` is in the graph iff not rejected; kept, its input holds `c`; rejected, its input is empty |
| Graphs.PushToCount | src/Node.ts:114-116 | pushing adds exactly one occurrence to the named node's list, none elsewhere |
| Graphs.DropFromCount | src/Node.ts:118-125 | deleting takes exactly one occurrence out of the named node's list |
| Graphs.LinkCount | src/Graph.ts:57-58 | linking adds one occurrence of `c` per endpoint that is the node |
| Graphs.DeleteCount | src/Graph.ts:73-74 | deleting removes one occurrence per endpoint |
| Graphs.RejectedRestoresLists | src/Graph.ts:64-67 | after a rollback every node's connection list holds what it held once the input was freed: one occurrence per endpoint removed again |
| Graphs.DeleteConnectionValid | src/Graph.ts:71-82 | deletion keeps `GValid`, removes `c` and keeps every other connection |
| Graphs.DeleteConnectionIdempotent | src/Graph.ts:72 | deleting twice is deleting once |
| Graphs.AttachValid | src/Graph.ts:54-62 | attaching keeps the graph invariant |
| Graphs.CreateConnectionValid | src/Graph.ts:53-69 | `createConnection` keeps duplicate-freedom and one connection per input, with or without rollback |
| Graphs.OneConnectionPerInput | src/Graph.ts:54-59 | under the invariant two graph connections into the same input are the same |
| Graphs.ShiftRanked | src/Graph.ts:63-67 | a new edge into the output's node that closes no cycle admits a new ranking |
| Graphs.CheckReadyAfter | src/Graph.ts:64 | after attaching, the check on the output node is well-founded |
| Graphs.AttachSources | src/Graph.ts:57-59 | attaching changes the source of the target input only |
| Graphs.CreateConnectionRanked | src/Graph.ts:63-67 | with the check, `createConnection` turns a ranked graph into a ranked graph over the same nodes |
| Graphs.RejectedRanked | src/Graph.ts:65-67 | a rolled-back connection leaves the old ranking valid |
| Graphs.DeleteConnectionRanked | src/Graph.ts:71-82 | deleting a connection keeps a ranking valid |
| Graphs.CreateConnectionAcyclic | src/Graph.ts:53-69 | an acyclic graph stays acyclic after a checked `createConnection` |
| Graphs.ForEachConn | src/Graph.ts:22-24 | `forEach` over a list it grows: visits the positions below the starting length, reading the current list each time |
| Graphs.CreateNodeSpec | src/Graph.ts:20-26 | `createNode`: node appended, then each of its listed connections created |
| Graphs.ForEachConnValid | src/Graph.ts:22-24 | that loop keeps the graph invariant |
| Graphs.ForEachConnAcyclic | src/Graph.ts:22-24 | with checks that loop keeps the graph acyclic |
| Graphs.CreateNodeValid | src/Graph.ts:20-26 | `createNode` keeps the graph invariant |
| Graphs.CreateNodeAcyclic | src/Graph.ts:20-26 | with checks `createNode` keeps the graph acyclic |
| Graphs.DeleteAll | src/Graph.ts:29-31 | deleting each connection of a snapshot: lists only shrink, nothing is added |
| Graphs.DeleteAllValid | src/Graph.ts:29-31 | keeps the invariant; exactly the snapshot's connections leave the graph |
| Graphs.DeleteAllRanked | src/Graph.ts:29-31 | keeps a ranking valid |
| Graphs.DeleteNodeSpec | src/Graph.ts:28-45 | `deleteNode`: cascade over a copy of the node's list, then remove it from nodes and selection and clear the active node |
| Graphs.DeleteNodeEffect | src/Graph.ts:28-45 | the node is not active, not in `nodes` nor `selectedNodes`, others stay; under the invariant its former connections are gone and all others stay |
| Graphs.DeleteNodesSpec | src/Graph.ts:47-51 | `deleteNodes` deletes each node of a copy of the list in order |
| Graphs.DeleteNodesEffect | src/Graph.ts:47-51 | every listed node is gone from nodes, selection and active, all others stay, even when the list is the selection itself |
| Graphs.DeleteNodesValid | src/Graph.ts:47-51 | `deleteNodes` keeps the graph invariant |
| Graphs.DeleteNodesRanked | src/Graph.ts:47-51 | `deleteNodes` keeps a ranking valid |
| Graphs.NotReinserted | src/Graph.ts:47-51 | a node absent before is not brought back |
| Graphs.SelectNodeSpec | src/Graph.ts:101-107 | `selectNode`: includes `n`, keeps the earlier selection as a prefix, adds nothing else, stays duplicate-free |
| Graphs.SelectNodeIdempotent | src/Graph.ts:101-104 | selecting twice is selecting once |
| Graphs.SelectNodesSpec | src/Graph.ts:109-113 | `selectNodes`: the selection is the old one plus the given nodes, prefix kept, duplicate-free |
| Graphs.SelectNodesIdempotent | src/Graph.ts:109-113 | selecting nodes already selected changes nothing |
| Graphs.SelectNodesAppends | src/Graph.ts:109-113 | the new selection is the old one followed by the not-yet-selected nodes in first-occurrence order |
| Graphs.RecalculateSpec | src/Graph.ts:129-136 | `recalculate`: clear the list, then re-create every listed connection of every node |
| Graphs.RecalcFrom | src/Graph.ts:131-135 | the outer `forEach` from node `k` onward |
| Graphs.RecalculateValid | src/Graph.ts:129-136 | from any well-formed state, `recalculate` yields a duplicate-free list with one connection per input |
| Graphs.RecalcFromValid | src/Graph.ts:131-135 | the outer loop keeps the invariant |
| Graphs.RecalculateAcyclic | src/Graph.ts:129-136 | with checks an acyclic graph stays acyclic |
| Graphs.RecalcFromAcyclic | src/Graph.ts:131-135 | the outer loop keeps acyclicity |
| Graphs.ForEachConnFromLists | src/Graph.ts:132-134 | the inner loop only adds connections that some node lists |
| Graphs.RecalcFromLists | src/Graph.ts:131-135 | the outer loop likewise |
| Graphs.RecalculateFromLists | src/Graph.ts:129-136 | every connection after `recalculate` came from some node's `connections` list |
| Graphs.PushOnto | src/Graph.ts:57 | the method computes `PushTo` |
| Graphs.LinkOn | src/Graph.ts:57-59 | the method computes `Link` |
| Graphs.DropOff | src/Graph.ts:73 | the method computes `DropFrom` |
| Graphs.Graph.constructor | src/Graph.ts:7-11 | a new graph has no nodes, connections, active node or selection |
| Graphs.Graph.DeleteConnection | src/Graph.ts:71-82 | performs `DeleteConnectionSpec` |
| Graphs.Graph.AttachConnection | src/Graph.ts:54-62 | performs `Attach` |
| Graphs.Graph.LinkConnection | src/Graph.ts:57-59 | performs `Link` |
| Graphs.Graph.CreateConnection | src/Graph.ts:53-69 | performs `CreateConnectionSpec` with `checked` = engine present, and yields a ranking of the new graph when it had one |
| Graphs.Graph.CreateListed | src/Graph.ts:22-24 | the `forEach` over a growing list performs `ForEachConn` with the length snapshot |
| Graphs.Graph.CreateNode | src/Graph.ts:20-26 | performs `CreateNodeSpec`, keeping acyclicity with an engine |
| Graphs.Graph.DeleteEach | src/Graph.ts:29-31 | performs `DeleteAll` over a snapshot |
| Graphs.Graph.DeleteNode | src/Graph.ts:28-45 | performs `DeleteNodeSpec` |
| Graphs.Graph.DeleteNodes | src/Graph.ts:47-51 | performs `DeleteNodesSpec` |
| Graphs.Graph.ActivateNode | src/Graph.ts:84-90 | the active node becomes `n`, nothing else changes |
| Graphs.Graph.DeactivateNode | src/Graph.ts:92-99 | the active node becomes none, nothing else changes |
| Graphs.Graph.SelectNode | src/Graph.ts:101-107 | performs `SelectNodeSpec` |
| Graphs.Graph.SelectNodes | src/Graph.ts:109-113 | performs `SelectNodesSpec` |
| Graphs.Graph.SelectAllNodes | src/Graph.ts:115-117 | performs `SelectNodesSpec` with the node list |
| Graphs.Graph.DeselectNodes | src/Graph.ts:119-127 | the selection becomes empty, nothing else changes |
| Graphs.Graph.Recalculate | src/Graph.ts:129-136 | performs `RecalculateSpec`, keeping acyclicity with an engine |
| Graphs.Graph.RecreateListed | src/Graph.ts:131-135 | the outer loop performs `RecalcFrom` |
| Graphs.Graph.RecalcNext | src/Graph.ts:132-134 | one outer iteration advances `RecalcFrom` by one node |
| Clipboards.GatherSpec | src/Clipboard.ts:30-37 | the includes-guarded push keeps earlier entries, adds exactly the internal connections of the list, and no duplicate |
| Clipboards.GatheredSpec | src/Clipboard.ts:20-40 | `connections` is exactly the distinct connections of the given nodes whose both ends lie in the set |
| Clipboards.RemapKeys | src/Clipboard.ts:39 | every original is a key of `nodesMap` |
| Clipboards.RemapAt | src/Clipboard.ts:39 | each key maps to the clone made at a position holding that original |
| Clipboards.RemapLast | src/Clipboard.ts:39 | a repeated original maps to its last clone (`Map.set` overwrites) |
| Clipboards.RemapDistinct | src/Clipboard.ts:44-47 | without repetition, the k-th original maps to the k-th clone |
| Clipboards.CopyStep | src/Clipboard.ts:25-28 | one step of the input loop copies the value of the original's input at the same index |
| Clipboards.CopyStart | src/Clipboard.ts:22-24 | a freshly constructed node with position and width copied starts the copy |
| Clipboards.CopyEnd | src/Clipboard.ts:29 | `setName` completes a clone |
| Clipboards.CloneNode | src/Clipboard.ts:21-29 | a new node of the same class with the original's position, width, name and every input value by index; no other record changes |
| Clipboards.ScanList | src/Clipboard.ts:30-37 | the loop computes `Gather` |
| Clipboards.CloneEach | src/Clipboard.ts:20-40 | one clone per original in order, distinct; `connections` and `nodesMap` as specified |
| Clipboards.CloneNext | src/Clipboard.ts:21-39 | one iteration extends clones, `connections` and `nodesMap` by one original |
| Clipboards.Recreate | src/Clipboard.ts:43-49 | a fresh connection from the mapped clone's output at the same output index to its input at the same input index |
| Clipboards.Reconnect | src/Clipboard.ts:42-50 | one fresh connection per gathered connection, in order, remapped by socket index |
| Clipboards.RecreateNext | src/Clipboard.ts:43-49 | one iteration adds one such connection |
| Clipboards.ClonedFacts | src/Clipboard.ts:38-49 | clones are new with empty connection lists, new connections exist |
| Clipboards.CloneNodes | src/Clipboard.ts:14-53 | `cloneNodes`: the clones and the positionally remapped internal connections; originals untouched |
| Clipboards.GraphGrown | src/Clipboard.ts:83 | adding clones to an arena keeps every graph over it well formed |
| Clipboards.AcyclicGrown | src/Clipboard.ts:83 | adding unconnected clones keeps a graph acyclic |
| Clipboards.CreateNodeBare | src/Graph.ts:20-26 | `createNode` of a node with an empty list only appends it |
| Clipboards.CreateAll | src/Clipboard.ts:66-68 | `createConnection` of each given connection in order |
| Clipboards.CreateAllValid | src/Clipboard.ts:66-68 | keeps the graph invariant |
| Clipboards.CreateAllAcyclic | src/Clipboard.ts:94-96 | with checks keeps the graph acyclic |
| Clipboards.CreateEach | src/Clipboard.ts:66-68 | the loop performs `CreateAll` |
| Clipboards.CreateBare | src/Clipboard.ts:62-64 | creating unconnected nodes appends them |
| Clipboards.PlaceEach | src/Clipboard.ts:88-92 | creates and selects each pasted node: nodes and selection both gain the list |
| Clipboards.PlaceNext | src/Clipboard.ts:88-92 | one iteration of that loop |
| Clipboards.Fill | src/Clipboard.ts:57-68 | the clipboard graph holds the clones and the new connections created unchecked |
| Clipboards.Place | src/Clipboard.ts:85-96 | deactivate, deselect, add and select the clones, then create the connections |
| Clipboards.PasteClone | src/Clipboard.ts:83 | cloning into the target arena keeps the target graph valid |
| Clipboards.PasteInto | src/Clipboard.ts:83-96 | paste's effect on the target graph: active none, selection the clones, connections as `CreateAll` yields |
| Clipboards.CloneOfCompose | src/Clipboard.ts:100-103 | a clone of a clone is a clone of the original |
| Clipboards.DuplicateClones | src/Clipboard.ts:100-103 | copying into the clipboard and pasting back yields, position by position, clones of the originals |
| Clipboards.Clipboard.constructor | src/Clipboard.ts:10-12 | an empty clipboard graph without an engine, in its own arena |
| Clipboards.Clipboard.CopyNodes | src/Clipboard.ts:55-71 | earlier contents replaced with fresh clones and their recreated connections |
| Clipboards.Clipboard.CutNodes | src/Clipboard.ts:73-76 | clones in the clipboard; the originals deleted from the graph |
| Clipboards.Clipboard.PasteNodes | src/Clipboard.ts:78-98 | active none and selection exactly the pasted clones, appended to the nodes; the clipboard is unchanged; invariant and acyclicity kept |
| Clipboards.Clipboard.DuplicateNodes | src/Clipboard.ts:100-103 | the clipboard ends holding fresh clones of the nodes and their internal connections, as `copyNodes` leaves it; the graph gains clones of those, connected by socket index as `createConnection` (checked with an engine) leaves them; active none, selection the duplicates; each duplicate is a clone of its original |
| Shortcuts.LowerChar | src/utils.ts:35 | a lowered character is never upper case and only upper case letters change |
| Shortcuts.Lower | src/utils.ts:35 | `toLowerCase` keeps the length and lowers each character |
| Shortcuts.LowerIdempotent | src/utils.ts:35 | lowering twice is lowering once |
| Shortcuts.LowerNoUpper | src/utils.ts:35 | a lowered string has no upper case letter |
| Shortcuts.Split | src/utils.ts:36 | `split(' ')` yields at least one piece, none holding a space |
| Shortcuts.SplitAt | src/utils.ts:36 | splitting at the first space gives the prefix and the split of the rest |
| Shortcuts.JoinSplit | src/utils.ts:36 | joining the pieces with single spaces gives back the string |
| Shortcuts.SplitNone | src/utils.ts:36 | a text without a space splits into itself alone |
| Shortcuts.SplitTrailingSpace | src/utils.ts:36 | a trailing space adds one empty piece |
| Shortcuts.SplitNoUpper | src/utils.ts:36 | pieces of a string without upper case have none |
| Shortcuts.ScanFlags | src/utils.ts:47-50 | each flag is set iff its modifier word occurs among the tokens |
| Shortcuts.ScanKey | src/utils.ts:51 | the key is the last non-modifier token, empty if all are modifiers |
| Shortcuts.ScanLastKey | src/utils.ts:47-52 | the loop's key is `LastKey` of the tokens |
| Shortcuts.LastKeyIn | src/utils.ts:51 | that key is a token and not a modifier word |
| Shortcuts.ParseSpec | src/utils.ts:34-58 | the result stated without the loop: flags by occurrence, key the last other token, `false` iff that token is absent or empty |
| Shortcuts.ParseOnlyModifiers | src/utils.ts:54 | only modifier words: `false` |
| Shortcuts.ParseLower | src/utils.ts:35 | parsing is case-insensitive |
| Shortcuts.ParseKeyClean | src/utils.ts:54-56 | a parsed key is non-empty, has no space, no upper case letter and is no modifier word |
| Shortcuts.ParseTrailingSpace | src/utils.ts:54 | a text ending in a space never parses |
| Shortcuts.ParseKeyboardShortcut | src/utils.ts:34-58 | the `forEach` loop computes `Parse` |
| Shortcuts.CtrlLetter | src/configKeyboardShortcuts.ts:11-14 | "Ctrl" followed by a capital letter parses to the lowered letter with only Control |
| Shortcuts.DefaultShortcutTexts | src/configKeyboardShortcuts.ts:9-15 | `Delete` parses to "delete" with no modifier; `Ctrl C/V/D/X` to the letter with Control |
| Shortcuts.NewShortcut | src/KeyboardShortcut.ts:6-12 | the constructor stores function and key, options default to no modifier |
| Shortcuts.FiresIff | src/KeyboardShortcut.ts:14-22 | `call` runs `fn` iff the lowered key is the stored key and the state equals the options |
| Shortcuts.DefaultFiresBare | src/KeyboardShortcut.ts:6-10 | a default shortcut fires only with no modifier held |
| Shortcuts.UpperNeverFires | src/KeyboardShortcut.ts:15 | a stored key with an upper case letter never fires |
| Shortcuts.ParsedFires | src/KeyboardShortcut.ts:14-22 | a shortcut built from a parse fires on its key, in any case, under its state |
| Keyboard.Press | src/KeyboardController.ts:29-39 | key-down sets exactly the named modifier's flag |
| Keyboard.Release | src/KeyboardController.ts:49-59 | key-up clears exactly the named modifier's flag |
| Keyboard.OtherKeysKeepState | src/KeyboardController.ts:29-39 | other keys leave the state unchanged on both edges |
| Keyboard.PressIdempotent | src/KeyboardController.ts:29-39 | pressing twice is pressing once |
| Keyboard.ReleaseUndoesPress | src/KeyboardController.ts:49-59 | releasing a modifier that was up restores the state |
| Keyboard.Dispatch | src/KeyboardController.ts:64-66 | at most one callback per shortcut |
| Keyboard.DispatchAppend | src/KeyboardController.ts:64-66 | dispatch keeps registration order across concatenation |
| Keyboard.DispatchIff | src/KeyboardController.ts:64-66 | an action runs iff a registered shortcut with it fires |
| Keyboard.DispatchCount | src/KeyboardController.ts:64-66 | when all shortcuts fire, each runs once, in order |
| Keyboard.CtrlCFires | src/KeyboardController.ts:47-66 | holding Control and releasing C runs a Ctrl C shortcut once |
| Keyboard.ReleaseBeforeDispatch | src/KeyboardController.ts:49-66 | the state is updated first, so releasing Control fires no Control shortcut |
| Keyboard.KeyboardController.constructor | src/KeyboardController.ts:10-16 | no shortcut, all flags false |
| Keyboard.KeyboardController.KeyDown | src/KeyboardController.ts:27-45 | the state becomes `Press`; no callback runs |
| Keyboard.KeyboardController.KeyUp | src/KeyboardController.ts:47-68 | the state becomes `Release`, then exactly `Dispatch` under the new state runs |
| Keyboard.KeyboardController.AddShortcut | src/KeyboardController.ts:71-73 | appends, earlier shortcuts kept |
| ContextMenus.ContextMenuContext.constructor | src/ContextMenuContext.ts:5-6 | disabled, no buttons, renders nothing |
| ContextMenus.ContextMenuContext.AddButton | src/ContextMenuContext.ts:8-10 | appends, `enabled` unchanged |
| ContextMenus.ContextMenuContext.Enable | src/ContextMenuContext.ts:12-14 | enabled, buttons kept, all rendered |
| ContextMenus.ContextMenuContext.Disable | src/ContextMenuContext.ts:16-18 | disabled, buttons kept, none rendered |
| ContextMenus.ContextMenuContext.Render | src/ContextMenuContext.ts:20-26 | all buttons in order when enabled, none otherwise |
| ContextMenus.RenderIff | src/ContextMenuContext.ts:20-26 | a button is shown iff enabled and added |
| InputNumbers.JsMax | src/InputNumber.ts:30 | `Math.max`: NaN-propagating, the larger operand |
| InputNumbers.JsMin | src/InputNumber.ts:30 | `Math.min`: NaN-propagating, the smaller operand |
| InputNumbers.Plus | src/InputNumber.ts:34 | `x + d`, NaN staying NaN |
| InputNumbers.Clamp | src/InputNumber.ts:30 | within `[min, max]` for a sane range, identity inside it, the bound outside it, NaN iff NaN |
| InputNumbers.ClampIdempotent | src/InputNumber.ts:28-32 | clamping twice is clamping once |
| InputNumbers.ClampInverted | src/InputNumber.ts:30 | with `min > max` every number becomes `min` |
| InputNumbers.StepAtBounds | src/InputNumber.ts:33-40 | a step at its bound stays there |
| InputNumbers.DecrementUndoesIncrement | src/InputNumber.ts:33-40 | below the maximum, a decrement undoes an increment |
| InputNumbers.IncrementsReach | src/InputNumber.ts:37-40 | `n` increments reach `min(max, v + n)` |
| InputNumbers.NaNSticky | src/InputNumber.ts:28-40 | once NaN, no step recovers a number |
| InputNumbers.InputNumber.constructor | src/InputNumber.ts:6-8 | defaults 0, 0 and 100; the value starts at the default |
| InputNumbers.InputNumber.MouseDown | src/InputNumber.ts:20-27 | the middle button resets to the default, unclamped; others change nothing |
| InputNumbers.InputNumber.TypeEntry | src/InputNumber.ts:28-32 | the parsed number clamped; in range for a sane range; NaN stays NaN |
| InputNumbers.InputNumber.Decrement | src/InputNumber.ts:33-36 | `max(min, min(max, value - 1))`, in range for a sane range |
| InputNumbers.InputNumber.Increment | src/InputNumber.ts:37-40 | `max(min, min(max, value + 1))`, in range for a sane range |
| InputNumbers.InputNumber.SetValue | src/InputNumber.ts:44-48 | stores its argument unclamped |

## Left out

- All DOM, CSS and SVG work: element creation, `classList`, `innerHTML`, `render`, `appendNode`/`removeNode`, `info.update()`. It has no effect on the modelled state.
- The node flags `active`, `selected` and `moving`: only shown by the view. The graph's `activeNode` and `selectedNodes` are modelled.
- `node.select()` and `node.activate()` go through `editor.selectedGraph`. The model calls the graph's `selectNode` on the target graph directly.
- Floating-point geometry: `move`, `centerNode`, zoom, `nodePosAverage`, `graph.center`, connection line positions. Positions and widths are integers that are only copied.
- `Date.now()`: the epoch is a parameter `now`. It must differ from every stored memo epoch (`FreshEpoch`): two evaluations within one millisecond would share an epoch.
- Output functions are uninterpreted: `fn` has type `seq<Value> -> Value`, and their side effects are not modelled.
- Engine.Engine.CalculateOutput: requires a ranking of the upstream nodes. The source recurses without a visited set and does not terminate on a cycle, which `createConnection` prevents.
- Engine.Engine.CheckNode: requires a ranking of every node but the checked one. The source's walk does not terminate on a cycle that avoids that node.
- Graphs.Graph.CreateConnection, Graphs.Graph.CreateListed, Graphs.Graph.CreateNode, Graphs.Graph.Recalculate, Graphs.Graph.RecreateListed, Graphs.Graph.RecalcNext, Clipboards.CreateEach, Clipboards.PlaceEach, Clipboards.Place, Clipboards.PasteInto, Clipboards.Clipboard.PasteNodes and Clipboards.Clipboard.DuplicateNodes: with an engine they require the whole arena to be acyclic (a ranking), where `checkNode` needs only the part upstream of the output's node. Every checked `createConnection` keeps acyclicity (`Graphs.CreateConnectionAcyclic`), so every state reached through these operations meets it.
- The reflective `new (Object.getPrototypeOf(node).constructor)()` is a `NodeType` tag carrying the class's socket layout.
- Clipboards.CloneNode: requires the original to still have its class's layout (`HasLayout`). A node given extra sockets after construction is not cloned. The same precondition carries over to `Clipboards.CloneEach`, `Clipboards.CloneNodes`, `Clipboards.PasteClone`, `Clipboards.PasteInto`, `Clipboards.Clipboard.CopyNodes`, `Clipboards.Clipboard.CutNodes` and `Clipboards.Clipboard.DuplicateNodes` (for the nodes they copy).
- The clipboard graph lives in an arena of its own, apart from the editor's. Nodes cut from a graph stay in its arena as records that no graph lists.
- `copyNodes`' and `pasteNodes`' guard `if (!this.graph)`: the clipboard always has its graph.
- Shortcuts.Lower: lowers ASCII letters only. `toLowerCase` follows the full Unicode case mapping.
- `Number` is an integer or `NaN`. `parseInt` is the caller-supplied `parsed` argument. IEEE doubles, `Infinity` and fractional inputs are not modelled.
- `preventDefault`/`stopPropagation`, listener registration and updates of the input element's displayed text are left out.
- `InputFloat`, `InputBoolean` and `InputString` are left out: float stepping and plain DOM assignments.
- Buttons and shortcut callbacks are identities (`nat`). Running a callback is recorded in the controller's `fired` log.
- The editor's `confirm()` dialog and wiring in `src/Editor.ts` are left out.
