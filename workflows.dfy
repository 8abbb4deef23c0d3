/**
 * The workflow document the handlers fetch and write back: an ordered list of nodes and a
 * nested connection map, source node name -> output type -> output slots -> connections.
 */
module Workflows {
  import opened Wrappers
  import opened Json
  import opened Seqs

  const HttpRequestType := "n8n-nodes-base.httpRequest"
  const SetType := "n8n-nodes-base.set"
  const FunctionType := "n8n-nodes-base.function"
  const WebhookType := "n8n-nodes-base.webhook"
  const PostgresType := "n8n-nodes-base.postgres"
  const MysqlType := "n8n-nodes-base.mysql"
  const StartType := "n8n-nodes-base.start"

  /** The node types the core treats specially are pairwise different: they differ in the first
      character after the common `n8n-nodes-base.` prefix, or in the second one for set and start. */
  lemma TypeNamesDistinct()
    ensures HttpRequestType[15] == 'h' && SetType[15] == 's' && FunctionType[15] == 'f' && WebhookType[15] == 'w'
    ensures PostgresType[15] == 'p' && MysqlType[15] == 'm' && StartType[15] == 's'
    ensures SetType[16] == 'e' && StartType[16] == 't'
  {
  }

  /** One workflow node; `disabled` is None while the property is absent. */
  datatype Node = Node(
    name: string,
    nodeType: string,
    typeVersion: int,
    position: seq<int>,
    parameters: Params,
    disabled: Option<bool>)

  /** One connection `{node, type, index}`: target node name, target input type, target input slot. */
  datatype Conn = Conn(node: string, input: string, index: nat)

  type Slot = seq<Conn>
  type Outputs = map<string, seq<Slot>>
  type Connections = map<string, Outputs>

  /** The index of the first node with the name, or None when no node has it. */
  function FindNode(nodes: seq<Node>, name: string): (r: Option<nat>)
    ensures r.Some? ==> r.value < |nodes| && nodes[r.value].name == name
    ensures r.Some? ==> forall j :: 0 <= j < r.value ==> nodes[j].name != name
    ensures r.None? <==> forall j :: 0 <= j < |nodes| ==> nodes[j].name != name
  {
    if |nodes| == 0 then None
    else if nodes[0].name == name then Some(0)
    else match FindNode(nodes[1..], name)
      case None => None
      case Some(k) => Some(k + 1)
  }

  /** The nodes with other names, in order. */
  function WithoutNode(nodes: seq<Node>, name: string): (r: seq<Node>)
    ensures forall n :: n in r <==> n in nodes && n.name != name
  {
    Filter(nodes, (n: Node) => n.name != name)
  }

  /** The connections of the slot that lead elsewhere than `target`, in order. */
  function Without(slot: Slot, target: string): (r: Slot)
    ensures |r| <= |slot|
    ensures forall x :: x in r <==> x in slot && x.node != target
  {
    Filter(slot, (x: Conn) => x.node != target)
  }

  /** No connection in `outs` leads to `target`. */
  predicate NoneTarget(outs: Outputs, target: string) {
    forall t, i, j :: t in outs && 0 <= i < |outs[t]| && 0 <= j < |outs[t][i]| ==> outs[t][i][j].node != target
  }

  /** `after` has the shape of `before`, every slot filtered by `Without(_, target)`. */
  predicate PrunedFrom(before: Outputs, after: Outputs, target: string) {
    && after.Keys == before.Keys
    && forall t :: t in before ==>
         && |after[t]| == |before[t]|
         && forall i :: 0 <= i < |before[t]| ==> after[t][i] == Without(before[t][i], target)
  }

  /** Every slot of every output type of one source, with the connections to `target` removed. */
  function PruneOutputs(outs: Outputs, target: string): (r: Outputs)
    ensures PrunedFrom(outs, r, target)
    ensures NoneTarget(r, target)
  {
    var r := map t | t in outs :: seq(|outs[t]|, i requires 0 <= i < |outs[t]| => Without(outs[t][i], target));
    assert forall t, i, j :: t in r && 0 <= i < |r[t]| && 0 <= j < |r[t][i]| ==> r[t][i][j] in r[t][i];
    r
  }

  /** The names of all nodes that some connection leads to. */
  function Targets(c: Connections): set<string> {
    set s, t, i, j | s in c && t in c[s] && 0 <= i < |c[s][t]| && 0 <= j < |c[s][t][i]| :: c[s][t][i][j].node
  }

  /** Every connection source and every connection target. */
  function Connected(c: Connections): set<string> {
    c.Keys + Targets(c)
  }

  /** The connection map after `delete_node(name)`: the node's own entry is gone and every other
      source's slots are filtered. */
  function PruneNode(c: Connections, name: string): (r: Connections)
    ensures r.Keys == c.Keys - {name}
    ensures forall s :: s in r ==> PrunedFrom(c[s], r[s], name)
    ensures name !in Connected(r)
  {
    map s | s in c && s != name :: PruneOutputs(c[s], name)
  }

  /** A map with the sources other than `name`, each pruned, is `PruneNode`'s. */
  lemma PruneNodeByEntries(c: Connections, r: Connections, name: string)
    requires r.Keys == c.Keys - {name}
    requires forall s :: s in r ==> r[s] == PruneOutputs(c[s], name)
    ensures r == PruneNode(c, name)
  {
  }

  /** The connection map after `disconnect_nodes(source, target)`. */
  function Disconnect(c: Connections, source: string, target: string): (r: Connections)
    ensures r.Keys == c.Keys
    ensures forall s :: s in c && s != source ==> r[s] == c[s]
    ensures source in c ==> PrunedFrom(c[source], r[source], target) && NoneTarget(r[source], target)
    ensures source !in c ==> r == c
  {
    if source in c then c[source := PruneOutputs(c[source], target)] else c
  }

  /** The slot list `connections[source][output]`, empty when a level is missing. */
  function SlotsAt(c: Connections, source: string, output: string): seq<Slot> {
    if source in c && output in c[source] then c[source][output] else []
  }

  /** The slot `connections[source][output][index]`, empty when a level is missing. */
  function SlotAt(c: Connections, source: string, output: string, index: nat): Slot {
    var slots := SlotsAt(c, source, output);
    if index < |slots| then slots[index] else []
  }

  /** The connection map after `connect_nodes`: the missing levels are created and `conn` is appended
      to slot `index` of `output` of `source`. An index past the end of the slot list would leave holes
      in a JavaScript array; it is excluded. */
  function Connect(c: Connections, source: string, output: string, index: nat, conn: Conn): (r: Connections)
    requires index <= |SlotsAt(c, source, output)|
    ensures r.Keys == c.Keys + {source}
    ensures output in r[source]
    ensures r[source].Keys == (if source in c then c[source].Keys else {}) + {output}
    ensures |r[source][output]| == if index < |SlotsAt(c, source, output)| then |SlotsAt(c, source, output)| else index + 1
    ensures SlotAt(r, source, output, index) == SlotAt(c, source, output, index) + [conn]
    ensures forall s :: s in c && s != source ==> r[s] == c[s]
    ensures forall t :: source in c && t in c[source] && t != output ==> r[source][t] == c[source][t]
    ensures forall i :: 0 <= i < |SlotsAt(c, source, output)| && i != index ==>
              r[source][output][i] == SlotsAt(c, source, output)[i]
  {
    var outs := if source in c then c[source] else map[];
    var slots := SlotsAt(c, source, output);
    var slots' := if index < |slots| then slots[index := slots[index] + [conn]] else slots + [[conn]];
    c[source := outs[output := slots']]
  }

  /** A connection to `target` appended to a slot is filtered away again. */
  lemma WithoutAppended(slot: Slot, conn: Conn)
    ensures Without(slot + [conn], conn.node) == Without(slot, conn.node)
  {
    FilterConcat(slot, [conn], (x: Conn) => x.node != conn.node);
  }

  /** Replacing the slots of one output type by slots that filter to the same connections does not
      change the pruned outputs. */
  lemma PruneOutputsUpdate(outs: Outputs, output: string, slots: seq<Slot>, target: string)
    requires output in outs && |slots| == |outs[output]|
    requires forall i :: 0 <= i < |slots| ==> Without(slots[i], target) == Without(outs[output][i], target)
    ensures PruneOutputs(outs[output := slots], target) == PruneOutputs(outs, target)
  {
    var a := PruneOutputs(outs[output := slots], target);
    var b := PruneOutputs(outs, target);
    assert a[output] == b[output];
    assert forall t | t in a :: a[t] == b[t];
  }

  /** Disconnecting right after connecting restores the map, when the slot already existed. */
  lemma ConnectThenDisconnect(c: Connections, source: string, output: string, index: nat, conn: Conn)
    requires index < |SlotsAt(c, source, output)|
    ensures Disconnect(Connect(c, source, output, index, conn), source, conn.node) == Disconnect(c, source, conn.node)
  {
    var outs := c[source];
    var slots := outs[output];
    var slots' := slots[index := slots[index] + [conn]];
    assert Connect(c, source, output, index, conn) == c[source := outs[output := slots']];
    WithoutAppended(slots[index], conn);
    PruneOutputsUpdate(outs, output, slots', conn.node);
  }

  /** After `connect_nodes`, both ends count as connected. */
  lemma ConnectConnects(c: Connections, source: string, output: string, index: nat, conn: Conn)
    requires index <= |SlotsAt(c, source, output)|
    ensures source in Connected(Connect(c, source, output, index, conn))
    ensures conn.node in Connected(Connect(c, source, output, index, conn))
  {
    var r: Connections := Connect(c, source, output, index, conn);
    var slot: Slot := SlotAt(r, source, output, index);
    assert slot[|slot| - 1] == conn;
    assert r[source][output][index][|slot| - 1].node == conn.node;
  }

  /** Pruning a source twice for the same target is pruning it once. */
  lemma PruneOutputsIdempotent(outs: Outputs, target: string)
    ensures PruneOutputs(PruneOutputs(outs, target), target) == PruneOutputs(outs, target)
  {
    var once := PruneOutputs(outs, target);
    var twice := PruneOutputs(once, target);
    forall t | t in once ensures twice[t] == once[t] {
      forall i | 0 <= i < |once[t]| ensures twice[t][i] == once[t][i] {
        FilterIdempotent(outs[t][i], (x: Conn) => x.node != target);
      }
    }
  }

  /** Deleting a node twice leaves the connections as deleting it once. */
  lemma PruneNodeIdempotent(c: Connections, name: string)
    ensures PruneNode(PruneNode(c, name), name) == PruneNode(c, name)
  {
    var once := PruneNode(c, name);
    forall s | s in once ensures PruneOutputs(once[s], name) == once[s] {
      PruneOutputsIdempotent(c[s], name);
    }
    PruneNodeByEntries(once, PruneNode(c, name), name);
  }

  /** Disconnecting twice is disconnecting once. */
  lemma DisconnectIdempotent(c: Connections, source: string, target: string)
    ensures Disconnect(Disconnect(c, source, target), source, target) == Disconnect(c, source, target)
  {
    if source in c {
      PruneOutputsIdempotent(c[source], target);
    }
  }

  /** After a node is appended to a list without that name, the name is found at the end. */
  lemma {:induction false} FindAppended(nodes: seq<Node>, n: Node)
    requires FindNode(nodes, n.name).None?
    ensures FindNode(nodes + [n], n.name) == Some(|nodes|)
  {
    if nodes != [] {
      assert (nodes + [n])[1..] == nodes[1..] + [n];
      FindAppended(nodes[1..], n);
    }
  }

  /** After deleting, no node of that name is found, and the others keep their relative order. */
  lemma DeletedNotFound(nodes: seq<Node>, more: seq<Node>, name: string)
    ensures FindNode(WithoutNode(nodes, name), name).None?
    ensures WithoutNode(nodes + more, name) == WithoutNode(nodes, name) + WithoutNode(more, name)
  {
    var r := WithoutNode(nodes, name);
    forall j | 0 <= j < |r| ensures r[j].name != name {
      assert r[j] in r;
    }
    FilterConcat(nodes, more, (n: Node) => n.name != name);
  }
}

