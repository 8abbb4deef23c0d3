/**
 * The graph-edit handlers of the editing server on a fetched workflow: `add_node`,
 * `update_node`, `delete_node`, `connect_nodes`, `disconnect_nodes`, `fix_common_node_errors`
 * and `validate_workflow`. The object's state is the document the handler writes back.
 */
module Editor {
  import opened Wrappers
  import opened Json
  import opened Seqs
  import opened Workflows
  import opened Rules
  import opened Validation

  /** The connections part-way through `delete_node`'s loop: the sources still to visit are
      unchanged, the visited ones other than the node are pruned, and the node's own entry is
      gone once visited. */
  ghost function PartlyPruned(c: Connections, remaining: set<string>, name: string): Connections {
    map s | s in c && (s != name || s in remaining) :: if s in remaining then c[s] else PruneOutputs(c[s], name)
  }

  lemma PartlyPrunedStart(c: Connections, name: string)
    ensures PartlyPruned(c, c.Keys, name) == c
  {
  }

  /** A source not yet visited is still present with its original slots. */
  lemma PartlyPrunedUnvisited(c: Connections, remaining: set<string>, name: string, s: string)
    requires s in remaining && remaining <= c.Keys
    ensures s in PartlyPruned(c, remaining, name) && PartlyPruned(c, remaining, name)[s] == c[s]
  {
  }

  /** Visiting the node's own entry removes it. */
  lemma PartlyPrunedRemove(c: Connections, remaining: set<string>, name: string)
    requires name in remaining && remaining <= c.Keys
    ensures PartlyPruned(c, remaining - {name}, name) == PartlyPruned(c, remaining, name) - {name}
  {
    var before := PartlyPruned(c, remaining, name);
    var after := PartlyPruned(c, remaining - {name}, name);
    assert after.Keys == before.Keys - {name};
  }

  /** Visiting any other source prunes its slots. */
  lemma PartlyPrunedVisit(c: Connections, remaining: set<string>, name: string, s: string)
    requires s in remaining && remaining <= c.Keys && s != name
    ensures PartlyPruned(c, remaining - {s}, name) == PartlyPruned(c, remaining, name)[s := PruneOutputs(c[s], name)]
  {
    var before := PartlyPruned(c, remaining, name);
    var after := PartlyPruned(c, remaining - {s}, name);
    assert after.Keys == before.Keys;
  }

  lemma PartlyPrunedEnd(c: Connections, name: string)
    ensures PartlyPruned(c, {}, name) == PruneNode(c, name)
  {
  }

  /** The output or input type of a connection: a non-empty given name, else `main`. */
  function OrMain(s: Option<string>): (r: string)
    ensures r != ""
    ensures s.Some? && s.value != "" ==> r == s.value
    ensures !(s.Some? && s.value != "") ==> r == "main"
  {
    if s.Some? && s.value != "" then s.value else "main"
  }

  /** The slot index of a connection: the given index, else 0. */
  function OrZero(i: Option<nat>): (r: nat)
    ensures i.Some? ==> r == i.value
    ensures i.None? ==> r == 0
  {
    if i.Some? then i.value else 0
  }

  /** Every slot of `slots` with the connections to `target` filtered out, slot by slot. */
  method PruneSlots(slots: seq<Slot>, target: string) returns (r: seq<Slot>)
    ensures |r| == |slots|
    ensures forall i :: 0 <= i < |slots| ==> r[i] == Without(slots[i], target)
  {
    r := slots;
    var i := 0;
    while i < |r|
      invariant |r| == |slots| && 0 <= i <= |r|
      invariant forall k :: 0 <= k < i ==> r[k] == Without(slots[k], target)
      invariant forall k :: i <= k < |r| ==> r[k] == slots[k]
    {
      r := r[i := Without(r[i], target)];
      i := i + 1;
    }
  }

  /** The nested `for…in` loops of `delete_node` and `disconnect_nodes` over one source's outputs. */
  method PruneSource(outs: Outputs, target: string) returns (r: Outputs)
    ensures r == PruneOutputs(outs, target)
  {
    r := outs;
    var remaining := outs.Keys;
    while remaining != {}
      invariant remaining <= outs.Keys && r.Keys == outs.Keys
      invariant forall t :: t in outs && t !in remaining ==>
        |r[t]| == |outs[t]| && forall i :: 0 <= i < |outs[t]| ==> r[t][i] == Without(outs[t][i], target)
      invariant forall t :: t in remaining ==> r[t] == outs[t]
      decreases |remaining|
    {
      var t :| t in remaining;
      var pruned := PruneSlots(r[t], target);
      r := r[t := pruned];
      remaining := remaining - {t};
    }
    var p := PruneOutputs(outs, target);
    assert r == p by {
      forall t | t in r ensures r[t] == p[t] {
      }
    }
  }

  class Workflow {
    var name: string
    var active: bool
    var nodes: seq<Node>
    var connections: Connections

    constructor (name: string, active: bool, nodes: seq<Node>, connections: Connections)
      ensures this.name == name && this.active == active
      ensures this.nodes == nodes && this.connections == connections
    {
      this.name := name;
      this.active := active;
      this.nodes := nodes;
      this.connections := connections;
    }

    /** `add_node`: one new node at the end, with the documented defaults. */
    method AddNode(nodeName: string, nodeType: string, position: Option<seq<int>>, parameters: Option<Params>)
      modifies this
      ensures nodes == old(nodes) + [Node(nodeName, nodeType, 1, position.GetOr([250, 250]), parameters.GetOr(map[]), None)]
      ensures connections == old(connections) && name == old(name) && active == old(active)
    {
      var newNode := Node(nodeName, nodeType, 1, position.GetOr([250, 250]), parameters.GetOr(map[]), None);
      nodes := nodes + [newNode];
    }

    /** `update_node`: the first node of that name gets the given parameters merged over its own,
        and the given position and disabled flag; an unknown name is an error. */
    method UpdateNode(nodeName: string, parameters: Option<Params>, position: Option<seq<int>>, disabled: Option<bool>)
      returns (r: Result<nat, string>)
      modifies this
      ensures r.Failure? <==> FindNode(old(nodes), nodeName).None?
      ensures r.Failure? ==> r.error == "Node '" + nodeName + "' not found in workflow" && nodes == old(nodes)
      ensures r.Success? ==> FindNode(old(nodes), nodeName) == Some(r.value) && r.value < |old(nodes)|
      ensures r.Success? ==>
        var n := old(nodes)[r.value];
        nodes == old(nodes)[r.value := n.(
          parameters := if parameters.Some? then n.parameters + parameters.value else n.parameters,
          position := position.GetOr(n.position),
          disabled := if disabled.Some? then disabled else n.disabled)]
      ensures connections == old(connections) && name == old(name) && active == old(active)
    {
      var found := FindNode(nodes, nodeName);
      if found.None? {
        return Failure("Node '" + nodeName + "' not found in workflow");
      }
      var i := found.value;
      var node := nodes[i];
      if parameters.Some? {
        node := node.(parameters := node.parameters + parameters.value);
      }
      if position.Some? {
        node := node.(position := position.value);
      }
      if disabled.Some? {
        node := node.(disabled := disabled);
      }
      nodes := nodes[i := node];
      r := Success(i);
    }

    /** `delete_node`: every node of that name goes, its own connection entry goes, and every
        other source keeps its slots with the connections to it filtered out. */
    method DeleteNode(nodeName: string)
      modifies this
      ensures nodes == WithoutNode(old(nodes), nodeName)
      ensures connections == PruneNode(old(connections), nodeName)
      ensures name == old(name) && active == old(active)
    {
      nodes := WithoutNode(nodes, nodeName);
      ghost var c0 := connections;
      var remaining := connections.Keys;
      PartlyPrunedStart(c0, nodeName);
      while remaining != {}
        invariant nodes == WithoutNode(old(nodes), nodeName) && name == old(name) && active == old(active)
        invariant remaining <= c0.Keys
        invariant connections == PartlyPruned(c0, remaining, nodeName)
        decreases |remaining|
      {
        var s :| s in remaining;
        PartlyPrunedUnvisited(c0, remaining, nodeName, s);
        if s == nodeName {
          PartlyPrunedRemove(c0, remaining, nodeName);
          connections := connections - {s};
        } else {
          PartlyPrunedVisit(c0, remaining, nodeName, s);
          var pruned := PruneSource(connections[s], nodeName);
          connections := connections[s := pruned];
        }
        remaining := remaining - {s};
      }
      PartlyPrunedEnd(c0, nodeName);
    }

    /** `connect_nodes`: the missing levels are created and the connection is appended to the
        chosen slot; the output index may name an existing slot or the next new one. */
    method ConnectNodes(sourceNode: string, targetNode: string, sourceOutput: Option<string>, outputIndex: Option<nat>,
                        targetInput: Option<string>, inputIndex: Option<nat>)
      modifies this
      requires OrZero(outputIndex) <= |SlotsAt(connections, sourceNode, OrMain(sourceOutput))|
      ensures connections == Connect(old(connections), sourceNode, OrMain(sourceOutput), OrZero(outputIndex),
                                     Conn(targetNode, OrMain(targetInput), OrZero(inputIndex)))
      ensures nodes == old(nodes) && name == old(name) && active == old(active)
    {
      var output := OrMain(sourceOutput);
      var index := OrZero(outputIndex);
      var conn := Conn(targetNode, OrMain(targetInput), OrZero(inputIndex));
      ghost var slots0 := SlotsAt(connections, sourceNode, output);
      var outs: Outputs := map[];
      if sourceNode in connections {
        outs := connections[sourceNode];
      }
      ghost var outs0 := outs;
      if output !in outs {
        outs := outs[output := []];
      }
      var slots := outs[output];
      assert slots == slots0;
      if index == |slots| {
        slots := slots + [[]];
      }
      slots := slots[index := slots[index] + [conn]];
      if index == |slots0| {
        assert slots == slots0 + [[conn]] by {
          assert [] + [conn] == [conn];
        }
      }
      outs := outs[output := slots];
      assert outs == outs0[output := slots];
      connections := connections[sourceNode := outs];
    }

    /** `disconnect_nodes`: every connection from the source to the target goes; nothing happens
        when the source has no entry. */
    method DisconnectNodes(sourceNode: string, targetNode: string)
      modifies this
      ensures connections == Disconnect(old(connections), sourceNode, targetNode)
      ensures nodes == old(nodes) && name == old(name) && active == old(active)
    {
      if sourceNode in connections {
        var pruned := PruneSource(connections[sourceNode], targetNode);
        connections := connections[sourceNode := pruned];
      }
    }

    /** `fix_common_node_errors`: the first node of that name gets the per-type defaults for the
        detected error type, and the document is written back only when something was fixed. */
    method FixCommonNodeErrors(nodeName: string, errorType: Option<string>, latest: Option<ExecError>)
      returns (r: Result<seq<string>, string>)
      modifies this
      ensures r.Failure? <==> FindNode(old(nodes), nodeName).None?
      ensures r.Failure? ==> r.error == "Node '" + nodeName + "' not found" && nodes == old(nodes)
      ensures r.Success? ==>
        var i := FindNode(old(nodes), nodeName).value;
        var n := old(nodes)[i];
        var detected := DetectErrorType(errorType, latest);
        && r.value == FixMessages(n.nodeType, n.parameters, detected)
        && nodes == old(nodes)[i := n.(parameters := FixedParams(n.nodeType, n.parameters, detected))]
      ensures connections == old(connections) && name == old(name) && active == old(active)
    {
      var found := FindNode(nodes, nodeName);
      if found.None? {
        return Failure("Node '" + nodeName + "' not found");
      }
      var i := found.value;
      var node := nodes[i];
      var detected := DetectErrorType(errorType, latest);
      var fixed, fixes, updated := ApplyFixes(node.nodeType, node.parameters, detected);
      if updated {
        nodes := nodes[i := node.(parameters := fixed)];
      } else {
        FixesOnlyWhenUpdated(node.nodeType, node.parameters, detected);
      }
      r := Success(fixes);
    }

    /** `validate_workflow`: the connected set, then one pass over the nodes. */
    method Validate() returns (v: Report)
      ensures v.workflowName == name && v.isActive == active && v.nodeCount == |nodes|
      ensures v.issues == IssuesUpTo(nodes, |nodes|)
      ensures v.warnings == WarningsUpTo(nodes, Connected(connections), |nodes|)
      ensures v.info == NotesUpTo(nodes, |nodes|)
      ensures v.isValid <==> v.issues == []
      ensures v.summary == Summary(|v.issues|)
    {
      var connected := ConnectedNodes(connections);
      var issues, warnings, info := CheckNodes(nodes, connected);
      v := Report(name, active, |nodes|, issues, warnings, info, |issues| == 0, Summary(|issues|));
    }
  }
}
