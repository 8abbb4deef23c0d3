/**
 * `validate_workflow`: the set of connected node names, and the issues, warnings and notes
 * the handler reports for each node, in node order.
 */
module Validation {
  import opened Wrappers
  import opened Json
  import opened Text
  import opened Workflows
  import Seqs

  /** A configuration error; any of them makes the workflow invalid. */
  datatype Issue = MissingUrl(node: string) | MissingPath(node: string) | MissingOperation(node: string)

  /** A warning: a node no connection touches, or a webhook path shared with another webhook. */
  datatype Warning = NotConnected(node: string) | DuplicateWebhookPath(path: Option<Value>)

  /** A note: the node is disabled. */
  datatype Note = Disabled(node: string)

  /** The message the handler pushes for an issue. */
  function IssueText(i: Issue): string {
    match i
    case MissingUrl(n) => "HTTP Request node '" + n + "' is missing URL"
    case MissingPath(n) => "Webhook node '" + n + "' is missing path"
    case MissingOperation(n) => "Database node '" + n + "' is missing operation type"
  }

  /** The message for a warning; a shared path is shown as the handler interpolates it. */
  function WarningText(w: Warning, r: Render): string {
    match w
    case NotConnected(n) => "Node '" + n + "' is not connected to any other nodes"
    case DuplicateWebhookPath(p) => "Multiple webhook nodes with same path: " + Interpolate(p, r)
  }

  /** The message for a note. */
  function NoteText(n: Note): string {
    "Node '" + n.node + "' is disabled"
  }

  /** Every issue message names the node it is about. */
  lemma IssueTextNamesNode(i: Issue)
    ensures Contains(IssueText(i), i.node)
  {
    match i
    case MissingUrl(n) => ContainsMiddle("HTTP Request node '", n, "' is missing URL");
    case MissingPath(n) => ContainsMiddle("Webhook node '", n, "' is missing path");
    case MissingOperation(n) => ContainsMiddle("Database node '", n, "' is missing operation type");
  }

  /** A not-connected warning names the node, and a shared-path warning shows the path. */
  lemma WarningTextNamesSubject(w: Warning, r: Render)
    ensures w.NotConnected? ==> Contains(WarningText(w, r), w.node)
    ensures w.DuplicateWebhookPath? ==> Contains(WarningText(w, r), Interpolate(w.path, r))
  {
    match w
    case NotConnected(n) => ContainsMiddle("Node '", n, "' is not connected to any other nodes");
    case DuplicateWebhookPath(p) =>
      assert WarningText(w, r) == "Multiple webhook nodes with same path: " + Interpolate(p, r) + "";
      ContainsMiddle("Multiple webhook nodes with same path: ", Interpolate(p, r), "");
  }

  /** A disabled note names the node. */
  lemma NoteTextNamesNode(n: Note)
    ensures Contains(NoteText(n), n.node)
  {
    ContainsMiddle("Node '", n.node, "' is disabled");
  }

  /** The result object of `validate_workflow`. */
  datatype Report = Report(
    workflowName: string,
    isActive: bool,
    nodeCount: nat,
    issues: seq<Issue>,
    warnings: seq<Warning>,
    info: seq<Note>,
    isValid: bool,
    summary: string)

  /** The summary line for a given number of issues. */
  function Summary(issueCount: nat): (r: string)
    ensures issueCount == 0 <==> r == "Workflow is valid"
    ensures issueCount > 0 ==> r == "Found " + Decimal(issueCount) + " issues that need fixing"
  {
    if issueCount == 0 then "Workflow is valid"
    else
      var r := "Found " + Decimal(issueCount) + " issues that need fixing";
      assert r[0] == 'F' && "Workflow is valid"[0] == 'W';
      r
  }

  // ----- the connected set -----

  /** The targets of one slot. */
  function SlotTargets(slot: Slot): set<string> {
    set j | 0 <= j < |slot| :: slot[j].node
  }

  /** The targets of a list of slots. */
  function SlotsTargets(slots: seq<Slot>): set<string> {
    set i, j | 0 <= i < |slots| && 0 <= j < |slots[i]| :: slots[i][j].node
  }

  /** The targets of every output type of one source. */
  function OutputsTargets(outs: Outputs): set<string> {
    set t, i, j | t in outs && 0 <= i < |outs[t]| && 0 <= j < |outs[t][i]| :: outs[t][i][j].node
  }

  /** The loop over one slot: the target of each of its connections is added. */
  method CollectSlot(slot: Slot) returns (r: set<string>)
    ensures r == SlotTargets(slot)
  {
    r := {};
    var j := 0;
    while j < |slot|
      invariant 0 <= j <= |slot|
      invariant r == set k | 0 <= k < j :: slot[k].node
    {
      r := r + {slot[j].node};
      j := j + 1;
    }
  }

  /** The loop over the slots of one output type. */
  method CollectSlots(slots: seq<Slot>) returns (r: set<string>)
    ensures r == SlotsTargets(slots)
  {
    r := {};
    var i := 0;
    while i < |slots|
      invariant 0 <= i <= |slots|
      invariant r == set a, b | 0 <= a < i && 0 <= b < |slots[a]| :: slots[a][b].node
    {
      var here := CollectSlot(slots[i]);
      ghost var before := r;
      r := r + here;
      assert r == set a, b | 0 <= a < i + 1 && 0 <= b < |slots[a]| :: slots[a][b].node by {
        forall x | x in r ensures x in set a, b | 0 <= a < i + 1 && 0 <= b < |slots[a]| :: slots[a][b].node {
          if x !in before {
            var b :| 0 <= b < |slots[i]| && slots[i][b].node == x;
          }
        }
      }
      i := i + 1;
    }
  }

  /** The loop over the output types of one source. */
  method CollectOutputs(outs: Outputs) returns (r: set<string>)
    ensures r == OutputsTargets(outs)
  {
    r := {};
    var remaining := outs.Keys;
    while remaining != {}
      invariant remaining <= outs.Keys
      invariant r == set t, a, b | t in outs && t !in remaining && 0 <= a < |outs[t]| && 0 <= b < |outs[t][a]| :: outs[t][a][b].node
      decreases |remaining|
    {
      var t :| t in remaining;
      var here := CollectSlots(outs[t]);
      ghost var before := r;
      remaining := remaining - {t};
      r := r + here;
      assert r == set u, a, b | u in outs && u !in remaining && 0 <= a < |outs[u]| && 0 <= b < |outs[u][a]| :: outs[u][a][b].node by {
        forall x | x in r
          ensures x in set u, a, b | u in outs && u !in remaining && 0 <= a < |outs[u]| && 0 <= b < |outs[u][a]| :: outs[u][a][b].node
        {
          if x !in before {
            var a, b :| 0 <= a < |outs[t]| && 0 <= b < |outs[t][a]| && outs[t][a][b].node == x;
          }
        }
      }
    }
  }

  /** Adding one source to a connection map adds its name and its targets to the connected set. */
  lemma ConnectedAdd(d: Connections, s: string, outs: Outputs)
    requires s !in d
    ensures Connected(d[s := outs]) == Connected(d) + {s} + OutputsTargets(outs)
  {
    var e: Connections := d[s := outs];
    forall x | x in Targets(e) ensures x in Targets(d) + OutputsTargets(outs) {
      var u, t, a, b :| u in e && t in e[u] && 0 <= a < |e[u][t]| && 0 <= b < |e[u][t][a]| && e[u][t][a][b].node == x;
      if u == s {
        assert outs[t][a][b].node == x;
      } else {
        assert d[u][t][a][b].node == x;
      }
    }
    forall x | x in Targets(d) ensures x in Targets(e) {
      var u, t, a, b :| u in d && t in d[u] && 0 <= a < |d[u][t]| && 0 <= b < |d[u][t][a]| && d[u][t][a][b].node == x;
      assert e[u][t][a][b].node == x;
    }
    forall x | x in OutputsTargets(outs) ensures x in Targets(e) {
      var t, a, b :| t in outs && 0 <= a < |outs[t]| && 0 <= b < |outs[t][a]| && outs[t][a][b].node == x;
      assert e[s][t][a][b].node == x;
    }
  }

  /** Taking one more source back out of the set of removed ones. */
  lemma RestoreOne(c: Connections, remaining: set<string>, s: string)
    requires s in remaining && remaining <= c.Keys
    ensures s !in c - remaining
    ensures c - (remaining - {s}) == (c - remaining)[s := c[s]]
  {
  }

  /** The `connectedNodes` set: every source name, and the target of every connection. */
  method ConnectedNodes(c: Connections) returns (r: set<string>)
    ensures r == Connected(c)
  {
    r := {};
    var remaining := c.Keys;
    assert c - remaining == map[];
    while remaining != {}
      invariant remaining <= c.Keys
      invariant r == Connected(c - remaining)
      decreases |remaining|
    {
      var s :| s in remaining;
      var here := CollectOutputs(c[s]);
      RestoreOne(c, remaining, s);
      ConnectedAdd(c - remaining, s, c[s]);
      remaining := remaining - {s};
      r := r + {s} + here;
    }
    assert c - remaining == c;
  }

  // ----- the per-node checks -----

  function PathOf(n: Node): Option<Value> {
    Get(n.parameters, "path")
  }

  /** Is node `j` a webhook whose path is strictly equal to the path of node `i`? A node's own path is the same object as itself, whatever its kind. */
  predicate SamePath(nodes: seq<Node>, i: nat, j: nat)
    requires i < |nodes| && j < |nodes|
  {
    nodes[j].nodeType == WebhookType && (j == i || StrictEquals(PathOf(nodes[j]), PathOf(nodes[i])))
  }

  /** The length of that filter over the first `k` nodes. */
  function SamePathCount(nodes: seq<Node>, i: nat, k: nat): nat
    requires i < |nodes| && k <= |nodes|
  {
    if k == 0 then 0 else SamePathCount(nodes, i, k - 1) + (if SamePath(nodes, i, k - 1) then 1 else 0)
  }

  /** The issues `validate_workflow` reports for one node. */
  function NodeIssues(n: Node): seq<Issue> {
    if n.nodeType == HttpRequestType && Missing(n.parameters, "url") then [MissingUrl(n.name)]
    else if n.nodeType == WebhookType && Missing(n.parameters, "path") then [MissingPath(n.name)]
    else if (n.nodeType == PostgresType || n.nodeType == MysqlType) && Missing(n.parameters, "operation")
    then [MissingOperation(n.name)]
    else []
  }

  /** The warnings for node `i`: unconnected first, then a shared webhook path. */
  function NodeWarnings(nodes: seq<Node>, connected: set<string>, i: nat): seq<Warning>
    requires i < |nodes|
  {
    var n := nodes[i];
    (if n.name !in connected && n.nodeType != StartType then [NotConnected(n.name)] else [])
    + (if n.nodeType == WebhookType && SamePathCount(nodes, i, |nodes|) > 1 then [DuplicateWebhookPath(PathOf(n))] else [])
  }

  /** The note for a disabled node. */
  function NodeNotes(n: Node): seq<Note> {
    if n.disabled == Some(true) then [Disabled(n.name)] else []
  }

  /** The issues, warnings and notes of each of the first `k` nodes. */
  function IssueList(nodes: seq<Node>, k: nat): (parts: seq<seq<Issue>>)
    requires k <= |nodes|
    ensures |parts| == k && forall i :: 0 <= i < k ==> parts[i] == NodeIssues(nodes[i])
  {
    seq(k, i requires 0 <= i < k => NodeIssues(nodes[i]))
  }

  function WarningList(nodes: seq<Node>, connected: set<string>, k: nat): (parts: seq<seq<Warning>>)
    requires k <= |nodes|
    ensures |parts| == k && forall i :: 0 <= i < k ==> parts[i] == NodeWarnings(nodes, connected, i)
  {
    seq(k, i requires 0 <= i < k => NodeWarnings(nodes, connected, i))
  }

  function NoteList(nodes: seq<Node>, k: nat): (parts: seq<seq<Note>>)
    requires k <= |nodes|
    ensures |parts| == k && forall i :: 0 <= i < k ==> parts[i] == NodeNotes(nodes[i])
  {
    seq(k, i requires 0 <= i < k => NodeNotes(nodes[i]))
  }

  /** What `nodes.forEach` has collected after the first `k` nodes. */
  function IssuesUpTo(nodes: seq<Node>, k: nat): seq<Issue>
    requires k <= |nodes|
  {
    Seqs.Concat(IssueList(nodes, k))
  }

  function WarningsUpTo(nodes: seq<Node>, connected: set<string>, k: nat): seq<Warning>
    requires k <= |nodes|
  {
    Seqs.Concat(WarningList(nodes, connected, k))
  }

  function NotesUpTo(nodes: seq<Node>, k: nat): seq<Note>
    requires k <= |nodes|
  {
    Seqs.Concat(NoteList(nodes, k))
  }

  /** One node more adds its own items at the end of each list. */
  lemma IssuesStep(nodes: seq<Node>, k: nat)
    requires k < |nodes|
    ensures IssuesUpTo(nodes, k + 1) == IssuesUpTo(nodes, k) + NodeIssues(nodes[k])
  {
    assert IssueList(nodes, k + 1) == IssueList(nodes, k) + [NodeIssues(nodes[k])];
    Seqs.ConcatSnoc(IssueList(nodes, k), NodeIssues(nodes[k]));
  }

  lemma WarningsStep(nodes: seq<Node>, connected: set<string>, k: nat)
    requires k < |nodes|
    ensures WarningsUpTo(nodes, connected, k + 1) == WarningsUpTo(nodes, connected, k) + NodeWarnings(nodes, connected, k)
  {
    assert WarningList(nodes, connected, k + 1) == WarningList(nodes, connected, k) + [NodeWarnings(nodes, connected, k)];
    Seqs.ConcatSnoc(WarningList(nodes, connected, k), NodeWarnings(nodes, connected, k));
  }

  lemma NotesStep(nodes: seq<Node>, k: nat)
    requires k < |nodes|
    ensures NotesUpTo(nodes, k + 1) == NotesUpTo(nodes, k) + NodeNotes(nodes[k])
  {
    assert NoteList(nodes, k + 1) == NoteList(nodes, k) + [NodeNotes(nodes[k])];
    Seqs.ConcatSnoc(NoteList(nodes, k), NodeNotes(nodes[k]));
  }


  /** The `nodes.forEach` callback for node `i`: what it pushes onto each of the three lists. */
  method CheckNode(nodes: seq<Node>, connected: set<string>, i: nat)
    returns (issues: seq<Issue>, warnings: seq<Warning>, info: seq<Note>)
    requires i < |nodes|
    ensures issues == NodeIssues(nodes[i])
    ensures warnings == NodeWarnings(nodes, connected, i)
    ensures info == NodeNotes(nodes[i])
  {
    issues, warnings, info := [], [], [];
    TypeNamesDistinct();
    var node := nodes[i];
    if node.name !in connected && node.nodeType != StartType {
      warnings := warnings + [NotConnected(node.name)];
    }
    if node.nodeType == HttpRequestType {
      if Missing(node.parameters, "url") {
        issues := issues + [MissingUrl(node.name)];
      }
    } else if node.nodeType == WebhookType {
      if Missing(node.parameters, "path") {
        issues := issues + [MissingPath(node.name)];
      }
      if SamePathCount(nodes, i, |nodes|) > 1 {
        warnings := warnings + [DuplicateWebhookPath(PathOf(node))];
      }
    } else if node.nodeType == PostgresType || node.nodeType == MysqlType {
      if Missing(node.parameters, "operation") {
        issues := issues + [MissingOperation(node.name)];
      }
    }
    if node.disabled == Some(true) {
      info := info + [Disabled(node.name)];
    }
  }

  /** The `nodes.forEach` pass of `validate_workflow`, given the connected set. */
  method CheckNodes(nodes: seq<Node>, connected: set<string>)
    returns (issues: seq<Issue>, warnings: seq<Warning>, info: seq<Note>)
    ensures issues == IssuesUpTo(nodes, |nodes|)
    ensures warnings == WarningsUpTo(nodes, connected, |nodes|)
    ensures info == NotesUpTo(nodes, |nodes|)
  {
    issues, warnings, info := [], [], [];
    var i := 0;
    while i < |nodes|
      invariant 0 <= i <= |nodes|
      invariant issues == IssuesUpTo(nodes, i)
      invariant warnings == WarningsUpTo(nodes, connected, i)
      invariant info == NotesUpTo(nodes, i)
    {
      var nodeIssues, nodeWarnings, nodeInfo := CheckNode(nodes, connected, i);
      IssuesStep(nodes, i);
      WarningsStep(nodes, connected, i);
      NotesStep(nodes, i);
      issues, warnings, info := issues + nodeIssues, warnings + nodeWarnings, info + nodeInfo;
      i := i + 1;
    }
  }


  // ----- what the report means -----

  /** An item is collected exactly when some node among the first `k` produces it. */
  lemma IssuesCollected(nodes: seq<Node>, k: nat, x: Issue)
    requires k <= |nodes|
    ensures x in IssuesUpTo(nodes, k) <==> exists i :: 0 <= i < k && x in NodeIssues(nodes[i])
  {
    Seqs.ConcatIn(IssueList(nodes, k), x);
  }

  lemma WarningsCollected(nodes: seq<Node>, connected: set<string>, k: nat, x: Warning)
    requires k <= |nodes|
    ensures x in WarningsUpTo(nodes, connected, k) <==> exists i :: 0 <= i < k && x in NodeWarnings(nodes, connected, i)
  {
    Seqs.ConcatIn(WarningList(nodes, connected, k), x);
  }

  lemma NotesCollected(nodes: seq<Node>, k: nat, x: Note)
    requires k <= |nodes|
    ensures x in NotesUpTo(nodes, k) <==> exists i :: 0 <= i < k && x in NodeNotes(nodes[i])
  {
    Seqs.ConcatIn(NoteList(nodes, k), x);
  }

  /** The workflow is valid exactly when no node has a configuration issue. */
  lemma ValidIffNoIssues(nodes: seq<Node>, k: nat)
    requires k <= |nodes|
    ensures IssuesUpTo(nodes, k) == [] <==> forall i :: 0 <= i < k ==> NodeIssues(nodes[i]) == []
  {
    Seqs.ConcatEmptyIff(IssueList(nodes, k));
  }

  /** A not-connected warning names a node exactly when a node of that name, not a start node,
      is neither a connection source nor a connection target. */
  lemma NotConnectedIff(nodes: seq<Node>, c: Connections, name: string)
    ensures NotConnected(name) in WarningsUpTo(nodes, Connected(c), |nodes|) <==>
      name !in Connected(c) && exists i :: 0 <= i < |nodes| && nodes[i].name == name && nodes[i].nodeType != StartType
  {
    WarningsCollected(nodes, Connected(c), |nodes|, NotConnected(name));
    if NotConnected(name) in WarningsUpTo(nodes, Connected(c), |nodes|) {
      var i :| 0 <= i < |nodes| && NotConnected(name) in NodeWarnings(nodes, Connected(c), i);
      assert nodes[i].name == name;
    }
    if name !in Connected(c) && exists i :: 0 <= i < |nodes| && nodes[i].name == name && nodes[i].nodeType != StartType {
      var i :| 0 <= i < |nodes| && nodes[i].name == name && nodes[i].nodeType != StartType;
      assert NotConnected(name) in NodeWarnings(nodes, Connected(c), i);
    }
  }

  /** A node is missing its URL, path or operation in the report exactly when a node of that
      name and type has that parameter falsy. */
  lemma MissingUrlIff(nodes: seq<Node>, name: string)
    ensures MissingUrl(name) in IssuesUpTo(nodes, |nodes|) <==>
      exists i :: 0 <= i < |nodes| && nodes[i].name == name && nodes[i].nodeType == HttpRequestType
                  && Missing(nodes[i].parameters, "url")
  {
    IssuesCollected(nodes, |nodes|, MissingUrl(name));
  }

  lemma MissingPathIff(nodes: seq<Node>, name: string)
    ensures MissingPath(name) in IssuesUpTo(nodes, |nodes|) <==>
      exists i :: 0 <= i < |nodes| && nodes[i].name == name && nodes[i].nodeType == WebhookType
                  && Missing(nodes[i].parameters, "path")
  {
    IssuesCollected(nodes, |nodes|, MissingPath(name));
    TypeNamesDistinct();
  }

  lemma MissingOperationIff(nodes: seq<Node>, name: string)
    ensures MissingOperation(name) in IssuesUpTo(nodes, |nodes|) <==>
      exists i :: 0 <= i < |nodes| && nodes[i].name == name && (nodes[i].nodeType == PostgresType || nodes[i].nodeType == MysqlType)
                  && Missing(nodes[i].parameters, "operation")
  {
    IssuesCollected(nodes, |nodes|, MissingOperation(name));
    TypeNamesDistinct();
  }

  /** A node is noted as disabled exactly when its `disabled` flag is true. */
  lemma DisabledIff(nodes: seq<Node>, name: string)
    ensures Disabled(name) in NotesUpTo(nodes, |nodes|) <==>
      exists i :: 0 <= i < |nodes| && nodes[i].name == name && nodes[i].disabled == Some(true)
  {
    NotesCollected(nodes, |nodes|, Disabled(name));
  }

  /** The filter count includes the node itself, and exceeds one exactly when another webhook
      node has a strictly equal path. */
  lemma {:induction false} SamePathCountBounds(nodes: seq<Node>, i: nat, k: nat)
    requires i < |nodes| && k <= |nodes| && nodes[i].nodeType == WebhookType
    ensures SamePathCount(nodes, i, k) >= (if i < k then 1 else 0)
    ensures SamePathCount(nodes, i, k) > (if i < k then 1 else 0) <==>
      exists j :: 0 <= j < k && j != i && SamePath(nodes, i, j)
  {
    if k > 0 {
      SamePathCountBounds(nodes, i, k - 1);
      if exists j :: 0 <= j < k && j != i && SamePath(nodes, i, j) {
        var j :| 0 <= j < k && j != i && SamePath(nodes, i, j);
        if j < k - 1 {
          assert exists j' :: 0 <= j' < k - 1 && j' != i && SamePath(nodes, i, j');
        }
      }
    }
  }

  /** A webhook node draws the shared-path warning exactly when another webhook node's path is
      strictly equal to its own. */
  lemma DuplicatePathIff(nodes: seq<Node>, connected: set<string>, i: nat)
    requires i < |nodes| && nodes[i].nodeType == WebhookType
    ensures DuplicateWebhookPath(PathOf(nodes[i])) in NodeWarnings(nodes, connected, i) <==>
      exists j :: 0 <= j < |nodes| && j != i && nodes[j].nodeType == WebhookType
                  && StrictEquals(PathOf(nodes[j]), PathOf(nodes[i]))
  {
    SamePathCountBounds(nodes, i, |nodes|);
    var w := NodeWarnings(nodes, connected, i);
    assert DuplicateWebhookPath(PathOf(nodes[i])) in w <==> SamePathCount(nodes, i, |nodes|) > 1;
    if exists j :: 0 <= j < |nodes| && j != i && nodes[j].nodeType == WebhookType
                  && StrictEquals(PathOf(nodes[j]), PathOf(nodes[i])) {
      var j :| 0 <= j < |nodes| && j != i && nodes[j].nodeType == WebhookType
                  && StrictEquals(PathOf(nodes[j]), PathOf(nodes[i]));
      assert SamePath(nodes, i, j);
    }
  }
}
