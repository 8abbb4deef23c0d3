/**
 * The workflow-to-JavaScript transpiler: a fixed prologue, then for every node in stored order a
 * header comment, a body chosen by node type and a blank line, then a fixed epilogue; the lines
 * are joined with newlines.
 */
module Codegen {
  import opened Wrappers
  import opened Json
  import opened Text
  import opened Workflows
  import Seqs

  function SanitizeChar(c: char): char {
    if IsWordChar(c) then c else '_'
  }

  /** The node name as an identifier: every character outside `[A-Za-z0-9_]` becomes an
      underscore, so the length is kept. */
  function Sanitize(name: string): (r: string)
    ensures |r| == |name|
    ensures forall i :: 0 <= i < |r| ==> IsWordChar(r[i])
    ensures forall i :: 0 <= i < |r| && IsWordChar(name[i]) ==> r[i] == name[i]
    ensures forall i :: 0 <= i < |r| && !IsWordChar(name[i]) ==> r[i] == '_'
    decreases |name|
  {
    if name == [] then [] else [SanitizeChar(name[0])] + Sanitize(name[1..])
  }

  /** Sanitizing an identifier changes nothing. */
  lemma {:induction false} SanitizeKeepsIdentifiers(name: string)
    requires forall i :: 0 <= i < |name| ==> IsWordChar(name[i])
    ensures Sanitize(name) == name
    decreases |name|
  {
    if name != [] {
      SanitizeKeepsIdentifiers(name[1..]);
      assert [name[0]] + name[1..] == name;
    }
  }

  /** Sanitizing twice is sanitizing once. */
  lemma SanitizeIdempotent(name: string)
    ensures Sanitize(Sanitize(name)) == Sanitize(name)
  {
    SanitizeKeepsIdentifiers(Sanitize(name));
  }

  const Prologue: seq<string> := [
    "// Auto-generated code from n8n workflow",
    "import axios from 'axios';",
    "",
    "async function main() {"]

  const Epilogue: seq<string> := [
    "}",
    "",
    "main().catch(console.error);"]

  /** The fixed pieces of the emitted lines. */
  const CommentLead := "  // "
  const TypeOpen := " ("
  const TypeClose := ")"
  const ConstLead := "  const "
  const AxiosMethod := " = await axios({ method: '"
  const AxiosUrl := "', url: `"
  const AxiosEnd := "` });"
  const Assign := " = "
  const Semicolon := ";"
  const TodoLead := "  // TODO: handle node type "

  /** The comment line that opens a node's block: the node's name, then its type in parentheses. */
  function Header(n: Node): string {
    CommentLead + n.name + TypeOpen + n.nodeType + TypeClose
  }

  /** The request method: the first truthy one of `httpMethod` and `method`, else GET. */
  function HttpMethod(p: Params): (m: Value)
    ensures Truthy(Get(p, "httpMethod")) ==> m == p["httpMethod"]
    ensures !Truthy(Get(p, "httpMethod")) && Truthy(Get(p, "method")) ==> m == p["method"]
    ensures !Truthy(Get(p, "httpMethod")) && !Truthy(Get(p, "method")) ==> m == Str("GET")
  {
    Or(Or(Get(p, "httpMethod"), Get(p, "method")), Some(Str("GET"))).value
  }

  /** The request URL: a truthy `url`, else the empty string. */
  function HttpUrl(p: Params): (u: Value)
    ensures Truthy(Get(p, "url")) ==> u == p["url"]
    ensures !Truthy(Get(p, "url")) ==> u == Str("")
  {
    Or(Get(p, "url"), Some(Str(""))).value
  }

  /** The axios binding emitted for an HTTP Request node. */
  function HttpLine(n: Node, r: Render): string {
    ConstLead + Sanitize(n.name) + AxiosMethod + Interpolate(Some(HttpMethod(n.parameters)), r)
      + AxiosUrl + Interpolate(Some(HttpUrl(n.parameters)), r) + AxiosEnd
  }

  /** The entries of a Set node: `parameters.values` when it is an array, otherwise none. */
  function SetEntries(p: Params): seq<Value> {
    if "values" in p && p["values"].Arr? then p["values"].items else []
  }

  /** An entry that `sanitize(entry.name)` can read: an object whose `name` is a string (any other
      entry makes the source throw a TypeError). */
  predicate ValidEntry(e: Value) {
    e.Obj? && "name" in e.fields && e.fields["name"].Str?
  }

  /** The binding line of one Set entry: the sanitized entry name bound to the serialised value. */
  function EntryLine(e: Value, r: Render): string
    requires ValidEntry(e)
  {
    ConstLead + Sanitize(e.fields["name"].s) + Assign + Stringified(Get(e.fields, "value"), r) + Semicolon
  }

  /** One binding line per Set entry, in entry order. */
  function SetLines(entries: seq<Value>, r: Render): (lines: seq<string>)
    requires forall k :: 0 <= k < |entries| ==> ValidEntry(entries[k])
    ensures |lines| == |entries|
    ensures forall k :: 0 <= k < |entries| ==> lines[k] == EntryLine(entries[k], r)
    decreases |entries|
  {
    if entries == [] then []
    else SetLines(entries[..|entries| - 1], r) + [EntryLine(entries[|entries| - 1], r)]
  }

  /** Every line prefixed by two spaces. */
  function Prefixed(lines: seq<string>): (r: seq<string>)
    ensures |r| == |lines|
    ensures forall k :: 0 <= k < |lines| ==> r[k] == "  " + lines[k]
  {
    seq(|lines|, k requires 0 <= k < |lines| => "  " + lines[k])
  }

  /** The code with every one of its lines indented by two spaces. */
  function Indent(code: string): string {
    Join(Prefixed(Split(code, '\n')), "\n")
  }

  /** The `functionCode` text that a Function node emits, when it is truthy. */
  function FunctionCode(p: Params): Value {
    Get(p, "functionCode").GetOr(Null)
  }

  /** Emitting this node does not throw: every entry of a Set node is valid, and a truthy
      `functionCode` of a Function node is a string. */
  predicate Emittable(n: Node) {
    && (n.nodeType == SetType ==> forall k :: 0 <= k < |SetEntries(n.parameters)| ==> ValidEntry(SetEntries(n.parameters)[k]))
    && (n.nodeType == FunctionType && Truthy(Get(n.parameters, "functionCode")) ==> FunctionCode(n.parameters).Str?)
  }

  /** The comment line for a node type the generator does not handle: the TODO lead followed by
      the type. */
  function TodoLine(n: Node): string {
    TodoLead + n.nodeType
  }

  /** The lines the per-type emitter pushes for one node. */
  function Body(n: Node, r: Render): seq<string>
    requires Emittable(n)
  {
    if n.nodeType == HttpRequestType then [HttpLine(n, r)]
    else if n.nodeType == SetType then SetLines(SetEntries(n.parameters), r)
    else if n.nodeType == FunctionType then
      (if Truthy(Get(n.parameters, "functionCode")) then [Indent(FunctionCode(n.parameters).s)] else [])
    else [TodoLine(n)]
  }

  predicate AllEmittable(nodes: seq<Node>) {
    forall k :: 0 <= k < |nodes| ==> Emittable(nodes[k])
  }

  /** The body of every node, in node order. */
  function Bodies(nodes: seq<Node>, r: Render): (bodies: seq<seq<string>>)
    requires AllEmittable(nodes)
    ensures |bodies| == |nodes|
    ensures forall k :: 0 <= k < |nodes| ==> bodies[k] == Body(nodes[k], r)
  {
    seq(|nodes|, k requires 0 <= k < |nodes| => Body(nodes[k], r))
  }

  /** The header, the given body and the blank separator of every node, in node order. */
  function BlockList(nodes: seq<Node>, bodies: seq<seq<string>>): (blocks: seq<seq<string>>)
    requires |bodies| == |nodes|
    ensures |blocks| == |nodes|
    ensures forall k :: 0 <= k < |nodes| ==> blocks[k] == [Header(nodes[k])] + bodies[k] + [""]
  {
    seq(|nodes|, k requires 0 <= k < |nodes| => [Header(nodes[k])] + bodies[k] + [""])
  }

  /** The generated lines around the given bodies: the prologue, the blocks, the epilogue. */
  function Lines(nodes: seq<Node>, bodies: seq<seq<string>>): seq<string>
    requires |bodies| == |nodes|
  {
    Prologue + Seqs.Concat(BlockList(nodes, bodies)) + Epilogue
  }

  /** The `lines` array the generator joins. */
  function ProgramLines(nodes: seq<Node>, r: Render): seq<string>
    requires AllEmittable(nodes)
  {
    Lines(nodes, Bodies(nodes, r))
  }

  /** The `switch (node.type)` of the generator: the lines it pushes for one node, or None where
      the source throws. */
  method EmitBody(node: Node, r: Render) returns (body: Option<seq<string>>)
    ensures body.Some? <==> Emittable(node)
    ensures body.Some? ==> body.value == Body(node, r)
  {
    if node.nodeType == HttpRequestType {
      return Some([HttpLine(node, r)]);
    } else if node.nodeType == SetType {
      body := EmitSetLines(SetEntries(node.parameters), r);
    } else if node.nodeType == FunctionType {
      var code := Get(node.parameters, "functionCode");
      if Truthy(code) {
        if !code.value.Str? {
          return None;
        }
        return Some([Indent(code.value.s)]);
      }
      return Some([]);
    } else {
      return Some([TodoLine(node)]);
    }
  }

  /** The lines of a longer prefix of the entries: one line more at the end. */
  lemma SetLinesStep(entries: seq<Value>, j: nat, r: Render)
    requires j < |entries| && forall k :: 0 <= k <= j ==> ValidEntry(entries[k])
    ensures SetLines(entries[..j + 1], r) == SetLines(entries[..j], r) + [EntryLine(entries[j], r)]
  {
    assert entries[..j + 1][..j] == entries[..j];
  }

  /** The loop over the Set entries: one line per entry, or None at the first
      entry whose name cannot be read. */
  method EmitSetLines(entries: seq<Value>, r: Render) returns (lines: Option<seq<string>>)
    ensures lines.Some? <==> forall k :: 0 <= k < |entries| ==> ValidEntry(entries[k])
    ensures lines.Some? ==> lines.value == SetLines(entries, r)
  {
    var acc := [];
    var j := 0;
    while j < |entries|
      invariant 0 <= j <= |entries|
      invariant forall k :: 0 <= k < j ==> ValidEntry(entries[k])
      invariant acc == SetLines(entries[..j], r)
    {
      var entry := entries[j];
      if !ValidEntry(entry) {
        return None;
      }
      SetLinesStep(entries, j, r);
      acc := acc + [EntryLine(entry, r)];
      j := j + 1;
    }
    assert entries[..j] == entries;
    return Some(acc);
  }

  /** The block list of a longer prefix: one block more at the end. */
  lemma BlockListStep(nodes: seq<Node>, bodies: seq<seq<string>>, i: nat, body: seq<string>)
    requires i < |nodes| && |bodies| == i
    ensures Prologue + Seqs.Concat(BlockList(nodes[..i + 1], bodies + [body]))
         == Prologue + Seqs.Concat(BlockList(nodes[..i], bodies)) + [Header(nodes[i])] + body + [""]
  {
    var blocks, block := BlockList(nodes[..i], bodies), [Header(nodes[i])] + body + [""];
    assert BlockList(nodes[..i + 1], bodies + [body]) == blocks + [block];
    Seqs.ConcatSnoc(blocks, block);
    Seqs.AppendThree(Prologue + Seqs.Concat(blocks), [Header(nodes[i])], body, [""]);
  }

  /** The bodies collected for a longer prefix: one body more at the end. */
  lemma BodiesStep(nodes: seq<Node>, bodies: seq<seq<string>>, i: nat, body: seq<string>, r: Render)
    requires i < |nodes| && |bodies| == i
    requires forall k :: 0 <= k < i ==> Emittable(nodes[k]) && bodies[k] == Body(nodes[k], r)
    requires Emittable(nodes[i]) && body == Body(nodes[i], r)
    ensures forall k :: 0 <= k < i + 1 ==> Emittable(nodes[k]) && (bodies + [body])[k] == Body(nodes[k], r)
  {
    forall k | 0 <= k < i + 1
      ensures Emittable(nodes[k]) && (bodies + [body])[k] == Body(nodes[k], r)
    {
      if k < i {
        assert (bodies + [body])[k] == bodies[k];
      } else {
        assert (bodies + [body])[k] == body;
      }
    }
  }

  /** Node `j` is the first node whose emitter would throw. */
  predicate FirstUnemittable(nodes: seq<Node>, j: nat) {
    j < |nodes| && !Emittable(nodes[j]) && forall k :: 0 <= k < j ==> Emittable(nodes[k])
  }

  /** `generateCodeFromWorkflow(workflow)`: Failure, naming the node, when the source would
      throw a TypeError; that is the first node whose emitter throws. */
  method GenerateCodeFromWorkflow(nodes: seq<Node>, r: Render) returns (result: Result<string, Node>)
    ensures result.Success? <==> AllEmittable(nodes)
    ensures result.Failure? ==> result.error in nodes && !Emittable(result.error)
    ensures result.Failure? ==> exists j: nat :: FirstUnemittable(nodes, j) && nodes[j] == result.error
    ensures result.Success? ==> result.value == Join(ProgramLines(nodes, r), "\n")
  {
    var lines := Prologue;
    var i := 0;
    ghost var bodies := [];
    while i < |nodes|
      invariant 0 <= i <= |nodes|
      invariant |bodies| == i
      invariant forall k :: 0 <= k < i ==> Emittable(nodes[k]) && bodies[k] == Body(nodes[k], r)
      invariant lines == Prologue + Seqs.Concat(BlockList(nodes[..i], bodies))
    {
      var node := nodes[i];
      lines := lines + [Header(node)];
      var body := EmitBody(node, r);
      if body.None? {
        assert FirstUnemittable(nodes, i);
        return Failure(node);
      }
      lines := lines + body.value + [""];
      BlockListStep(nodes, bodies, i, body.value);
      BodiesStep(nodes, bodies, i, body.value, r);
      bodies := bodies + [body.value];
      i := i + 1;
    }
    assert nodes[..i] == nodes;
    assert AllEmittable(nodes);
    assert bodies == Bodies(nodes, r);
    lines := lines + Epilogue;
    return Success(Join(lines, "\n"));
  }

  /** Where the block of node `k` starts in the generated lines. */
  function Offset(nodes: seq<Node>, bodies: seq<seq<string>>, k: nat): nat
    requires |bodies| == |nodes| && k <= |nodes|
  {
    |Prologue| + |Seqs.Concat(BlockList(nodes, bodies)[..k])|
  }

  /** The first block starts after the four prologue lines and the last one ends three lines
      before the end. */
  lemma OffsetEnds(nodes: seq<Node>, bodies: seq<seq<string>>)
    requires |bodies| == |nodes|
    ensures Offset(nodes, bodies, 0) == 4
    ensures Offset(nodes, bodies, |nodes|) + 3 == |Lines(nodes, bodies)|
  {
    var blocks := BlockList(nodes, bodies);
    assert blocks[..|nodes|] == blocks;
    assert blocks[..0] == [];
  }

  /** The generated lines are the prologue, then one block per node in node order, then the
      epilogue; the block of node `k` is its header, its body and a blank line. */
  lemma BlockLayout(nodes: seq<Node>, bodies: seq<seq<string>>, k: nat)
    requires |bodies| == |nodes| && k < |nodes|
    ensures Offset(nodes, bodies, 0) == 4
    ensures Offset(nodes, bodies, |nodes|) + 3 == |Lines(nodes, bodies)|
    ensures Offset(nodes, bodies, k) + |bodies[k]| + 2 == Offset(nodes, bodies, k + 1)
    ensures Offset(nodes, bodies, k + 1) <= Offset(nodes, bodies, |nodes|)
    ensures Lines(nodes, bodies)[Offset(nodes, bodies, k)..Offset(nodes, bodies, k + 1)]
         == [Header(nodes[k])] + bodies[k] + [""]
  {
    OffsetEnds(nodes, bodies);
    Seqs.ConcatAt(Prologue, BlockList(nodes, bodies), Epilogue, k);
  }

  /** Node `k`'s block starts with its header line and ends with a blank line. */
  lemma BlockBoundaries(nodes: seq<Node>, bodies: seq<seq<string>>, k: nat)
    requires |bodies| == |nodes| && k < |nodes|
    ensures Offset(nodes, bodies, k) + 1 < Offset(nodes, bodies, k + 1) <= |Lines(nodes, bodies)|
    ensures Lines(nodes, bodies)[Offset(nodes, bodies, k)] == Header(nodes[k])
    ensures Lines(nodes, bodies)[Offset(nodes, bodies, k + 1) - 1] == ""
  {
    BlockLayout(nodes, bodies, k);
    var lines := Lines(nodes, bodies);
    var lo, hi := Offset(nodes, bodies, k), Offset(nodes, bodies, k + 1);
    Seqs.SliceAt(lines, lo, hi, 0);
    Seqs.SliceAt(lines, lo, hi, hi - lo - 1);
  }

  /** The generated lines start with the four prologue lines and end with the three epilogue
      lines, and so does the joined text. */
  lemma {:induction false} ProgramFrame(nodes: seq<Node>, bodies: seq<seq<string>>)
    requires |bodies| == |nodes|
    ensures Lines(nodes, bodies)[..4] == Prologue
    ensures Lines(nodes, bodies)[|Lines(nodes, bodies)| - 3..] == Epilogue
    ensures var code := Join(Lines(nodes, bodies), "\n");
      && Join(Prologue, "\n") + "\n" <= code
      && var post := "\n" + Join(Epilogue, "\n");
         |post| <= |code| && code[|code| - |post|..] == post
  {
    var lines, blocks := Lines(nodes, bodies), Seqs.Concat(BlockList(nodes, bodies));
    assert lines == Prologue + blocks + Epilogue;
    Seqs.Ends(Prologue, blocks, Epilogue);
    JoinFrame(Prologue, blocks, Epilogue, "\n");
  }

  /** An HTTP Request node with `method: "POST"` and `url: "https://x/y"`. */
  lemma HttpRequestExample(n: Node, r: Render)
    requires n.nodeType == HttpRequestType
    requires n.parameters == map["method" := Str("POST"), "url" := Str("https://x/y")]
    ensures Body(n, r) == [ConstLead + Sanitize(n.name) + AxiosMethod + "POST" + AxiosUrl + "https://x/y" + AxiosEnd]
  {
    assert HttpMethod(n.parameters) == Str("POST");
    assert HttpUrl(n.parameters) == Str("https://x/y");
  }

  /** Without `httpMethod`, `method` and `url` the request defaults to GET and an empty URL. */
  lemma HttpRequestDefaults(n: Node, r: Render)
    requires n.nodeType == HttpRequestType
    requires !Truthy(Get(n.parameters, "httpMethod")) && !Truthy(Get(n.parameters, "method"))
    requires !Truthy(Get(n.parameters, "url"))
    ensures Body(n, r) == [ConstLead + Sanitize(n.name) + AxiosMethod + "GET" + AxiosUrl + AxiosEnd]
  {
    assert HttpMethod(n.parameters) == Str("GET");
    assert HttpUrl(n.parameters) == Str("");
    var lead := ConstLead + Sanitize(n.name) + AxiosMethod + "GET" + AxiosUrl;
    assert HttpLine(n, r) == lead + Interpolate(Some(HttpUrl(n.parameters)), r) + AxiosEnd;
    assert Interpolate(Some(HttpUrl(n.parameters)), r) == "";
    assert lead + "" == lead;
  }

  /** `httpMethod` wins over `method`. */
  lemma HttpMethodPrecedence(n: Node, r: Render, m: string)
    requires n.nodeType == HttpRequestType
    requires Get(n.parameters, "httpMethod") == Some(Str(m)) && m != ""
    ensures HttpMethod(n.parameters) == Str(m)
    ensures Body(n, r)[0][..|ConstLead + Sanitize(n.name) + AxiosMethod + m|]
         == ConstLead + Sanitize(n.name) + AxiosMethod + m
  {
  }

  /** A Set node with the entry `{name: "a!", value: 1}` binds the sanitized name `a_`. */
  lemma SetExample(n: Node, r: Render)
    requires n.nodeType == SetType
    requires n.parameters == map["values" := Arr([Obj(map["name" := Str("a!"), "value" := Num(1)])])]
    ensures Emittable(n)
    ensures Body(n, r) == [ConstLead + "a_" + Assign + r.stringify(Num(1)) + Semicolon]
  {
    var e := Obj(map["name" := Str("a!"), "value" := Num(1)]);
    assert SetEntries(n.parameters) == [e];
    assert ValidEntry(e);
    assert Sanitize("a!") == "a_";
    assert Stringified(Get(e.fields, "value"), r) == r.stringify(Num(1));
    assert SetLines([e], r) == [EntryLine(e, r)];
  }

  /** A Set node whose `values` is not an array emits no line between its header and separator. */
  lemma SetWithoutArray(n: Node, r: Render)
    requires n.nodeType == SetType
    requires !("values" in n.parameters && n.parameters["values"].Arr?)
    ensures Emittable(n) && Body(n, r) == []
  {
  }

  /** A Function node's code reappears line by line, each line indented by two spaces, with the
      line count preserved; an absent or empty `functionCode` emits nothing. */
  lemma FunctionCodeIndented(n: Node, r: Render)
    requires n.nodeType == FunctionType && Emittable(n)
    ensures !Truthy(Get(n.parameters, "functionCode")) ==> Body(n, r) == []
    ensures Truthy(Get(n.parameters, "functionCode")) ==>
      var code := FunctionCode(n.parameters).s;
      && |Body(n, r)| == 1
      && |Split(Body(n, r)[0], '\n')| == |Split(code, '\n')|
      && forall k :: 0 <= k < |Split(code, '\n')| ==> Split(Body(n, r)[0], '\n')[k] == "  " + Split(code, '\n')[k]
  {
    if Truthy(Get(n.parameters, "functionCode")) {
      var code := FunctionCode(n.parameters).s;
      var lines := Prefixed(Split(code, '\n'));
      forall k | 0 <= k < |lines| ensures '\n' !in lines[k] {
        assert lines[k] == "  " + Split(code, '\n')[k];
      }
      SplitJoin(lines, '\n');
    }
  }

  /** Any other node type emits exactly one comment line that names the type. */
  lemma UnhandledTypeComment(n: Node, r: Render)
    requires n.nodeType !in {HttpRequestType, SetType, FunctionType}
    ensures Emittable(n)
    ensures Body(n, r) == [TodoLead + n.nodeType]
  {
  }
}
