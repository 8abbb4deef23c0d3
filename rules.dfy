/**
 * The rule tables of the editing server: the error-type detection and per-type parameter
 * defaults of `fix_common_node_errors`, the keyword classifier of `diagnose_node_error` and the
 * node-type catalogue of `list_node_types`.
 */
module Rules {
  import opened Wrappers
  import opened Json
  import opened Text
  import opened Seqs
  import opened Workflows

  /** The error of the most recent execution, `data.data[0].data.resultData.error`, when present. */
  datatype ExecError = ExecError(message: Option<string>)

  /** The error's message in lower case, or the empty string when it has none. */
  function ErrorText(e: ExecError): string {
    ToLower(e.message.GetOr(""))
  }

  /** The error type `fix_common_node_errors` acts on: the given one, unless it is absent, empty or
      `auto_detect`, in which case the latest execution error's message picks the first match in
      the order credentials, required, connection, invalid (and nothing matched keeps it as it was). */
  function DetectErrorType(given: Option<string>, latest: Option<ExecError>): (r: Option<string>)
    ensures given.GetOr("") != "" && given != Some("auto_detect") ==> r == given
    ensures (given.GetOr("") == "" || given == Some("auto_detect")) && latest.None? ==> r == given
    ensures (given.GetOr("") == "" || given == Some("auto_detect")) && latest.Some? ==>
      var m := ErrorText(latest.value);
      && (Contains(m, "credentials") ==> r == Some("missing_credentials"))
      && (!Contains(m, "credentials") && Contains(m, "required") ==> r == Some("missing_required_fields"))
      && (!Contains(m, "credentials") && !Contains(m, "required") && Contains(m, "connection") ==> r == Some("connection_error"))
      && ((!Contains(m, "credentials") && !Contains(m, "required") && !Contains(m, "connection") && Contains(m, "invalid"))
            ==> r == Some("invalid_parameters"))
      && ((!Contains(m, "credentials") && !Contains(m, "required") && !Contains(m, "connection") && !Contains(m, "invalid"))
            ==> r == given)
  {
    if given.GetOr("") != "" && given != Some("auto_detect") then given
    else if latest.None? then given
    else
      var m := ErrorText(latest.value);
      if Contains(m, "credentials") then Some("missing_credentials")
      else if Contains(m, "required") then Some("missing_required_fields")
      else if Contains(m, "connection") then Some("connection_error")
      else if Contains(m, "invalid") then Some("invalid_parameters")
      else given
  }

  /** A connection error that also mentions credentials is classified as a credentials error. */
  lemma CredentialsWinOverConnection(latest: ExecError)
    requires Contains(ErrorText(latest), "credentials") && Contains(ErrorText(latest), "connection")
    ensures DetectErrorType(None, Some(latest)) == Some("missing_credentials")
    ensures DetectErrorType(Some("auto_detect"), Some(latest)) == Some("missing_credentials")
  {
  }

  /** A "Connection refused" execution error is detected as a connection error. */
  lemma ConnectionRefusedExample()
    ensures DetectErrorType(None, Some(ExecError(Some("Connection refused")))) == Some("connection_error")
  {
    var m := ErrorText(ExecError(Some("Connection refused")));
    LowerConnectionRefused();
    ConnectionRefusedKeywords(m);
  }

  lemma LowerConnectionRefused()
    ensures ToLower("Connection refused") == "connection refused"
  {
    var s, t := "Connection refused", "connection refused";
    forall i | 0 <= i < |s| ensures ToLower(s)[i] == t[i] {
      if i > 0 {
        assert s[i] == t[i] && !('A' <= s[i] <= 'Z');
      }
    }
  }

  lemma ConnectionRefusedKeywords(m: string)
    requires m == "connection refused"
    ensures !Contains(m, "credentials") && !Contains(m, "required") && Contains(m, "connection")
  {
    assert !Contains(m, "credentials") by {
      assert "credentials"[8] == 'a' && 'a' !in m;
      AbsentChar(m, "credentials", 'a');
    }
    assert !Contains(m, "required") by {
      assert "required"[2] == 'q' && 'q' !in m;
      AbsentChar(m, "required", 'q');
    }
    assert Contains(m, "connection") by {
      assert m[0..10] == "connection";
      ContainsAt(m, "connection", 0);
    }
  }

  /** A missing or falsy entry gets the default value; every other entry stays. */
  function Default(p: Params, key: string, v: Value): (r: Params)
    ensures r.Keys == p.Keys + {key}
    ensures r[key] == if Missing(p, key) then v else p[key]
    ensures forall k :: k in p && k != key ==> r[k] == p[k]
    ensures Truthy(Some(v)) ==> !Missing(r, key)
  {
    if Missing(p, key) then p[key := v] else p
  }

  /** The fix message recorded when `key` is defaulted. */
  function Note(p: Params, key: string, message: string): (r: seq<string>)
    ensures r == [] <==> !Missing(p, key)
    ensures r != [] ==> r == [message]
  {
    if Missing(p, key) then [message] else []
  }

  const WebhookPathDefault := Str("/webhook")
  const SetValuesDefault := Obj(map["string" := Arr([])])

  /** Is this node type one with an automatic fix? */
  predicate Fixable(nodeType: string) {
    nodeType in {HttpRequestType, WebhookType, PostgresType, MysqlType, SetType}
  }

  /** The parameters of a database node after its operation has been defaulted. */
  function WithOperation(p: Params): Params {
    Default(p, "operation", Str("select"))
  }

  /** The parameters of an HTTP Request node after its fixes: URL and method defaulted, and the
      timeout too for a connection error. */
  function HttpFixed(p: Params, errorType: Option<string>): Params {
    var withMethod := Default(Default(p, "url", Str("https://example.com")), "method", Str("GET"));
    if errorType == Some("connection_error") then Default(withMethod, "timeout", Num(30000)) else withMethod
  }

  function HttpMessages(p: Params, errorType: Option<string>): seq<string> {
    var withUrl := Default(p, "url", Str("https://example.com"));
    Note(p, "url", "Added default URL")
    + Note(withUrl, "method", "Set method to GET")
    + (if errorType == Some("connection_error")
       then Note(Default(withUrl, "method", Str("GET")), "timeout", "Added 30s timeout") else [])
  }

  /** The parameters of a Webhook node after its fixes: path and HTTP method defaulted. */
  function WebhookFixed(p: Params): Params {
    Default(Default(p, "path", WebhookPathDefault), "httpMethod", Str("POST"))
  }

  function WebhookMessages(p: Params): seq<string> {
    Note(p, "path", "Added default webhook path")
    + Note(Default(p, "path", WebhookPathDefault), "httpMethod", "Set HTTP method to POST")
  }

  /** The parameters of a Postgres or MySQL node after its fixes: the operation defaulted, and a
      select's table too. */
  function DatabaseFixed(p: Params): Params {
    var q := WithOperation(p);
    if Get(q, "operation") == Some(Str("select")) then Default(q, "table", Str("table_name")) else q
  }

  function DatabaseMessages(p: Params): seq<string> {
    var q := WithOperation(p);
    Note(p, "operation", "Set default operation to SELECT")
    + (if Get(q, "operation") == Some(Str("select")) then Note(q, "table", "Added placeholder table name") else [])
  }

  /** The parameters `fix_common_node_errors` writes back, by node type. */
  function FixedParams(nodeType: string, p: Params, errorType: Option<string>): Params {
    if nodeType == HttpRequestType then HttpFixed(p, errorType)
    else if nodeType == WebhookType then WebhookFixed(p)
    else if nodeType == PostgresType || nodeType == MysqlType then DatabaseFixed(p)
    else if nodeType == SetType then Default(p, "values", SetValuesDefault)
    else p
  }

  /** The fix messages `fix_common_node_errors` reports, in the order the fixes are applied. */
  function FixMessages(nodeType: string, p: Params, errorType: Option<string>): seq<string> {
    if nodeType == HttpRequestType then HttpMessages(p, errorType)
    else if nodeType == WebhookType then WebhookMessages(p)
    else if nodeType == PostgresType || nodeType == MysqlType then DatabaseMessages(p)
    else if nodeType == SetType then Note(p, "values", "Added values structure")
    else []
  }

  /** The per-type fixes of `fix_common_node_errors` applied to a node's parameters, with one
      fix message per change in the order applied; `updated` tells whether the workflow is
      written back. */
  method ApplyFixes(nodeType: string, params: Params, errorType: Option<string>)
    returns (fixed: Params, fixes: seq<string>, updated: bool)
    ensures fixed == FixedParams(nodeType, params, errorType)
    ensures fixes == FixMessages(nodeType, params, errorType)
    ensures updated == (|fixes| > 0)
  {
    if nodeType == HttpRequestType {
      fixed, fixes, updated := FixHttpRequest(params, errorType);
    } else if nodeType == WebhookType {
      fixed, fixes, updated := FixWebhook(params);
    } else if nodeType == PostgresType || nodeType == MysqlType {
      fixed, fixes, updated := FixDatabase(params);
    } else if nodeType == SetType {
      fixed, fixes, updated := ApplyDefault(params, [], false, "values", SetValuesDefault, "Added values structure");
    } else {
      fixed, fixes, updated := params, [], false;
    }
  }

  /** One fix step: when the entry is missing or falsy it gets the default value, the message is
      recorded and the workflow is marked updated. So the message is logged exactly when the entry
      was defaulted, and `updated` keeps telling whether any message has been logged. */
  method ApplyDefault(p: Params, fixes: seq<string>, updated: bool, key: string, v: Value, message: string)
    returns (p': Params, fixes': seq<string>, updated': bool)
    requires updated == (|fixes| > 0)
    ensures p' == Default(p, key, v)
    ensures fixes' == fixes + Note(p, key, message)
    ensures updated' == (|fixes'| > 0)
  {
    p', fixes', updated' := p, fixes, updated;
    if Missing(p', key) {
      p' := p'[key := v];
      fixes' := fixes' + [message];
      updated' := true;
    }
  }

  method FixHttpRequest(params: Params, errorType: Option<string>)
    returns (fixed: Params, fixes: seq<string>, updated: bool)
    ensures fixed == HttpFixed(params, errorType)
    ensures fixes == HttpMessages(params, errorType)
    ensures updated == (|fixes| > 0)
  {
    fixed, fixes, updated := params, [], false;
    fixed, fixes, updated := ApplyDefault(fixed, fixes, updated, "url", Str("https://example.com"), "Added default URL");
    ghost var withUrl, urlFixes := fixed, fixes;
    assert urlFixes == Note(params, "url", "Added default URL");
    fixed, fixes, updated := ApplyDefault(fixed, fixes, updated, "method", Str("GET"), "Set method to GET");
    if errorType == Some("connection_error") {
      fixed, fixes, updated := ApplyDefault(fixed, fixes, updated, "timeout", Num(30000), "Added 30s timeout");
    } else {
      assert fixes == urlFixes + Note(withUrl, "method", "Set method to GET") + [];
    }
  }

  method FixWebhook(params: Params) returns (fixed: Params, fixes: seq<string>, updated: bool)
    ensures fixed == WebhookFixed(params)
    ensures fixes == WebhookMessages(params)
    ensures updated == (|fixes| > 0)
  {
    fixed, fixes, updated := params, [], false;
    fixed, fixes, updated := ApplyDefault(fixed, fixes, updated, "path", WebhookPathDefault, "Added default webhook path");
    fixed, fixes, updated := ApplyDefault(fixed, fixes, updated, "httpMethod", Str("POST"), "Set HTTP method to POST");
  }

  method FixDatabase(params: Params) returns (fixed: Params, fixes: seq<string>, updated: bool)
    ensures fixed == DatabaseFixed(params)
    ensures fixes == DatabaseMessages(params)
    ensures updated == (|fixes| > 0)
  {
    fixed, fixes, updated := params, [], false;
    fixed, fixes, updated := ApplyDefault(fixed, fixes, updated, "operation", Str("select"), "Set default operation to SELECT");
    if Get(fixed, "operation") == Some(Str("select")) {
      fixed, fixes, updated := ApplyDefault(fixed, fixes, updated, "table", Str("table_name"), "Added placeholder table name");
    }
  }

  /** When no fix is recorded the parameters are unchanged, so skipping the write-back loses
      nothing. */
  lemma FixesOnlyWhenUpdated(nodeType: string, p: Params, errorType: Option<string>)
    requires FixMessages(nodeType, p, errorType) == []
    ensures FixedParams(nodeType, p, errorType) == p
  {
    if nodeType == PostgresType || nodeType == MysqlType {
      assert WithOperation(p) == p;
    }
  }

  /** For an HTTP Request node the URL and method are defaulted exactly when they are falsy, the
      timeout is set only for a connection error (and only when falsy), nothing else changes, and
      a fix is recorded exactly when something was defaulted. */
  lemma HttpRequestFixes(p: Params, errorType: Option<string>)
    ensures var r := HttpFixed(p, errorType);
      && r["url"] == (if Missing(p, "url") then Str("https://example.com") else p["url"])
      && r["method"] == (if Missing(p, "method") then Str("GET") else p["method"])
      && (errorType != Some("connection_error") ==> Get(r, "timeout") == Get(p, "timeout"))
      && (errorType == Some("connection_error") ==>
            r["timeout"] == (if Missing(p, "timeout") then Num(30000) else p["timeout"]))
      && (forall k :: k in p && k !in {"url", "method", "timeout"} ==> r[k] == p[k])
      && (forall k :: k in r ==> k in p || k in {"url", "method", "timeout"})
    ensures var f := HttpMessages(p, errorType);
      (f == []) <==> (!Missing(p, "url") && !Missing(p, "method")
                      && (errorType == Some("connection_error") ==> !Missing(p, "timeout")))
  {
    var withUrl := Default(p, "url", Str("https://example.com"));
    assert Get(withUrl, "method") == Get(p, "method");
    assert Get(Default(withUrl, "method", Str("GET")), "timeout") == Get(p, "timeout");
  }

  /** A database node defaults its operation to `select` when falsy, and a select without a
      table gets the placeholder table; nothing else changes. */
  lemma DatabaseFixes(p: Params)
    ensures var r := DatabaseFixed(p);
      && r["operation"] == (if Missing(p, "operation") then Str("select") else p["operation"])
      && (r["operation"] == Str("select") && Missing(p, "table") ==> r["table"] == Str("table_name"))
      && (r["operation"] != Str("select") ==> Get(r, "table") == Get(p, "table"))
      && (forall k :: k in p && k !in {"operation", "table"} ==> r[k] == p[k])
  {
    assert Get(WithOperation(p), "table") == Get(p, "table");
  }

  /** Fixing is idempotent: the fixed parameters need no further fix under the same error type. */
  lemma FixesIdempotent(nodeType: string, p: Params, errorType: Option<string>)
    ensures FixedParams(nodeType, FixedParams(nodeType, p, errorType), errorType) == FixedParams(nodeType, p, errorType)
    ensures FixMessages(nodeType, FixedParams(nodeType, p, errorType), errorType) == []
  {
    if nodeType == HttpRequestType {
      HttpRequestIdempotent(p, errorType);
    } else if nodeType == WebhookType {
      WebhookIdempotent(p);
    } else if nodeType == PostgresType || nodeType == MysqlType {
      DatabaseIdempotent(p);
    }
  }

  lemma HttpRequestIdempotent(p: Params, errorType: Option<string>)
    ensures HttpFixed(HttpFixed(p, errorType), errorType) == HttpFixed(p, errorType)
    ensures HttpMessages(HttpFixed(p, errorType), errorType) == []
  {
    var r := HttpFixed(p, errorType);
    assert !Missing(r, "url") && !Missing(r, "method");
    assert Default(r, "url", Str("https://example.com")) == r;
  }

  lemma WebhookIdempotent(p: Params)
    ensures WebhookFixed(WebhookFixed(p)) == WebhookFixed(p)
    ensures WebhookMessages(WebhookFixed(p)) == []
  {
    var r := WebhookFixed(p);
    assert !Missing(r, "path") && !Missing(r, "httpMethod");
    assert Default(r, "path", WebhookPathDefault) == r;
  }

  lemma DatabaseIdempotent(p: Params)
    ensures DatabaseFixed(DatabaseFixed(p)) == DatabaseFixed(p)
    ensures DatabaseMessages(DatabaseFixed(p)) == []
  {
    var r := DatabaseFixed(p);
    assert !Missing(r, "operation");
    assert WithOperation(r) == r;
  }

  /** Node types without an automatic fix are left alone and report no fix. */
  lemma UnfixableUnchanged(nodeType: string, p: Params, errorType: Option<string>)
    requires !Fixable(nodeType)
    ensures FixedParams(nodeType, p, errorType) == p && FixMessages(nodeType, p, errorType) == []
  {
  }

  /** The common issues and recommendations `diagnose_node_error` derives from the error messages
      of the node's recent failed executions. */
  datatype Diagnosis = Diagnosis(commonIssues: seq<string>, recommendations: seq<string>)

  /** Some message contains the keyword. */
  predicate AnyContains(messages: seq<string>, keyword: string) {
    exists k :: 0 <= k < |messages| && Contains(messages[k], keyword)
  }

  /** Each collected error in lower case, an absent one as the empty string. */
  function LowerMessages(errors: seq<Option<string>>): (r: seq<string>)
    ensures |r| == |errors|
    ensures forall k :: 0 <= k < |errors| ==> r[k] == ToLower(errors[k].GetOr(""))
  {
    seq(|errors|, k requires 0 <= k < |errors| => ToLower(errors[k].GetOr("")))
  }

  predicate CredentialsIssue(m: seq<string>) { AnyContains(m, "credentials") }
  predicate ConnectionIssue(m: seq<string>) { AnyContains(m, "connection") || AnyContains(m, "timeout") }
  predicate RequiredIssue(m: seq<string>) { AnyContains(m, "required") || AnyContains(m, "missing") }
  predicate AuthorizationIssue(m: seq<string>) {
    AnyContains(m, "authorization") || AnyContains(m, "401") || AnyContains(m, "403")
  }

  const CredentialsText := "Missing or invalid credentials"
  const ConnectionText := "Connection issues"
  const RequiredText := "Missing required parameters"
  const AuthorizationText := "Authorization failures"
  const CheckCredentials := "Check node credentials configuration"
  const VerifyEndpoint := "Verify URL/endpoint is accessible"
  const CheckTimeout := "Check timeout settings"
  const ReviewRequired := "Review node configuration for required fields"
  const VerifyAuthentication := "Verify API keys or authentication settings"

  /** The common issues, in report order, for the categories found: each at most once. */
  function IssuesOf(credentials: bool, connection: bool, required: bool, authorization: bool): seq<string> {
      (if credentials then [CredentialsText] else [])
    + (if connection then [ConnectionText] else [])
    + (if required then [RequiredText] else [])
    + (if authorization then [AuthorizationText] else [])
  }

  /** The recommendations, in report order; the connection category brings two. */
  function RecommendationsOf(credentials: bool, connection: bool, required: bool, authorization: bool): seq<string> {
      (if credentials then [CheckCredentials] else [])
    + (if connection then [VerifyEndpoint, CheckTimeout] else [])
    + (if required then [ReviewRequired] else [])
    + (if authorization then [VerifyAuthentication] else [])
  }

  /** The common issues of the messages: a category is found when some message contains one of
      its keywords. */
  function Issues(m: seq<string>): seq<string> {
    IssuesOf(CredentialsIssue(m), ConnectionIssue(m), RequiredIssue(m), AuthorizationIssue(m))
  }

  function Recommendations(m: seq<string>): seq<string> {
    RecommendationsOf(CredentialsIssue(m), ConnectionIssue(m), RequiredIssue(m), AuthorizationIssue(m))
  }

  /** The keyword classifier of `diagnose_node_error` over the collected errors' messages:
      nothing is reported without errors, and otherwise the report is the one the keyword
      categories of the lower-cased messages determine. */
  method DiagnoseErrors(errors: seq<Option<string>>) returns (d: Diagnosis)
    ensures errors == [] ==> d == Diagnosis([], [])
    ensures errors != [] ==> d == Diagnosis(Issues(LowerMessages(errors)), Recommendations(LowerMessages(errors)))
  {
    var issues: seq<string> := [];
    var recommendations: seq<string> := [];
    if |errors| > 0 {
      var messages := LowerMessages(errors);
      var credentials, connection := CredentialsIssue(messages), ConnectionIssue(messages);
      var required, authorization := RequiredIssue(messages), AuthorizationIssue(messages);
      if credentials {
        issues := issues + [CredentialsText];
        recommendations := recommendations + [CheckCredentials];
      }
      ghost var i1, r1 := issues, recommendations;
      assert i1 == (if credentials then [CredentialsText] else []);
      assert r1 == (if credentials then [CheckCredentials] else []);
      if connection {
        issues := issues + [ConnectionText];
        recommendations := recommendations + [VerifyEndpoint, CheckTimeout];
      }
      ghost var i2, r2 := issues, recommendations;
      if required {
        issues := issues + [RequiredText];
        recommendations := recommendations + [ReviewRequired];
      }
      ghost var i3, r3 := issues, recommendations;
      if authorization {
        issues := issues + [AuthorizationText];
        recommendations := recommendations + [VerifyAuthentication];
      }
      assert issues == IssuesOf(credentials, connection, required, authorization) by {
        assert i2 == i1 + (if connection then [ConnectionText] else []);
        assert i3 == i2 + (if required then [RequiredText] else []);
        assert issues == i3 + (if authorization then [AuthorizationText] else []);
      }
      assert recommendations == RecommendationsOf(credentials, connection, required, authorization) by {
        assert r2 == r1 + (if connection then [VerifyEndpoint, CheckTimeout] else []);
        assert r3 == r2 + (if required then [ReviewRequired] else []);
        assert recommendations == r3 + (if authorization then [VerifyAuthentication] else []);
      }
    }
    d := Diagnosis(issues, recommendations);
  }

  /** Each category is reported exactly when one of its keywords occurs in some message. */
  lemma IssuesExactly(m: seq<string>)
    ensures CredentialsText in Issues(m) <==> CredentialsIssue(m)
    ensures ConnectionText in Issues(m) <==> ConnectionIssue(m)
    ensures RequiredText in Issues(m) <==> RequiredIssue(m)
    ensures AuthorizationText in Issues(m) <==> AuthorizationIssue(m)
  {
    var a, b, c, e := CredentialsText, ConnectionText, RequiredText, AuthorizationText;
    assert a != b && a != c && a != e && b != c && b != e && c != e by {
      assert a[0] == 'M' && b[0] == 'C' && c[0] == 'M' && e[0] == 'A';
      assert a[8] == 'o' && c[8] == 'r';
    }
  }

  /** No issue is reported twice, and there is one recommendation per issue plus one more for a
      connection issue. */
  lemma IssuesDistinct(m: seq<string>)
    ensures forall i, j :: 0 <= i < j < |Issues(m)| ==> Issues(m)[i] != Issues(m)[j]
    ensures |Recommendations(m)| == |Issues(m)| + (if ConnectionIssue(m) then 1 else 0)
  {
    var a, b, c, e := CredentialsText, ConnectionText, RequiredText, AuthorizationText;
    assert a != b && a != c && a != e && b != c && b != e && c != e by {
      assert a[0] == 'M' && b[0] == 'C' && c[0] == 'M' && e[0] == 'A';
      assert a[8] == 'o' && c[8] == 'r';
    }
  }

  /** A 401 response is reported as an authorization failure, and only that, when it is the only
      message and mentions nothing else. */
  lemma UnauthorizedExample()
    ensures Issues(LowerMessages([Some("401")])) == [AuthorizationText]
  {
    var m := LowerMessages([Some("401")]);
    ToLowerOfLower("401");
    assert m == ["401"];
    assert !CredentialsIssue(m) && !ConnectionIssue(m) && !RequiredIssue(m);
    ContainsAt(m[0], "401", 0);
  }

  /** One entry of the node-type catalogue. */
  datatype NodeTypeInfo = NodeTypeInfo(name: string, nodeType: string, category: string)

  const CommonNodeTypes: seq<NodeTypeInfo> := [
    NodeTypeInfo("Webhook", "n8n-nodes-base.webhook", "Core Nodes"),
    NodeTypeInfo("HTTP Request", "n8n-nodes-base.httpRequest", "Core Nodes"),
    NodeTypeInfo("Set", "n8n-nodes-base.set", "Core Nodes"),
    NodeTypeInfo("IF", "n8n-nodes-base.if", "Core Nodes"),
    NodeTypeInfo("Code", "n8n-nodes-base.code", "Core Nodes"),
    NodeTypeInfo("Merge", "n8n-nodes-base.merge", "Core Nodes"),
    NodeTypeInfo("Email Send", "n8n-nodes-base.emailSend", "Communication"),
    NodeTypeInfo("Slack", "n8n-nodes-base.slack", "Communication"),
    NodeTypeInfo("Google Sheets", "n8n-nodes-base.googleSheets", "Data"),
    NodeTypeInfo("Postgres", "n8n-nodes-base.postgres", "Data"),
    NodeTypeInfo("MongoDB", "n8n-nodes-base.mongoDb", "Data")]

  /** `list_node_types`: a truthy category keeps exactly the catalogue entries of that category,
      in catalogue order; an absent or empty one keeps the whole catalogue. */
  function ListNodeTypes(category: Option<string>): (r: seq<NodeTypeInfo>)
    ensures category.GetOr("") == "" ==> r == CommonNodeTypes
    ensures category.GetOr("") != "" ==>
      && (forall e :: e in r <==> e in CommonNodeTypes && e.category == category.value)
      && r == Filter(CommonNodeTypes, (e: NodeTypeInfo) => e.category == category.value)
  {
    if category.GetOr("") != "" then Filter(CommonNodeTypes, (e: NodeTypeInfo) => e.category == category.value)
    else CommonNodeTypes
  }
}
