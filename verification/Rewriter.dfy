/**
 * The HCL rewriter (migrate/internal/rewriter/rewriter.go): retargets `cloud` and `backend "remote"` blocks from the
 * source platform to Terrapod. HCL text is modelled as the token tree that hclwrite edits.
 */
module Rewriter {
  import opened Text
  import opened Folding

  // ── HCL ─────────────────────────────────────────────────────────────────────

  datatype Token = OQuote | CQuote | QuotedLit(text: string) | OtherToken(text: string)

  type Expr = seq<Token>

  datatype Item =
    | Attribute(name: string, expr: Expr)
    | Block(kind: string, labels: seq<string>, body: seq<Item>)
    | Trivia(text: string)

  type Body = seq<Item>

  datatype Content = Unparsable(text: string) | Parsed(body: Body)

  /** The expression that `SetAttributeValue` writes for a string. */
  function Literal(s: string): Expr {
    [OQuote, QuotedLit(s), CQuote]
  }

  function Find(body: Body, name: string): Option<Expr> {
    if body == [] then None
    else if body[0].Attribute? && body[0].name == name then Some(body[0].expr)
    else Find(body[1..], name)
  }

  /** `SetAttributeValue`: in place where the attribute exists, appended where it does not. */
  function SetAttr(body: Body, name: string, expr: Expr): Body {
    if body == [] then [Attribute(name, expr)]
    else if body[0].Attribute? && body[0].name == name then [Attribute(name, expr)] + body[1..]
    else [body[0]] + SetAttr(body[1..], name, expr)
  }

  lemma {:induction false} FindAfterSet(body: Body, name: string, expr: Expr, other: string)
    ensures Find(SetAttr(body, name, expr), other) == if other == name then Some(expr) else Find(body, other)
  {
    if body != [] && !(body[0].Attribute? && body[0].name == name) {
      FindAfterSet(body[1..], name, expr, other);
      assert SetAttr(body, name, expr)[1..] == SetAttr(body[1..], name, expr);
    }
  }

  // ── String literals ─────────────────────────────────────────────────────────

  /** The text before the first closing quote, if only literal text precedes it. */
  function UpToClose(ts: Expr): Option<string> {
    if ts == [] then None
    else if ts[0] == CQuote then Some("")
    else if ts[0].QuotedLit? then
      var rest := UpToClose(ts[1..]);
      if rest.None? then None else Some(ts[0].text + rest.value)
    else None
  }

  function StringValue(expr: Expr): string {
    if |expr| < 2 || expr[0] != OQuote then "" else
    var v := UpToClose(expr[1..]);
    if v.None? then "" else v.value
  }

  method AttrStringValue(expr: Expr) returns (v: string)
    ensures v == StringValue(expr)
  {
    if |expr| < 2 { return ""; }
    if expr[0] != OQuote { return ""; }
    v := "";
    var i := 1;
    assert UpToClose(expr[1..]).Some? ==> v + UpToClose(expr[1..]).value == UpToClose(expr[1..]).value;
    while i < |expr|
      invariant 1 <= i <= |expr|
      invariant var rest := UpToClose(expr[i..]);
                UpToClose(expr[1..]) == if rest.None? then None else Some(v + rest.value)
    {
      assert expr[i..][1..] == expr[i + 1..];
      if expr[i] == CQuote { return; }
      if !expr[i].QuotedLit? { return ""; }
      ghost var rest := UpToClose(expr[i + 1..]);
      assert rest.Some? ==> v + (expr[i].text + rest.value) == v + expr[i].text + rest.value;
      v := v + expr[i].text;
      i := i + 1;
    }
    return "";
  }

  /** A complete string literal: an opening quote, literal text, and the closing quote as the last token. */
  predicate IsLiteral(expr: Expr) {
    |expr| >= 2 && expr[0] == OQuote && expr[|expr| - 1] == CQuote
    && forall i :: 0 < i < |expr| - 1 ==> expr[i].QuotedLit?
  }

  lemma {:induction false} UpToCloseIsLiteral(ts: Expr) returns (k: nat)
    requires UpToClose(ts).Some?
    ensures k < |ts| && ts[k] == CQuote && forall i :: 0 <= i < k ==> ts[i].QuotedLit?
  {
    if ts[0] == CQuote {
      k := 0;
    } else {
      var j := UpToCloseIsLiteral(ts[1..]);
      k := j + 1;
    }
  }

  lemma {:induction false} UpToCloseAt(ts: Expr, k: nat)
    requires k < |ts| && ts[k] == CQuote && forall i :: 0 <= i < k ==> ts[i].QuotedLit?
    ensures UpToClose(ts).Some?
    ensures UpToClose(ts).value != "" <==> exists i :: 0 <= i < k && ts[i].text != ""
  {
    if k > 0 {
      UpToCloseAt(ts[1..], k - 1);
      assert forall i :: 0 <= i < k - 1 ==> ts[1..][i] == ts[i + 1];
      assert (exists i :: 0 <= i < k && ts[i].text != "")
             <==> ts[0].text != "" || exists i :: 0 <= i < k - 1 && ts[1..][i].text != "";
    }
  }

  /** The expression starts with a literal that is not empty, and goes on after it. */
  predicate Trailing(expr: Expr) {
    exists k :: 2 <= k < |expr| && IsLiteral(expr[..k]) && HasText(expr[..k])
  }

  predicate HasText(expr: Expr) {
    exists i :: 0 < i < |expr| - 1 && expr[i].QuotedLit? && expr[i].text != ""
  }

  lemma PrefixValue(expr: Expr, k: nat)
    requires 2 <= k <= |expr| && IsLiteral(expr[..k])
    ensures StringValue(expr) != "" <==> HasText(expr[..k])
  {
    assert expr[0] == expr[..k][0] && expr[k - 1] == expr[..k][k - 1];
    forall i | 0 < i < k - 1 ensures expr[i].QuotedLit? { assert expr[i] == expr[..k][i]; }
    assert forall i :: 0 <= i < k - 2 ==> expr[1..][i] == expr[i + 1] == expr[..k][i + 1];
    UpToCloseAt(expr[1..], k - 2);
    if HasText(expr[..k]) {
      var i :| 0 < i < k - 1 && expr[..k][i].QuotedLit? && expr[..k][i].text != "";
      assert expr[1..][i - 1].text != "";
    }
  }

  lemma LiteralPrefix(expr: Expr) returns (k: nat)
    requires StringValue(expr) != ""
    ensures 2 <= k <= |expr| && IsLiteral(expr[..k])
  {
    var j := UpToCloseIsLiteral(expr[1..]);
    k := j + 2;
    assert expr[1..][j] == expr[j + 1] == CQuote;
    forall i | 0 < i < j + 1 ensures expr[i].QuotedLit? { assert expr[i] == expr[1..][i - 1]; }
  }

  /**
   * The doc comment promises "" for every expression that is not a literal. The promise is kept exactly by the
   * expressions that do not go on after a literal with text; what is read is that literal.
   */
  lemma ReadValueIsLiteral(expr: Expr)
    ensures IsLiteral(expr) || StringValue(expr) == "" <==> !Trailing(expr)
    ensures StringValue(expr) != "" ==> exists k :: 2 <= k <= |expr| && IsLiteral(expr[..k])
  {
    if StringValue(expr) != "" {
      var k := LiteralPrefix(expr);
      PrefixValue(expr, k);
      assert k == |expr| ==> expr[..k] == expr;
    }
    if Trailing(expr) {
      var k :| 2 <= k < |expr| && IsLiteral(expr[..k]) && HasText(expr[..k]);
      PrefixValue(expr, k);
      assert expr[k - 1] == expr[..k][k - 1] == CQuote;
    }
  }

  /** A comparison that starts with a quoted literal is read as that literal. */
  lemma ConditionalReadAsLiteral()
    ensures var e := Literal("app.terraform.io") + [OtherToken("=="), OtherToken("var.host")];
            Trailing(e) && !IsLiteral(e) && StringValue(e) == "app.terraform.io"
  {
    var e := Literal("app.terraform.io") + [OtherToken("=="), OtherToken("var.host")];
    assert e[1..][0] == QuotedLit("app.terraform.io") && e[1..][1..][0] == CQuote;
    assert UpToClose(e[1..][1..]) == Some("");
    assert e[2] == CQuote;
    ReadValueIsLiteral(e);
  }

  lemma LiteralValue(s: string)
    ensures StringValue(Literal(s)) == s
  {
    var e := Literal(s);
    assert e[1..][0] == QuotedLit(s) && e[1..][1..][0] == CQuote;
    assert UpToClose(e[1..][1..]) == Some("");
  }

  // ── One cloud or remote block ───────────────────────────────────────────────

  datatype Options = Options(sourceHost: string, destHost: string, sourceOrg: string, names: map<string, string>)

  const DEFAULT_HOST := "app.terraform.io"

  datatype What = Cloud | BackendRemote

  datatype Edit =
    | Hostname(what: What, was: string, now: string)
    | AddedHostname(what: What, now: string)
    | Organization(what: What, was: string)
    | WorkspaceName(what: What, was: string, now: string)

  /** The host gate of `rewriteCloudOrRemote`. */
  predicate Gate(o: Options, body: Body) {
    var attr := Find(body, "hostname");
    if attr.Some? then
      var cur := StringValue(attr.value);
      cur != "" && EqualFold(cur, o.sourceHost)
    else EqualFold(o.sourceHost, DEFAULT_HOST)
  }

  function HostEdits(o: Options, what: What, body: Body): seq<Edit> {
    var attr := Find(body, "hostname");
    if attr.None? then [AddedHostname(what, o.destHost)]
    else if StringValue(attr.value) != o.destHost then [Hostname(what, StringValue(attr.value), o.destHost)]
    else []
  }

  function WithHost(o: Options, body: Body): Body {
    var attr := Find(body, "hostname");
    if attr.Some? && StringValue(attr.value) == o.destHost then body
    else SetAttr(body, "hostname", Literal(o.destHost))
  }

  predicate OrgMoves(o: Options, body: Body) {
    var attr := Find(body, "organization");
    && attr.Some?
    && var cur := StringValue(attr.value);
       cur != "" && cur != "default" && (o.sourceOrg == "" || EqualFold(cur, o.sourceOrg))
  }

  function WithOrg(o: Options, body: Body): Body {
    if OrgMoves(o, body) then SetAttr(body, "organization", Literal("default")) else body
  }

  /** The name map moves this name. */
  predicate Moves(names: map<string, string>, cur: string) {
    cur != "" && cur in names && names[cur] != "" && names[cur] != cur
  }

  predicate NameMoves(o: Options, item: Item) {
    && item.Block? && item.kind == "workspaces"
    && Find(item.body, "name").Some? && Moves(o.names, StringValue(Find(item.body, "name").value))
  }

  function Renamed(o: Options, item: Item): Item {
    if NameMoves(o, item) then
      item.(body := SetAttr(item.body, "name", Literal(o.names[StringValue(Find(item.body, "name").value)])))
    else item
  }

  function RenameEdits(o: Options, what: What, item: Item): seq<Edit> {
    if NameMoves(o, item) then
      var cur := StringValue(Find(item.body, "name").value);
      [WorkspaceName(what, cur, o.names[cur])]
    else []
  }

  function Renamer(o: Options): Item -> Item { item => Renamed(o, item) }

  function RenameEditor(o: Options, what: What): Item -> seq<Edit> { item => RenameEdits(o, what, item) }

  function NewBody(o: Options, body: Body): Body {
    if !Gate(o, body) then body else Map(Renamer(o), WithOrg(o, WithHost(o, body)))
  }

  function BodyEdits(o: Options, what: What, body: Body): seq<Edit> {
    if !Gate(o, body) then [] else
    HostEdits(o, what, body)
    + (if OrgMoves(o, body) then [Organization(what, StringValue(Find(body, "organization").value))] else [])
    + FlatMap(RenameEditor(o, what), body)
  }

  lemma {:induction false} BlocksAfterSet(f: Item -> seq<Edit>, body: Body, name: string, expr: Expr)
    requires forall n, e :: f(Attribute(n, e)) == []
    ensures FlatMap(f, SetAttr(body, name, expr)) == FlatMap(f, body)
  {
    if body == [] {
      assert SetAttr(body, name, expr)[..0] == [];
    } else {
      var front, last := body[..|body| - 1], body[|body| - 1];
      assert body == front + [last];
      SetAtEnd(front, last, name, expr);
      if Find(front, name).Some? {
        BlocksAfterSet(f, front, name, expr);
        FlatMapSnoc(f, SetAttr(front, name, expr), last);
      } else if last.Attribute? && last.name == name {
        FlatMapSnoc(f, front, Attribute(name, expr));
      } else {
        FlatMapSnoc(f, body, Attribute(name, expr));
      }
    }
  }

  lemma {:induction false} SetAtEnd(front: Body, last: Item, name: string, expr: Expr)
    ensures SetAttr(front + [last], name, expr)
            == if Find(front, name).Some? then SetAttr(front, name, expr) + [last]
               else if last.Attribute? && last.name == name then front + [Attribute(name, expr)]
               else front + [last] + [Attribute(name, expr)]
  {
    if front != [] {
      assert (front + [last])[1..] == front[1..] + [last];
      SetAtEnd(front[1..], last, name, expr);
    } else {
      assert [last][1..] == [];
    }
  }

  method RenameOne(o: Options, what: What, item: Item) returns (item': Item, edits: seq<Edit>)
    ensures item' == Renamed(o, item) && edits == RenameEdits(o, what, item)
  {
    item', edits := item, [];
    if !item.Block? || item.kind != "workspaces" { return; }
    var nameAttr := Find(item.body, "name");
    if nameAttr.Some? {
      var cur := AttrStringValue(nameAttr.value);
      if cur != "" && |o.names| > 0 {
        if cur in o.names && o.names[cur] != "" && o.names[cur] != cur {
          item' := item.(body := SetAttr(item.body, "name", Literal(o.names[cur])));
          edits := [WorkspaceName(what, cur, o.names[cur])];
        }
      }
    }
  }

  /** The workspaces loop of `rewriteCloudOrRemote`. */
  method RenameWorkspaces(o: Options, what: What, block: Body) returns (body: Body, edits: seq<Edit>)
    ensures body == Map(Renamer(o), block) && edits == FlatMap(RenameEditor(o, what), block)
  {
    body, edits := block, [];
    var i := 0;
    while i < |body|
      invariant 0 <= i <= |body| == |block|
      invariant forall k :: i <= k < |body| ==> body[k] == block[k]
      invariant forall k :: 0 <= k < i ==> body[k] == Renamer(o)(block[k])
      invariant edits == FlatMap(RenameEditor(o, what), block[..i])
    {
      var item, e := RenameOne(o, what, body[i]);
      FlatMapStep(RenameEditor(o, what), block, i);
      body, edits := body[i := item], edits + e;
      i := i + 1;
    }
    assert block[..i] == block;
  }

  /** The hostname and organization stages leave what the later stages read. */
  lemma StagesAreIndependent(o: Options, what: What, block: Body)
    ensures Find(WithHost(o, block), "organization") == Find(block, "organization")
    ensures FlatMap(RenameEditor(o, what), WithOrg(o, WithHost(o, block))) == FlatMap(RenameEditor(o, what), block)
  {
    var f := RenameEditor(o, what);
    FindAfterSet(block, "hostname", Literal(o.destHost), "organization");
    BlocksAfterSet(f, block, "hostname", Literal(o.destHost));
    BlocksAfterSet(f, WithHost(o, block), "organization", Literal("default"));
  }

  method SetHost(o: Options, what: What, block: Body) returns (body: Body, edits: seq<Edit>)
    ensures body == WithHost(o, block) && edits == HostEdits(o, what, block)
  {
    body, edits := block, [];
    var attr := Find(body, "hostname");
    if attr.Some? {
      var cur := AttrStringValue(attr.value);
      if cur != o.destHost {
        body := SetAttr(body, "hostname", Literal(o.destHost));
        edits := edits + [Hostname(what, cur, o.destHost)];
      }
    } else {
      body := SetAttr(body, "hostname", Literal(o.destHost));
      edits := edits + [AddedHostname(what, o.destHost)];
    }
  }

  method RewriteCloudOrRemote(o: Options, what: What, block: Body) returns (body: Body, edits: seq<Edit>)
    ensures body == NewBody(o, block) && edits == BodyEdits(o, what, block)
  {
    body, edits := block, [];
    var attr := Find(body, "hostname");
    if attr.Some? {
      var cur := AttrStringValue(attr.value);
      if cur == "" || !EqualFold(cur, o.sourceHost) { return; }
    } else if !EqualFold(o.sourceHost, DEFAULT_HOST) {
      return;
    }
    assert Gate(o, block);
    StagesAreIndependent(o, what, block);
    body, edits := SetHost(o, what, body);

    var org := Find(body, "organization");
    if org.Some? {
      var cur := AttrStringValue(org.value);
      if cur != "" && cur != "default" && (o.sourceOrg == "" || EqualFold(cur, o.sourceOrg)) {
        body := SetAttr(body, "organization", Literal("default"));
        edits := edits + [Organization(what, cur)];
      }
    }
    assert body == WithOrg(o, WithHost(o, block));
    var more;
    body, more := RenameWorkspaces(o, what, body);
    edits := edits + more;
  }

  // ── What one rewrite does to a block ────────────────────────────────────────

  /** The item at position i is the first attribute of that name. */
  predicate IsFirst(body: Body, i: nat, name: string) {
    && i < |body| && body[i].Attribute? && body[i].name == name
    && forall j :: 0 <= j < i ==> !(body[j].Attribute? && body[j].name == name)
  }

  predicate Lacks(body: Body, name: string) {
    forall j :: 0 <= j < |body| ==> !(body[j].Attribute? && body[j].name == name)
  }

  /** A block points at the host its hostname says, if that can be read, and at Terraform Cloud without a hostname. */
  ghost predicate PointsAt(body: Body, host: string) {
    || (Lacks(body, "hostname") && EqualFold("app.terraform.io", host))
    || exists i: nat :: IsFirst(body, i, "hostname") && StringValue(body[i].expr) != ""
                        && EqualFold(StringValue(body[i].expr), host)
  }

  lemma {:induction false} FindIsFirst(body: Body, name: string) returns (i: nat)
    ensures Find(body, name).None? <==> Lacks(body, name)
    ensures Find(body, name).Some? ==> IsFirst(body, i, name) && body[i].expr == Find(body, name).value
  {
    i := 0;
    if body != [] && !(body[0].Attribute? && body[0].name == name) {
      var j := FindIsFirst(body[1..], name);
      i := j + 1;
      if Find(body, name).None? {
        forall k | 0 <= k < |body| ensures !(body[k].Attribute? && body[k].name == name) {
          if k > 0 { assert body[k] == body[1..][k - 1]; }
        }
      } else {
        forall k | 0 <= k < i ensures !(body[k].Attribute? && body[k].name == name) {
          if k > 0 { assert body[k] == body[1..][k - 1]; }
        }
      }
    }
  }

  lemma FirstIsFound(body: Body, i: nat, name: string)
    requires IsFirst(body, i, name)
    ensures Find(body, name) == Some(body[i].expr)
  {
    var j := FindIsFirst(body, name);
  }

  lemma {:induction false} SetInPlace(body: Body, i: nat, name: string, expr: Expr)
    requires IsFirst(body, i, name)
    ensures SetAttr(body, name, expr) == body[i := Attribute(name, expr)]
  {
    if i > 0 {
      assert forall k :: 0 <= k < i - 1 ==> body[1..][k] == body[k + 1];
      SetInPlace(body[1..], i - 1, name, expr);
    }
  }

  lemma {:induction false} SetAppends(body: Body, name: string, expr: Expr)
    requires Lacks(body, name)
    ensures SetAttr(body, name, expr) == body + [Attribute(name, expr)]
  {
    if body != [] {
      assert forall k :: 0 <= k < |body| - 1 ==> body[1..][k] == body[k + 1];
      SetAppends(body[1..], name, expr);
    }
  }

  /** The gate lets through exactly the blocks that point at the source. */
  lemma GateExactly(o: Options, body: Body)
    ensures Gate(o, body) <==> PointsAt(body, o.sourceHost)
  {
    var i := FindIsFirst(body, "hostname");
    if j: nat :| IsFirst(body, j, "hostname") { FirstIsFound(body, j, "hostname"); }
  }

  // ── A rewritten block, item by item ─────────────────────────────────────────

  /** The organization that gives way to "default". */
  predicate OrgGivesWay(o: Options, cur: string) {
    cur != "" && cur != "default" && (o.sourceOrg == "" || EqualFold(cur, o.sourceOrg))
  }

  predicate NameGivesWay(names: map<string, string>, cur: string) {
    cur != "" && cur in names && names[cur] != "" && names[cur] != cur
  }

  /** What becomes of an item of a `workspaces` block. */
  predicate NameRewritten(names: map<string, string>, body: Body, j: nat, now: Item)
    requires j < |body|
  {
    if IsFirst(body, j, "name") && NameGivesWay(names, StringValue(body[j].expr)) then
      now == Attribute("name", [OQuote, QuotedLit(names[StringValue(body[j].expr)]), CQuote])
    else now == body[j]
  }

  /** What becomes of an item of a block that points at the source. */
  predicate ItemRewritten(o: Options, body: Body, i: nat, now: Item)
    requires i < |body|
  {
    var was := body[i];
    if IsFirst(body, i, "hostname") && StringValue(was.expr) != o.destHost then
      now == Attribute("hostname", [OQuote, QuotedLit(o.destHost), CQuote])
    else if IsFirst(body, i, "organization") && OrgGivesWay(o, StringValue(was.expr)) then
      now == Attribute("organization", [OQuote, QuotedLit("default"), CQuote])
    else if was.Block? && was.kind == "workspaces" then
      && now.Block? && now.kind == "workspaces" && now.labels == was.labels && |now.body| == |was.body|
      && forall j :: 0 <= j < |was.body| ==> NameRewritten(o.names, was.body, j, now.body[j])
    else now == was
  }

  /** A block that does not point at the source stays; one that does is rewritten in place, and gets a hostname. */
  ghost predicate BlockRewritten(o: Options, was: Body, now: Body) {
    if !PointsAt(was, o.sourceHost) then now == was else
    && |now| == |was| + (if Lacks(was, "hostname") then 1 else 0)
    && (forall i :: 0 <= i < |was| ==> ItemRewritten(o, was, i, now[i]))
    && (Lacks(was, "hostname") ==> now[|was|] == Attribute("hostname", [OQuote, QuotedLit(o.destHost), CQuote]))
  }

  /** Setting an attribute replaces the first of its name, or adds one at the end. */
  predicate SetIn(was: Body, name: string, expr: Expr, now: Body) {
    && |now| == |was| + (if Lacks(was, name) then 1 else 0)
    && (forall i :: 0 <= i < |was| ==> now[i] == if IsFirst(was, i, name) then Attribute(name, expr) else was[i])
    && (Lacks(was, name) ==> now[|was|] == Attribute(name, expr))
  }

  lemma SetExactly(body: Body, name: string, expr: Expr)
    ensures SetIn(body, name, expr, SetAttr(body, name, expr))
  {
    var i := FindIsFirst(body, name);
    if Find(body, name).Some? {
      SetInPlace(body, i, name, expr);
    } else {
      SetAppends(body, name, expr);
    }
  }

  lemma HostExactly(o: Options, body: Body)
    ensures var now := WithHost(o, body);
            && |now| == |body| + (if Lacks(body, "hostname") then 1 else 0)
            && (Lacks(body, "hostname") ==> now[|body|] == Attribute("hostname", Literal(o.destHost)))
            && forall i :: 0 <= i < |body| ==>
                 now[i] == if IsFirst(body, i, "hostname") && StringValue(body[i].expr) != o.destHost
                           then Attribute("hostname", Literal(o.destHost)) else body[i]
  {
    SetExactly(body, "hostname", Literal(o.destHost));
    var i := FindIsFirst(body, "hostname");
    forall j | 0 <= j < |body| && IsFirst(body, j, "hostname")
      ensures Find(body, "hostname") == Some(body[j].expr)
    {
      FirstIsFound(body, j, "hostname");
    }
  }

  /** The hostname stage moves no other attribute's first place. */
  lemma FirstAfterHost(o: Options, body: Body, i: nat, name: string)
    requires name != "hostname"
    ensures IsFirst(WithHost(o, body), i, name) <==> IsFirst(body, i, name)
  {
    HostExactly(o, body);
    assert forall j :: 0 <= j < |body| && body[j].Attribute? ==>
             WithHost(o, body)[j].Attribute? && WithHost(o, body)[j].name == body[j].name;
    assert forall j :: 0 <= j < |body| && WithHost(o, body)[j].Attribute? ==> body[j].Attribute?;
  }

  lemma OrgExactly(o: Options, body: Body)
    ensures var host, now := WithHost(o, body), WithOrg(o, WithHost(o, body));
            && |now| == |host|
            && forall i :: 0 <= i < |host| ==>
                 now[i] == if IsFirst(body, i, "organization") && OrgGivesWay(o, StringValue(body[i].expr))
                           then Attribute("organization", Literal("default")) else host[i]
  {
    var host := WithHost(o, body);
    SetExactly(host, "organization", Literal("default"));
    HostExactly(o, body);
    var k := FindIsFirst(host, "organization");
    forall i | 0 <= i < |host|
      ensures IsFirst(host, i, "organization") <==> IsFirst(body, i, "organization")
      ensures IsFirst(body, i, "organization") ==> Find(host, "organization") == Some(body[i].expr)
    {
      FirstAfterHost(o, body, i, "organization");
      if IsFirst(host, i, "organization") { FirstIsFound(host, i, "organization"); }
    }
  }

  lemma RenameExactly(o: Options, item: Item)
    requires item.Block? && item.kind == "workspaces"
    ensures var now := Renamed(o, item);
            && now.Block? && now.kind == "workspaces" && now.labels == item.labels && |now.body| == |item.body|
            && forall j :: 0 <= j < |item.body| ==> NameRewritten(o.names, item.body, j, now.body[j])
  {
    var k := FindIsFirst(item.body, "name");
    if NameMoves(o, item) { SetExactly(item.body, "name", Literal(o.names[StringValue(item.body[k].expr)])); }
    forall j | 0 <= j < |item.body| ensures NameRewritten(o.names, item.body, j, Renamed(o, item).body[j]) {
      if IsFirst(item.body, j, "name") { FirstIsFound(item.body, j, "name"); }
    }
  }

  lemma StagedItem(o: Options, body: Body, i: nat)
    requires i < |body|
    ensures var staged := WithOrg(o, WithHost(o, body));
            && i < |staged|
            && staged[i] == if IsFirst(body, i, "organization") && OrgGivesWay(o, StringValue(body[i].expr)) then
                              Attribute("organization", Literal("default"))
                            else if IsFirst(body, i, "hostname") && StringValue(body[i].expr) != o.destHost then
                              Attribute("hostname", Literal(o.destHost))
                            else body[i]
  {
    HostExactly(o, body);
    OrgExactly(o, body);
  }

  lemma ItemIsRewritten(o: Options, body: Body, i: nat)
    requires Gate(o, body) && i < |body|
    ensures i < |NewBody(o, body)| && ItemRewritten(o, body, i, NewBody(o, body)[i])
  {
    StagedItem(o, body, i);
    var staged := WithOrg(o, WithHost(o, body))[i];
    assert NewBody(o, body)[i] == Renamed(o, staged);
    if body[i].Block? && body[i].kind == "workspaces" {
      RenameExactly(o, body[i]);
    }
  }

  /** What `rewriteCloudOrRemote` makes of a block, item by item. */
  lemma BlockIsRewritten(o: Options, body: Body)
    ensures BlockRewritten(o, body, NewBody(o, body))
  {
    GateExactly(o, body);
    if Gate(o, body) {
      HostExactly(o, body);
      OrgExactly(o, body);
      forall i | 0 <= i < |body|
        ensures i < |NewBody(o, body)| && ItemRewritten(o, body, i, NewBody(o, body)[i])
      {
        ItemIsRewritten(o, body, i);
      }
    }
  }

  lemma {:induction false} FindAfterRename(o: Options, body: Body, name: string)
    ensures Find(Map(Renamer(o), body), name) == Find(body, name)
  {
    if body != [] {
      FindAfterRename(o, body[1..], name);
      assert Map(Renamer(o), body)[1..] == Map(Renamer(o), body[1..]);
    }
  }

  /** The attributes of a rewritten block: host and organization as below, every other one as it was. */
  lemma RewrittenAttributes(o: Options, body: Body, name: string)
    requires Gate(o, body)
    ensures name == "hostname" ==> Find(NewBody(o, body), name).Some?
                                   && StringValue(Find(NewBody(o, body), name).value) == o.destHost
    ensures name == "organization" ==> Find(NewBody(o, body), name)
                                       == if OrgMoves(o, body) then Some(Literal("default")) else Find(body, name)
    ensures name != "hostname" && name != "organization" ==> Find(NewBody(o, body), name) == Find(body, name)
  {
    FindAfterRename(o, WithOrg(o, WithHost(o, body)), name);
    FindAfterSet(body, "hostname", Literal(o.destHost), name);
    FindAfterSet(body, "hostname", Literal(o.destHost), "organization");
    FindAfterSet(WithHost(o, body), "organization", Literal("default"), name);
    LiteralValue(o.destHost);
  }

  lemma {:induction false} SetKeepsBlocks(body: Body, name: string, expr: Expr, i: nat)
    requires i < |body| && body[i].Block?
    ensures i < |SetAttr(body, name, expr)| && SetAttr(body, name, expr)[i] == body[i]
  {
    if !(body[0].Attribute? && body[0].name == name) && i > 0 {
      SetKeepsBlocks(body[1..], name, expr, i - 1);
    }
  }

  /** A nested block of a rewritten block: in its place, with the name the map gives it and all else as it was. */
  lemma RewrittenNames(o: Options, body: Body, i: nat, name: string)
    requires Gate(o, body) && i < |body| && body[i].Block?
    ensures i < |NewBody(o, body)|
    ensures var was, now := body[i], NewBody(o, body)[i];
            && now.Block? && now.kind == was.kind && now.labels == was.labels
            && (was.kind != "workspaces" ==> now == was)
            && (name != "name" || Find(was.body, name).None? ==> Find(now.body, name) == Find(was.body, name))
            && (was.kind == "workspaces" && name == "name" && Find(was.body, name).Some? ==>
                  var cur := StringValue(Find(was.body, name).value);
                  && Find(now.body, name).Some?
                  && StringValue(Find(now.body, name).value) == if Moves(o.names, cur) then o.names[cur] else cur)
  {
    SetKeepsBlocks(body, "hostname", Literal(o.destHost), i);
    SetKeepsBlocks(WithHost(o, body), "organization", Literal("default"), i);
    var was := body[i];
    assert NewBody(o, body)[i] == Renamed(o, was);
    if NameMoves(o, was) {
      var to := o.names[StringValue(Find(was.body, "name").value)];
      FindAfterSet(was.body, "name", Literal(to), name);
      LiteralValue(to);
    }
  }

  /** A block that points at the source points at the destination afterwards; any other block is left alone. */
  lemma Retargeted(o: Options, body: Body)
    requires o.destHost != ""
    ensures PointsAt(body, o.sourceHost) ==>
              forall host :: PointsAt(NewBody(o, body), host) <==> EqualFold(o.destHost, host)
    ensures !PointsAt(body, o.sourceHost) ==> NewBody(o, body) == body
  {
    GateExactly(o, body);
    if Gate(o, body) {
      RewrittenAttributes(o, body, "hostname");
      var now := NewBody(o, body);
      var i := FindIsFirst(now, "hostname");
      forall host ensures PointsAt(now, host) <==> EqualFold(o.destHost, host) {
        if j: nat :| IsFirst(now, j, "hostname") && EqualFold(StringValue(now[j].expr), host) {
          FirstIsFound(now, j, "hostname");
        }
      }
    }
  }

  predicate Removable(name: string) {
    name == "hostname" || name == "organization"
  }

  /** A block without what the rewriter may edit. */
  function Residue(body: Body): Body {
    if body == [] then [] else
    var item := body[0];
    (if item.Attribute? && Removable(item.name) then []
     else if item.Block? && item.kind == "workspaces" then [item.(body := WithoutName(item.body))]
     else [item]) + Residue(body[1..])
  }

  function WithoutName(body: Body): Body {
    if body == [] then []
    else (if body[0].Attribute? && body[0].name == "name" then [] else [body[0]]) + WithoutName(body[1..])
  }

  lemma {:induction false} SetLeavesResidue(body: Body, name: string, expr: Expr)
    requires Removable(name)
    ensures Residue(SetAttr(body, name, expr)) == Residue(body)
  {
    if body != [] && !(body[0].Attribute? && body[0].name == name) {
      SetLeavesResidue(body[1..], name, expr);
      assert SetAttr(body, name, expr)[1..] == SetAttr(body[1..], name, expr);
    }
  }

  lemma {:induction false} SetNameLeavesRest(body: Body, expr: Expr)
    ensures WithoutName(SetAttr(body, "name", expr)) == WithoutName(body)
  {
    if body != [] && !(body[0].Attribute? && body[0].name == "name") {
      SetNameLeavesRest(body[1..], expr);
      assert SetAttr(body, "name", expr)[1..] == SetAttr(body[1..], "name", expr);
    }
  }

  lemma {:induction false} RenameLeavesResidue(o: Options, body: Body)
    ensures Residue(Map(Renamer(o), body)) == Residue(body)
  {
    if body != [] {
      RenameLeavesResidue(o, body[1..]);
      assert Map(Renamer(o), body)[1..] == Map(Renamer(o), body[1..]);
      if NameMoves(o, body[0]) {
        SetNameLeavesRest(body[0].body, Literal(o.names[StringValue(Find(body[0].body, "name").value)]));
      }
    }
  }

  /** Frame: a rewrite changes nothing but hostname, organization and workspaces.name, and keeps everything in order. */
  lemma OnlyThoseAttributes(o: Options, body: Body)
    ensures Residue(NewBody(o, body)) == Residue(body)
  {
    if Gate(o, body) {
      SetLeavesResidue(body, "hostname", Literal(o.destHost));
      SetLeavesResidue(WithHost(o, body), "organization", Literal("default"));
      RenameLeavesResidue(o, WithOrg(o, WithHost(o, body)));
    }
  }

  lemma NoEditsNoChange(o: Options, what: What, body: Body)
    requires BodyEdits(o, what, body) == []
    ensures NewBody(o, body) == body
  {
    if Gate(o, body) {
      FlatMapEmpty(RenameEditor(o, what), body);
      forall i | 0 <= i < |body| ensures Renamed(o, body[i]) == body[i] {
        assert RenameEditor(o, what)(body[i]) == [];
      }
    }
  }

  // ── Idempotence ─────────────────────────────────────────────────────────────

  /** Some name that the map moves is moved on by the map. */
  ghost predicate HasChain(names: map<string, string>) {
    exists n :: Moves(names, n) && Moves(names, names[n])
  }

  ghost predicate Settling(o: Options) {
    !EqualFold(o.destHost, o.sourceHost) || !HasChain(o.names)
  }

  lemma RenamedStays(o: Options, what: What, item: Item)
    requires !HasChain(o.names)
    ensures RenameEdits(o, what, Renamed(o, item)) == []
  {
    if NameMoves(o, item) {
      var cur := StringValue(Find(item.body, "name").value);
      FindAfterSet(item.body, "name", Literal(o.names[cur]), "name");
      LiteralValue(o.names[cur]);
      assert Moves(o.names, cur);
    }
  }

  lemma RenameTwice(o: Options, what: What, body: Body)
    requires !HasChain(o.names)
    ensures FlatMap(RenameEditor(o, what), Map(Renamer(o), body)) == []
  {
    var once := Map(Renamer(o), body);
    forall i | 0 <= i < |once| ensures RenameEditor(o, what)(once[i]) == [] {
      RenamedStays(o, what, body[i]);
    }
    FlatMapEmpty(RenameEditor(o, what), once);
  }

  lemma BlockTwice(o: Options, what: What, body: Body)
    requires Settling(o)
    ensures BodyEdits(o, what, NewBody(o, body)) == []
  {
    if Gate(o, body) && Gate(o, NewBody(o, body)) {
      RewrittenAttributes(o, body, "hostname");
      RewrittenAttributes(o, body, "organization");
      LiteralValue("default");
      RenameTwice(o, what, WithOrg(o, WithHost(o, body)));
    }
  }

  // ── Files ───────────────────────────────────────────────────────────────────

  datatype Note = ParseError | ForeignBackend(backend: string)

  predicate IsCloud(item: Item) {
    item.Block? && item.kind == "cloud"
  }

  predicate IsRemote(item: Item) {
    item.Block? && item.kind == "backend" && item.labels == ["remote"]
  }

  /** The blocks that `rewriteFile` hands to `rewriteCloudOrRemote`. */
  predicate Chosen(item: Item) {
    IsCloud(item) || IsRemote(item)
  }

  function WhatOf(item: Item): What {
    if IsCloud(item) then Cloud else BackendRemote
  }

  function NewInner(o: Options): Item -> Item {
    item => if Chosen(item) then item.(body := NewBody(o, item.body)) else item
  }

  function InnerEdits(o: Options): Item -> seq<Edit> {
    item => if Chosen(item) then BodyEdits(o, WhatOf(item), item.body) else []
  }

  function InnerNotes(): Item -> seq<Note> {
    item =>
      if !Chosen(item) && item.Block? && item.kind == "backend" && |item.labels| == 1 then
        [ForeignBackend(item.labels[0])]
      else []
  }

  predicate IsTerraform(item: Item) {
    item.Block? && item.kind == "terraform"
  }

  function NewTop(o: Options): Item -> Item {
    item => if IsTerraform(item) then item.(body := Map(NewInner(o), item.body)) else item
  }

  function TopEdits(o: Options): Item -> seq<Edit> {
    item => if IsTerraform(item) then FlatMap(InnerEdits(o), item.body) else []
  }

  function TopNotes(): Item -> seq<Note> {
    item => if IsTerraform(item) then FlatMap(InnerNotes(), item.body) else []
  }

  function NewContent(o: Options, c: Content): Content {
    if c.Unparsable? then c else Parsed(Map(NewTop(o), c.body))
  }

  function Edits(o: Options, c: Content): seq<Edit> {
    if c.Unparsable? then [] else FlatMap(TopEdits(o), c.body)
  }

  function Notes(c: Content): seq<Note> {
    if c.Unparsable? then [ParseError] else FlatMap(TopNotes(), c.body)
  }

  method RewriteInner(o: Options, inner: Item) returns (inner': Item, edits: seq<Edit>, notes: seq<Note>)
    ensures inner' == NewInner(o)(inner) && edits == InnerEdits(o)(inner) && notes == InnerNotes()(inner)
  {
    inner', edits, notes := inner, [], [];
    if !inner.Block? { return; }
    if inner.kind == "cloud" {
      var body;
      body, edits := RewriteCloudOrRemote(o, Cloud, inner.body);
      inner' := inner.(body := body);
    } else if inner.kind == "backend" && |inner.labels| == 1 && inner.labels[0] == "remote" {
      assert inner.labels == ["remote"];
      var body;
      body, edits := RewriteCloudOrRemote(o, BackendRemote, inner.body);
      inner' := inner.(body := body);
    } else if inner.kind == "backend" && |inner.labels| == 1 {
      notes := [ForeignBackend(inner.labels[0])];
    }
  }

  /** The first i items are rewritten, and their edits and notes collected. */
  ghost predicate UpTo(rewrite: Item -> Item, editor: Item -> seq<Edit>, noter: Item -> seq<Note>, source: Body, i: nat,
                       body: Body, edits: seq<Edit>, notes: seq<Note>) {
    && i <= |body| == |source|
    && (forall k :: i <= k < |body| ==> body[k] == source[k])
    && (forall k :: 0 <= k < i ==> body[k] == rewrite(source[k]))
    && edits == FlatMap(editor, source[..i]) && notes == FlatMap(noter, source[..i])
  }

  lemma UpToNext(rewrite: Item -> Item, editor: Item -> seq<Edit>, noter: Item -> seq<Note>, source: Body, i: nat,
                 body: Body, edits: seq<Edit>, notes: seq<Note>)
    requires UpTo(rewrite, editor, noter, source, i, body, edits, notes) && i < |body|
    ensures var item := source[i];
            UpTo(rewrite, editor, noter, source, i + 1, body[i := rewrite(item)], edits + editor(item),
                 notes + noter(item))
  {
    FlatMapStep(editor, source, i);
    FlatMapStep(noter, source, i);
  }

  lemma UpToEnd(rewrite: Item -> Item, editor: Item -> seq<Edit>, noter: Item -> seq<Note>, source: Body,
                body: Body, edits: seq<Edit>, notes: seq<Note>)
    requires UpTo(rewrite, editor, noter, source, |source|, body, edits, notes)
    ensures body == Map(rewrite, source) && edits == FlatMap(editor, source) && notes == FlatMap(noter, source)
  {
    assert source[..|source|] == source;
  }

  method RewriteTerraform(o: Options, block: Body) returns (body: Body, edits: seq<Edit>, notes: seq<Note>)
    ensures body == Map(NewInner(o), block)
    ensures edits == FlatMap(InnerEdits(o), block) && notes == FlatMap(InnerNotes(), block)
  {
    body, edits, notes := block, [], [];
    var j := 0;
    while j < |body|
      invariant 0 <= j && UpTo(NewInner(o), InnerEdits(o), InnerNotes(), block, j, body, edits, notes)
    {
      UpToNext(NewInner(o), InnerEdits(o), InnerNotes(), block, j, body, edits, notes);
      var inner, e, n := RewriteInner(o, body[j]);
      body, edits, notes := body[j := inner], edits + e, notes + n;
      j := j + 1;
    }
    UpToEnd(NewInner(o), InnerEdits(o), InnerNotes(), block, body, edits, notes);
  }

  method RewriteTop(o: Options, block: Item) returns (block': Item, edits: seq<Edit>, notes: seq<Note>)
    ensures block' == NewTop(o)(block) && edits == TopEdits(o)(block) && notes == TopNotes()(block)
  {
    block', edits, notes := block, [], [];
    if block.Block? && block.kind == "terraform" {
      var body;
      body, edits, notes := RewriteTerraform(o, block.body);
      block' := block.(body := body);
    }
  }

  method RewriteContent(o: Options, c: Content) returns (after: Content, edits: seq<Edit>, notes: seq<Note>)
    ensures after == NewContent(o, c) && edits == Edits(o, c) && notes == Notes(c)
  {
    if c.Unparsable? { return c, [], [ParseError]; }
    var body := c.body;
    edits, notes := [], [];
    var i := 0;
    while i < |body|
      invariant 0 <= i && UpTo(NewTop(o), TopEdits(o), TopNotes(), c.body, i, body, edits, notes)
    {
      UpToNext(NewTop(o), TopEdits(o), TopNotes(), c.body, i, body, edits, notes);
      var b, e, n := RewriteTop(o, body[i]);
      body, edits, notes := body[i := b], edits + e, notes + n;
      i := i + 1;
    }
    UpToEnd(NewTop(o), TopEdits(o), TopNotes(), c.body, body, edits, notes);
    after := Parsed(body);
  }

  /** The block at position j of the terraform block at position i is one the rewriter looks into. */
  predicate ChosenAt(c: Content, i: nat, j: nat) {
    c.Parsed? && i < |c.body| && IsTerraform(c.body[i]) && j < |c.body[i].body| && Chosen(c.body[i].body[j])
  }

  function BlockAt(c: Content, i: nat, j: nat): Body
    requires ChosenAt(c, i, j)
  {
    c.body[i].body[j].body
  }

  /** The chosen blocks stay where they are and are rewritten one by one; the rest of the file is as it was. */
  lemma FileFrame(o: Options, c: Content, i: nat, j: nat)
    requires c.Parsed?
    ensures NewContent(o, c).Parsed? && |NewContent(o, c).body| == |c.body|
    ensures i < |c.body| && !IsTerraform(c.body[i]) ==> NewContent(o, c).body[i] == c.body[i]
    ensures i < |c.body| && IsTerraform(c.body[i]) && j < |c.body[i].body| && !ChosenAt(c, i, j)
            ==> var t := NewContent(o, c).body[i];
                IsTerraform(t) && |t.body| == |c.body[i].body| && t.body[j] == c.body[i].body[j]
    ensures ChosenAt(NewContent(o, c), i, j) <==> ChosenAt(c, i, j)
    ensures ChosenAt(c, i, j) ==> BlockAt(NewContent(o, c), i, j) == NewBody(o, BlockAt(c, i, j))
  {
  }

  predicate EditFree(o: Options, c: Content, i: nat, j: nat) {
    ChosenAt(c, i, j) ==> BodyEdits(o, WhatOf(c.body[i].body[j]), BlockAt(c, i, j)) == []
  }

  lemma NoTopEdits(o: Options, c: Content, i: nat)
    requires c.Parsed? && i < |c.body|
    ensures TopEdits(o)(c.body[i]) == [] <==> forall j: nat :: EditFree(o, c, i, j)
  {
    if IsTerraform(c.body[i]) {
      var body := c.body[i].body;
      FlatMapEmpty(InnerEdits(o), body);
      if forall j: nat :: EditFree(o, c, i, j) {
        forall j | 0 <= j < |body| ensures InnerEdits(o)(body[j]) == [] { assert EditFree(o, c, i, j); }
      }
    }
  }

  /** A file has no edits exactly when none of its chosen blocks has one. */
  lemma NoEdits(o: Options, c: Content)
    ensures Edits(o, c) == [] <==> forall i: nat, j: nat :: EditFree(o, c, i, j)
  {
    if c.Parsed? {
      FlatMapEmpty(TopEdits(o), c.body);
      forall i | 0 <= i < |c.body| ensures TopEdits(o)(c.body[i]) == [] <==> forall j: nat :: EditFree(o, c, i, j) {
        NoTopEdits(o, c, i);
      }
    }
  }

  lemma FileTwice(o: Options, c: Content)
    requires Settling(o)
    ensures Edits(o, NewContent(o, c)) == []
  {
    if c.Parsed? {
      var after := NewContent(o, c);
      forall i: nat, j: nat ensures EditFree(o, after, i, j) {
        FileFrame(o, c, i, j);
        if ChosenAt(after, i, j) { BlockTwice(o, WhatOf(after.body[i].body[j]), BlockAt(c, i, j)); }
      }
      NoEdits(o, after);
    }
  }

  lemma UneditedFile(o: Options, c: Content)
    requires Edits(o, c) == []
    ensures NewContent(o, c) == c
  {
    if c.Parsed? {
      NoEdits(o, c);
      forall i | 0 <= i < |c.body| ensures NewTop(o)(c.body[i]) == c.body[i] {
        if IsTerraform(c.body[i]) {
          forall j | 0 <= j < |c.body[i].body| ensures NewInner(o)(c.body[i].body[j]) == c.body[i].body[j] {
            assert EditFree(o, c, i, j);
            if ChosenAt(c, i, j) { NoEditsNoChange(o, WhatOf(c.body[i].body[j]), BlockAt(c, i, j)); }
          }
          assert Map(NewInner(o), c.body[i].body) == c.body[i].body;
        }
      }
      assert Map(NewTop(o), c.body) == c.body;
    }
  }

  function OneBlock(body: Body): Content {
    Parsed([Block("terraform", [], [Block("cloud", [], body)])])
  }

  lemma OneBlockRewritten(o: Options, body: Body)
    ensures NewContent(o, OneBlock(body)) == OneBlock(NewBody(o, body))
    ensures Edits(o, OneBlock(body)) == [] ==> BodyEdits(o, Cloud, body) == []
  {
    var cloud := Block("cloud", [], body);
    assert Map(NewInner(o), [cloud]) == [cloud.(body := NewBody(o, body))];
    assert Map(NewTop(o), OneBlock(body).body) == OneBlock(NewBody(o, body)).body;
    NoEdits(o, OneBlock(body));
    assert EditFree(o, OneBlock(body), 0, 0) ==> BodyEdits(o, Cloud, body) == [];
  }

  /** A one-block file whose second rewrite renames once more, for options whose map chains and whose hosts agree. */
  lemma ChainedFile(o: Options) returns (c: Content)
    requires o.sourceHost != "" && !Settling(o)
    ensures Edits(o, NewContent(o, c)) != []
  {
    var n :| Moves(o.names, n) && Moves(o.names, o.names[n]);
    var ws := Block("workspaces", [], [Attribute("name", Literal(n))]);
    var body := [Attribute("hostname", Literal(o.sourceHost)), ws];
    c := OneBlock(body);
    ChainedBlock(o, n, ws, body);
    OneBlockRewritten(o, body);
    OneBlockRewritten(o, NewBody(o, body));
  }

  lemma ChainedBlock(o: Options, n: string, ws: Item, body: Body)
    requires o.sourceHost != "" && EqualFold(o.destHost, o.sourceHost)
    requires Moves(o.names, n) && Moves(o.names, o.names[n])
    requires ws == Block("workspaces", [], [Attribute("name", Literal(n))])
    requires body == [Attribute("hostname", Literal(o.sourceHost)), ws]
    ensures BodyEdits(o, Cloud, NewBody(o, body)) != []
  {
    LiteralValue(o.sourceHost);
    LiteralValue(n);
    LiteralValue(o.names[n]);
    assert Gate(o, body);
    RewrittenAttributes(o, body, "hostname");
    var staged := WithOrg(o, WithHost(o, body));
    assert Find(body[1..], "organization").None?;
    assert staged[1] == ws;
    var after := NewBody(o, body);
    assert after[1] == Renamed(o, ws);
    assert RenameEditor(o, Cloud)(after[1]) != [];
    FlatMapEmpty(RenameEditor(o, Cloud), after);
  }

  /** Rewriting is idempotent on every file iff the hosts differ, letter case aside, or the map has no chain. */
  lemma IdempotentExactly(o: Options)
    requires o.sourceHost != ""
    ensures Settling(o) <==> forall c: Content :: Edits(o, NewContent(o, c)) == []
  {
    if Settling(o) {
      forall c: Content ensures Edits(o, NewContent(o, c)) == [] { FileTwice(o, c); }
    } else {
      var c := ChainedFile(o);
    }
  }

  // ── Directory trees ─────────────────────────────────────────────────────────

  /** A file by its directories, from the root's own name down, and its base name. */
  datatype Path = Path(dirs: seq<string>, name: string)

  const SKIPPED_DIRS := {".terraform", ".git", "node_modules"}

  predicate Selected(p: Path) {
    (forall d :: d in p.dirs ==> d !in SKIPPED_DIRS) && |p.name| >= 3 && p.name[|p.name| - 3..] == ".tf"
  }

  datatype Fault = NoFault | ReadFails | WriteFails

  datatype FileChange = FileChange(path: Path, modified: bool, edits: seq<Edit>, notes: seq<Note>)

  datatype Result = Invalid | Report(files: seq<FileChange>, modified: nat, skipped: nat, failed: bool)

  type Files = map<Path, Content>

  function Change(o: Options, p: Path, c: Content): FileChange {
    FileChange(p, Edits(o, c) != [], Edits(o, c), Notes(c))
  }

  /** The walk visits files of the tree, each at most once. */
  predicate Lists(walk: seq<Path>, files: Files) {
    (forall p :: p in walk ==> p in files) && forall i, j :: 0 <= i < j < |walk| ==> walk[i] != walk[j]
  }

  /** Whether the file ends the walk: it cannot be read, or it needs writing and cannot be written. */
  predicate Stops(o: Options, dryRun: bool, faults: Path -> Fault, files: Files, p: Path)
    requires p in files
  {
    Selected(p) && (faults(p) == ReadFails || (faults(p) == WriteFails && !dryRun && Edits(o, files[p]) != []))
  }

  predicate NoneStops(o: Options, dryRun: bool, faults: Path -> Fault, files: Files, walk: seq<Path>, n: nat)
    requires n <= |walk| && Lists(walk, files)
  {
    forall k :: 0 <= k < n ==> !Stops(o, dryRun, faults, files, walk[k])
  }

  function ReachedFrom(o: Options, dryRun: bool, faults: Path -> Fault, files: Files, walk: seq<Path>, i: nat): (n: nat)
    requires i <= |walk| && Lists(walk, files) && NoneStops(o, dryRun, faults, files, walk, i)
    ensures i <= n <= |walk| && NoneStops(o, dryRun, faults, files, walk, n)
    ensures n < |walk| ==> Stops(o, dryRun, faults, files, walk[n])
    decreases |walk| - i
  {
    if i == |walk| || Stops(o, dryRun, faults, files, walk[i]) then i
    else ReachedFrom(o, dryRun, faults, files, walk, i + 1)
  }

  /** How many entries of the walk are dealt with before one of them ends it. */
  function Reached(o: Options, dryRun: bool, faults: Path -> Fault, files: Files, walk: seq<Path>): (n: nat)
    requires Lists(walk, files)
    ensures n <= |walk| && NoneStops(o, dryRun, faults, files, walk, n)
    ensures n < |walk| ==> Stops(o, dryRun, faults, files, walk[n])
  {
    ReachedFrom(o, dryRun, faults, files, walk, 0)
  }

  function ChangesOf(o: Options, files: Files): Path -> seq<FileChange> {
    p => if p in files && Selected(p) then [Change(o, p, files[p])] else []
  }

  /** The files once the entries in `done` have been rewritten. */
  function Rewritten(o: Options, files: Files, done: seq<Path>): Files {
    map p | p in files :: if p in done && Selected(p) then NewContent(o, files[p]) else files[p]
  }

  /** What a run leaves of the files: only write runs rewrite. */
  function Left(o: Options, dryRun: bool, files: Files, done: seq<Path>): Files {
    if dryRun then files else Rewritten(o, files, done)
  }

  lemma LeftMore(o: Options, dryRun: bool, files: Files, walk: seq<Path>, i: nat)
    requires i < |walk| && Lists(walk, files)
    ensures walk[i] in Left(o, dryRun, files, walk[..i]) && Left(o, dryRun, files, walk[..i])[walk[i]] == files[walk[i]]
    ensures Left(o, dryRun, files, walk[..i + 1])
         == if Selected(walk[i]) && !dryRun
            then Left(o, dryRun, files, walk[..i])[walk[i] := NewContent(o, files[walk[i]])]
            else Left(o, dryRun, files, walk[..i])
  {
  }

  function CountModified(changes: seq<FileChange>): nat {
    if changes == [] then 0
    else CountModified(changes[..|changes| - 1]) + if changes[|changes| - 1].edits != [] then 1 else 0
  }

  class Disk {
    var files: Files

    constructor (files: Files)
      ensures this.files == files
    {
      this.files := files;
    }

    method RewriteFile(o: Options, dryRun: bool, path: Path, fault: Fault) returns (change: FileChange, failed: bool)
      requires path in files
      modifies this
      ensures failed <==> fault == ReadFails || (fault == WriteFails && !dryRun && Edits(o, old(files)[path]) != [])
      ensures !failed ==> change == Change(o, path, old(files)[path])
      ensures files == if failed || dryRun then old(files) else old(files)[path := NewContent(o, old(files)[path])]
    {
      change := FileChange(path, false, [], []);
      if fault == ReadFails { return change, true; }
      var after, edits, notes := RewriteContent(o, files[path]);
      change := FileChange(path, edits != [], edits, notes);
      if edits == [] {
        UneditedFile(o, files[path]);
        return change, false;
      }
      if dryRun { return change, false; }
      if fault == WriteFails { return change, true; }
      files := files[path := after];
      return change, false;
    }

    /** The walk callback: unselected files give no change. */
    method Visit(o: Options, dryRun: bool, path: Path, faults: Path -> Fault)
      returns (changes: seq<FileChange>, failed: bool)
      requires path in files
      modifies this
      ensures failed <==> Stops(o, dryRun, faults, old(files), path)
      ensures !failed ==> changes == ChangesOf(o, old(files))(path)
      ensures files == if failed || dryRun || !Selected(path) then old(files)
                       else old(files)[path := NewContent(o, old(files)[path])]
    {
      if !Selected(path) { return [], false; }
      var change;
      change, failed := RewriteFile(o, dryRun, path, faults(path));
      changes := [change];
    }

    /**
     * Rewrites the tree whose files the walk lists. Dry runs and write runs report the same changes; only write runs
     * change files, and then exactly the selected files reached.
     */
    method RewriteDir(o: Options, dryRun: bool, walk: seq<Path>, faults: Path -> Fault) returns (r: Result)
      requires Lists(walk, files)
      modifies this
      ensures r == Invalid <==> o.sourceHost == "" || o.destHost == ""
      ensures r == Invalid ==> files == old(files)
      ensures r != Invalid ==> Finished(o, dryRun, faults, old(files), walk, r, files)
    {
      if o.sourceHost == "" || o.destHost == "" { return Invalid; }
      ghost var files0 := files;
      r := Report([], 0, 0, false);
      var i := 0;
      while i < |walk|
        invariant 0 <= i && AtEntry(o, dryRun, faults, files0, walk, i, r, files)
      {
        EntryAsBefore(o, dryRun, faults, files0, walk, i, r, files);
        ghost var reached := files;
        var changes, failed := Visit(o, dryRun, walk[i], faults);
        if failed {
          FinishedAt(o, dryRun, faults, files0, walk, i, r, files);
          return r.(failed := true);
        }
        NextEntry(o, dryRun, faults, files0, walk, i, r, reached, files);
        r := Add(r, changes);
        i := i + 1;
      }
      FinishedAt(o, dryRun, faults, files0, walk, i, r, files);
      r := r.(files := SortedByPath(r.files));
    }
  }

  /** The loop's invariant: nothing stopped it so far; the report and the files are those of the entries dealt with. */
  predicate AtEntry(o: Options, dryRun: bool, faults: Path -> Fault, before: Files, walk: seq<Path>, i: nat, r: Result,
                    now: Files) {
    && Lists(walk, before) && i <= |walk| && NoneStops(o, dryRun, faults, before, walk, i)
    && Consistent(o, before, walk[..i], r) && !r.failed && now == Left(o, dryRun, before, walk[..i])
  }

  lemma EntryAsBefore(o: Options, dryRun: bool, faults: Path -> Fault, before: Files, walk: seq<Path>, i: nat,
                      r: Result, now: Files)
    requires i < |walk| && AtEntry(o, dryRun, faults, before, walk, i, r, now)
    ensures walk[i] in now && walk[i] in before && now[walk[i]] == before[walk[i]]
    ensures Stops(o, dryRun, faults, now, walk[i]) == Stops(o, dryRun, faults, before, walk[i])
    ensures ChangesOf(o, now)(walk[i]) == ChangesOf(o, before)(walk[i])
  {
    LeftMore(o, dryRun, before, walk, i);
  }

  lemma NextEntry(o: Options, dryRun: bool, faults: Path -> Fault, before: Files, walk: seq<Path>, i: nat, r: Result,
                  now: Files, next: Files)
    requires i < |walk| && AtEntry(o, dryRun, faults, before, walk, i, r, now)
    requires !Stops(o, dryRun, faults, before, walk[i])
    requires next == if dryRun || !Selected(walk[i]) then now else now[walk[i] := NewContent(o, before[walk[i]])]
    ensures AtEntry(o, dryRun, faults, before, walk, i + 1, Add(r, ChangesOf(o, before)(walk[i])), next)
  {
    LeftMore(o, dryRun, before, walk, i);
    ConsistentMore(o, before, walk, i, r);
  }

  /** The text by which the report is sorted. */
  function PathText(p: Path): string
    decreases |p.dirs|
  {
    if p.dirs == [] then p.name else p.dirs[0] + "/" + PathText(Path(p.dirs[1..], p.name))
  }

  function InsertChange(c: FileChange, cs: seq<FileChange>): seq<FileChange> {
    if cs != [] && Less(PathText(cs[0].path), PathText(c.path)) then [cs[0]] + InsertChange(c, cs[1..]) else [c] + cs
  }

  function SortedByPath(cs: seq<FileChange>): seq<FileChange> {
    if cs == [] then [] else InsertChange(cs[|cs| - 1], SortedByPath(cs[..|cs| - 1]))
  }

  predicate PathsAscend(cs: seq<FileChange>) {
    forall i, j :: 0 <= i < j < |cs| ==> !Less(PathText(cs[j].path), PathText(cs[i].path))
  }

  lemma NotLessTransitive(a: string, b: string, c: string)
    requires !Less(b, a) && !Less(c, b)
    ensures !Less(c, a)
  {
    LessTotal(a, b);
    if Less(c, a) && Less(a, b) { LessTransitive(c, a, b); }
  }

  lemma LessAsymmetric(a: string, b: string)
    requires Less(a, b)
    ensures !Less(b, a)
  {
    if Less(b, a) {
      LessTransitive(a, b, a);
      LessIrreflexive(a);
    }
  }

  lemma PrependAscends(c: FileChange, cs: seq<FileChange>)
    requires PathsAscend(cs) && forall x :: x in cs ==> !Less(PathText(x.path), PathText(c.path))
    ensures PathsAscend([c] + cs)
  {
  }

  lemma {:induction false} InsertKeeps(c: FileChange, cs: seq<FileChange>)
    ensures multiset(InsertChange(c, cs)) == multiset(cs) + multiset{c}
  {
    if cs != [] {
      InsertKeeps(c, cs[1..]);
      assert cs == [cs[0]] + cs[1..];
    }
  }

  lemma {:induction false} InsertAscends(c: FileChange, cs: seq<FileChange>)
    requires PathsAscend(cs)
    ensures PathsAscend(InsertChange(c, cs))
  {
    if cs != [] && Less(PathText(cs[0].path), PathText(c.path)) {
      InsertAscends(c, cs[1..]);
      LessAsymmetric(PathText(cs[0].path), PathText(c.path));
      forall x | x in InsertChange(c, cs[1..]) ensures !Less(PathText(x.path), PathText(cs[0].path)) {
        InsertKeeps(c, cs[1..]);
        assert x in multiset(InsertChange(c, cs[1..]));
      }
      PrependAscends(cs[0], InsertChange(c, cs[1..]));
    } else {
      forall x | x in cs ensures !Less(PathText(x.path), PathText(c.path)) {
        if x != cs[0] { NotLessTransitive(PathText(c.path), PathText(cs[0].path), PathText(x.path)); }
      }
      PrependAscends(c, cs);
    }
  }

  /** The finished report is the same list of changes, in ascending order of their paths. */
  lemma {:induction false} SortedReport(cs: seq<FileChange>)
    ensures PathsAscend(SortedByPath(cs)) && multiset(SortedByPath(cs)) == multiset(cs)
  {
    if cs != [] {
      var before, last := cs[..|cs| - 1], cs[|cs| - 1];
      SortedReport(before);
      InsertAscends(last, SortedByPath(before));
      InsertKeeps(last, SortedByPath(before));
      assert SortedByPath(cs) == InsertChange(last, SortedByPath(before));
      assert multiset(cs) == multiset(before) + multiset{last} by { assert cs == before + [last]; }
    }
  }

  /** The report lists the changes of the entries dealt with, and its counters agree with it. */
  predicate Consistent(o: Options, files: Files, done: seq<Path>, r: Result) {
    && r.Report? && r.files == FlatMap(ChangesOf(o, files), done)
    && r.modified == CountModified(r.files) && r.modified + r.skipped == |r.files|
  }

  function Add(r: Result, changes: seq<FileChange>): Result
    requires r.Report?
  {
    if changes == [] then r
    else if changes[0].modified then r.(files := r.files + changes, modified := r.modified + 1)
    else r.(files := r.files + changes, skipped := r.skipped + 1)
  }

  lemma ConsistentMore(o: Options, files: Files, walk: seq<Path>, i: nat, r: Result)
    requires i < |walk| && Consistent(o, files, walk[..i], r) && Lists(walk, files)
    ensures Consistent(o, files, walk[..i + 1], Add(r, ChangesOf(o, files)(walk[i])))
  {
    FlatMapStep(ChangesOf(o, files), walk, i);
    if Selected(walk[i]) {
      assert (r.files + [Change(o, walk[i], files[walk[i]])])[..|r.files|] == r.files;
    }
  }

  /**
   * A run's report and the files it leaves: those of the entries up to the first that ends the walk, with the list
   * sorted by path if none does.
   */
  ghost predicate Finished(o: Options, dryRun: bool, faults: Path -> Fault, before: Files, walk: seq<Path>, r: Result,
                           after: Files)
    requires Lists(walk, before)
  {
    var n := Reached(o, dryRun, faults, before, walk);
    && (exists raw: Result :: raw.Report? && Consistent(o, before, walk[..n], raw) && r == Final(raw, n < |walk|))
    && after == Left(o, dryRun, before, walk[..n])
  }

  function Final(raw: Result, failed: bool): Result
    requires raw.Report?
  {
    if failed then raw.(failed := true) else raw.(files := SortedByPath(raw.files))
  }

  lemma FinishedAt(o: Options, dryRun: bool, faults: Path -> Fault, before: Files, walk: seq<Path>, i: nat, r: Result,
                   after: Files)
    requires AtEntry(o, dryRun, faults, before, walk, i, r, after)
    requires i < |walk| ==> Stops(o, dryRun, faults, before, walk[i])
    ensures Finished(o, dryRun, faults, before, walk, Final(r, i < |walk|), after)
  {
    ReachedIs(o, dryRun, faults, before, walk, i);
  }

  lemma ReachedIs(o: Options, dryRun: bool, faults: Path -> Fault, files: Files, walk: seq<Path>, i: nat)
    requires i <= |walk| && Lists(walk, files) && NoneStops(o, dryRun, faults, files, walk, i)
    requires i < |walk| ==> Stops(o, dryRun, faults, files, walk[i])
    ensures Reached(o, dryRun, faults, files, walk) == i
  {
  }

  /** No file that was not selected, and no file outside the walk, is touched. */
  lemma OthersUntouched(o: Options, files: Files, done: seq<Path>, p: Path)
    requires p in files && !(p in done && Selected(p))
    ensures p in Rewritten(o, files, done) && Rewritten(o, files, done)[p] == files[p]
  {
  }

  lemma {:induction false} ChangesInWalk(o: Options, files: Files, walk: seq<Path>, change: FileChange)
    requires change in FlatMap(ChangesOf(o, files), walk)
    ensures change.path in walk && change.path in files && Selected(change.path)
    ensures change == Change(o, change.path, files[change.path])
  {
    var n := |walk| - 1;
    if change in FlatMap(ChangesOf(o, files), walk[..n]) {
      ChangesInWalk(o, files, walk[..n], change);
    }
  }

  /** Idempotence over a tree: after a complete write run of settling options, a second run makes no edit. */
  lemma SecondRunMakesNoEdit(o: Options, files: Files, walk: seq<Path>, again: seq<Path>, change: FileChange)
    requires Settling(o) && (forall p :: p in again ==> p in walk)
    requires change in FlatMap(ChangesOf(o, Rewritten(o, files, walk)), again)
    ensures change.edits == [] && !change.modified
  {
    ChangesInWalk(o, Rewritten(o, files, walk), again, change);
    FileTwice(o, files[change.path]);
  }

  lemma SingleChange(o: Options, files: Files, path: Path)
    requires path in files && Selected(path)
    ensures FlatMap(ChangesOf(o, files), [path]) == [Change(o, path, files[path])]
  {
  }

  lemma SecondRunMayEdit(o: Options) returns (files: Files, path: Path)
    requires o.sourceHost != "" && !Settling(o)
    ensures var r := FlatMap(ChangesOf(o, Rewritten(o, files, [path])), [path]); |r| == 1 && r[0].modified
  {
    var c := ChainedFile(o);
    path := Path([], "main.tf");
    files := map[path := c];
    RewrittenAlone(o, files, path);
    SingleChange(o, Rewritten(o, files, [path]), path);
  }

  lemma RewrittenAlone(o: Options, files: Files, path: Path)
    requires path in files && Selected(path)
    ensures path in Rewritten(o, files, [path]) && Rewritten(o, files, [path])[path] == NewContent(o, files[path])
  {
  }

  /** The names that `RewriteFromState` builds map every name to itself, so its rewrites settle whatever the hosts. */
  lemma FromStateSettles(o: Options)
    requires forall n :: n in o.names ==> o.names[n] == n
    ensures Settling(o)
    ensures forall item :: Renamed(o, item) == item
  {
  }

  /** A Terraform file outside the vendor directories. */
  ghost predicate InTree(p: Path) {
    && (forall d :: d in p.dirs ==> d != ".terraform" && d != ".git" && d != "node_modules")
    && exists stem: string :: p.name == stem + ".tf"
  }

  lemma SelectedExactly(p: Path)
    ensures Selected(p) <==> InTree(p)
  {
    if Selected(p) { assert p.name == p.name[..|p.name| - 3] + ".tf"; }
  }

  /** A `cloud` block, or a `backend "remote"` block. */
  predicate CloudOrRemote(item: Item) {
    && item.Block?
    && (item.kind == "cloud" || (item.kind == "backend" && |item.labels| == 1 && item.labels[0] == "remote"))
  }

  /** What becomes of an item of a `terraform` block, and of an item of a file. */
  ghost predicate InnerRewritten(o: Options, was: Item, now: Item) {
    if CloudOrRemote(was) then
      now.Block? && now.kind == was.kind && now.labels == was.labels && BlockRewritten(o, was.body, now.body)
    else now == was
  }

  ghost predicate TopRewritten(o: Options, was: Item, now: Item) {
    if was.Block? && was.kind == "terraform" then
      && now.Block? && now.kind == "terraform" && now.labels == was.labels && |now.body| == |was.body|
      && forall j :: 0 <= j < |was.body| ==> InnerRewritten(o, was.body[j], now.body[j])
    else now == was
  }

  ghost predicate FileRewritten(o: Options, was: Content, now: Content) {
    if was.Unparsable? then now == was else
    && now.Parsed? && |now.body| == |was.body|
    && forall i :: 0 <= i < |was.body| ==> TopRewritten(o, was.body[i], now.body[i])
  }

  lemma InnerIsRewritten(o: Options, item: Item)
    ensures InnerRewritten(o, item, NewInner(o)(item))
  {
    ChosenExactly(item);
    if CloudOrRemote(item) { BlockIsRewritten(o, item.body); }
  }

  lemma FileIsRewritten(o: Options, c: Content)
    ensures FileRewritten(o, c, NewContent(o, c))
  {
    if c.Parsed? {
      forall i | 0 <= i < |c.body| ensures TopRewritten(o, c.body[i], NewTop(o)(c.body[i])) {
        if IsTerraform(c.body[i]) {
          var body := c.body[i].body;
          forall j | 0 <= j < |body| ensures InnerRewritten(o, body[j], NewInner(o)(body[j])) {
            InnerIsRewritten(o, body[j]);
          }
        }
      }
    }
  }

  // ── What is reported ────────────────────────────────────────────────────────

  /** The edits of a block that points at the source: what differs afterwards, under the name of the block's kind. */
  ghost predicate IsEditOf(o: Options, what: What, body: Body, e: Edit) {
    match e
    case AddedHostname(w, now) => w == what && now == o.destHost && Lacks(body, "hostname")
    case Hostname(w, was, now) =>
      w == what && now == o.destHost && was != now
      && exists i: nat :: IsFirst(body, i, "hostname") && StringValue(body[i].expr) == was
    case Organization(w, was) =>
      w == what && OrgGivesWay(o, was)
      && exists i: nat :: IsFirst(body, i, "organization") && StringValue(body[i].expr) == was
    case WorkspaceName(w, was, now) =>
      w == what && NameGivesWay(o.names, was) && now == o.names[was]
      && exists i: nat, j: nat :: NamedAt(body, i, j, was)
  }

  predicate NamedAt(body: Body, i: nat, j: nat, name: string) {
    && i < |body| && body[i].Block? && body[i].kind == "workspaces"
    && IsFirst(body[i].body, j, "name") && StringValue(body[i].body[j].expr) == name
  }

  lemma HostEditsExactly(o: Options, what: What, body: Body, e: Edit)
    ensures e in HostEdits(o, what, body) <==> (e.AddedHostname? || e.Hostname?) && IsEditOf(o, what, body, e)
  {
    var i := FindIsFirst(body, "hostname");
    if e.Hostname? && IsEditOf(o, what, body, e) {
      var k: nat :| IsFirst(body, k, "hostname") && StringValue(body[k].expr) == e.was;
      FirstIsFound(body, k, "hostname");
    }
  }

  lemma OrgEditsExactly(o: Options, what: What, body: Body, e: Edit)
    ensures OrgMoves(o, body) && e == Organization(what, StringValue(Find(body, "organization").value))
            <==> e.Organization? && IsEditOf(o, what, body, e)
  {
    var i := FindIsFirst(body, "organization");
    if e.Organization? && IsEditOf(o, what, body, e) {
      var k: nat :| IsFirst(body, k, "organization") && StringValue(body[k].expr) == e.was;
      FirstIsFound(body, k, "organization");
    }
  }

  lemma RenameEditsExactly(o: Options, what: What, body: Body, e: Edit)
    ensures e in FlatMap(RenameEditor(o, what), body) <==> e.WorkspaceName? && IsEditOf(o, what, body, e)
  {
    FlatMapMembers(RenameEditor(o, what), body, e);
    if i :| 0 <= i < |body| && e in RenameEditor(o, what)(body[i]) {
      var j := FindIsFirst(body[i].body, "name");
      assert NamedAt(body, i, j, e.was);
    }
    if e.WorkspaceName? && IsEditOf(o, what, body, e) {
      var i: nat, j: nat :| NamedAt(body, i, j, e.was);
      FirstIsFound(body[i].body, j, "name");
      assert e in RenameEditor(o, what)(body[i]);
    }
  }

  /** The edits reported of a block are those made, and none of a block that does not point at the source. */
  lemma EditsAreThoseMade(o: Options, what: What, body: Body, e: Edit)
    ensures e in BodyEdits(o, what, body) <==> PointsAt(body, o.sourceHost) && IsEditOf(o, what, body, e)
  {
    GateExactly(o, body);
    HostEditsExactly(o, what, body, e);
    OrgEditsExactly(o, what, body, e);
    RenameEditsExactly(o, what, body, e);
  }

  /** The item at these places is an inner block of a terraform block. */
  predicate InnerAt(c: Content, i: nat, j: nat) {
    c.Parsed? && i < |c.body| && c.body[i].Block? && c.body[i].kind == "terraform" && j < |c.body[i].body|
  }

  predicate EditAt(o: Options, c: Content, i: nat, j: nat, e: Edit) {
    && InnerAt(c, i, j) && CloudOrRemote(c.body[i].body[j])
    && e in BodyEdits(o, if c.body[i].body[j].kind == "cloud" then Cloud else BackendRemote, c.body[i].body[j].body)
  }

  predicate ForeignAt(c: Content, i: nat, j: nat, backend: string) {
    InnerAt(c, i, j) && backend != "remote"
    && c.body[i].body[j].Block? && c.body[i].body[j].kind == "backend" && c.body[i].body[j].labels == [backend]
  }

  lemma ChosenExactly(item: Item)
    ensures Chosen(item) <==> CloudOrRemote(item)
  {
    if CloudOrRemote(item) && item.kind != "cloud" { assert item.labels == ["remote"]; }
  }

  lemma InnerEditsOfOne(o: Options, item: Item)
    ensures InnerEdits(o)(item) == if !CloudOrRemote(item) then []
                                   else BodyEdits(o, if item.kind == "cloud" then Cloud else BackendRemote, item.body)
  {
    ChosenExactly(item);
  }

  lemma InnerEditsExactly(o: Options, c: Content, i: nat, e: Edit)
    requires c.Parsed? && i < |c.body|
    ensures e in TopEdits(o)(c.body[i]) <==> exists j: nat :: EditAt(o, c, i, j, e)
  {
    if IsTerraform(c.body[i]) {
      var body := c.body[i].body;
      FlatMapMembers(InnerEdits(o), body, e);
      if j :| 0 <= j < |body| && e in InnerEdits(o)(body[j]) {
        InnerEditsOfOne(o, body[j]);
        assert EditAt(o, c, i, j, e);
      }
      if j: nat :| EditAt(o, c, i, j, e) {
        InnerEditsOfOne(o, body[j]);
        assert e in InnerEdits(o)(body[j]);
      }
    }
  }

  lemma InnerNotesExactly(c: Content, i: nat, backend: string)
    requires c.Parsed? && i < |c.body|
    ensures ForeignBackend(backend) in TopNotes()(c.body[i]) <==> exists j: nat :: ForeignAt(c, i, j, backend)
    ensures ParseError !in TopNotes()(c.body[i])
  {
    if IsTerraform(c.body[i]) {
      var body := c.body[i].body;
      FlatMapMembers(InnerNotes(), body, ForeignBackend(backend));
      FlatMapMembers(InnerNotes(), body, ParseError);
      forall j: nat | j < |body|
        ensures ForeignBackend(backend) in InnerNotes()(body[j]) <==> ForeignAt(c, i, j, backend)
      {
        if body[j].Block? && |body[j].labels| == 1 { assert body[j].labels == [body[j].labels[0]]; }
      }
    }
  }

  /** The report of a file: the edits of its cloud and remote blocks, its foreign backends, whether it parses. */
  lemma ReportIsOfTheFile(o: Options, c: Content, e: Edit, backend: string)
    ensures e in Edits(o, c) <==> exists i: nat, j: nat :: EditAt(o, c, i, j, e)
    ensures ForeignBackend(backend) in Notes(c) <==> exists i: nat, j: nat :: ForeignAt(c, i, j, backend)
    ensures ParseError in Notes(c) <==> c.Unparsable?
  {
    if c.Parsed? {
      FlatMapMembers(TopEdits(o), c.body, e);
      FlatMapMembers(TopNotes(), c.body, ForeignBackend(backend));
      FlatMapMembers(TopNotes(), c.body, ParseError);
      forall i: nat | i < |c.body|
        ensures e in TopEdits(o)(c.body[i]) <==> exists j: nat :: EditAt(o, c, i, j, e)
        ensures ForeignBackend(backend) in TopNotes()(c.body[i]) <==> exists j: nat :: ForeignAt(c, i, j, backend)
        ensures ParseError !in TopNotes()(c.body[i])
      {
        InnerEditsExactly(o, c, i, e);
        InnerNotesExactly(c, i, backend);
      }
    }
  }

  /** What a complete write run makes of a tree: the Terraform files of the walk are rewritten, all others stay. */
  lemma TreeIsRewritten(o: Options, files: Files, walk: seq<Path>, p: Path)
    requires p in files
    ensures var after := Rewritten(o, files, walk);
            && after.Keys == files.Keys
            && if p in walk && InTree(p) then FileRewritten(o, files[p], after[p]) else after[p] == files[p]
  {
    SelectedExactly(p);
    FileIsRewritten(o, files[p]);
  }

  /** Somewhere in the Terraform files a cloud or remote block points at the host. */
  ghost predicate AnyPointsAt(files: Files, host: string) {
    exists p: Path, i: nat, j: nat :: PointsThere(files, p, i, j, host)
  }

  ghost predicate PointsThere(files: Files, p: Path, i: nat, j: nat, host: string) {
    && p in files && InTree(p) && files[p].Parsed? && i < |files[p].body| && var t := files[p].body[i];
    && t.Block? && t.kind == "terraform" && j < |t.body| && CloudOrRemote(t.body[j]) && PointsAt(t.body[j].body, host)
  }

  lemma PointsThereExactly(files: Files, p: Path, i: nat, j: nat, host: string)
    ensures PointsThere(files, p, i, j, host)
            <==> p in files && Selected(p) && ChosenAt(files[p], i, j) && PointsAt(BlockAt(files[p], i, j), host)
  {
    SelectedExactly(p);
    if p in files && files[p].Parsed? && i < |files[p].body| && IsTerraform(files[p].body[i])
       && j < |files[p].body[i].body| {
      ChosenExactly(files[p].body[i].body[j]);
    }
  }

  /**
   * Completeness: after a complete write run a block still points at the source only if one did before and the
   * destination is the same host; each block that pointed at the source points at the destination.
   */
  lemma NothingPointsAtSource(o: Options, files: Files, walk: seq<Path>)
    requires o.destHost != "" && forall p :: p in files ==> p in walk
    ensures var after := Rewritten(o, files, walk);
            && (AnyPointsAt(after, o.sourceHost)
                <==> EqualFold(o.destHost, o.sourceHost) && AnyPointsAt(files, o.sourceHost))
            && forall p: Path, i: nat, j: nat :: PointsThere(files, p, i, j, o.sourceHost) ==>
                 PointsThere(after, p, i, j, o.destHost)
  {
    var after := Rewritten(o, files, walk);
    forall p: Path, i: nat, j: nat
      ensures PointsThere(files, p, i, j, o.sourceHost) ==> PointsThere(after, p, i, j, o.destHost)
      ensures PointsThere(after, p, i, j, o.sourceHost)
              <==> EqualFold(o.destHost, o.sourceHost) && PointsThere(files, p, i, j, o.sourceHost)
    {
      BlockMoves(o, files, walk, p, i, j);
    }
    if AnyPointsAt(after, o.sourceHost) {
      var p: Path, i: nat, j: nat :| PointsThere(after, p, i, j, o.sourceHost);
      assert PointsThere(files, p, i, j, o.sourceHost);
    }
    if EqualFold(o.destHost, o.sourceHost) && AnyPointsAt(files, o.sourceHost) {
      var p: Path, i: nat, j: nat :| PointsThere(files, p, i, j, o.sourceHost);
      assert PointsThere(after, p, i, j, o.sourceHost);
    }
  }

  lemma BlockMoves(o: Options, files: Files, walk: seq<Path>, p: Path, i: nat, j: nat)
    requires o.destHost != "" && forall p :: p in files ==> p in walk
    ensures var after := Rewritten(o, files, walk);
            && (PointsThere(files, p, i, j, o.sourceHost) ==> PointsThere(after, p, i, j, o.destHost))
            && (PointsThere(after, p, i, j, o.sourceHost)
                <==> EqualFold(o.destHost, o.sourceHost) && PointsThere(files, p, i, j, o.sourceHost))
  {
    var after := Rewritten(o, files, walk);
    PointsThereExactly(files, p, i, j, o.sourceHost);
    PointsThereExactly(after, p, i, j, o.sourceHost);
    PointsThereExactly(after, p, i, j, o.destHost);
    if p in files && Selected(p) && files[p].Parsed? {
      FileFrame(o, files[p], i, j);
      if ChosenAt(files[p], i, j) { Retargeted(o, BlockAt(files[p], i, j)); }
    }
  }
}
