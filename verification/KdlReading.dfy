/**
 * What the KDL reader makes of any document, said of its nodes: which entries it defines, with
 * which fields, and when it is refused.
 */
module KdlReading {
  import opened Toml
  import opened Assembly
  import opened Hcl
  import opened Kdl
  import opened Completion
  import opened KdlValues

  /** The kinds of children that define an entry of their own. */
  datatype Def = UpstreamDef | PluginDef | LocationDef | CertificateDef

  predicate Called(n: Node, one: string, many: string) {
    n.name == one || n.name == many
  }

  /** A child with a block, or for a plugin with properties, is a definition. */
  predicate IsDef(n: Node, d: Def) {
    match d
    case UpstreamDef => Called(n, "upstream", "upstreams") && n.children.Nested?
    case PluginDef => Called(n, "plugin", "plugins") && (n.children.Nested? || n.props != map[])
    case LocationDef => Called(n, "location", "locations") && n.children.Nested?
    case CertificateDef => Called(n, "certificate", "certificates") && n.children.Nested?
  }

  /** The text of a first argument. */
  function NameText(v: Value): string {
    match v
    case Str(s) => s
    case Bool(b) => if b then "true" else "false"
    case Int(i) => Decimal(i)
    case _ => ""
  }

  predicate Defs(n: Node, d: Def, s: string) {
    IsDef(n, d) && n.args != [] && NameText(n.args[0]) == s
  }

  ghost predicate Holds(nodes: seq<Node>, d: Def, s: string) {
    exists i :: 0 <= i < |nodes| && Defs(nodes[i], d, s)
  }

  /** The names of the definitions of one kind, one by one in order. */
  ghost predicate NamesAt(nodes: seq<Node>, d: Def, names: seq<string>, at: seq<nat>) {
    && |at| == |names| && (forall i, j :: 0 <= i < j < |at| ==> at[i] < at[j])
    && (forall i :: 0 <= i < |at| ==> at[i] < |nodes| && Defs(nodes[at[i]], d, names[i]))
    && (forall j: nat, s :: j < |nodes| && Defs(nodes[j], d, s) ==> j in at)
  }

  ghost predicate AreNames(nodes: seq<Node>, d: Def, names: seq<string>) {
    exists at :: NamesAt(nodes, d, names, at)
  }

  /** The fields of the last definition of a name. */
  ghost predicate LastDef(nodes: seq<Node>, d: Def, s: string, v: Value) {
    exists i :: 0 <= i < |nodes| && Defs(nodes[i], d, s) && (forall j :: i < j < |nodes| ==> !Defs(nodes[j], d, s)) &&
      v == Table(NodeFields(nodes[i]))
  }

  // ---- names and tables -----------------------------------------------------------------

  function DefNames(nodes: seq<Node>, d: Def): seq<string> {
    if nodes == [] then []
    else
      (if IsDef(nodes[0], d) && nodes[0].args != [] then [NameText(nodes[0].args[0])] else []) +
      DefNames(nodes[1..], d)
  }

  ghost predicate LaterNames(nodes: seq<Node>, d: Def, names: seq<string>, at: seq<nat>) {
    && |at| == |names| && (forall i, j :: 0 <= i < j < |at| ==> at[i] < at[j])
    && (forall i :: 0 <= i < |at| ==> 0 < at[i] < |nodes| && Defs(nodes[at[i]], d, names[i]))
    && (forall j: nat, s :: 0 < j < |nodes| && Defs(nodes[j], d, s) ==> j in at)
  }

  lemma NamesShifted(nodes: seq<Node>, d: Def, names: seq<string>, rest: seq<nat>, at: seq<nat>)
    requires nodes != [] && NamesAt(nodes[1..], d, names, rest)
    requires |at| == |rest| && forall i :: 0 <= i < |rest| ==> at[i] == rest[i] + 1
    ensures LaterNames(nodes, d, names, at)
  {
    forall i | 0 <= i < |at| ensures 0 < at[i] < |nodes| && Defs(nodes[at[i]], d, names[i]) {
      assert nodes[1..][rest[i]] == nodes[at[i]];
    }
    forall j: nat, s | 0 < j < |nodes| && Defs(nodes[j], d, s) ensures j in at {
      assert nodes[1..][j - 1] == nodes[j];
      var i :| 0 <= i < |rest| && rest[i] == j - 1;
      assert at[i] == j;
    }
  }

  lemma NamesFirst(nodes: seq<Node>, d: Def, s: string, names: seq<string>, at: seq<nat>)
    requires nodes != [] && Defs(nodes[0], d, s) && LaterNames(nodes, d, names, at)
    ensures NamesAt(nodes, d, [s] + names, [0] + at)
  {
    var all, texts := [0] + at, [s] + names;
    forall i | 0 <= i < |all| ensures all[i] < |nodes| && Defs(nodes[all[i]], d, texts[i]) {
      if i > 0 { assert all[i] == at[i - 1] && texts[i] == names[i - 1]; }
    }
    forall j: nat, x | j < |nodes| && Defs(nodes[j], d, x) ensures j in all {
      if j == 0 { assert all[0] == 0; } else { assert j in at; }
    }
  }

  lemma NamesSkip(nodes: seq<Node>, d: Def, names: seq<string>, at: seq<nat>)
    requires nodes != [] && !(IsDef(nodes[0], d) && nodes[0].args != []) && LaterNames(nodes, d, names, at)
    ensures NamesAt(nodes, d, names, at)
  {
    forall j: nat, s | j < |nodes| && Defs(nodes[j], d, s) ensures j in at {}
  }

  lemma NamesNext(nodes: seq<Node>, d: Def, names: seq<string>, rest: seq<nat>) returns (at: seq<nat>)
    requires nodes != [] && NamesAt(nodes[1..], d, names, rest)
    ensures var first := if IsDef(nodes[0], d) && nodes[0].args != [] then [NameText(nodes[0].args[0])] else [];
            NamesAt(nodes, d, first + names, at)
  {
    at := seq(|rest|, i requires 0 <= i < |rest| => rest[i] + 1);
    NamesShifted(nodes, d, names, rest, at);
    if IsDef(nodes[0], d) && nodes[0].args != [] {
      NamesFirst(nodes, d, NameText(nodes[0].args[0]), names, at);
      at := [0] + at;
    } else {
      NamesSkip(nodes, d, names, at);
      assert [] + names == names;
    }
  }

  lemma {:induction false} NamesPicked(nodes: seq<Node>, d: Def) returns (at: seq<nat>)
    ensures NamesAt(nodes, d, DefNames(nodes, d), at)
  {
    if nodes == [] {
      at := [];
    } else {
      var rest := NamesPicked(nodes[1..], d);
      at := NamesNext(nodes, d, DefNames(nodes[1..], d), rest);
    }
  }

  lemma NamesAre(nodes: seq<Node>, d: Def)
    ensures AreNames(nodes, d, DefNames(nodes, d))
  {
    var at := NamesPicked(nodes, d);
  }

  /** The last definition of a name. */
  function DefTable(nodes: seq<Node>, d: Def, s: string): Option<Value> {
    if nodes == [] then None
    else if DefTable(nodes[1..], d, s).Some? then DefTable(nodes[1..], d, s)
    else if Defs(nodes[0], d, s) then Some(Table(NodeFields(nodes[0])))
    else None
  }

  lemma HoldsNext(nodes: seq<Node>, d: Def, s: string)
    requires nodes != []
    ensures Holds(nodes, d, s) <==> Defs(nodes[0], d, s) || Holds(nodes[1..], d, s)
  {
    if i :| 0 <= i < |nodes| && Defs(nodes[i], d, s) {
      if i > 0 { assert nodes[1..][i - 1] == nodes[i]; }
    }
    if i :| 0 <= i < |nodes[1..]| && Defs(nodes[1..][i], d, s) {
      assert nodes[i + 1] == nodes[1..][i];
    }
  }

  lemma LastDefNext(nodes: seq<Node>, d: Def, s: string, v: Value)
    requires nodes != []
    requires LastDef(nodes[1..], d, s, v) ||
             (Defs(nodes[0], d, s) && !Holds(nodes[1..], d, s) && v == Table(NodeFields(nodes[0])))
    ensures LastDef(nodes, d, s, v)
  {
    var rest := nodes[1..];
    if LastDef(rest, d, s, v) {
      var i :| 0 <= i < |rest| && Defs(rest[i], d, s) && (forall j :: i < j < |rest| ==> !Defs(rest[j], d, s))
            && v == Table(NodeFields(rest[i]));
      forall j | i + 1 < j < |nodes| ensures !Defs(nodes[j], d, s) { assert nodes[j] == rest[j - 1]; }
      assert nodes[i + 1] == rest[i];
    } else {
      forall j | 0 < j < |nodes| ensures !Defs(nodes[j], d, s) { assert nodes[j] == rest[j - 1]; }
    }
  }

  lemma {:induction false} DefTableIs(nodes: seq<Node>, d: Def, s: string)
    ensures DefTable(nodes, d, s).Some? <==> Holds(nodes, d, s)
    ensures DefTable(nodes, d, s).Some? ==> LastDef(nodes, d, s, DefTable(nodes, d, s).value)
  {
    if nodes != [] {
      DefTableIs(nodes[1..], d, s);
      HoldsNext(nodes, d, s);
      if DefTable(nodes, d, s).Some? { LastDefNext(nodes, d, s, DefTable(nodes, d, s).value); }
    }
  }

  // ---- references -----------------------------------------------------------------------

  /** Fields a reference sets outright, in a location or in a server. */
  predicate RoleName(a: string, server: bool) {
    || a == "plugin" || a == "plugins"
    || (if server then a == "location" || a == "locations" || a == "certificate" || a == "certificates"
        else a == "upstream" || a == "upstreams")
  }

  /** A child that is a reference, and what it sets. */
  ghost predicate Refers(n: Node, a: string, v: Value, server: bool) {
    && n.children.Childless?
    && if Called(n, "plugin", "plugins") then n.props == map[] && a == "plugins" && v == Arr(n.args)
       else if server && Called(n, "location", "locations") then a == "locations" && v == Arr(n.args)
       else
         && (if server then Called(n, "certificate", "certificates") else Called(n, "upstream", "upstreams"))
         && a == n.name && ChildMeans(n, v)
  }

  /** The last reference to a field, if there is one. */
  ghost predicate LastRef(nodes: seq<Node>, a: string, server: bool, r: Option<Value>) {
    if r.None? then forall i, v :: 0 <= i < |nodes| ==> !Refers(nodes[i], a, v, server)
    else exists i :: 0 <= i < |nodes| && Refers(nodes[i], a, r.value, server) &&
           forall j, v :: i < j < |nodes| ==> !Refers(nodes[j], a, v, server)
  }

  /** A field of a location or server before its references are completed. */
  ghost predicate OwnField(n: Node, a: string, server: bool, r: Option<Value>) {
    if !RoleName(a, server) then FieldMeans(n.props, ChildrenOf(n), a, r)
    else exists last :: LastRef(ChildrenOf(n), a, server, last) &&
           r == if last.Some? then last else PropertyValue(n.props, a)
  }

  function RefOf(n: Node, a: string, server: bool): Option<Value> {
    if !n.children.Childless? then None
    else if Called(n, "plugin", "plugins") then (if n.props == map[] && a == "plugins" then Some(Arr(n.args)) else None)
    else if server && Called(n, "location", "locations") then (if a == "locations" then Some(Arr(n.args)) else None)
    else if (if server then Called(n, "certificate", "certificates") else Called(n, "upstream", "upstreams"))
            && a == n.name then Some(ChildValue(n))
    else None
  }

  lemma RefIs(n: Node, a: string, server: bool)
    ensures RefOf(n, a, server).Some? ==> Refers(n, a, RefOf(n, a, server).value, server)
    ensures RefOf(n, a, server).None? ==> forall v :: !Refers(n, a, v, server)
  {
    NodeMeans(n);
  }

  function LastRefOf(nodes: seq<Node>, a: string, server: bool): Option<Value> {
    if nodes == [] then None
    else if LastRefOf(nodes[1..], a, server).Some? then LastRefOf(nodes[1..], a, server)
    else RefOf(nodes[0], a, server)
  }

  lemma {:induction false} LastRefIs(nodes: seq<Node>, a: string, server: bool)
    ensures LastRef(nodes, a, server, LastRefOf(nodes, a, server))
  {
    if nodes != [] {
      var rest := nodes[1..];
      LastRefIs(rest, a, server);
      RefIs(nodes[0], a, server);
      LastRefNext(nodes, a, server, LastRefOf(rest, a, server), RefOf(nodes[0], a, server));
    }
  }

  lemma LastRefNext(nodes: seq<Node>, a: string, server: bool, later: Option<Value>, first: Option<Value>)
    requires nodes != [] && LastRef(nodes[1..], a, server, later)
    requires first.Some? ==> Refers(nodes[0], a, first.value, server)
    requires first.None? ==> forall v :: !Refers(nodes[0], a, v, server)
    ensures LastRef(nodes, a, server, if later.Some? then later else first)
  {
    var rest := nodes[1..];
    forall j | 0 < j < |nodes| ensures nodes[j] == rest[j - 1] {}
    if later.Some? {
      var i :| 0 <= i < |rest| && Refers(rest[i], a, later.value, server) &&
               forall j, v :: i < j < |rest| ==> !Refers(rest[j], a, v, server);
      assert Refers(nodes[i + 1], a, later.value, server);
    } else if first.Some? {
      assert Refers(nodes[0], a, first.value, server);
    }
  }
}
