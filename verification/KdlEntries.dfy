/** The entries a KDL document defines, node by node, and when it is refused. */
module KdlEntries {
  import opened Toml
  import opened Assembly
  import opened Hcl
  import opened Kdl
  import opened Completion
  import opened KdlValues
  import opened KdlReading

  lemma NameIs(n: Node)
    ensures NameArg(n) == if n.args == [] then Err else Ok(NameText(n.args[0]))
  {}

  // ---- roles ----------------------------------------------------------------------------

  /** A definition, by role. */
  predicate Defining(n: Node, role: Role) {
    RoleOf(n.name) == role && if role.PluginRole? then IsPluginDefinition(n) else IsBlock(n)
  }

  lemma RoleDefs(n: Node)
    ensures IsDef(n, UpstreamDef) <==> Defining(n, UpstreamRole)
    ensures IsDef(n, PluginDef) <==> Defining(n, PluginRole)
    ensures IsDef(n, LocationDef) <==> Defining(n, LocationRole)
    ensures IsDef(n, CertificateDef) <==> Defining(n, CertificateRole)
  {}

  /** The roles that set their field outright. */
  predicate Setting(role: Role, server: bool) {
    role.PluginRole? || (if server then role.LocationRole? || role.CertificateRole? else role.UpstreamRole?)
  }

  /** One field after one child, by role. */
  function NextByRole(was: Option<Value>, n: Node, a: string, server: bool): Option<Value> {
    var role := RoleOf(n.name);
    if !Setting(role, server) then (if n.name == a then Put(was, NodeValue(n)) else was)
    else if Defining(n, role) then was
    else
      match role
      case PluginRole => if a == PLUGINS then Some(Arr(n.args)) else was
      case LocationRole => if a == LOCATIONS then Some(Arr(n.args)) else was
      case _ => if a == n.name then Some(ChildValue(n)) else was
  }

  lemma SettingNames(n: Node, server: bool)
    ensures RoleName(n.name, server) <==> Setting(RoleOf(n.name), server)
  {}

  lemma RefByRole(n: Node, a: string, server: bool)
    ensures var role := RoleOf(n.name);
            RefOf(n, a, server) ==
            if !Setting(role, server) || n.children.Nested? then None
            else if role.PluginRole? then (if n.props == map[] && a == PLUGINS then Some(Arr(n.args)) else None)
            else if role.LocationRole? then (if a == LOCATIONS then Some(Arr(n.args)) else None)
            else if a == n.name then Some(ChildValue(n)) else None
  {}

  lemma NextIs(was: Option<Value>, n: Node, a: string, server: bool)
    ensures NextField(was, n, a, server) == NextByRole(was, n, a, server)
  {
    SettingNames(n, server);
    RefByRole(n, a, server);
    assert RoleName(PLUGINS, server) && (server ==> RoleName(LOCATIONS, server));
    if a == n.name {
    } else if !RoleName(a, server) {
      assert RefOf(n, a, server).None?;
    }
  }

  // ---- locations ------------------------------------------------------------------------

  /** Every definition in a location has a name. */
  predicate LocationNamed(nodes: seq<Node>) {
    forall n <- nodes :: IsDef(n, UpstreamDef) || IsDef(n, PluginDef) ==> n.args != []
  }

  /** One field after one child. */
  function NextField(was: Option<Value>, n: Node, a: string, server: bool): Option<Value> {
    if RoleName(a, server) then (if RefOf(n, a, server).Some? then RefOf(n, a, server) else was)
    else if n.name == a then Put(was, NodeValue(n))
    else was
  }

  lemma OneName(n: Node, d: Def)
    ensures DefNames([n], d) == if IsDef(n, d) && n.args != [] then [NameText(n.args[0])] else []
  {
    assert [n][1..] == [];
  }

  lemma LocationChildErrIff(s: Reading, n: Node)
    ensures LocationChild(s, n).Err? <==> (IsDef(n, UpstreamDef) || IsDef(n, PluginDef)) && n.args == []
  {
    NameIs(n);
    RoleDefs(n);
  }

  lemma LocationChildNames(s: Reading, n: Node)
    requires LocationChild(s, n).Ok?
    ensures LocationChild(s, n).value.upstreamNames == s.upstreamNames + DefNames([n], UpstreamDef)
    ensures LocationChild(s, n).value.pluginNames == s.pluginNames + DefNames([n], PluginDef)
  {
    NameIs(n);
    RoleDefs(n);
    OneName(n, UpstreamDef);
    OneName(n, PluginDef);
  }

  lemma LocationChildTables(s: Reading, n: Node, x: string)
    requires LocationChild(s, n).Ok?
    ensures Field(LocationChild(s, n).value.upstreams, x) ==
            if Defs(n, UpstreamDef, x) then Some(Table(NodeFields(n))) else Field(s.upstreams, x)
    ensures Field(LocationChild(s, n).value.plugins, x) ==
            if Defs(n, PluginDef, x) then Some(Table(NodeFields(n))) else Field(s.plugins, x)
  {
    NameIs(n);
    RoleDefs(n);
  }

  lemma LocationField(s: Reading, n: Node, a: string)
    requires LocationChild(s, n).Ok?
    ensures Field(LocationChild(s, n).value.fields, a) == NextField(Field(s.fields, a), n, a, false)
  {
    NextIs(Field(s.fields, a), n, a, false);
    LocationByRole(s, n, a);
  }

  lemma LocationByRole(s: Reading, n: Node, a: string)
    requires LocationChild(s, n).Ok?
    ensures Field(LocationChild(s, n).value.fields, a) == NextByRole(Field(s.fields, a), n, a, false)
  {}

  /** One field after all children. */
  function LastField(was: Option<Value>, nodes: seq<Node>, a: string, server: bool): Option<Value> {
    if RoleName(a, server) then (if LastRefOf(nodes, a, server).Some? then LastRefOf(nodes, a, server) else was)
    else PutAll(was, ValuesIn(nodes, a))
  }

  lemma LastFieldNext(was: Option<Value>, nodes: seq<Node>, a: string, server: bool)
    requires nodes != []
    ensures LastField(was, nodes, a, server) ==
            LastField(NextField(was, nodes[0], a, server), nodes[1..], a, server)
  {
    if !RoleName(a, server) {
      if nodes[0].name == a {
        assert ValuesIn(nodes, a)[1..] == ValuesIn(nodes[1..], a);
      } else {
        assert ValuesIn(nodes, a) == ValuesIn(nodes[1..], a);
      }
    }
  }

  lemma NamesCons(nodes: seq<Node>, d: Def)
    requires nodes != []
    ensures DefNames(nodes, d) == DefNames([nodes[0]], d) + DefNames(nodes[1..], d)
  {
    OneName(nodes[0], d);
  }

  lemma {:induction false} LocationErrIff(s: Reading, nodes: seq<Node>)
    ensures LocationChildren(s, nodes).Ok? <==> LocationNamed(nodes)
    decreases |nodes|
  {
    if nodes != [] {
      LocationChildErrIff(s, nodes[0]);
      assert nodes == [nodes[0]] + nodes[1..];
      if LocationChild(s, nodes[0]).Ok? { LocationErrIff(LocationChild(s, nodes[0]).value, nodes[1..]); }
    }
  }

  lemma {:induction false} LocationNames(s: Reading, nodes: seq<Node>)
    requires LocationChildren(s, nodes).Ok?
    ensures LocationChildren(s, nodes).value.upstreamNames == s.upstreamNames + DefNames(nodes, UpstreamDef)
    ensures LocationChildren(s, nodes).value.pluginNames == s.pluginNames + DefNames(nodes, PluginDef)
    decreases |nodes|
  {
    if nodes != [] {
      LocationChildNames(s, nodes[0]);
      LocationNames(LocationChild(s, nodes[0]).value, nodes[1..]);
      NamesCons(nodes, UpstreamDef);
      NamesCons(nodes, PluginDef);
    }
  }

  lemma {:induction false} LocationTables(s: Reading, nodes: seq<Node>, x: string)
    requires LocationChildren(s, nodes).Ok?
    ensures var t, u := LocationChildren(s, nodes).value, DefTable(nodes, UpstreamDef, x);
            Field(t.upstreams, x) == if u.Some? then u else Field(s.upstreams, x)
    ensures var t, p := LocationChildren(s, nodes).value, DefTable(nodes, PluginDef, x);
            Field(t.plugins, x) == if p.Some? then p else Field(s.plugins, x)
    decreases |nodes|
  {
    if nodes != [] {
      LocationChildTables(s, nodes[0], x);
      LocationTables(LocationChild(s, nodes[0]).value, nodes[1..], x);
    }
  }

  lemma {:induction false} LocationLastField(s: Reading, nodes: seq<Node>, a: string)
    requires LocationChildren(s, nodes).Ok?
    ensures Field(LocationChildren(s, nodes).value.fields, a) == LastField(Field(s.fields, a), nodes, a, false)
    decreases |nodes|
  {
    if nodes != [] {
      LocationField(s, nodes[0], a);
      LocationLastField(LocationChild(s, nodes[0]).value, nodes[1..], a);
      LastFieldNext(Field(s.fields, a), nodes, a, false);
    }
  }

  /** A field of a location or server, from the inline property and all children. */
  lemma OwnFieldIs(n: Node, a: string, server: bool)
    ensures OwnField(n, a, server, LastField(Field(Inlined(n.props), a), ChildrenOf(n), a, server))
  {
    InlinedIs(n.props, a);
    if RoleName(a, server) {
      LastRefIs(ChildrenOf(n), a, server);
    } else {
      GatherAll(PropertyValue(n.props, a), ValuesIn(ChildrenOf(n), a));
      var at := ValuesAre(ChildrenOf(n), a);
    }
  }

  ghost predicate OwnFields(n: Node, fields: Fields, server: bool) {
    forall a :: OwnField(n, a, server, Field(fields, a))
  }

  /**
   * The fields of a location: its own, an `upstream` that is not given from the first upstream
   * defined in it, and `plugins` completed by the plugins defined in it.
   */
  ghost predicate LocationMeans(n: Node, fields: Fields) {
    exists own: Fields, mid: Fields, us, ps ::
      && OwnFields(n, own, false)
      && AreNames(ChildrenOf(n), UpstreamDef, us) && AreNames(ChildrenOf(n), PluginDef, ps)
      && UpstreamGiven(own, mid, us) && Completes(mid, fields, "plugins", ps)
  }

  lemma LocationFields(n: Node)
    requires ParseLocationNode(n).Ok?
    ensures LocationMeans(n, ParseLocationNode(n).value.location)
  {
    var nodes := ChildrenOf(n);
    var t := LocationChildren(Start(n), nodes).value;
    LocationNames(Start(n), nodes);
    var us, ps := DefNames(nodes, UpstreamDef), DefNames(nodes, PluginDef);
    assert t.upstreamNames == us && t.pluginNames == ps;
    NamesAre(nodes, UpstreamDef);
    NamesAre(nodes, PluginDef);
    forall a ensures OwnField(n, a, false, Field(t.fields, a)) {
      LocationLastField(Start(n), nodes, a);
      OwnFieldIs(n, a, false);
    }
    assert OwnFields(n, t.fields, false);
    UpstreamIsGiven(t.fields, us);
    ListCompletes(WithUpstream(t.fields, us), "plugins", ps);
  }

  lemma LocationUpstreams(n: Node, x: string)
    requires ParseLocationNode(n).Ok?
    ensures var upstreams := ParseLocationNode(n).value.upstreams;
            && (x in upstreams <==> Holds(ChildrenOf(n), UpstreamDef, x))
            && (x in upstreams ==> LastDef(ChildrenOf(n), UpstreamDef, x, upstreams[x]))
  {
    LocationTables(Start(n), ChildrenOf(n), x);
    DefTableIs(ChildrenOf(n), UpstreamDef, x);
  }

  lemma LocationPlugins(n: Node, x: string)
    requires ParseLocationNode(n).Ok?
    ensures var plugins := ParseLocationNode(n).value.plugins;
            && (x in plugins <==> Holds(ChildrenOf(n), PluginDef, x))
            && (x in plugins ==> LastDef(ChildrenOf(n), PluginDef, x, plugins[x]))
  {
    LocationTables(Start(n), ChildrenOf(n), x);
    DefTableIs(ChildrenOf(n), PluginDef, x);
  }

  /** What a location reads as: its own fields, and every named upstream and plugin defined in it. */
  lemma LocationNodeReads(n: Node, x: string)
    ensures ParseLocationNode(n).Ok? <==> LocationNamed(ChildrenOf(n))
    ensures ParseLocationNode(n).Ok? ==>
              var p := ParseLocationNode(n).value;
              && LocationMeans(n, p.location)
              && (x in p.upstreams <==> Holds(ChildrenOf(n), UpstreamDef, x))
              && (x in p.upstreams ==> LastDef(ChildrenOf(n), UpstreamDef, x, p.upstreams[x]))
              && (x in p.plugins <==> Holds(ChildrenOf(n), PluginDef, x))
              && (x in p.plugins ==> LastDef(ChildrenOf(n), PluginDef, x, p.plugins[x]))
  {
    LocationErrIff(Start(n), ChildrenOf(n));
    if ParseLocationNode(n).Ok? {
      LocationFields(n);
      LocationUpstreams(n, x);
      LocationPlugins(n, x);
    }
  }

  // ---- servers --------------------------------------------------------------------------

  /** Every definition in a server, and in a location of it, has a name. */
  predicate ServerNamed(nodes: seq<Node>) {
    forall n <- nodes :: ServerChildNamed(n)
  }

  predicate ServerChildNamed(n: Node) {
    && (IsDef(n, LocationDef) || IsDef(n, PluginDef) || IsDef(n, CertificateDef) ==> n.args != [])
    && (IsDef(n, LocationDef) ==> LocationNamed(ChildrenOf(n)))
  }

  /** A child of a server defines an entry: itself, or an upstream or plugin of a location. */
  ghost predicate Within(n: Node, c: Category, x: string) {
    match c
    case Location => Defs(n, LocationDef, x)
    case Certificate => Defs(n, CertificateDef, x)
    case Upstream => IsDef(n, LocationDef) && Holds(ChildrenOf(n), UpstreamDef, x)
    case Plugin => Defs(n, PluginDef, x) || (IsDef(n, LocationDef) && Holds(ChildrenOf(n), PluginDef, x))
    case _ => false
  }

  ghost predicate WithinAs(n: Node, c: Category, x: string, v: Value) {
    match c
    case Location => v.Table? && LocationMeans(n, v.entries)
    case Certificate => v == Table(NodeFields(n))
    case Upstream => LastDef(ChildrenOf(n), UpstreamDef, x, v)
    case Plugin => if Defs(n, PluginDef, x) then v == Table(NodeFields(n)) else LastDef(ChildrenOf(n), PluginDef, x, v)
    case _ => false
  }

  ghost predicate ServerDefines(nodes: seq<Node>, c: Category, x: string) {
    exists i :: 0 <= i < |nodes| && Within(nodes[i], c, x)
  }

  /** As the last of its children that defines the entry does. */
  ghost predicate ServerDefinesAs(nodes: seq<Node>, c: Category, x: string, v: Value) {
    exists i :: 0 <= i < |nodes| && Within(nodes[i], c, x) && WithinAs(nodes[i], c, x, v) &&
      (forall j :: i < j < |nodes| ==> !Within(nodes[j], c, x))
  }

  function PartOf(s: Reading, c: Category): Fields {
    match c
    case Location => s.locations
    case Upstream => s.upstreams
    case Plugin => s.plugins
    case Certificate => s.certificates
    case _ => map[]
  }

  /** What one child of a server defines. */
  function Head(n: Node, c: Category, x: string): Option<Value>
    requires ServerChildNamed(n)
  {
    if IsDef(n, LocationDef) then
      LocationErrIff(Start(n), ChildrenOf(n));
      var p := ParseLocationNode(n).value;
      match c
      case Location => if NameText(n.args[0]) == x then Some(Table(p.location)) else None
      case Upstream => Field(p.upstreams, x)
      case Plugin => Field(p.plugins, x)
      case _ => None
    else if (c.Plugin? && Defs(n, PluginDef, x)) || (c.Certificate? && Defs(n, CertificateDef, x))
    then Some(Table(NodeFields(n)))
    else None
  }

  lemma HeadMeans(n: Node, c: Category, x: string)
    requires ServerChildNamed(n)
    ensures Head(n, c, x).Some? <==> Within(n, c, x)
    ensures Head(n, c, x).Some? ==> WithinAs(n, c, x, Head(n, c, x).value)
  {
    RoleDefs(n);
    match c
    case Location => if IsDef(n, LocationDef) { LocationNodeReads(n, x); }
    case Upstream => if IsDef(n, LocationDef) { LocationNodeReads(n, x); }
    case Plugin => if IsDef(n, LocationDef) { LocationNodeReads(n, x); }
    case _ =>
  }

  lemma LocationPart(s: Reading, n: Node, c: Category, x: string)
    requires Defining(n, LocationRole) && ServerChildNamed(n) && ServerChild(s, n).Ok?
    ensures Field(PartOf(ServerChild(s, n).value, c), x) ==
            if Head(n, c, x).Some? then Head(n, c, x) else Field(PartOf(s, c), x)
  {
    NameIs(n);
    RoleDefs(n);
    LocationErrIff(Start(n), ChildrenOf(n));
  }

  lemma PluginPart(s: Reading, n: Node, c: Category, x: string)
    requires Defining(n, PluginRole) && ServerChildNamed(n) && ServerChild(s, n).Ok?
    ensures Field(PartOf(ServerChild(s, n).value, c), x) ==
            if Head(n, c, x).Some? then Head(n, c, x) else Field(PartOf(s, c), x)
  {
    NameIs(n);
    RoleDefs(n);
    assert ServerChild(s, n).value == s.(plugins := s.plugins[NameArg(n).value := Table(NodeFields(n))]);
  }

  lemma CertificatePart(s: Reading, n: Node, c: Category, x: string)
    requires Defining(n, CertificateRole) && ServerChildNamed(n) && ServerChild(s, n).Ok?
    ensures Field(PartOf(ServerChild(s, n).value, c), x) ==
            if Head(n, c, x).Some? then Head(n, c, x) else Field(PartOf(s, c), x)
  {
    NameIs(n);
    RoleDefs(n);
    assert ServerChild(s, n).value == s.(certificates := s.certificates[NameArg(n).value := Table(NodeFields(n))]);
  }

  lemma NoPart(s: Reading, n: Node, c: Category, x: string)
    requires !Defining(n, LocationRole) && !Defining(n, PluginRole) && !Defining(n, CertificateRole)
    requires ServerChildNamed(n) && ServerChild(s, n).Ok?
    ensures PartOf(ServerChild(s, n).value, c) == PartOf(s, c) && Head(n, c, x).None?
  {
    RoleDefs(n);
  }

  lemma ServerPart(s: Reading, n: Node, c: Category, x: string)
    requires ServerChildNamed(n) && ServerChild(s, n).Ok?
    ensures Field(PartOf(ServerChild(s, n).value, c), x) ==
            if Head(n, c, x).Some? then Head(n, c, x) else Field(PartOf(s, c), x)
  {
    if Defining(n, LocationRole) {
      LocationPart(s, n, c, x);
    } else if Defining(n, PluginRole) {
      PluginPart(s, n, c, x);
    } else if Defining(n, CertificateRole) {
      CertificatePart(s, n, c, x);
    } else {
      NoPart(s, n, c, x);
    }
  }

  lemma ServerField(s: Reading, n: Node, a: string)
    requires ServerChild(s, n).Ok?
    ensures Field(ServerChild(s, n).value.fields, a) == NextField(Field(s.fields, a), n, a, true)
  {
    NextIs(Field(s.fields, a), n, a, true);
    ServerByRole(s, n, a);
  }

  lemma ServerByRole(s: Reading, n: Node, a: string)
    requires ServerChild(s, n).Ok?
    ensures Field(ServerChild(s, n).value.fields, a) == NextByRole(Field(s.fields, a), n, a, true)
  {
    var t, role := ServerChild(s, n).value, RoleOf(n.name);
    if Setting(role, true) && Defining(n, role) {
      assert t.fields == s.fields;
    } else if role.PluginRole? {
      assert t.fields == s.fields[PLUGINS := Arr(n.args)];
    } else if role.LocationRole? {
      assert t.fields == s.fields[LOCATIONS := Arr(n.args)];
    } else if role.CertificateRole? {
      assert t.fields == s.fields[n.name := ChildValue(n)];
    } else {
      assert t == PlainChild(s, n);
    }
  }

  lemma ServerChildErrIff(s: Reading, n: Node)
    ensures ServerChild(s, n).Ok? <==> ServerChildNamed(n)
  {
    NameIs(n);
    LocationErrIff(Start(n), ChildrenOf(n));
  }

  lemma ServerChildNames(s: Reading, n: Node)
    requires ServerChild(s, n).Ok?
    ensures ServerChild(s, n).value.locationNames == s.locationNames + DefNames([n], LocationDef)
  {
    NameIs(n);
    RoleDefs(n);
    OneName(n, LocationDef);
  }

  lemma {:induction false} ServerErrIff(s: Reading, nodes: seq<Node>)
    ensures ServerChildren(s, nodes).Ok? <==> ServerNamed(nodes)
    decreases |nodes|
  {
    if nodes != [] {
      ServerChildErrIff(s, nodes[0]);
      assert nodes == [nodes[0]] + nodes[1..];
      if ServerChild(s, nodes[0]).Ok? { ServerErrIff(ServerChild(s, nodes[0]).value, nodes[1..]); }
    }
  }

  lemma DefinesNext(nodes: seq<Node>, c: Category, x: string)
    requires nodes != []
    ensures ServerDefines(nodes, c, x) <==> Within(nodes[0], c, x) || ServerDefines(nodes[1..], c, x)
  {
    if i :| 0 <= i < |nodes| && Within(nodes[i], c, x) {
      if i > 0 { assert nodes[1..][i - 1] == nodes[i]; }
    }
    if i :| 0 <= i < |nodes[1..]| && Within(nodes[1..][i], c, x) {
      assert nodes[i + 1] == nodes[1..][i];
    }
  }

  lemma DefinesAsNext(nodes: seq<Node>, c: Category, x: string, v: Value)
    requires nodes != []
    requires ServerDefinesAs(nodes[1..], c, x, v) ||
             (Within(nodes[0], c, x) && !ServerDefines(nodes[1..], c, x) && WithinAs(nodes[0], c, x, v))
    ensures ServerDefinesAs(nodes, c, x, v)
  {
    var rest := nodes[1..];
    if ServerDefinesAs(rest, c, x, v) {
      var i :| 0 <= i < |rest| && Within(rest[i], c, x) && WithinAs(rest[i], c, x, v) &&
               (forall j :: i < j < |rest| ==> !Within(rest[j], c, x));
      forall j | i + 1 < j < |nodes| ensures !Within(nodes[j], c, x) { assert nodes[j] == rest[j - 1]; }
      assert nodes[i + 1] == rest[i];
    } else {
      forall j | 0 < j < |nodes| ensures !Within(nodes[j], c, x) { assert nodes[j] == rest[j - 1]; }
    }
  }

  /** Every entry the children define is there as they define it; the rest is as before. */
  lemma {:induction false} ServerParts(s: Reading, nodes: seq<Node>, c: Category, x: string)
    requires ServerChildren(s, nodes).Ok?
    ensures var r := Field(PartOf(ServerChildren(s, nodes).value, c), x);
            if ServerDefines(nodes, c, x) then r.Some? && ServerDefinesAs(nodes, c, x, r.value)
            else r == Field(PartOf(s, c), x)
    decreases |nodes|
  {
    if nodes != [] {
      ServerChildErrIff(s, nodes[0]);
      ServerPart(s, nodes[0], c, x);
      var t := ServerChild(s, nodes[0]).value;
      ServerParts(t, nodes[1..], c, x);
      HeadMeans(nodes[0], c, x);
      DefinesNext(nodes, c, x);
      var r := Field(PartOf(ServerChildren(s, nodes).value, c), x);
      if ServerDefines(nodes, c, x) { DefinesAsNext(nodes, c, x, r.value); }
    }
  }

  lemma {:induction false} ServerNames(s: Reading, nodes: seq<Node>)
    requires ServerChildren(s, nodes).Ok?
    ensures ServerChildren(s, nodes).value.locationNames == s.locationNames + DefNames(nodes, LocationDef)
    decreases |nodes|
  {
    if nodes != [] {
      ServerChildNames(s, nodes[0]);
      ServerNames(ServerChild(s, nodes[0]).value, nodes[1..]);
      NamesCons(nodes, LocationDef);
    }
  }

  lemma {:induction false} ServerLastField(s: Reading, nodes: seq<Node>, a: string)
    requires ServerChildren(s, nodes).Ok?
    ensures Field(ServerChildren(s, nodes).value.fields, a) == LastField(Field(s.fields, a), nodes, a, true)
    decreases |nodes|
  {
    if nodes != [] {
      ServerField(s, nodes[0], a);
      ServerLastField(ServerChild(s, nodes[0]).value, nodes[1..], a);
      LastFieldNext(Field(s.fields, a), nodes, a, true);
    }
  }

  /** The fields of a server: its own, with `locations` completed by the locations defined in it. */
  ghost predicate ServerMeans(n: Node, fields: Fields) {
    exists own: Fields, ls ::
      && OwnFields(n, own, true) && AreNames(ChildrenOf(n), LocationDef, ls)
      && Completes(own, fields, "locations", ls)
  }

  lemma ServerFields(n: Node)
    requires ParseServerNode(n).Ok?
    ensures ServerMeans(n, ParseServerNode(n).value.server)
  {
    var nodes := ChildrenOf(n);
    var t := ServerChildren(Start(n), nodes).value;
    ServerNames(Start(n), nodes);
    var ls := DefNames(nodes, LocationDef);
    assert t.locationNames == ls;
    NamesAre(nodes, LocationDef);
    forall a ensures OwnField(n, a, true, Field(t.fields, a)) {
      ServerLastField(Start(n), nodes, a);
      OwnFieldIs(n, a, true);
    }
    assert OwnFields(n, t.fields, true);
    ListCompletes(t.fields, "locations", ls);
  }

  /** What a server reads as: its own fields, and everything named in it and in its locations. */
  lemma ServerNodeReads(n: Node, c: Category, x: string)
    ensures ParseServerNode(n).Ok? <==> ServerNamed(ChildrenOf(n))
    ensures ParseServerNode(n).Ok? ==>
              var part := ServerSays("", ParseServerNode(n).value, KeyOf(c, x));
              && ServerMeans(n, ParseServerNode(n).value.server)
              && (!c.Server? && !c.Basic? ==>
                    && (part.Some? <==> ServerDefines(ChildrenOf(n), c, x))
                    && (part.Some? ==> ServerDefinesAs(ChildrenOf(n), c, x, part.value)))
  {
    ServerErrIff(Start(n), ChildrenOf(n));
    if ParseServerNode(n).Ok? {
      ServerFields(n);
      ServerParts(Start(n), ChildrenOf(n), c, x);
    }
  }
}
