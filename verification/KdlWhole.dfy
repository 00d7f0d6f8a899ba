/** Whole KDL documents: what they are read as, when they are refused, and what survives printing. */
module KdlWhole {
  import opened Toml
  import opened Assembly
  import opened Hcl
  import opened Kdl
  import opened KdlValues
  import opened KdlReading
  import opened KdlEntries
  import KdlRoundTrip
  import KdlDocument

  /**
   * A node the reader accepts: of a known type, with a name unless it is the basic one, and with
   * names for all that is defined in it.
   */
  predicate Acceptable(t: TopNode) {
    && t.kind.Known? && (t.kind.category.Basic? || t.node.args != [])
    && (t.kind == Known(Server) ==> ServerNamed(ChildrenOf(t.node)))
    && (t.kind == Known(Location) ==> LocationNamed(ChildrenOf(t.node)))
  }

  predicate DefinesItself(t: TopNode, k: Key)
    requires Acceptable(t)
  {
    k == KeyOf(t.kind.category, if t.kind.category.Basic? then "" else NameText(t.node.args[0]))
  }

  /** An entry a top-level node defines besides itself. */
  ghost predicate DefinesInside(t: TopNode, k: Key) {
    || (t.kind == Known(Server) && ServerDefines(ChildrenOf(t.node), k.category, k.name))
    || (t.kind == Known(Location) && k.category.Upstream? && Holds(ChildrenOf(t.node), UpstreamDef, k.name))
    || (t.kind == Known(Location) && k.category.Plugin? && Holds(ChildrenOf(t.node), PluginDef, k.name))
  }

  ghost predicate Defines(t: TopNode, k: Key) {
    Acceptable(t) && (DefinesItself(t, k) || DefinesInside(t, k))
  }

  ghost predicate DefinesAs(t: TopNode, k: Key, v: Value)
    requires Acceptable(t)
  {
    if DefinesItself(t, k) then
      match t.kind.category
      case Server => v.Table? && ServerMeans(t.node, v.entries)
      case Location => v.Table? && LocationMeans(t.node, v.entries)
      case _ => v == Table(NodeFields(t.node))
    else if t.kind == Known(Server) then ServerDefinesAs(ChildrenOf(t.node), k.category, k.name, v)
    else LastDef(ChildrenOf(t.node), if k.category.Upstream? then UpstreamDef else PluginDef, k.name, v)
  }

  /** The parsed block says about an entry what the node defines it as. */
  ghost predicate Agrees(t: TopNode, parsed: Block, k: Key)
    requires Acceptable(t)
  {
    (Says(parsed, k).Some? <==> Defines(t, k)) && (Says(parsed, k).Some? ==> DefinesAs(t, k, Says(parsed, k).value))
  }

  lemma ServerAgrees(t: TopNode, k: Key)
    requires t.kind == Known(Server) && Acceptable(t) && ParseServerNode(t.node).Ok?
    ensures Agrees(t, ServerBlock(NameText(t.node.args[0]), ParseServerNode(t.node).value), k)
  {
    assert k == KeyOf(k.category, k.name);
    ServerNodeReads(t.node, k.category, k.name);
    assert !ServerDefines(ChildrenOf(t.node), Server, k.name);
  }

  lemma LocationAgrees(t: TopNode, k: Key)
    requires t.kind == Known(Location) && Acceptable(t) && ParseLocationNode(t.node).Ok?
    ensures Agrees(t, LocationBlock(NameText(t.node.args[0]), ParseLocationNode(t.node).value), k)
  {
    assert k == KeyOf(k.category, k.name);
    match k.category
    case Location => LocationFields(t.node);
    case Upstream => LocationUpstreams(t.node, k.name);
    case Plugin => LocationPlugins(t.node, k.name);
    case _ =>
  }

  lemma PlainAgrees(t: TopNode, k: Key)
    requires Acceptable(t) && !t.kind.category.Server? && !t.kind.category.Location? && ParseTop(t).Ok?
    ensures Agrees(t, ParseTop(t).value, k)
  {
    assert k == KeyOf(k.category, k.name);
    NameIs(t.node);
  }

  lemma AcceptedIff(t: TopNode)
    ensures ParseTop(t).Ok? <==> Acceptable(t)
  {
    NameIs(t.node);
    LocationNodeReads(t.node, "");
    ServerNodeReads(t.node, Plugin, "");
  }

  lemma TopMeans(t: TopNode, k: Key)
    ensures ParseTop(t).Ok? <==> Acceptable(t)
    ensures Acceptable(t) ==> Agrees(t, ParseTop(t).value, k)
  {
    AcceptedIff(t);
    if Acceptable(t) {
      NameIs(t.node);
      match t.kind.category
      case Server => ServerAgrees(t, k);
      case Location => LocationAgrees(t, k);
      case _ => PlainAgrees(t, k);
    }
  }

  lemma {:induction false} ParsesIff(doc: seq<TopNode>)
    ensures ParseDocument(doc).Ok? <==> forall i :: 0 <= i < |doc| ==> Acceptable(doc[i])
    ensures ParseDocument(doc).Ok? ==> |ParseDocument(doc).value| == |doc|
    ensures ParseDocument(doc).Ok? ==>
              forall i :: 0 <= i < |doc| ==> ParseTop(doc[i]) == Ok(ParseDocument(doc).value[i])
  {
    if doc != [] {
      var rest := doc[1..];
      ParsesIff(rest);
      AcceptedIff(doc[0]);
      forall i | 0 < i < |doc| ensures doc[i] == rest[i - 1] {}
      if forall i :: 0 <= i < |doc| ==> Acceptable(doc[i]) {
        forall i | 0 <= i < |rest| ensures Acceptable(rest[i]) { assert rest[i] == doc[i + 1]; }
      }
    }
  }

  lemma SaysDefines(doc: seq<TopNode>, i: nat, k: Key)
    requires ParseDocument(doc).Ok? && i < |doc|
    ensures |ParseDocument(doc).value| == |doc| && Acceptable(doc[i])
    ensures Agrees(doc[i], ParseDocument(doc).value[i], k)
  {
    ParsesIff(doc);
    TopMeans(doc[i], k);
  }

  /** Some entry is defined by two nodes. */
  ghost predicate Repeats(doc: seq<TopNode>) {
    exists i, j, k: Key :: 0 <= i < j < |doc| && Defines(doc[i], k) && Defines(doc[j], k)
  }

  lemma RepeatsIff(doc: seq<TopNode>)
    requires ParseDocument(doc).Ok?
    ensures Repeats(doc) <==> exists k: Key :: Count(ParseDocument(doc).value, k) >= 2
  {
    var blocks := ParseDocument(doc).value;
    ParsesIff(doc);
    if k: Key :| Count(blocks, k) >= 2 {
      CountTwo(blocks, k);
      var i, j :| 0 <= i < j < |blocks| && Says(blocks[i], k).Some? && Says(blocks[j], k).Some?;
      SaysDefines(doc, i, k);
      SaysDefines(doc, j, k);
    }
    if i, j, k: Key :| 0 <= i < j < |doc| && Defines(doc[i], k) && Defines(doc[j], k) {
      SaysDefines(doc, i, k);
      SaysDefines(doc, j, k);
      CountTwo(blocks, k);
    }
  }

  /** A document is refused exactly if a node is unknown or something lacks its name, or an entry repeats. */
  lemma RefusedIff(doc: seq<TopNode>)
    ensures ReadKdl(doc).Err? <==> (exists t <- doc :: !Acceptable(t)) || Repeats(doc)
  {
    ParsesIff(doc);
    if ParseDocument(doc).Ok? {
      RepeatsIff(doc);
      AssembleErrIff(ParseDocument(doc).value);
    } else {
      var i :| 0 <= i < |doc| && !Acceptable(doc[i]);
      assert doc[i] in doc;
    }
  }

  /** Otherwise it is read as exactly the entries its nodes define, each as its node does. */
  lemma DocumentReads(doc: seq<TopNode>, k: Key)
    requires ReadKdl(doc).Ok?
    ensures k in ReadKdl(doc).value <==> exists i :: 0 <= i < |doc| && Defines(doc[i], k)
    ensures forall i :: 0 <= i < |doc| && Defines(doc[i], k) && k in ReadKdl(doc).value ==>
              DefinesAs(doc[i], k, ReadKdl(doc).value[k])
  {
    var blocks := ParseDocument(doc).value;
    ParsesIff(doc);
    AssembleAt(blocks, k);
    AssembleErrIff(blocks);
    FirstSays(blocks, k);
    if First(blocks, k).Some? {
      var i :| 0 <= i < |blocks| && Says(blocks[i], k).Some? && First(blocks, k) == Says(blocks[i], k);
      SaysDefines(doc, i, k);
      forall j | 0 <= j < |doc| && Defines(doc[j], k) ensures j == i {
        SaysDefines(doc, j, k);
        CountTwo(blocks, k);
      }
    } else {
      forall j | 0 <= j < |doc| ensures !Defines(doc[j], k) { SaysDefines(doc, j, k); }
    }
  }

  // ---- names that are numbers -----------------------------------------------------------

  /** The number a string of digits stands for. */
  function Number(s: string): int {
    if s == "" then 0 else Number(s[..|s| - 1]) * 10 + (s[|s| - 1] as int - '0' as int)
  }

  /** A name given as a number is its decimal digits, without leading zeros. */
  lemma {:induction false} DigitsRead(n: nat)
    ensures forall c <- Digits(n) :: '0' <= c <= '9'
    ensures Number(Digits(n)) == n && Digits(n) != "" && (Digits(n)[0] == '0' ==> n == 0)
  {
    if n < 10 {
      var d := ('0' as int + n) as char;
      assert Digits(n) == [d] && [d][..0] == "";
      assert Number([d][..0]) == Number("") == 0;
    } else {
      DigitsRead(n / 10);
      var ds, d := Digits(n / 10), ('0' as int + n % 10) as char;
      assert Digits(n) == ds + [d] && (ds + [d])[..|ds|] == ds && (ds + [d])[0] == ds[0];
    }
  }

  /** The number a decimal text with an optional minus sign denotes. */
  function Signed(s: string): int
    requires forall i :: 0 <= i < |s| ==> '0' <= s[i] <= '9' || (i == 0 && s[i] == '-')
  {
    if s != "" && s[0] == '-' then -Number(s[1..]) else Number(s)
  }

  /** A name given as an integer reads as that integer, so different integers are different names. */
  lemma DecimalReads(i: int)
    ensures forall j :: 0 <= j < |Decimal(i)| ==> '0' <= Decimal(i)[j] <= '9' || (j == 0 && Decimal(i)[j] == '-')
    ensures Signed(Decimal(i)) == i
  {
    var ds := Digits(if i < 0 then -i else i);
    DigitsRead(if i < 0 then -i else i);
    assert forall j :: 0 <= j < |ds| ==> ds[j] in ds;
    if i < 0 { assert ("-" + ds)[1..] == ds; }
  }

  // ---- lists of one value ---------------------------------------------------------------

  /** A list of one scalar under a field that is always a list is printed and read back as it is. */
  lemma OneValueListSurvives(order: Order, u: string, a: string, v: Value)
    requires ValidOrder(order) && ListName(a) && Scalar(v)
    ensures var config: Config := map[KeyOf(Upstream, u) := Table(map[a := Arr([v])])];
            KdlDocument.PrintKdl(order, config).Some? &&
            ReadKdl(KdlDocument.PrintKdl(order, config).value) == Ok(config)
  {
    var k, fields := KeyOf(Upstream, u), map[a := Arr([v])];
    var config: Config := map[k := Table(fields)];
    ListNames(a);
    assert [v][0] == v && !HasTable([v]);
    assert KdlRoundTrip.KeptValue(a, fields[a]);
    assert KdlRoundTrip.KeptFields(fields);
    assert KdlDocument.Kept(config, k);
    KdlDocument.KdlRoundTripIff(order, config);
  }
}
