/**
 * What the HCL reader makes of any document, said of its blocks: which entries it defines, with
 * which fields, and when it is refused.
 */
module HclReading {
  import opened Toml
  import opened Hcl
  import opened Assembly
  import opened Completion

  /** A block of a kind with a label. */
  predicate Is(b: HclBlock, c: Category, n: string) {
    b.kind == Known(c) && b.name == Some(n)
  }

  ghost predicate Nests(blocks: seq<HclBlock>, c: Category, n: string) {
    exists i :: 0 <= i < |blocks| && Is(blocks[i], c, n)
  }

  /** The labels of the blocks of one kind, one by one in block order. */
  ghost predicate Picks(blocks: seq<HclBlock>, c: Category, labels: seq<string>, at: seq<nat>) {
    && |at| == |labels| && (forall i, j :: 0 <= i < j < |at| ==> at[i] < at[j])
    && (forall i :: 0 <= i < |at| ==> at[i] < |blocks| && Is(blocks[at[i]], c, labels[i]))
    && (forall j: nat, n :: j < |blocks| && Is(blocks[j], c, n) ==> j in at)
  }

  ghost predicate AreLabels(blocks: seq<HclBlock>, c: Category, labels: seq<string>) {
    exists at :: Picks(blocks, c, labels, at)
  }

  /** The table of the last block of a kind with a label. */
  ghost predicate LastTable(blocks: seq<HclBlock>, c: Category, n: string, v: Value) {
    exists i :: 0 <= i < |blocks| && Is(blocks[i], c, n) && (forall j :: i < j < |blocks| ==> !Is(blocks[j], c, n)) &&
      v == Table(blocks[i].body.attrs)
  }

  // ---- labels and tables ----------------------------------------------------------------

  lemma {:induction false} LabelsPicked(blocks: seq<HclBlock>, c: Category) returns (at: seq<nat>)
    ensures Picks(blocks, c, LabelsIn(blocks, c), at)
  {
    if blocks == [] {
      at := [];
    } else {
      var rest := LabelsPicked(blocks[1..], c);
      at := PicksNext(blocks, c, LabelsIn(blocks[1..], c), rest);
    }
  }

  lemma PicksNext(blocks: seq<HclBlock>, c: Category, labels: seq<string>, rest: seq<nat>) returns (at: seq<nat>)
    requires blocks != [] && Picks(blocks[1..], c, labels, rest)
    ensures Picks(blocks, c, (if Labelled(blocks[0], c) then [blocks[0].name.value] else []) + labels, at)
  {
    at := seq(|rest|, i requires 0 <= i < |rest| => rest[i] + 1);
    PicksShifted(blocks, c, labels, rest, at);
    if Labelled(blocks[0], c) {
      PicksFirst(blocks, c, labels, at);
      at := [0] + at;
    } else {
      PicksSkip(blocks, c, labels, at);
      assert [] + labels == labels;
    }
  }

  /** As `Picks`, for all but the first block. */
  ghost predicate Later(blocks: seq<HclBlock>, c: Category, labels: seq<string>, at: seq<nat>) {
    && |at| == |labels| && (forall i, j :: 0 <= i < j < |at| ==> at[i] < at[j])
    && (forall i :: 0 <= i < |at| ==> 0 < at[i] < |blocks| && Is(blocks[at[i]], c, labels[i]))
    && (forall j: nat, n :: 0 < j < |blocks| && Is(blocks[j], c, n) ==> j in at)
  }

  lemma PicksShifted(blocks: seq<HclBlock>, c: Category, labels: seq<string>, rest: seq<nat>, at: seq<nat>)
    requires blocks != [] && Picks(blocks[1..], c, labels, rest)
    requires |at| == |rest| && forall i :: 0 <= i < |rest| ==> at[i] == rest[i] + 1
    ensures Later(blocks, c, labels, at)
  {
    forall i | 0 <= i < |at| ensures 0 < at[i] < |blocks| && Is(blocks[at[i]], c, labels[i]) {
      assert blocks[1..][rest[i]] == blocks[at[i]];
    }
    forall j: nat, n | 0 < j < |blocks| && Is(blocks[j], c, n) ensures j in at {
      assert blocks[1..][j - 1] == blocks[j];
      var i :| 0 <= i < |rest| && rest[i] == j - 1;
      assert at[i] == j;
    }
  }

  lemma PicksSkip(blocks: seq<HclBlock>, c: Category, labels: seq<string>, at: seq<nat>)
    requires blocks != [] && !Labelled(blocks[0], c) && Later(blocks, c, labels, at)
    ensures Picks(blocks, c, labels, at)
  {
    forall j: nat, n | j < |blocks| && Is(blocks[j], c, n) ensures j in at {}
  }

  lemma PicksFirst(blocks: seq<HclBlock>, c: Category, labels: seq<string>, at: seq<nat>)
    requires blocks != [] && Labelled(blocks[0], c) && Later(blocks, c, labels, at)
    ensures Picks(blocks, c, [blocks[0].name.value] + labels, [0] + at)
  {
    var all, names := [0] + at, [blocks[0].name.value] + labels;
    forall i | 0 <= i < |all| ensures all[i] < |blocks| && Is(blocks[all[i]], c, names[i]) {
      if i > 0 { assert all[i] == at[i - 1] && names[i] == labels[i - 1]; }
    }
    forall j: nat, n | j < |blocks| && Is(blocks[j], c, n) ensures j in all {
      if j == 0 { assert all[0] == 0; } else { assert j in at; }
    }
  }

  lemma LabelsAre(blocks: seq<HclBlock>, c: Category)
    ensures AreLabels(blocks, c, LabelsIn(blocks, c))
  {
    var at := LabelsPicked(blocks, c);
  }

  lemma NestsNext(blocks: seq<HclBlock>, c: Category, n: string)
    requires blocks != []
    ensures Nests(blocks, c, n) <==> Is(blocks[0], c, n) || Nests(blocks[1..], c, n)
  {
    if i :| 0 <= i < |blocks| && Is(blocks[i], c, n) {
      if i > 0 { assert blocks[1..][i - 1] == blocks[i]; }
    }
    if i :| 0 <= i < |blocks[1..]| && Is(blocks[1..][i], c, n) {
      assert blocks[i + 1] == blocks[1..][i];
    }
  }

  lemma LastTableNext(blocks: seq<HclBlock>, c: Category, n: string, v: Value)
    requires blocks != []
    requires LastTable(blocks[1..], c, n, v) ||
             (Is(blocks[0], c, n) && !Nests(blocks[1..], c, n) && v == Table(blocks[0].body.attrs))
    ensures LastTable(blocks, c, n, v)
  {
    var rest := blocks[1..];
    if LastTable(rest, c, n, v) {
      var i :| 0 <= i < |rest| && Is(rest[i], c, n) && (forall j :: i < j < |rest| ==> !Is(rest[j], c, n))
            && v == Table(rest[i].body.attrs);
      forall j | i + 1 < j < |blocks| ensures !Is(blocks[j], c, n) { assert blocks[j] == rest[j - 1]; }
      assert blocks[i + 1] == rest[i];
    } else {
      forall j | 0 < j < |blocks| ensures !Is(blocks[j], c, n) { assert blocks[j] == rest[j - 1]; }
    }
  }

  /** Exactly the labelled blocks have a table, a repeated label that of its last block. */
  lemma {:induction false} TablesAre(blocks: seq<HclBlock>, c: Category, n: string)
    ensures n in TablesIn(blocks, c) <==> Nests(blocks, c, n)
    ensures n in TablesIn(blocks, c) ==> LastTable(blocks, c, n, TablesIn(blocks, c)[n])
  {
    if blocks != [] {
      TablesAre(blocks[1..], c, n);
      NestsNext(blocks, c, n);
      if n in TablesIn(blocks, c) { LastTableNext(blocks, c, n, TablesIn(blocks, c)[n]); }
    }
  }

  // ---- a location -----------------------------------------------------------------------

  /**
   * The fields of a location: as given, an `upstream` that is not given from the first nested
   * upstream, and `plugins` completed by the nested plugins.
   */
  ghost predicate LocationMeans(body: Body, fields: Fields) {
    exists us, ps, mid: Fields ::
      && AreLabels(body.blocks, Upstream, us) && AreLabels(body.blocks, Plugin, ps)
      && UpstreamGiven(body.attrs, mid, us)
      && Completes(mid, fields, "plugins", ps)
  }

  lemma LocationFields(body: Body)
    ensures LocationMeans(body, ParseLocation(body).location)
  {
    var us, ps := LabelsIn(body.blocks, Upstream), LabelsIn(body.blocks, Plugin);
    var mid := WithUpstream(body.attrs, us);
    LabelsAre(body.blocks, Upstream);
    LabelsAre(body.blocks, Plugin);
    UpstreamIsGiven(body.attrs, us);
    ListCompletes(mid, "plugins", ps);
  }

  /** What a location reads as: its own fields, and every labelled upstream and plugin in it. */
  lemma LocationReads(body: Body, n: string)
    ensures var p := ParseLocation(body);
            && LocationMeans(body, p.location)
            && (n in p.upstreams <==> Nests(body.blocks, Upstream, n))
            && (n in p.upstreams ==> LastTable(body.blocks, Upstream, n, p.upstreams[n]))
            && (n in p.plugins <==> Nests(body.blocks, Plugin, n))
            && (n in p.plugins ==> LastTable(body.blocks, Plugin, n, p.plugins[n]))
  {
    LocationFields(body);
    TablesAre(body.blocks, Upstream, n);
    TablesAre(body.blocks, Plugin, n);
  }

  // ---- a server -------------------------------------------------------------------------

  /** A labelled location, in a server. */
  predicate IsLocation(b: HclBlock) {
    b.kind == Known(Location) && b.name.Some?
  }

  /** A block of a server defines an entry: itself, or an upstream or plugin of a location. */
  ghost predicate Within(b: HclBlock, c: Category, n: string) {
    match c
    case Location => Is(b, Location, n)
    case Certificate => Is(b, Certificate, n)
    case Upstream => IsLocation(b) && Nests(b.body.blocks, Upstream, n)
    case Plugin => Is(b, Plugin, n) || (IsLocation(b) && Nests(b.body.blocks, Plugin, n))
    case _ => false
  }

  /** And what it defines it as. */
  ghost predicate WithinAs(b: HclBlock, c: Category, n: string, v: Value) {
    match c
    case Location => v.Table? && LocationMeans(b.body, v.entries)
    case Certificate => v == Table(b.body.attrs)
    case Upstream => LastTable(b.body.blocks, Upstream, n, v)
    case Plugin => if Is(b, Plugin, n) then v == Table(b.body.attrs) else LastTable(b.body.blocks, Plugin, n, v)
    case _ => false
  }

  ghost predicate ServerDefines(blocks: seq<HclBlock>, c: Category, n: string) {
    exists i :: 0 <= i < |blocks| && Within(blocks[i], c, n)
  }

  /** As the last of its blocks that defines the entry does. */
  ghost predicate ServerDefinesAs(blocks: seq<HclBlock>, c: Category, n: string, v: Value) {
    exists i :: 0 <= i < |blocks| && Within(blocks[i], c, n) && WithinAs(blocks[i], c, n, v) &&
      (forall j :: i < j < |blocks| ==> !Within(blocks[j], c, n))
  }

  function Part(p: ParsedServer, c: Category): Fields {
    match c
    case Location => p.locations
    case Upstream => p.upstreams
    case Plugin => p.plugins
    case Certificate => p.certificates
    case _ => map[]
  }

  /** What the first block of a server lifts to. */
  function Head(b: HclBlock, c: Category, n: string): Option<Value> {
    if Labelled(b, Location) then
      match c
      case Location => if n == b.name.value then Some(Table(ParseLocation(b.body).location)) else None
      case Upstream => Field(ParseLocation(b.body).upstreams, n)
      case Plugin => Field(ParseLocation(b.body).plugins, n)
      case _ => None
    else if (c.Plugin? || c.Certificate?) && Labelled(b, c) && n == b.name.value then Some(Table(b.body.attrs))
    else None
  }

  lemma LiftAt(blocks: seq<HclBlock>, c: Category, n: string)
    requires blocks != []
    ensures Field(Part(Lift(blocks), c), n) ==
            if Field(Part(Lift(blocks[1..]), c), n).Some? then Field(Part(Lift(blocks[1..]), c), n)
            else Head(blocks[0], c, n)
  {}

  lemma HeadMeans(b: HclBlock, c: Category, n: string)
    ensures Head(b, c, n).Some? <==> Within(b, c, n)
    ensures Head(b, c, n).Some? ==> WithinAs(b, c, n, Head(b, c, n).value)
  {
    if Labelled(b, Location) { LocationReads(b.body, n); }
  }

  lemma DefinesNext(blocks: seq<HclBlock>, c: Category, n: string)
    requires blocks != []
    ensures ServerDefines(blocks, c, n) <==> Within(blocks[0], c, n) || ServerDefines(blocks[1..], c, n)
  {
    if i :| 0 <= i < |blocks| && Within(blocks[i], c, n) {
      if i > 0 { assert blocks[1..][i - 1] == blocks[i]; }
    }
    if i :| 0 <= i < |blocks[1..]| && Within(blocks[1..][i], c, n) {
      assert blocks[i + 1] == blocks[1..][i];
    }
  }

  lemma DefinesAsNext(blocks: seq<HclBlock>, c: Category, n: string, v: Value)
    requires blocks != []
    requires ServerDefinesAs(blocks[1..], c, n, v) ||
             (Within(blocks[0], c, n) && !ServerDefines(blocks[1..], c, n) && WithinAs(blocks[0], c, n, v))
    ensures ServerDefinesAs(blocks, c, n, v)
  {
    var rest := blocks[1..];
    if ServerDefinesAs(rest, c, n, v) {
      var i :| 0 <= i < |rest| && Within(rest[i], c, n) && (forall j :: i < j < |rest| ==> !Within(rest[j], c, n))
            && WithinAs(rest[i], c, n, v);
      forall j | i + 1 < j < |blocks| ensures !Within(blocks[j], c, n) { assert blocks[j] == rest[j - 1]; }
      assert blocks[i + 1] == rest[i];
    } else {
      forall j | 0 < j < |blocks| ensures !Within(blocks[j], c, n) { assert blocks[j] == rest[j - 1]; }
    }
  }

  lemma {:induction false} LiftMeans(blocks: seq<HclBlock>, c: Category, n: string)
    ensures n in Part(Lift(blocks), c) <==> ServerDefines(blocks, c, n)
    ensures n in Part(Lift(blocks), c) ==> ServerDefinesAs(blocks, c, n, Part(Lift(blocks), c)[n])
  {
    if blocks != [] {
      LiftMeans(blocks[1..], c, n);
      LiftAt(blocks, c, n);
      HeadMeans(blocks[0], c, n);
      DefinesNext(blocks, c, n);
      if n in Part(Lift(blocks), c) { DefinesAsNext(blocks, c, n, Part(Lift(blocks), c)[n]); }
    }
  }

  /** The fields of a server: as given, with `locations` completed by the nested locations. */
  ghost predicate ServerMeans(body: Body, fields: Fields) {
    exists ls :: AreLabels(body.blocks, Location, ls) && Completes(body.attrs, fields, "locations", ls)
  }

  /** What a server reads as: its own fields, and everything labelled in it and in its locations. */
  lemma ServerReadsAs(body: Body, c: Category, n: string)
    ensures ServerMeans(body, ParseServer(body).server)
    ensures n in Part(ParseServer(body), c) <==> ServerDefines(body.blocks, c, n)
    ensures n in Part(ParseServer(body), c) ==> ServerDefinesAs(body.blocks, c, n, Part(ParseServer(body), c)[n])
  {
    LabelsAre(body.blocks, Location);
    ListCompletes(body.attrs, "locations", LabelsIn(body.blocks, Location));
    LiftMeans(body.blocks, c, n);
  }

  // ---- documents ------------------------------------------------------------------------

  /** A block the reader accepts: of a known type, and labelled unless it is the basic one. */
  predicate Acceptable(b: HclBlock) {
    b.kind.Known? && (b.kind.category.Basic? || b.name.Some?)
  }

  /** An entry a top-level block defines besides itself. */
  ghost predicate DefinesInside(b: HclBlock, k: Key) {
    || (b.kind == Known(Server) && ServerDefines(b.body.blocks, k.category, k.name))
    || (b.kind == Known(Location) && (k.category.Upstream? || k.category.Plugin?)
        && Nests(b.body.blocks, k.category, k.name))
  }

  predicate DefinesItself(b: HclBlock, k: Key)
    requires Acceptable(b)
  {
    k == KeyOf(b.kind.category, if b.kind.category.Basic? then "" else b.name.value)
  }

  ghost predicate Defines(b: HclBlock, k: Key) {
    Acceptable(b) && (DefinesItself(b, k) || DefinesInside(b, k))
  }

  ghost predicate DefinesAs(b: HclBlock, k: Key, v: Value)
    requires Acceptable(b)
  {
    if DefinesItself(b, k) then
      match b.kind.category
      case Server => v.Table? && ServerMeans(b.body, v.entries)
      case Location => v.Table? && LocationMeans(b.body, v.entries)
      case _ => v == Table(b.body.attrs)
    else if b.kind == Known(Server) then ServerDefinesAs(b.body.blocks, k.category, k.name, v)
    else LastTable(b.body.blocks, k.category, k.name, v)
  }

  /** The parsed block says about an entry what the block defines it as. */
  ghost predicate Agrees(b: HclBlock, parsed: Block, k: Key)
    requires Acceptable(b)
  {
    (Says(parsed, k).Some? <==> Defines(b, k)) && (Says(parsed, k).Some? ==> DefinesAs(b, k, Says(parsed, k).value))
  }

  lemma ServerAgrees(b: HclBlock, k: Key)
    requires b.kind == Known(Server) && b.name.Some?
    ensures Agrees(b, ServerBlock(b.name.value, ParseServer(b.body)), k)
  {
    assert k == KeyOf(k.category, k.name);
    ServerReadsAs(b.body, k.category, k.name);
    assert !ServerDefines(b.body.blocks, Server, k.name);
  }

  lemma LocationAgrees(b: HclBlock, k: Key)
    requires b.kind == Known(Location) && b.name.Some?
    ensures Agrees(b, LocationBlock(b.name.value, ParseLocation(b.body)), k)
  {
    assert k == KeyOf(k.category, k.name);
    match k.category
    case Location => LocationFields(b.body);
    case Upstream => TablesAre(b.body.blocks, Upstream, k.name);
    case Plugin => TablesAre(b.body.blocks, Plugin, k.name);
    case _ =>
  }

  lemma PlainAgrees(b: HclBlock, k: Key)
    requires Acceptable(b) && !b.kind.category.Server? && !b.kind.category.Location?
    ensures Agrees(b, ParseBlock(b).value, k)
  {
    assert k == KeyOf(k.category, k.name);
  }

  lemma BlockMeans(b: HclBlock, k: Key)
    ensures ParseBlock(b).Ok? <==> Acceptable(b)
    ensures Acceptable(b) ==> Agrees(b, ParseBlock(b).value, k)
  {
    if Acceptable(b) {
      match b.kind.category
      case Server => ServerAgrees(b, k);
      case Location => LocationAgrees(b, k);
      case _ => PlainAgrees(b, k);
    }
  }

  lemma {:induction false} ParsesIff(doc: seq<HclBlock>)
    ensures ParseAll(doc).Ok? <==> forall i :: 0 <= i < |doc| ==> Acceptable(doc[i])
    ensures ParseAll(doc).Ok? ==> |ParseAll(doc).value| == |doc|
    ensures ParseAll(doc).Ok? ==> forall i :: 0 <= i < |doc| ==> ParseBlock(doc[i]) == Ok(ParseAll(doc).value[i])
  {
    if doc != [] {
      var rest := doc[1..];
      ParsesIff(rest);
      BlockMeans(doc[0], KeyOf(Basic, ""));
      forall i | 0 < i < |doc| ensures doc[i] == rest[i - 1] {}
      if forall i :: 0 <= i < |doc| ==> Acceptable(doc[i]) {
        forall i | 0 <= i < |rest| ensures Acceptable(rest[i]) { assert rest[i] == doc[i + 1]; }
      }
    }
  }

  lemma SaysDefines(doc: seq<HclBlock>, i: nat, k: Key)
    requires ParseAll(doc).Ok? && i < |doc|
    ensures |ParseAll(doc).value| == |doc| && Acceptable(doc[i])
    ensures Agrees(doc[i], ParseAll(doc).value[i], k)
  {
    ParsesIff(doc);
    BlockMeans(doc[i], k);
  }

  /** Some entry is defined by two blocks. */
  ghost predicate Repeats(doc: seq<HclBlock>) {
    exists i, j, k: Key :: 0 <= i < j < |doc| && Defines(doc[i], k) && Defines(doc[j], k)
  }

  lemma RepeatsIff(doc: seq<HclBlock>)
    requires ParseAll(doc).Ok?
    ensures Repeats(doc) <==> exists k: Key :: Count(ParseAll(doc).value, k) >= 2
  {
    var blocks := ParseAll(doc).value;
    ParsesIff(doc);
    if k: Key :| Count(blocks, k) >= 2 {
      CountTwo(blocks, k);
      var i, j :| 0 <= i < j < |blocks| && Says(blocks[i], k).Some? && Says(blocks[j], k).Some?;
      SaysDefines(doc, i, k);
      SaysDefines(doc, j, k);
    }
    if i, j, k: Key :| 0 <= i < j < |doc| && Defines(doc[i], k) && Defines(doc[j], k) {
      SaysDefines(doc, i, k);
      SaysDefines(doc, j, k);
      CountTwo(blocks, k);
    }
  }

  /** A document is refused exactly if a block is unknown or lacks its label, or an entry repeats. */
  lemma RefusedIff(doc: seq<HclBlock>)
    ensures Read(doc).Err? <==> (exists b <- doc :: !Acceptable(b)) || Repeats(doc)
  {
    ParsesIff(doc);
    if ParseAll(doc).Ok? {
      RepeatsIff(doc);
      AssembleErrIff(ParseAll(doc).value);
    } else {
      var i :| 0 <= i < |doc| && !Acceptable(doc[i]);
      assert doc[i] in doc;
    }
  }

  /** Otherwise it is read as exactly the entries its blocks define, each as its block does. */
  lemma DocumentReads(doc: seq<HclBlock>, k: Key)
    requires Read(doc).Ok?
    ensures k in Read(doc).value <==> exists i :: 0 <= i < |doc| && Defines(doc[i], k)
    ensures forall i :: 0 <= i < |doc| && Defines(doc[i], k) && k in Read(doc).value ==>
              DefinesAs(doc[i], k, Read(doc).value[k])
  {
    var blocks := ParseAll(doc).value;
    ParsesIff(doc);
    AssembleAt(blocks, k);
    AssembleErrIff(blocks);
    FirstSays(blocks, k);
    if First(blocks, k).Some? {
      var i :| 0 <= i < |blocks| && Says(blocks[i], k).Some? && First(blocks, k) == Says(blocks[i], k);
      SaysDefines(doc, i, k);
      forall j | 0 <= j < |doc| && Defines(doc[j], k) ensures j == i {
        SaysDefines(doc, j, k);
        CountTwo(blocks, k);
      }
    } else {
      forall j | 0 <= j < |doc| ensures !Defines(doc[j], k) { SaysDefines(doc, j, k); }
    }
  }
}
