/** Which deletions the running configuration refuses. */
module References {
  import opened Toml

  datatype ServerRefs = ServerRefs(locations: Option<seq<string>>, includes: Option<seq<string>>)

  datatype LocationRefs = LocationRefs(
    upstream: Option<string>, plugins: Option<seq<string>>, includes: Option<seq<string>>)

  /**
   * The names of a configuration and the references between them. An upstream is given by the
   * storages it includes, a storage by its text.
   */
  datatype Names = Names(
    servers: map<string, ServerRefs>,
    locations: map<string, LocationRefs>,
    upstreams: map<string, Option<seq<string>>>,
    plugins: set<string>,
    certificates: set<string>,
    storages: map<string, string>)

  predicate Lists(list: Option<seq<string>>, name: string) {
    list.Some? && name in list.value
  }

  /** What the scan looks for: an entry that names the one to be deleted. */
  predicate InUse(config: Names, c: Category, name: string) {
    match c
    case Upstream => exists l <- config.locations :: config.locations[l].upstream == Some(name)
    case Location => exists s <- config.servers :: Lists(config.servers[s].locations, name)
    case Plugin => exists l <- config.locations :: Lists(config.locations[l].plugins, name)
    case _ => false
  }

  function Without(config: Names, c: Category, name: string): Names {
    match c
    case Upstream => config.(upstreams := config.upstreams - {name})
    case Location => config.(locations := config.locations - {name})
    case Server => config.(servers := config.servers - {name})
    case Plugin => config.(plugins := config.plugins - {name})
    case Certificate => config.(certificates := config.certificates - {name})
    case _ => config
  }

  /** Some entry includes the storage. */
  predicate Included(config: Names, name: string) {
    || (exists s <- config.servers :: Lists(config.servers[s].includes, name))
    || (exists l <- config.locations :: Lists(config.locations[l].includes, name))
    || (exists u <- config.upstreams :: Lists(config.upstreams[u], name))
  }

  /** The stored configuration without the entry; storages go as well, of which the scan knows nothing. */
  function Deleted(config: Names, c: Category, name: string): Names {
    if c.Storage? then config.(storages := config.storages - {name}) else Without(config, c, name)
  }

  /** Every reference between servers, locations, upstreams and plugins names something that exists. */
  ghost predicate LinksResolved(config: Names) {
    && (forall s, n :: s in config.servers && Lists(config.servers[s].locations, n) ==> n in config.locations)
    && (forall l, n :: l in config.locations && Lists(config.locations[l].plugins, n) ==> n in config.plugins)
    && (forall l :: l in config.locations && config.locations[l].upstream.Some?
          ==> config.locations[l].upstream.value in config.upstreams)
  }

  /** And every storage that is included exists. */
  ghost predicate Resolved(config: Names) {
    LinksResolved(config) && forall n :: Included(config, n) ==> n in config.storages
  }

  /** Scans the referring entries and gives up at the first one that still uses the name. */
  method Remove(config: Names, c: Category, name: string) returns (r: Result<Names>)
    ensures r == if InUse(config, c, name) then Err else Ok(Without(config, c, name))
  {
    match c {
      case Upstream =>
        var rest := config.locations.Keys;
        while rest != {}
          invariant rest <= config.locations.Keys
          invariant forall l :: l in config.locations && l !in rest ==> config.locations[l].upstream != Some(name)
          decreases |rest|
        {
          var l :| l in rest;
          if config.locations[l].upstream == Some(name) {
            return Err;
          }
          rest := rest - {l};
        }
      case Location =>
        var rest := config.servers.Keys;
        while rest != {}
          invariant rest <= config.servers.Keys
          invariant forall s :: s in config.servers && s !in rest ==> !Lists(config.servers[s].locations, name)
          decreases |rest|
        {
          var s :| s in rest;
          if Lists(config.servers[s].locations, name) {
            return Err;
          }
          rest := rest - {s};
        }
      case Plugin =>
        var rest := config.locations.Keys;
        while rest != {}
          invariant rest <= config.locations.Keys
          invariant forall l :: l in config.locations && l !in rest ==> !Lists(config.locations[l].plugins, name)
          decreases |rest|
        {
          var l :| l in rest;
          if Lists(config.locations[l].plugins, name) {
            return Err;
          }
          rest := rest - {l};
        }
      case _ =>
    }
    r := Ok(Without(config, c, name));
  }

  lemma LinksRefusedIff(config: Names, c: Category, name: string)
    requires LinksResolved(config)
    ensures InUse(config, c, name) <==> !LinksResolved(Deleted(config, c, name))
  {
    var after := Deleted(config, c, name);
    match c {
      case Upstream =>
        if InUse(config, c, name) {
          var l :| l in config.locations && config.locations[l].upstream == Some(name);
          assert l in after.locations && after.locations[l].upstream.value !in after.upstreams;
        }
      case Location =>
        if InUse(config, c, name) {
          var s :| s in config.servers && Lists(config.servers[s].locations, name);
          assert s in after.servers && Lists(after.servers[s].locations, name);
        }
      case Plugin =>
        if InUse(config, c, name) {
          var l :| l in config.locations && Lists(config.locations[l].plugins, name);
          assert l in after.locations && Lists(after.locations[l].plugins, name);
        }
      case _ =>
    }
  }

  /** Deleting anything but a storage adds no inclusion. */
  lemma InclusionsShrink(config: Names, c: Category, name: string, n: string)
    ensures Included(Deleted(config, c, name), n) ==> Included(config, n)
    ensures c.Storage? ==> (Included(Deleted(config, c, name), n) <==> Included(config, n))
  {
    var after := Deleted(config, c, name);
    if s :| s in after.servers && Lists(after.servers[s].includes, n) {
      assert s in config.servers && config.servers[s] == after.servers[s];
    } else if l :| l in after.locations && Lists(after.locations[l].includes, n) {
      assert l in config.locations && config.locations[l] == after.locations[l];
    } else if u :| u in after.upstreams && Lists(after.upstreams[u], n) {
      assert u in config.upstreams && config.upstreams[u] == after.upstreams[u];
    }
  }

  /**
   * In a configuration whose references all resolve, a deletion is accepted if and only if it
   * leaves no dangling reference, or what goes is a storage: those are never refused, and dangle
   * exactly when something includes them.
   */
  lemma RefusedIffDangling(config: Names, c: Category, name: string)
    requires Resolved(config)
    ensures InUse(config, c, name) <==> !Resolved(Deleted(config, c, name)) && !c.Storage?
    ensures c.Storage? ==> (Resolved(Deleted(config, c, name)) <==> !Included(config, name))
  {
    var after := Deleted(config, c, name);
    LinksRefusedIff(config, c, name);
    forall n ensures Included(after, n) ==> Included(config, n) { InclusionsShrink(config, c, name, n); }
    if c.Storage? {
      InclusionsShrink(config, c, name, name);
    } else {
      assert after.storages == config.storages;
    }
  }

  /** The entries of a configuration, by section. */
  predicate Has(config: Names, c: Category, name: string) {
    match c
    case Server => name in config.servers
    case Location => name in config.locations
    case Upstream => name in config.upstreams
    case Plugin => name in config.plugins
    case Certificate => name in config.certificates
    case Storage => name in config.storages
    case Basic => false
  }

  /** A deletion takes the one entry, and what the others refer to stays as it is. */
  lemma DeletedIsGone(config: Names, c: Category, name: string, d: Category, n: string)
    requires !c.Basic?
    ensures var after := Deleted(config, c, name);
            && (Has(after, d, n) <==> Has(config, d, n) && !(d == c && n == name))
            && (n in after.servers ==> n in config.servers && after.servers[n] == config.servers[n])
            && (n in after.locations ==> n in config.locations && after.locations[n] == config.locations[n])
            && (n in after.upstreams ==> n in config.upstreams && after.upstreams[n] == config.upstreams[n])
            && (n in after.storages ==> n in config.storages && after.storages[n] == config.storages[n])
  {}

  /** The three references that keep an entry from being removed. */
  lemma KeptWhileReferred(config: Names, x: string, name: string)
    ensures x in config.servers && Lists(config.servers[x].locations, name) ==> InUse(config, Location, name)
    ensures x in config.locations && Lists(config.locations[x].plugins, name) ==> InUse(config, Plugin, name)
    ensures x in config.locations && config.locations[x].upstream == Some(name) ==> InUse(config, Upstream, name)
  {}

  // ---- what an inclusion reads ----------------------------------------------------------

  /** The texts an entry includes; a storage that is not there is read as nothing. */
  function IncludedTexts(storages: map<string, string>, includes: seq<string>): seq<string> {
    seq(|includes|, i requires 0 <= i < |includes| =>
      if includes[i] in storages then storages[includes[i]] else "")
  }

  /** After the deletion exactly the places that list the storage read as empty, and nothing is reported. */
  lemma DeletedStorageReadsEmpty(config: Names, name: string, includes: seq<string>)
    ensures var before := IncludedTexts(config.storages, includes);
            var after := IncludedTexts(Deleted(config, Storage, name).storages, includes);
            && |after| == |before| == |includes|
            && forall i :: 0 <= i < |includes| ==> after[i] == if includes[i] == name then "" else before[i]
  {
    assert Deleted(config, Storage, name).storages == config.storages - {name};
  }

  const SHARED: Names :=
    Names(map[], map[], map["u" := Some(["s"])], {}, {}, map["s" := "addrs = []"])

  /** A storage an upstream includes: deleting it is not refused and leaves the inclusion dangling. */
  lemma StorageInUseIsDeleted()
    ensures Resolved(SHARED) && !InUse(SHARED, Storage, "s") && !Resolved(Deleted(SHARED, Storage, "s"))
    ensures IncludedTexts(SHARED.storages, ["s"]) == ["addrs = []"]
    ensures IncludedTexts(Deleted(SHARED, Storage, "s").storages, ["s"]) == [""]
  {
    assert forall n :: Lists(SHARED.upstreams["u"], n) ==> n == "s";
    assert "u" in SHARED.upstreams && Lists(SHARED.upstreams["u"], "s") && Included(SHARED, "s");
    RefusedIffDangling(SHARED, Storage, "s");
  }
}
