/** One reload of the location map: what is reused, what is rebuilt, and what is published. */
module PolicyPublisher {
  import opened Toml

  const MAX_DOMAINS: nat := 256

  /** A configured location: its normalised host names, the hash of its settings, and whether it can be built. */
  datatype Conf = Conf(hosts: seq<string>, hash: string, valid: bool)

  /** A running location; `instance` tells two builds apart. */
  datatype Running = Running(key: string, instance: nat)

  type Configs = map<string, Conf>
  type Locations = map<string, Running>

  function Hosts(names: seq<string>, configs: Configs): seq<string>
    requires forall n <- names :: n in configs
  {
    if names == [] then [] else configs[names[0]].hosts + Hosts(names[1..], configs)
  }

  function HostSet(configs: Configs): set<string> {
    set n, h | n in configs && h in configs[n].hosts :: h
  }

  lemma {:induction false} HostsMembers(names: seq<string>, configs: Configs, h: string)
    requires forall n <- names :: n in configs
    ensures h in Hosts(names, configs) <==> exists n <- names :: h in configs[n].hosts
  {
    if names != [] {
      HostsMembers(names[1..], configs, h);
      assert names == [names[0]] + names[1..];
    }
  }

  lemma HostsNext(names: seq<string>, configs: Configs, i: nat, done: seq<string>)
    requires i < |names| && forall n <- names :: n in configs
    ensures done + Hosts(names[i..], configs) == (done + configs[names[i]].hosts) + Hosts(names[i + 1..], configs)
  {
    assert names[i..][1..] == names[i + 1..];
    Assoc(done, configs[names[i]].hosts, Hosts(names[i + 1..], configs));
  }

  lemma Assoc<T>(a: seq<T>, b: seq<T>, c: seq<T>)
    ensures (a + b) + c == a + (b + c)
  {}

  /** The provider never finds a location with an empty name. */
  predicate Reused(running: Locations, name: string, conf: Conf) {
    name != "" && name in running && running[name].key == conf.hash
  }

  predicate Buildable(running: Locations, configs: Configs) {
    forall n <- configs :: Reused(running, n, configs[n]) || configs[n].valid
  }

  /** The names whose locations are built anew, in the order visited. */
  function Updated(running: Locations, names: seq<string>, configs: Configs): seq<string>
    requires forall n <- names :: n in configs
  {
    if names == [] then []
    else
      (if Reused(running, names[0], configs[names[0]]) then [] else [names[0]]) +
      Updated(running, names[1..], configs)
  }

  lemma {:induction false} UpdatedAppend(running: Locations, names: seq<string>, n: string, configs: Configs)
    requires (forall m <- names :: m in configs) && n in configs
    ensures Updated(running, names + [n], configs) ==
            Updated(running, names, configs) + if Reused(running, n, configs[n]) then [] else [n]
  {
    if names == [] {
      assert [] + [n] == [n] && [n][1..] == [];
    } else {
      assert (names + [n])[1..] == names[1..] + [n];
      UpdatedAppend(running, names[1..], n, configs);
    }
  }

  /** A location that was reused if it could be and built from valid settings if not. */
  predicate Fresh(before: Locations, name: string, conf: Conf, now: Running) {
    && now.key == conf.hash
    && if Reused(before, name, conf) then now == before[name] else conf.valid
  }

  /** The part of the new map that belongs to the names visited so far. */
  ghost predicate BuiltFor(before: Locations, names: seq<string>, configs: Configs, built: Locations) {
    && (forall n :: n in built <==> n in names)
    && (forall n <- built :: n in configs && Fresh(before, n, configs[n], built[n]))
  }

  lemma BuiltNext(before: Locations, names: seq<string>, n: string, configs: Configs, built: Locations, now: Running)
    requires BuiltFor(before, names, configs, built) && n in configs && Fresh(before, n, configs[n], now)
    ensures BuiltFor(before, names + [n], configs, built[n := now])
  {}

  lemma BuiltAll(before: Locations, names: seq<string>, configs: Configs, built: Locations)
    requires Enumerates(names, configs.Keys) && BuiltFor(before, names, configs, built)
    ensures Buildable(before, configs) && Refreshed(before, built, configs)
  {
    assert built.Keys == configs.Keys;
    forall n | n in configs ensures Fresh(before, n, configs[n], built[n]) {}
  }

  /** Every configured location runs under its current settings; what did not change is the same instance. */
  predicate Refreshed(before: Locations, after: Locations, configs: Configs) {
    && after.Keys == configs.Keys
    && forall n <- configs ::
         && after[n].key == configs[n].hash
         && (Reused(before, n, configs[n]) ==> after[n] == before[n])
  }

  /** Loading the same settings again rebuilds nothing, except a location without a name: always that one. */
  lemma {:induction false} ReloadIsIdleIff(before: Locations, after: Locations, names: seq<string>, configs: Configs)
    requires Refreshed(before, after, configs) && forall n <- names :: n in configs
    ensures Updated(after, names, configs) == [] <==> "" !in names
    ensures forall n <- Updated(after, names, configs) :: n == ""
  {
    if names != [] {
      assert names[0] in names;
      ReloadIsIdleIff(before, after, names[1..], configs);
    }
  }

  /** A location with a name that runs under the settings it has now. */
  predicate Unchanged(running: Locations, configs: Configs, n: string)
    requires n in configs
  {
    n != "" && n in running && running[n].key == configs[n].hash
  }

  lemma {:induction false} UpdatedMembers(running: Locations, names: seq<string>, configs: Configs)
    requires forall n <- names :: n in configs
    ensures forall n :: n in Updated(running, names, configs) <==> n in names && !Unchanged(running, configs, n)
  {
    if names != [] {
      UpdatedMembers(running, names[1..], configs);
      assert names == [names[0]] + names[1..];
    }
  }

  class Publisher {
    var generation: nat
    var abuseHosts: seq<string>
    var registeredHosts: seq<string>
    var locations: Locations
    var instances: nat

    /** Too many hosts is refused before anything happens; a location that cannot be built publishes nothing. */
    method TryInitLocations(names: seq<string>, configs: Configs) returns (r: Result<seq<string>>)
      requires Enumerates(names, configs.Keys)
      modifies this
      ensures var distinct := set n, h | n in configs && h in configs[n].hosts :: h;
              && (r.Ok? <==>
                    && |distinct| <= 256
                    && forall n <- configs :: configs[n].valid || Unchanged(old(locations), configs, n))
              && generation == old(generation) + if |distinct| <= 256 then 2 else 0
      ensures r.Err? ==> unchanged(`abuseHosts, `registeredHosts, `locations)
      ensures r.Ok? ==>
                && abuseHosts == registeredHosts
                && (forall h :: h in abuseHosts <==> exists n <- configs :: h in configs[n].hosts)
                && locations.Keys == configs.Keys
                && (forall n <- configs ::
                      && locations[n].key == configs[n].hash
                      && (Unchanged(old(locations), configs, n) ==> locations[n] == old(locations)[n]))
                && (forall n :: n in r.value <==> n in configs && !Unchanged(old(locations), configs, n))
                && r.value == Updated(old(locations), names, configs)
    {
      UpdatedMembers(locations, names, configs);
      var hosts := CollectHosts(names, configs);
      var distinct := set h | h in hosts;
      forall h ensures h in hosts <==> h in HostSet(configs) {
        HostsMembers(names, configs, h);
      }
      assert distinct == HostSet(configs);
      if |distinct| > MAX_DOMAINS {
        return Err;
      }
      generation := generation + 1;
      var built, updated, ok := Build(names, configs);
      if !ok {
        generation := generation + 1;
        return Err;
      }
      abuseHosts := hosts;
      registeredHosts := hosts;
      locations := built;
      generation := generation + 1;
      return Ok(updated);
    }

    method CollectHosts(names: seq<string>, configs: Configs) returns (hosts: seq<string>)
      requires forall n <- names :: n in configs
      ensures hosts == Hosts(names, configs)
    {
      hosts := [];
      for i := 0 to |names|
        invariant hosts + Hosts(names[i..], configs) == Hosts(names, configs)
      {
        HostsNext(names, configs, i, hosts);
        hosts := hosts + configs[names[i]].hosts;
      }
    }

    /** The running location if its settings have not changed, otherwise a new one if it can be built. */
    method Obtain(n: string, conf: Conf) returns (now: Option<Running>, reused: bool)
      modifies `instances
      ensures reused == Reused(locations, n, conf)
      ensures now.None? <==> !reused && !conf.valid
      ensures now.Some? ==> Fresh(locations, n, conf, now.value)
    {
      if n != "" && n in locations && locations[n].key == conf.hash {
        return Some(locations[n]), true;
      }
      if !conf.valid {
        return None, false;
      }
      instances := instances + 1;
      return Some(Running(conf.hash, instances)), false;
    }

    /** Fills the new map, reusing what has not changed; stops at the first location that cannot be built. */
    method Build(names: seq<string>, configs: Configs) returns (built: Locations, updated: seq<string>, ok: bool)
      requires Enumerates(names, configs.Keys)
      modifies `instances
      ensures ok <==> Buildable(locations, configs)
      ensures ok ==> Refreshed(locations, built, configs) && updated == Updated(locations, names, configs)
    {
      built, updated := map[], [];
      for i := 0 to |names|
        invariant BuiltFor(locations, names[..i], configs, built)
        invariant updated == Updated(locations, names[..i], configs)
      {
        var n := names[i];
        var now, reused := Obtain(n, configs[n]);
        if !reused {
          updated := updated + [n];
        }
        if now.None? {
          return built, updated, false;
        }
        UpdatedAppend(locations, names[..i], n, configs);
        BuiltNext(locations, names[..i], n, configs, built, now.value);
        built := built[n := now.value];
        assert names[..i + 1] == names[..i] + [n];
      }
      assert names[..|names|] == names;
      BuiltAll(locations, names, configs, built);
      ok := true;
    }
  }
}
