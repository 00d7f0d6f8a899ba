/** Which location a request is routed to: weights, and the order the locations are tried in. */
module Routing {
  import opened Toml

  // ---- weights --------------------------------------------------------------------------

  const U16: nat := 0x1_0000

  datatype LocationConf = LocationConf(weight: Option<nat>, path: Option<string>, host: Option<string>)

  datatype PathKind = Exact | Prefix | Regex

  function Path(c: LocationConf): string {
    if c.path.Some? then c.path.value else ""
  }

  function KindOf(path: string): PathKind
    requires path != ""
  {
    if path[0] == '=' then Exact else if path[0] == '~' then Regex else Prefix
  }

  function KindWeight(kind: PathKind): nat {
    match kind
    case Exact => 1024
    case Regex => 256
    case Prefix => 512
  }

  /** One of the comma separated hosts is a regular expression. */
  predicate RegexHost(host: string) {
    exists i :: 0 <= i < |host| && RegexAt(host, i)
  }

  predicate RegexAt(host: string, i: nat)
    requires i < |host|
  {
    host[i] == '~' && (i == 0 || host[i - 1] == ',')
  }

  function PathWeight(path: string): nat {
    if |path| > 1 then KindWeight(KindOf(path)) + (if |path| < 64 then |path| else 64) else 0
  }

  /** The length of a regular expression host counts, cast to 16 bits. */
  function HostWeight(host: Option<string>): nat {
    if host.None? then 0
    else if !RegexHost(host.value) && host.value != "" then 128
    else |host.value| % U16
  }

  /** The weight in 16 bits. */
  function Weight(c: LocationConf): nat {
    if c.weight.Some? then c.weight.value else (PathWeight(Path(c)) + HostWeight(c.host)) % U16
  }

  method GetWeight(c: LocationConf) returns (weight: nat)
    ensures weight == Weight(c)
  {
    if c.weight.Some? {
      return c.weight.value;
    }
    weight := 0;
    var path := Path(c);
    if |path| > 1 {
      if path[0] == '=' {
        weight := weight + 1024;
      } else if path[0] == '~' {
        weight := weight + 256;
      } else {
        weight := weight + 512;
      }
      weight := weight + if |path| < 64 then |path| else 64;
    }
    if c.host.Some? {
      var regex := HasRegexHost(c.host.value);
      if !regex && c.host.value != "" {
        weight := weight + 128;
      } else {
        weight := (weight + |c.host.value| % U16) % U16;
      }
    }
  }

  method HasRegexHost(host: string) returns (r: bool)
    ensures r == RegexHost(host)
  {
    var start := true;
    for i := 0 to |host|
      invariant start == (i == 0 || host[i - 1] == ',')
      invariant forall j :: 0 <= j < i ==> !RegexAt(host, j)
    {
      assert RegexAt(host, i) <==> start && host[i] == '~';
      if start && host[i] == '~' {
        return true;
      }
      start := host[i] == ',';
    }
    return false;
  }

  /** A weight that is computed from a path of some length; regular expression hosts are bounded. */
  predicate Ranked(c: LocationConf, bound: nat) {
    && c.weight.None? && |Path(c)| > 1
    && (c.host.Some? && RegexHost(c.host.value) ==> |c.host.value| <= bound)
  }

  predicate Outranks(a: PathKind, b: PathKind) {
    (a.Exact? && !b.Exact?) || (a.Prefix? && b.Regex?)
  }

  /** Kinds of paths outweigh each other whatever the paths and hosts. */
  ghost predicate BandsApart(bound: nat) {
    forall a, b :: Ranked(a, bound) && Ranked(b, bound) && Outranks(KindOf(Path(a)), KindOf(Path(b))) ==>
      Weight(a) > Weight(b)
  }

  lemma RankedWeight(c: LocationConf)
    requires Ranked(c, 193)
    ensures Weight(c) == PathWeight(Path(c)) + HostWeight(c.host) < U16
    ensures KindWeight(KindOf(Path(c))) + 2 <= Weight(c) <= KindWeight(KindOf(Path(c))) + 64 + 193
  {}

  function Repeat(c: char, n: nat): (s: string)
    ensures |s| == n
  {
    seq(n, i => c)
  }

  /** With a longer regular expression host, a regular expression path weighs as much as a prefix. */
  lemma LongHostTies()
    ensures var prefix := LocationConf(None, Some("/a"), None);
            var regex := LocationConf(None, Some("~" + Repeat('a', 63)), Some("~" + Repeat('a', 193)));
            && Ranked(prefix, 194) && Ranked(regex, 194) && Outranks(KindOf(Path(prefix)), KindOf(Path(regex)))
            && Weight(prefix) == Weight(regex) == 514
  {
    var host := "~" + Repeat('a', 193);
    assert RegexAt(host, 0) && RegexHost(host);
  }

  /** 193 bytes is the exact bound. */
  lemma BandsApartIff(bound: nat)
    ensures BandsApart(bound) <==> bound <= 193
  {
    if bound <= 193 {
      forall a, b | Ranked(a, bound) && Ranked(b, bound) && Outranks(KindOf(Path(a)), KindOf(Path(b)))
        ensures Weight(a) > Weight(b)
      {
        RankedWeight(a);
        RankedWeight(b);
      }
    } else {
      LongHostTies();
      var prefix := LocationConf(None, Some("/a"), None);
      var regex := LocationConf(None, Some("~" + Repeat('a', 63)), Some("~" + Repeat('a', 193)));
      assert Ranked(prefix, bound) && Ranked(regex, bound) && !(Weight(prefix) > Weight(regex));
    }
  }

  // ---- order ----------------------------------------------------------------------------

  type Weights = map<string, nat>

  /** A location that is not configured weighs nothing. */
  function WeightIn(weights: Weights, name: string): nat {
    if name in weights then weights[name] else 0
  }

  function Insert(weights: Weights, x: string, sorted: seq<string>): seq<string> {
    if sorted == [] || WeightIn(weights, sorted[0]) <= WeightIn(weights, x) then [x] + sorted
    else [sorted[0]] + Insert(weights, x, sorted[1..])
  }

  /** The stable sort by descending weight. */
  function Sort(weights: Weights, items: seq<string>): seq<string> {
    if items == [] then [] else Insert(weights, items[0], Sort(weights, items[1..]))
  }

  predicate Descending(weights: Weights, items: seq<string>) {
    forall i, j :: 0 <= i < j < |items| ==> WeightIn(weights, items[i]) >= WeightIn(weights, items[j])
  }

  /** The items of one weight, in order. */
  function OfWeight(weights: Weights, items: seq<string>, w: nat): seq<string> {
    if items == [] then []
    else (if WeightIn(weights, items[0]) == w then [items[0]] else []) + OfWeight(weights, items[1..], w)
  }

  lemma {:induction false} InsertMembers(weights: Weights, x: string, sorted: seq<string>)
    ensures multiset(Insert(weights, x, sorted)) == multiset(sorted) + multiset{x}
  {
    if sorted != [] && WeightIn(weights, sorted[0]) > WeightIn(weights, x) {
      InsertMembers(weights, x, sorted[1..]);
      assert sorted == [sorted[0]] + sorted[1..];
    }
  }

  lemma {:induction false} InsertDescends(weights: Weights, x: string, sorted: seq<string>)
    requires Descending(weights, sorted)
    ensures Descending(weights, Insert(weights, x, sorted))
  {
    if sorted != [] && WeightIn(weights, sorted[0]) > WeightIn(weights, x) {
      var rest := Insert(weights, x, sorted[1..]);
      InsertDescends(weights, x, sorted[1..]);
      forall j | 0 <= j < |rest| ensures WeightIn(weights, sorted[0]) >= WeightIn(weights, rest[j]) {
        InsertMembers(weights, x, sorted[1..]);
        assert rest[j] in multiset(rest);
        assert rest[j] == x || rest[j] in sorted[1..];
      }
    }
  }

  lemma {:induction false} InsertStable(weights: Weights, x: string, sorted: seq<string>, w: nat)
    ensures OfWeight(weights, Insert(weights, x, sorted), w) ==
            (if WeightIn(weights, x) == w then [x] else []) + OfWeight(weights, sorted, w)
  {
    var all := Insert(weights, x, sorted);
    if sorted != [] && WeightIn(weights, sorted[0]) > WeightIn(weights, x) {
      assert all[1..] == Insert(weights, x, sorted[1..]);
      InsertStable(weights, x, sorted[1..], w);
    } else {
      assert all[1..] == sorted;
    }
  }

  /** Sorting permutes, orders by descending weight, and keeps the listed order among equal weights. */
  lemma {:induction false} SortSorts(weights: Weights, items: seq<string>, w: nat)
    ensures multiset(Sort(weights, items)) == multiset(items)
    ensures Descending(weights, Sort(weights, items))
    ensures OfWeight(weights, Sort(weights, items), w) == OfWeight(weights, items, w)
  {
    if items != [] {
      SortSorts(weights, items[1..], w);
      assert items == [items[0]] + items[1..];
      InsertMembers(weights, items[0], Sort(weights, items[1..]));
      InsertDescends(weights, items[0], Sort(weights, items[1..]));
      InsertStable(weights, items[0], Sort(weights, items[1..]), w);
    }
  }

  // ---- the first match ------------------------------------------------------------------

  /** The first location, in the order tried, that matches a request. */
  function FirstMatch(items: seq<string>, matches: set<string>): Option<string> {
    if items == [] then None
    else if items[0] in matches then Some(items[0])
    else FirstMatch(items[1..], matches)
  }

  lemma {:induction false} FirstMatchIff(items: seq<string>, matches: set<string>)
    ensures FirstMatch(items, matches).Some? <==> exists x <- items :: x in matches
    ensures FirstMatch(items, matches).Some? ==> FirstMatch(items, matches).value in items
    ensures FirstMatch(items, matches).Some? ==> FirstMatch(items, matches).value in matches
  {
    if items != [] {
      FirstMatchIff(items[1..], matches);
      assert items == [items[0]] + items[1..];
    }
  }

  /** In a descending list the first match is the first of its weight, and nothing that matches weighs more. */
  lemma {:induction false} FirstMatchWeighsMost(weights: Weights, items: seq<string>, matches: set<string>)
    requires Descending(weights, items) && FirstMatch(items, matches).Some?
    ensures var m := FirstMatch(items, matches).value;
            && (forall x <- items :: x in matches ==> WeightIn(weights, x) <= WeightIn(weights, m))
            && FirstMatch(OfWeight(weights, items, WeightIn(weights, m)), matches) == Some(m)
  {
    var m := FirstMatch(items, matches).value;
    var same := OfWeight(weights, items, WeightIn(weights, m));
    assert items == [items[0]] + items[1..];
    if items[0] in matches {
      assert same[0] == m;
    } else {
      assert Descending(weights, items[1..]);
      FirstMatchWeighsMost(weights, items[1..], matches);
      var rest := OfWeight(weights, items[1..], WeightIn(weights, m));
      if WeightIn(weights, items[0]) == WeightIn(weights, m) {
        assert same[0] == items[0] && same[1..] == rest;
      } else {
        assert same == rest;
      }
    }
  }

  /**
   * A request goes to the matching location of the greatest weight; among those, to the one the
   * server lists first.
   */
  lemma RoutedToHeaviest(weights: Weights, listed: seq<string>, matches: set<string>)
    ensures FirstMatch(Sort(weights, listed), matches).None? <==> forall x <- listed :: x !in matches
    ensures var m := FirstMatch(Sort(weights, listed), matches);
            m.Some? ==>
              && m.value in listed && m.value in matches
              && (forall x <- listed :: x in matches ==> WeightIn(weights, x) <= WeightIn(weights, m.value))
              && FirstMatch(OfWeight(weights, listed, WeightIn(weights, m.value)), matches) == m
  {
    var sorted := Sort(weights, listed);
    FirstMatchIff(sorted, matches);
    SortSorts(weights, listed, 0);
    forall x ensures x in sorted <==> x in listed {
      assert x in multiset(sorted) <==> x in multiset(listed);
    }
    var m := FirstMatch(sorted, matches);
    if m.Some? {
      FirstMatchWeighsMost(weights, sorted, matches);
      SortSorts(weights, listed, WeightIn(weights, m.value));
    }
  }

  // ---- in terms of the configured locations ---------------------------------------------

  function WeightsOf(locations: map<string, LocationConf>): Weights {
    map n | n in locations :: Weight(locations[n])
  }

  /** What stands later weighs no more; before a location that is not configured stands all that weighs anything. */
  lemma HeavierFirst(locations: map<string, LocationConf>, listed: seq<string>, i: nat, j: nat)
    requires i < j < |listed|
    ensures var sorted := Sort(WeightsOf(locations), listed);
            && |sorted| == |listed|
            && (sorted[i] in locations && sorted[j] in locations ==>
                  Weight(locations[sorted[i]]) >= Weight(locations[sorted[j]]))
            && (sorted[i] !in locations && sorted[j] in locations ==> Weight(locations[sorted[j]]) == 0)
  {
    var weights := WeightsOf(locations);
    SortSorts(weights, listed, 0);
    var sorted := Sort(weights, listed);
    assert |sorted| == |multiset(sorted)| == |multiset(listed)| == |listed|;
    assert WeightIn(weights, sorted[i]) >= WeightIn(weights, sorted[j]);
  }

  /** The items among some names, in order. */
  function Among(items: seq<string>, names: set<string>): seq<string> {
    if items == [] then [] else (if items[0] in names then [items[0]] else []) + Among(items[1..], names)
  }

  lemma {:induction false} AmongOfWeight(weights: Weights, items: seq<string>, names: set<string>, w: nat)
    requires forall n <- names :: WeightIn(weights, n) == w
    ensures Among(OfWeight(weights, items, w), names) == Among(items, names)
  {
    if items != [] {
      AmongOfWeight(weights, items[1..], names, w);
      var same := OfWeight(weights, items, w);
      if WeightIn(weights, items[0]) == w {
        assert same[0] == items[0] && same[1..] == OfWeight(weights, items[1..], w);
      } else {
        assert same == OfWeight(weights, items[1..], w);
      }
    }
  }

  /** Locations of one weight stay in the order in which the server lists them. */
  lemma EqualKeepOrder(locations: map<string, LocationConf>, listed: seq<string>, names: set<string>, w: nat)
    requires forall n <- names :: n in locations && Weight(locations[n]) == w
    ensures Among(Sort(WeightsOf(locations), listed), names) == Among(listed, names)
  {
    var weights := WeightsOf(locations);
    SortSorts(weights, listed, w);
    AmongOfWeight(weights, Sort(weights, listed), names, w);
    AmongOfWeight(weights, listed, names, w);
  }

  /**
   * A request goes to a listed location that matches, if there is one, and then no configured
   * location that matches weighs more than it; nor is it passed over for one of its weight listed later.
   */
  lemma RoutedLocation(locations: map<string, LocationConf>, listed: seq<string>, matches: set<string>)
    requires forall x <- listed :: x in matches ==> x in locations
    ensures var m := FirstMatch(Sort(WeightsOf(locations), listed), matches);
            && (m.None? <==> forall x <- listed :: x !in matches)
            && (m.Some? ==>
                  && m.value in listed && m.value in matches && m.value in locations
                  && (forall x <- listed :: x in matches ==> Weight(locations[x]) <= Weight(locations[m.value]))
                  && (var w := Weight(locations[m.value]);
                      var ties := set x | x in listed && x in matches && Weight(locations[x]) == w;
                      Among(listed, ties) != [] && Among(listed, ties)[0] == m.value))
  {
    var weights := WeightsOf(locations);
    RoutedToHeaviest(weights, listed, matches);
    var m := FirstMatch(Sort(weights, listed), matches);
    if m.Some? {
      var w := Weight(locations[m.value]);
      assert WeightIn(weights, m.value) == w;
      forall x | x in listed && x in matches ensures Weight(locations[x]) <= w {
        assert WeightIn(weights, x) <= WeightIn(weights, m.value);
      }
      var ties := set x | x in listed && x in matches && Weight(locations[x]) == w;
      FirstTie(weights, listed, matches, ties, w);
    }
  }

  /** The first match among the items of one weight is the first of those that match. */
  lemma {:induction false} FirstTie(
      weights: Weights, items: seq<string>, matches: set<string>, ties: set<string>, w: nat)
    requires forall x <- items :: x in ties <==> x in matches && WeightIn(weights, x) == w
    ensures var m := FirstMatch(OfWeight(weights, items, w), matches);
            m == if Among(items, ties) == [] then None else Some(Among(items, ties)[0])
  {
    if items != [] {
      assert items[0] in items;
      FirstTie(weights, items[1..], matches, ties, w);
      var same := OfWeight(weights, items, w);
      if WeightIn(weights, items[0]) == w {
        assert same[0] == items[0] && same[1..] == OfWeight(weights, items[1..], w);
      } else {
        assert same == OfWeight(weights, items[1..], w);
      }
    }
  }

  // ---- weights compared -----------------------------------------------------------------

  /** No part of a host list is a regular expression. */
  predicate PlainHost(host: string) {
    host != "" && host[0] != '~' && forall i :: 0 < i < |host| ==> !(host[i] == '~' && host[i - 1] == ',')
  }

  /** A set weight is the answer; a plain host adds 128 to what the path weighs. */
  lemma SetOrHost(c: LocationConf, host: string)
    ensures c.weight.Some? ==> Weight(c) == c.weight.value
    ensures c.weight.None? && PlainHost(host) ==> Weight(c.(host := Some(host))) == Weight(c.(host := None)) + 128
  {
    if PlainHost(host) {
      forall i | 0 <= i < |host| ensures !RegexAt(host, i) {}
    }
  }

  /** Within a kind and under one host, every further byte of the path up to 64 weighs one more. */
  lemma LongerPathWeighsMore(a: string, b: string, host: Option<string>)
    requires 1 < |a| <= |b| <= 64 && a[0] == b[0] && (host.Some? ==> |host.value| <= 60000)
    ensures Weight(LocationConf(None, Some(b), host)) == Weight(LocationConf(None, Some(a), host)) + |b| - |a|
  {}

  /** Beyond 64 bytes the length does not count. */
  lemma LongPathsTie(a: string, b: string, host: Option<string>)
    requires 64 <= |a| && 64 <= |b| && a[0] == b[0]
    ensures Weight(LocationConf(None, Some(a), host)) == Weight(LocationConf(None, Some(b), host))
  {}

  /** The three kinds of paths, and no path. */
  lemma PathWeights()
    ensures Weight(LocationConf(None, Some("=/x"), None)) == 1027
    ensures Weight(LocationConf(None, Some("/x"), None)) == 514
    ensures Weight(LocationConf(None, Some("~/x"), None)) == 259
    ensures Weight(LocationConf(None, Some("/"), None)) == Weight(LocationConf(None, None, None)) == 0
    ensures Weight(LocationConf(None, None, Some("~ab"))) == 3 && Weight(LocationConf(None, None, Some("a,~b"))) == 4
  {
    assert RegexAt("~ab", 0) && RegexHost("~ab");
    assert RegexAt("a,~b", 2) && RegexHost("a,~b");
  }

  // ---- publishing -----------------------------------------------------------------------

  /** The servers' lists; a server without one has no route. */
  type Servers = map<string, Option<seq<string>>>

  function RouteOf(weights: Weights, servers: Servers, name: string): Option<seq<string>>
    requires name in servers
  {
    if servers[name].None? then None else Some(Sort(weights, servers[name].value))
  }

  predicate Changed(routes: map<string, seq<string>>, name: string, route: Option<seq<string>>) {
    route.Some? && (name !in routes || routes[name] != route.value)
  }

  function ChangedNames(
      routes: map<string, seq<string>>, weights: Weights, servers: Servers, names: seq<string>): seq<string>
    requires forall n <- names :: n in servers
  {
    if names == [] then []
    else
      ChangedNames(routes, weights, servers, names[..|names| - 1]) +
      if Changed(routes, names[|names| - 1], RouteOf(weights, servers, names[|names| - 1]))
      then [names[|names| - 1]] else []
  }

  lemma {:induction false} ChangedMembers(
      routes: map<string, seq<string>>, weights: Weights, servers: Servers, names: seq<string>, n: string)
    requires forall m <- names :: m in servers
    ensures n in ChangedNames(routes, weights, servers, names) <==>
            n in names && servers[n].Some? && (n !in routes || routes[n] != Sort(weights, servers[n].value))
    decreases |names|
  {
    if names != [] {
      ChangedMembers(routes, weights, servers, names[..|names| - 1], n);
      assert names == names[..|names| - 1] + [names[|names| - 1]];
    }
  }

  class Provider {
    var routes: map<string, seq<string>>

    /** Rebuilds all routes and tells which of them changed. */
    method TryInitServerLocations(names: seq<string>, servers: Servers, locations: map<string, LocationConf>)
      returns (updated: seq<string>)
      requires Enumerates(names, servers.Keys)
      modifies this
      ensures var weights := WeightsOf(locations);
              && (forall n :: n in routes <==> n in servers && servers[n].Some?)
              && (forall n :: n in routes ==> routes[n] == Sort(weights, servers[n].value))
              && updated == ChangedNames(old(routes), weights, servers, names)
      ensures forall n :: n in updated <==> n in routes && (n !in old(routes) || old(routes)[n] != routes[n])
    {
      var weights := WeightsOf(locations);
      var built: map<string, seq<string>> := map[];
      updated := [];
      for i := 0 to |names|
        invariant routes == old(routes)
        invariant forall n :: n in built <==> n in names[..i] && servers[n].Some?
        invariant forall n :: n in built ==> built[n] == Sort(weights, servers[n].value)
        invariant updated == ChangedNames(routes, weights, servers, names[..i])
      {
        var n := names[i];
        assert names[..i + 1][..i] == names[..i] && names[..i + 1] == names[..i] + [n];
        if servers[n].Some? {
          var items := Sort(weights, servers[n].value);
          if n !in routes || routes[n] != items {
            updated := updated + [n];
          }
          built := built[n := items];
        }
      }
      assert names[..|names|] == names;
      forall n ensures n in updated <==> n in built && (n !in routes || routes[n] != built[n]) {
        ChangedMembers(routes, weights, servers, names, n);
      }
      routes := built;
    }
  }
}
