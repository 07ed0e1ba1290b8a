/**
 * `parse_apigee_routes`: folds the listed route resources into an ordered map
 * from hostname to the base paths served under it.
 */
module RouteParsing {
  import opened Wrappers
  import opened Sequences
  import opened Dict
  import opened ApigeeRoute

  /** hostname -> de-duplicated base paths, in insertion order. */
  type RouteMap = Dict<string, seq<string>>

  /** The base paths listed under `h`; `[]` when `h` is not a key. */
  function Routes(m: RouteMap, h: string): seq<string> {
    Get(m, h).GetOr([])
  }

  /**
   * `hostname_map.setdefault(h, [])`, then appending each of `routes` that is
   * not yet listed under `h`.
   */
  function AddRoutes(m: RouteMap, h: string, routes: seq<string>): (r: RouteMap)
    ensures Keys(r) == AppendNew(Keys(m), [h])
    ensures Routes(r, h) == AppendNew(Routes(m, h), routes)
    ensures forall g :: g != h ==> Routes(r, g) == Routes(m, g)
  {
    var m1 := SetDefault(m, h, []);
    Put(m1, h, AppendNew(Get(m1, h).value, routes))
  }

  /** The loop over the hostnames of one item that kept some routes. */
  function AddToHosts(m: RouteMap, hosts: seq<string>, routes: seq<string>): RouteMap
    decreases |hosts|
  {
    if hosts == [] then m
    else AddToHosts(AddRoutes(m, hosts[0], routes), hosts[1..], routes)
  }

  /** The hostnames become keys in order of first appearance, after the existing keys. */
  lemma {:induction false} AddToHostsKeys(m: RouteMap, hosts: seq<string>, routes: seq<string>)
    ensures Keys(AddToHosts(m, hosts, routes)) == AppendNew(Keys(m), hosts)
    decreases |hosts|
  {
    if hosts != [] {
      var m1 := AddRoutes(m, hosts[0], routes);
      AddToHostsKeys(m1, hosts[1..], routes);
      AppendNewConcat(Keys(m), [hosts[0]], hosts[1..]);
      assert [hosts[0]] + hosts[1..] == hosts;
    }
  }

  /**
   * Each listed hostname, however often listed, gets the new routes appended
   * once; every other hostname keeps its routes.
   */
  lemma {:induction false} AddToHostsRoutes(m: RouteMap, hosts: seq<string>, routes: seq<string>, g: string)
    ensures Routes(AddToHosts(m, hosts, routes), g) ==
            if g in hosts then AppendNew(Routes(m, g), routes) else Routes(m, g)
    decreases |hosts|
  {
    if hosts != [] {
      var m1 := AddRoutes(m, hosts[0], routes);
      AddToHostsRoutes(m1, hosts[1..], routes, g);
      assert g in hosts <==> g == hosts[0] || g in hosts[1..];
      if g == hosts[0] {
        AppendNewIdempotent(Routes(m, g), routes);
      }
    }
  }

  /** The hostnames an item makes keys: all of them, provided it keeps a route. */
  function ContributedHosts(item: Route): seq<string> {
    if ItemRoutes(item) == [] then [] else Hostnames(item)
  }

  /**
   * One iteration of the loop over items: an item without hostnames, without
   * HTTP rules, or without a kept base path is skipped.
   */
  function AddItem(m: RouteMap, item: Route): RouteMap {
    var hostnames := Hostnames(item);
    var rules := HttpRules(item);
    if hostnames == [] || rules == [] then m
    else
      var routes := RulesRoutes(rules);
      if routes == [] then m else AddToHosts(m, hostnames, routes)
  }

  /** An item adds its hostnames as keys exactly when it keeps a route. */
  lemma AddItemKeys(m: RouteMap, item: Route)
    ensures Keys(AddItem(m, item)) == AppendNew(Keys(m), ContributedHosts(item))
  {
    if Hostnames(item) != [] && HttpRules(item) != [] && ItemRoutes(item) != [] {
      AddToHostsKeys(m, Hostnames(item), ItemRoutes(item));
    }
  }

  /** An item appends its kept routes to each of its hostnames and to nothing else. */
  lemma {:induction false} AddItemRoutes(m: RouteMap, item: Route, g: string)
    ensures Routes(AddItem(m, item), g) ==
            if g in ContributedHosts(item) then AppendNew(Routes(m, g), ItemRoutes(item)) else Routes(m, g)
  {
    if Hostnames(item) != [] && HttpRules(item) != [] && ItemRoutes(item) != [] {
      AddToHostsRoutes(m, Hostnames(item), ItemRoutes(item), g);
    }
  }

  /** An item whose `spec` has no `hostnames`, or an empty list of them, is skipped. */
  lemma ItemWithoutHostnamesSkipped(m: RouteMap, item: Route)
    requires item.spec.None? || item.spec.value.hostnames.None? || item.spec.value.hostnames == Some([])
    ensures AddItem(m, item) == m
  {
  }

  /** An item whose `spec` has no `rules.http`, or an empty list of rules, is skipped. */
  lemma ItemWithoutRulesSkipped(m: RouteMap, item: Route)
    requires item.spec.None? || item.spec.value.rules.None? ||
             item.spec.value.rules.value.http.None? || item.spec.value.rules.value.http == Some([])
    ensures AddItem(m, item) == m
  {
  }

  // Reference definitions: what the map holds, stated without the fold.

  /** The hostnames of every route-bearing item, in item order, repeats included. */
  function HostOrder(items: seq<Route>): seq<string> {
    ConcatMap(items, ContributedHosts)
  }

  /** The kept base paths an item contributes to `h`: all of them if it lists `h`. */
  function RoutesFrom(h: string, item: Route): seq<string> {
    if h in Hostnames(item) then ItemRoutes(item) else []
  }

  /** The kept base paths of every item listing `h`, in item order, repeats included. */
  function RoutesFor(items: seq<Route>, h: string): seq<string> {
    ConcatMap(items, item => RoutesFrom(h, item))
  }

  /** Each contributing hostname once, mapped to its base paths each listed once. */
  function ReferenceMap(items: seq<Route>): RouteMap {
    var hosts := Dedup(HostOrder(items));
    seq(|hosts|, i requires 0 <= i < |hosts| => (hosts[i], Dedup(RoutesFor(items, hosts[i]))))
  }

  /** The loop over all items. */
  function Collect(items: seq<Route>): RouteMap {
    if items == [] then []
    else AddItem(Collect(items[..|items| - 1]), items[|items| - 1])
  }

  /** The keys of the fold are the contributing hostnames, each at its first appearance. */
  lemma {:induction false} CollectKeys(items: seq<Route>)
    ensures Keys(Collect(items)) == Dedup(HostOrder(items))
  {
    if items != [] {
      var init := items[..|items| - 1];
      var last := items[|items| - 1];
      CollectKeys(init);
      AddItemKeys(Collect(init), last);
      AppendNewConcat([], HostOrder(init), ContributedHosts(last));
    }
  }

  /** The fold lists under `h` the routes of the items naming `h`, each once. */
  lemma {:induction false} CollectRoutes(items: seq<Route>, h: string)
    ensures Routes(Collect(items), h) == Dedup(RoutesFor(items, h))
  {
    if items != [] {
      var init := items[..|items| - 1];
      var last := items[|items| - 1];
      CollectRoutes(init, h);
      AddItemRoutes(Collect(init), last, h);
      if h in Hostnames(last) {
        AppendNewConcat([], RoutesFor(init, h), ItemRoutes(last));
      } else {
        assert RoutesFor(items, h) == RoutesFor(init, h) + [];
        assert RoutesFor(init, h) + [] == RoutesFor(init, h);
        assert Collect(items) == AddItem(Collect(init), last);
      }
    }
  }

  lemma {:induction false} CollectIsReference(items: seq<Route>)
    ensures Collect(items) == ReferenceMap(items)
  {
    var m := Collect(items);
    var r := ReferenceMap(items);
    var hosts := Dedup(HostOrder(items));
    assert Keys(r) == hosts;
    CollectKeys(items);
    forall h
      ensures Get(m, h) == Get(r, h)
    {
      CollectRoutes(items, h);
      if h in hosts {
        var i :| 0 <= i < |hosts| && hosts[i] == h;
        assert r[i] == (h, Dedup(RoutesFor(items, h)));
        GetStored(r, i);
      }
    }
    Extensionality(m, r);
  }

  /** `parse_apigee_routes(items)`: an absent or empty list gives the empty map. */
  function ParseApigeeRoutes(items: Option<seq<Route>>): (m: RouteMap)
    ensures items.None? || items == Some([]) ==> m == []
  {
    match items
    case None => []
    case Some(xs) => if xs == [] then [] else Collect(xs)
  }

  /** Main theorem: the parsed map is the reference map of the items. */
  lemma ParsedIsReference(items: Option<seq<Route>>)
    ensures ParseApigeeRoutes(items) == ReferenceMap(items.GetOr([]))
  {
    var xs := items.GetOr([]);
    if xs != [] {
      CollectIsReference(xs);
    }
  }

  /** The parsed map is the fold of the reference sequences. */
  lemma ParsedFold(items: Option<seq<Route>>)
    ensures Keys(ParseApigeeRoutes(items)) == Dedup(HostOrder(items.GetOr([])))
    ensures forall h :: Routes(ParseApigeeRoutes(items), h) == Dedup(RoutesFor(items.GetOr([]), h))
  {
    var xs := items.GetOr([]);
    if xs != [] {
      CollectKeys(xs);
      forall h
        ensures Routes(ParseApigeeRoutes(items), h) == Dedup(RoutesFor(xs, h))
      {
        CollectRoutes(xs, h);
      }
    }
  }

  /** A hostname is in the host order exactly when some item naming it keeps a route. */
  lemma HostOrderMembers(items: seq<Route>, h: string)
    ensures h in HostOrder(items) <==>
            exists i :: 0 <= i < |items| && h in Hostnames(items[i]) && ItemRoutes(items[i]) != []
  {
    ConcatMapMembers(items, ContributedHosts, h);
  }

  /** A base path is among those gathered for `h` exactly when some item naming `h` keeps it. */
  lemma RoutesForMembers(items: seq<Route>, h: string, p: string)
    ensures p in RoutesFor(items, h) <==>
            exists i :: 0 <= i < |items| && h in Hostnames(items[i]) && p in ItemRoutes(items[i])
  {
    ConcatMapMembers(items, item => RoutesFrom(h, item), p);
  }

  /**
   * A hostname is a key of the parsed map exactly when some item lists it and
   * keeps at least one base path.
   */
  lemma ParsedKeys(items: Option<seq<Route>>, h: string)
    ensures var xs := items.GetOr([]);
      h in Keys(ParseApigeeRoutes(items)) <==>
      exists i :: 0 <= i < |xs| && h in Hostnames(xs[i]) && ItemRoutes(xs[i]) != []
  {
    ParsedFold(items);
    HostOrderMembers(items.GetOr([]), h);
  }

  /**
   * Soundness and completeness: `p` is listed under `h` exactly when some item
   * whose hostnames include `h` keeps the base path `p`.
   */
  lemma ParsedRoutes(items: Option<seq<Route>>, h: string, p: string)
    ensures var xs := items.GetOr([]);
      p in Routes(ParseApigeeRoutes(items), h) <==>
      exists i :: 0 <= i < |xs| && h in Hostnames(xs[i]) && p in ItemRoutes(xs[i])
  {
    ParsedFold(items);
    RoutesForMembers(items.GetOr([]), h, p);
  }

  /** The `i`-th entry of the parsed map lists the de-duplicated routes gathered for its hostname. */
  lemma ParsedEntry(items: Option<seq<Route>>, i: nat)
    requires i < |ParseApigeeRoutes(items)|
    ensures var m := ParseApigeeRoutes(items);
      && m[i].0 in HostOrder(items.GetOr([]))
      && m[i].1 == Dedup(RoutesFor(items.GetOr([]), m[i].0))
  {
    var m := ParseApigeeRoutes(items);
    ParsedFold(items);
    GetStored(m, i);
    assert m[i].0 in Keys(m);
  }

  /**
   * Each hostname is a key once, and maps to a non-empty list of distinct base
   * paths, none empty and none Apigee-internal.
   */
  lemma ParsedWellFormed(items: Option<seq<Route>>)
    ensures Valid(ParseApigeeRoutes(items))
    ensures var m := ParseApigeeRoutes(items);
      forall i :: 0 <= i < |m| ==>
        && m[i].1 != []
        && Distinct(m[i].1)
        && forall p :: p in m[i].1 ==> IsProbedRoute(p)
  {
    var m := ParseApigeeRoutes(items);
    var xs := items.GetOr([]);
    ParsedFold(items);
    forall i | 0 <= i < |m|
      ensures m[i].1 != [] && Distinct(m[i].1) && forall p :: p in m[i].1 ==> IsProbedRoute(p)
    {
      var h := m[i].0;
      ParsedEntry(items, i);
      HostOrderMembers(xs, h);
      var k :| 0 <= k < |xs| && h in Hostnames(xs[k]) && ItemRoutes(xs[k]) != [];
      RoutesForMembers(xs, h, ItemRoutes(xs[k])[0]);
      forall p | p in m[i].1
        ensures IsProbedRoute(p)
      {
        RoutesForMembers(xs, h, p);
      }
    }
  }

  /**
   * Keys keep the order in which hostnames were first inserted, and each route
   * list the order in which its base paths first occurred.
   */
  lemma ParsedOrder(items: Option<seq<Route>>)
    ensures InFirstOccurrenceOrder(Keys(ParseApigeeRoutes(items)), HostOrder(items.GetOr([])), 0)
    ensures forall h :: InFirstOccurrenceOrder(Routes(ParseApigeeRoutes(items), h), RoutesFor(items.GetOr([]), h), 0)
  {
    ParsedFold(items);
    DedupFirstOccurrenceOrder(HostOrder(items.GetOr([])));
    forall h
      ensures InFirstOccurrenceOrder(Routes(ParseApigeeRoutes(items), h), RoutesFor(items.GetOr([]), h), 0)
    {
      DedupFirstOccurrenceOrder(RoutesFor(items.GetOr([]), h));
    }
  }

  /** The reference map depends on the items only through the host order and the per-host routes. */
  lemma ReferenceMapDeterminedBy(x: seq<Route>, y: seq<Route>)
    requires HostOrder(x) == HostOrder(y)
    requires forall h :: RoutesFor(x, h) == RoutesFor(y, h)
    ensures ReferenceMap(x) == ReferenceMap(y)
  {
  }

  /**
   * An item without hostnames, or without a kept base path (in particular one
   * without HTTP rules), has no effect wherever it stands in the list.
   */
  lemma SkippedItemIrrelevant(a: seq<Route>, item: Route, b: seq<Route>)
    requires Hostnames(item) == [] || HttpRules(item) == [] || ItemRoutes(item) == []
    ensures ParseApigeeRoutes(Some(a + [item] + b)) == ParseApigeeRoutes(Some(a + b))
  {
    ConcatMapSkip(a, item, b, ContributedHosts);
    forall h
      ensures RoutesFor(a + [item] + b, h) == RoutesFor(a + b, h)
    {
      ConcatMapSkip(a, item, b, item => RoutesFrom(h, item));
    }
    ReferenceMapDeterminedBy(a + [item] + b, a + b);
    ParsedIsReference(Some(a + [item] + b));
    ParsedIsReference(Some(a + b));
  }
}
