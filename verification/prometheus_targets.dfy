/**
 * `generate_prometheus_targets`: flattens the route map into Prometheus
 * file-based service-discovery records, one probe of the ingress service per
 * (hostname, base path) pair.
 */
module PrometheusTargets {
  import opened Wrappers
  import opened Sequences
  import opened Dict
  import opened ApigeeRoute
  import opened RouteParsing

  /** The fixed `job` label of every record. */
  const JobName: string := "apigee-health"

  /** The health endpoint path that precedes the base path in each probe URL. */
  const HealthPath: string := "/healthz"

  /** The `labels` object: `apigee_hostname`, `apigee_basepath` and `job`. */
  datatype Labels = Labels(apigeeHostname: string, apigeeBasepath: string, job: string)

  /** One record: the `targets` list (the probe URLs) and its labels. */
  datatype Target = Target(targets: seq<string>, labels: Labels)

  /**
   * `f"https://{service_ip}/healthz{route}"`: the URL splits back into the
   * scheme, the service address, the health path and the base path.
   */
  function ProbeUrl(serviceIp: string, route: string): (url: string)
    ensures |url| == |"https://"| + |serviceIp| + |HealthPath| + |route|
    ensures StartsWith(url, "https://")
    ensures url[|"https://"|..|"https://"| + |serviceIp|] == serviceIp
    ensures url[|"https://"| + |serviceIp|..|"https://"| + |serviceIp| + |HealthPath|] == HealthPath
    ensures url[|"https://"| + |serviceIp| + |HealthPath|..] == route
  {
    "https://" + serviceIp + HealthPath + route
  }

  /** The record probing base path `route` of `hostname` through the service address. */
  function HealthTarget(serviceIp: string, hostname: string, route: string): Target {
    Target([ProbeUrl(serviceIp, route)], Labels(hostname, route, JobName))
  }

  /** The records of one hostname, one per base path, in list order. */
  function HostTargets(serviceIp: string, hostname: string, routes: seq<string>): seq<Target> {
    seq(|routes|, j requires 0 <= j < |routes| => HealthTarget(serviceIp, hostname, routes[j]))
  }

  /** A record determines the hostname and the base path it was built from. */
  lemma HealthTargetInjective(serviceIp: string, h1: string, p1: string, h2: string, p2: string)
    ensures HealthTarget(serviceIp, h1, p1) == HealthTarget(serviceIp, h2, p2) <==> h1 == h2 && p1 == p2
  {
  }

  /** The records of one hostname are exactly the health records of its base paths. */
  lemma HostTargetsMembers(serviceIp: string, hostname: string, routes: seq<string>, t: Target)
    ensures t in HostTargets(serviceIp, hostname, routes) <==>
            exists p :: p in routes && t == HealthTarget(serviceIp, hostname, p)
  {
    var ts := HostTargets(serviceIp, hostname, routes);
    if t in ts {
      var j :| 0 <= j < |ts| && ts[j] == t;
      assert routes[j] in routes;
    }
    if p :| p in routes && t == HealthTarget(serviceIp, hostname, p) {
      var j :| 0 <= j < |routes| && routes[j] == p;
      assert ts[j] == t;
    }
  }

  /** The number of (hostname, base path) pairs of a route map. */
  function TotalRoutes(m: RouteMap): nat {
    if m == [] then 0 else |m[0].1| + TotalRoutes(m[1..])
  }

  /** `generate_prometheus_targets(route_map, service_ip)`. */
  function GeneratePrometheusTargets(m: RouteMap, serviceIp: string): (ts: seq<Target>)
    ensures |ts| == TotalRoutes(m)
    ensures m == [] ==> ts == []
    ensures forall t :: t in ts ==>
      exists i, j :: 0 <= i < |m| && 0 <= j < |m[i].1| && t == HealthTarget(serviceIp, m[i].0, m[i].1[j])
  {
    if m == [] then []
    else
      var rest := GeneratePrometheusTargets(m[1..], serviceIp);
      assert forall i :: 0 < i < |m| ==> m[i] == m[1..][i - 1];
      HostTargets(serviceIp, m[0].0, m[0].1) + rest
  }

  /** The number of base paths of the first `i` hostnames: where hostname `i`'s records start. */
  function Offset(m: RouteMap, i: nat): nat
    requires i <= |m|
  {
    if i == 0 then 0 else |m[0].1| + Offset(m[1..], i - 1)
  }

  /** The record for the `j`-th base path of the `i`-th hostname. */
  lemma {:induction false} TargetAt(m: RouteMap, serviceIp: string, i: nat, j: nat)
    requires i < |m| && j < |m[i].1|
    ensures Offset(m, i) + j < |GeneratePrometheusTargets(m, serviceIp)|
    ensures GeneratePrometheusTargets(m, serviceIp)[Offset(m, i) + j]
         == HealthTarget(serviceIp, m[i].0, m[i].1[j])
    decreases i
  {
    var ts := GeneratePrometheusTargets(m, serviceIp);
    var head := HostTargets(serviceIp, m[0].0, m[0].1);
    var rest := GeneratePrometheusTargets(m[1..], serviceIp);
    assert ts == head + rest;
    if i == 0 {
      assert ts[j] == head[j];
    } else {
      TargetAt(m[1..], serviceIp, i - 1, j);
      assert m[1..][i - 1] == m[i];
      var k := Offset(m[1..], i - 1) + j;
      assert ts[|head| + k] == rest[k];
    }
  }

  /**
   * The record for the `j`-th base path of the `i`-th hostname comes right
   * after the records of all hostnames before it.
   */
  predicate PlacedAt(ts: seq<Target>, m: RouteMap, serviceIp: string, i: nat, j: nat)
    requires i < |m| && j < |m[i].1|
  {
    Offset(m, i) + j < |ts| && ts[Offset(m, i) + j] == HealthTarget(serviceIp, m[i].0, m[i].1[j])
  }

  /** Every record is placed hostname-major, then base-path-minor. */
  predicate HostnameMajor(ts: seq<Target>, m: RouteMap, serviceIp: string) {
    forall i: nat, j: nat :: i < |m| && j < |m[i].1| ==> PlacedAt(ts, m, serviceIp, i, j)
  }

  /**
   * Records come out hostname-major in map order, then base-path-minor in
   * list order.
   */
  lemma TargetsHostnameMajor(m: RouteMap, serviceIp: string)
    ensures HostnameMajor(GeneratePrometheusTargets(m, serviceIp), m, serviceIp)
  {
    var ts := GeneratePrometheusTargets(m, serviceIp);
    forall i: nat, j: nat | i < |m| && j < |m[i].1|
      ensures PlacedAt(ts, m, serviceIp, i, j)
    {
      TargetAt(m, serviceIp, i, j);
    }
  }

  /** Well-formed route maps give pairwise different records. */
  lemma {:induction false} TargetsDistinct(m: RouteMap, serviceIp: string)
    requires Valid(m)
    requires forall i :: 0 <= i < |m| ==> Distinct(m[i].1)
    ensures Distinct(GeneratePrometheusTargets(m, serviceIp))
  {
    if m != [] {
      var head := HostTargets(serviceIp, m[0].0, m[0].1);
      var rest := GeneratePrometheusTargets(m[1..], serviceIp);
      assert Keys(m[1..]) == Keys(m)[1..];
      TargetsDistinct(m[1..], serviceIp);
      forall t | t in rest
        ensures t.labels.apigeeHostname != m[0].0
      {
        var i, j :| 0 <= i < |m[1..]| && 0 <= j < |m[1..][i].1|
          && t == HealthTarget(serviceIp, m[1..][i].0, m[1..][i].1[j]);
        assert Keys(m)[i + 1] == t.labels.apigeeHostname;
      }
      assert forall t :: t in head ==> t.labels.apigeeHostname == m[0].0;
      DistinctConcat(head, rest);
    }
  }

  /** Every record of the parsed map probes a kept base path of an item naming its hostname. */
  lemma DiscoveredTargetsSound(items: Option<seq<Route>>, serviceIp: string, t: Target)
    requires t in GeneratePrometheusTargets(ParseApigeeRoutes(items), serviceIp)
    ensures t.labels.job == JobName
    ensures t.targets == [ProbeUrl(serviceIp, t.labels.apigeeBasepath)]
    ensures IsProbedRoute(t.labels.apigeeBasepath)
    ensures var xs := items.GetOr([]);
      exists k :: 0 <= k < |xs| && t.labels.apigeeHostname in Hostnames(xs[k])
        && t.labels.apigeeBasepath in ItemRoutes(xs[k])
  {
    var m := ParseApigeeRoutes(items);
    ParsedWellFormed(items);
    var i, j :| 0 <= i < |m| && 0 <= j < |m[i].1| && t == HealthTarget(serviceIp, m[i].0, m[i].1[j]);
    GetStored(m, i);
    ParsedRoutes(items, m[i].0, m[i].1[j]);
  }

  /** Every (hostname, base path) pair of a well-formed route map has its record. */
  lemma TargetsCover(m: RouteMap, serviceIp: string, h: string, p: string)
    requires Valid(m)
    requires p in Routes(m, h)
    ensures HealthTarget(serviceIp, h, p) in GeneratePrometheusTargets(m, serviceIp)
  {
    var i :| 0 <= i < |m| && m[i].0 == h;
    GetStored(m, i);
    var j :| 0 <= j < |m[i].1| && m[i].1[j] == p;
    TargetAt(m, serviceIp, i, j);
  }

  /** Every kept base path of every item yields a record for each hostname of that item. */
  lemma DiscoveredTargetsComplete(items: Option<seq<Route>>, serviceIp: string, k: nat, h: string, p: string)
    requires var xs := items.GetOr([]);
      k < |xs| && h in Hostnames(xs[k]) && p in ItemRoutes(xs[k])
    ensures HealthTarget(serviceIp, h, p) in GeneratePrometheusTargets(ParseApigeeRoutes(items), serviceIp)
  {
    ParsedWellFormed(items);
    ParsedRoutes(items, h, p);
    TargetsCover(ParseApigeeRoutes(items), serviceIp, h, p);
  }

  /** The records generated from the parsed map are pairwise different. */
  lemma {:induction false} DiscoveredTargetsDistinct(items: Option<seq<Route>>, serviceIp: string)
    ensures Distinct(GeneratePrometheusTargets(ParseApigeeRoutes(items), serviceIp))
  {
    ParsedWellFormed(items);
    TargetsDistinct(ParseApigeeRoutes(items), serviceIp);
  }
}
