# Apigee route discovery for Prometheus health probes — a Dafny model

The repository keeps a Prometheus file-based service-discovery file up to date
with one health probe per Apigee base path. Its pure core is two functions of
`python-script/generate_targets.py`:

- `parse_apigee_routes` reads the ApigeeRoute custom resources of a namespace
  and builds an insertion-ordered dict from hostname to base paths. Items
  without hostnames or HTTP rules are skipped. Each match contributes
  `prefixPattern` when it is non-empty and `prefix` otherwise. Empty base paths
  and Apigee-internal ones (under `/__apigee__/`) are dropped. The surviving
  base paths go under every hostname of the item, each listed once, in
  first-seen order.
- `generate_prometheus_targets` flattens that dict into records. Each record
  holds one probe URL `https://{service_ip}/healthz{route}` and three labels:
  `apigee_hostname`, `apigee_basepath` and `job = "apigee-health"`.

The model is functional. Resources are immutable datatypes whose optional keys
are `Option` fields. The Python dict is an association list
`seq<(key, value)>`, whose order is the dict's insertion order. Each Python
loop is a recursive function, folded in the same direction as the loop.

Files:

- `wrappers.dfy` — `Option`.
- `sequences.dfy` — distinctness, `startswith`, the append-if-absent loop
  (`AppendNew`), first-occurrence de-duplication (`Dedup`) and `ConcatMap`.
- `dict.dfy` — the dict model: `Keys`, `Get`, `SetDefault`, in-place update `Put`.
- `apigee_route.dfy` — the resource datatypes, prefix selection and filtering,
  and the kept base paths of one item.
- `route_parsing.dfy` — `parse_apigee_routes`, with a declarative reference
  map it is proved equal to.
- `prometheus_targets.dfy` — `generate_prometheus_targets` and the end-to-end
  properties of the generated records.

The main theorem is `RouteParsing.ParsedIsReference`: the parsed map equals
`ReferenceMap`. `ReferenceMap` is defined without the fold. Its keys are
`Dedup(HostOrder(items))`: the hostnames of every item that keeps a base path,
in item order, each at its first occurrence. Each key `h` maps to
`Dedup(RoutesFor(items, h))`: the kept base paths of every item listing `h`,
in item order, each at its first occurrence. The membership, order and
well-formedness lemmas follow from this theorem.

## Model

| member | source | states |
|---|---|---|
| `ApigeeRoute.SelectedPrefix` | python-script/generate_targets.py:53 | `prefixPattern or prefix` yields one of the two values. The result is non-empty exactly when one of them is. A non-empty `prefixPattern` wins. |
| `ApigeeRoute.KeptPrefix` | python-script/generate_targets.py:52-55 | A match yields `prefixPattern` when it is non-empty, otherwise `prefix`. The choice is kept only if it is non-empty and not under `/__apigee__/`. A reserved `prefixPattern` does not fall back to `prefix`. A match without `uri` or with neither key yields nothing. |
| `ApigeeRoute.MatchRoutes` | python-script/generate_targets.py:51-55 | A base path is collected from a list of matches exactly when some match keeps it. There are at most as many as there are matches. |
| `ApigeeRoute.MatchRoutesSingle` | python-script/generate_targets.py:52-55 | One match contributes its kept base path, or nothing. |
| `ApigeeRoute.MatchRoutesAppend` | python-script/generate_targets.py:51-55 | Matches are collected in list order: the routes of the earlier matches come first. |
| `ApigeeRoute.RulesRoutes` | python-script/generate_targets.py:50-55 | A base path is collected from the HTTP rules exactly when some match of some rule keeps it. A rule without `matches` contributes nothing. |
| `ApigeeRoute.RulesRoutesSingle` | python-script/generate_targets.py:50-55 | One rule contributes the kept base paths of its matches, in match order. |
| `ApigeeRoute.RulesRoutesAppend` | python-script/generate_targets.py:50-55 | Rules are collected in list order: the routes of earlier rules come first. With the two lemmas above this fixes the rule-then-match order of the collected list. |
| `ApigeeRoute.RuleWithoutMatchesSkipped` | python-script/generate_targets.py:51 | `MatchesOf` reads a missing `matches` as `[]`: such a rule, or one with no matches, can be removed from any position without changing the collected routes. |
| `ApigeeRoute.ItemRoutes` | python-script/generate_targets.py:47-55 | Every base path an item keeps is non-empty and not Apigee-internal. An item without `rules.http` keeps none. |
| `Sequences.AppendNew` | python-script/generate_targets.py:59-61 | After the append-if-absent loop, the list holds exactly the old and the new elements. |
| `Sequences.AppendNewKeepsPrefix` | python-script/generate_targets.py:59-61 | The append-if-absent loop keeps the existing list as a prefix. |
| `Sequences.AppendNewDistinct` | python-script/generate_targets.py:59-61 | The list stays duplicate-free when it was duplicate-free before. |
| `Sequences.AppendNewOrder` | python-script/generate_targets.py:59-61 | The appended part holds only new elements, in the order of their first occurrence among the appended routes. |
| `Sequences.AppendNewIdempotent` | python-script/generate_targets.py:57-61 | Appending the same routes twice, as for a hostname listed twice in one item, equals appending them once. |
| `Sequences.DedupFirstOccurrenceOrder` | python-script/generate_targets.py:57-61 | De-duplication keeps elements in the order of their first occurrence. |
| `Dict.Get` | python-script/generate_targets.py:60 | A lookup succeeds exactly for the dict's keys. |
| `Dict.GetStored` | python-script/generate_targets.py:60 | In a dict with distinct keys, looking up the key of any entry returns that entry's value. |
| `Dict.SetDefault` | python-script/generate_targets.py:58 | `setdefault` appends the key at the end only if it is new. It gives a new key the default value, keeps an existing key's value, and leaves every other key unchanged. |
| `Dict.Put` | python-script/generate_targets.py:61 | An in-place update keeps the key order and changes only the updated key's value. |
| `RouteParsing.AddRoutes` | python-script/generate_targets.py:58-61 | For one hostname: the hostname becomes a key if new. Its list gets each new route appended once. Other hostnames are untouched. |
| `RouteParsing.AddToHostsKeys` | python-script/generate_targets.py:57-58 | `AddToHosts`, the loop over one item's hostnames: the hostnames of an item become keys in order of first appearance, after the existing keys. |
| `RouteParsing.AddToHostsRoutes` | python-script/generate_targets.py:57-61 | `AddToHosts`: each hostname of the item gets the item's routes appended once, even when listed twice. Other hostnames are unchanged. |
| `RouteParsing.AddItemKeys` | python-script/generate_targets.py:45-58 | `AddItem`, one pass of the loop over items: an item adds its hostnames as keys exactly when it has hostnames, HTTP rules and a kept route. |
| `RouteParsing.AddItemRoutes` | python-script/generate_targets.py:45-61 | `AddItem`: an item appends its kept routes to each of its hostnames and to nothing else. A skipped item changes nothing. |
| `RouteParsing.ItemWithoutHostnamesSkipped` | python-script/generate_targets.py:45-48 | `Hostnames` reads a missing `spec` or `hostnames` as no hostnames: such an item, or one with an empty list, leaves the map unchanged. |
| `RouteParsing.ItemWithoutRulesSkipped` | python-script/generate_targets.py:45-48 | `HttpRules` reads a missing `spec`, `rules` or `http` as `[]`: such an item, or one with no rules, leaves the map unchanged. |
| `RouteParsing.CollectKeys` | python-script/generate_targets.py:44-61 | `Collect`, the loop over items: afterwards the keys are the contributing hostnames de-duplicated in insertion order. |
| `RouteParsing.CollectRoutes` | python-script/generate_targets.py:44-61 | `Collect`: afterwards each hostname lists the de-duplicated routes of the items naming it, in item order. |
| `RouteParsing.CollectIsReference` | python-script/generate_targets.py:44-61 | The loop over items builds exactly the declarative reference map. |
| `RouteParsing.ParseApigeeRoutes` | python-script/generate_targets.py:41-62 | An absent or empty item list gives the empty map. |
| `RouteParsing.ParsedIsReference` | python-script/generate_targets.py:41-62 | Any item list, absent or present, gives exactly the reference map. |
| `RouteParsing.HostOrderMembers` | python-script/generate_targets.py:48-58 | A hostname is gathered exactly when some item listing it keeps a route. |
| `RouteParsing.RoutesForMembers` | python-script/generate_targets.py:48-61 | A route is gathered for `h` exactly when some item listing `h` keeps it. |
| `RouteParsing.ParsedKeys` | python-script/generate_targets.py:56-58 | A hostname is a key exactly when some item listing it produced at least one kept route. |
| `RouteParsing.ParsedRoutes` | python-script/generate_targets.py:44-61 | Soundness and completeness: `p` is listed under `h` exactly when some item whose hostnames include `h` keeps `p`. |
| `RouteParsing.ParsedWellFormed` | python-script/generate_targets.py:54-61 | Keys are distinct. Every key maps to a non-empty, duplicate-free list. No listed route is empty or starts with `/__apigee__/`. |
| `RouteParsing.ParsedOrder` | python-script/generate_targets.py:57-61 | Keys are in order of first insertion. Each list is in order of first occurrence among the items' routes. |
| `RouteParsing.SkippedItemIrrelevant` | python-script/generate_targets.py:45-48 | An item with no hostnames, no HTTP rules or no kept route can be removed from anywhere in the list without changing the result. |
| `PrometheusTargets.ProbeUrl` | python-script/generate_targets.py:70 | The probe URL splits back into `https://`, the service address, `/healthz` and the base path. |
| `PrometheusTargets.HealthTargetInjective` | python-script/generate_targets.py:72-79 | A `HealthTarget` record is equal to another exactly when both are built from the same hostname and base path. |
| `PrometheusTargets.HostTargetsMembers` | python-script/generate_targets.py:68-79 | `HostTargets`, the inner loop over one hostname's base paths, yields exactly the health records of those base paths. |
| `PrometheusTargets.GeneratePrometheusTargets` | python-script/generate_targets.py:64-80 | There is one record per (hostname, base path) pair of the map. The empty map gives no records. Every record is the health record of one such pair. |
| `PrometheusTargets.TargetAt` | python-script/generate_targets.py:67-79 | The record for the `j`-th route of the `i`-th hostname is at position `Offset(m, i) + j`. `Offset(m, i)` is the number of routes of the hostnames before `i`. That record probes that route and carries that hostname. |
| `PrometheusTargets.TargetsHostnameMajor` | python-script/generate_targets.py:67-80 | Every record is placed hostname-major in map order, then in list order. |
| `PrometheusTargets.TargetsDistinct` | python-script/generate_targets.py:67-80 | A map with distinct keys and duplicate-free lists gives pairwise different records. |
| `PrometheusTargets.TargetsCover` | python-script/generate_targets.py:67-79 | Every (hostname, route) pair of a well-formed map has its record among the output. |
| `PrometheusTargets.DiscoveredTargetsSound` | python-script/generate_targets.py:70-78 | Each record of a parsed map has exactly one URL, `https://{ip}/healthz{basepath}`, and job `apigee-health`. Its basepath is a kept route. Its hostname is listed by an item that keeps that route. |
| `PrometheusTargets.DiscoveredTargetsComplete` | python-script/generate_targets.py:44-79 | Every kept route of every item yields a record for each hostname of that item. |
| `PrometheusTargets.DiscoveredTargetsDistinct` | python-script/generate_targets.py:56-79 | The records generated from a parsed map are pairwise different. |

## Left out

- `get_k8s_service_ip` and `get_apigee_routes_from_cluster` (lines 9-39) are Kubernetes API calls with exception handling. The service address and the item list are plain inputs of the model instead.
- `main` (lines 82-135) is left out: argument parsing, cluster configuration, the `sys.exit` paths and writing the JSON file. Its special case that writes `[]` for an empty map gives the same output as `GeneratePrometheusTargets`, whose contract gives no records for the empty map.
- The `print(..., file=sys.stderr)` logging is left out.
- JSON serialisation is left out. `Labels` fields stand for the keys `apigee_hostname`, `apigee_basepath` and `job`. `Target.targets` stands for the `targets` key.
- Ill-typed resources are outside the model: for example a null `spec`, `rules`, `matches` or `uri`, or a non-string prefix. The Python code raises on these, but the typed datatypes cannot express them. A missing key, and a null where Python treats it like a missing key, are modelled.
- The deployment workflow is not part of this model. It covers registry provisioning, image build, release install and workload-identity linking, and lives in shell scripts.
