/**
 * The ApigeeRoute custom resources listed from the cluster, as far as route
 * discovery reads them. Every field read with `.get` is an `Option` whose
 * `None` stands for a missing key; for `hostnames`, `http`, `prefixPattern` and
 * `prefix` it also stands for a JSON null, which the script treats alike.
 */
module ApigeeRoute {
  import opened Wrappers
  import opened Sequences

  /** The `uri` block of a match. */
  datatype UriMatch = UriMatch(prefixPattern: Option<string>, prefix: Option<string>)

  /** One entry of `matches`. */
  datatype Match = Match(uri: Option<UriMatch>)

  /** One entry of `spec.rules.http`. */
  datatype HttpRule = HttpRule(matches: Option<seq<Match>>)

  /** The `spec.rules` block. */
  datatype Rules = Rules(http: Option<seq<HttpRule>>)

  /** The `spec` block. */
  datatype RouteSpec = RouteSpec(hostnames: Option<seq<string>>, rules: Option<Rules>)

  /** One item of the listed resources. */
  datatype Route = Route(spec: Option<RouteSpec>)

  /** Base paths under this prefix are Apigee-internal and never probed. */
  const ReservedPrefix: string := "/__apigee__/"

  /** Python truthiness of an optional string: present and non-empty. */
  predicate Truthy(s: Option<string>) {
    s.Some? && s.value != ""
  }

  /** A base path worth probing: non-empty and not Apigee-internal. */
  predicate IsProbedRoute(p: string) {
    p != "" && !StartsWith(p, ReservedPrefix)
  }

  /** `uri.get('prefixPattern') or uri.get('prefix')`. */
  function SelectedPrefix(uri: UriMatch): (r: Option<string>)
    ensures r == uri.prefixPattern || r == uri.prefix
    ensures Truthy(r) <==> Truthy(uri.prefixPattern) || Truthy(uri.prefix)
    ensures Truthy(uri.prefixPattern) ==> r == uri.prefixPattern
  {
    if Truthy(uri.prefixPattern) then uri.prefixPattern else uri.prefix
  }

  /** The base path a match contributes, if it is kept. */
  function KeptPrefix(m: Match): (r: Option<string>)
    ensures r.Some? ==> IsProbedRoute(r.value)
    ensures m.uri.None? ==> r.None?
    ensures m.uri.Some? && Truthy(m.uri.value.prefixPattern) ==>
      r == (if IsProbedRoute(m.uri.value.prefixPattern.value) then m.uri.value.prefixPattern else None)
    ensures m.uri.Some? && !Truthy(m.uri.value.prefixPattern) ==>
      r == (if Truthy(m.uri.value.prefix) && IsProbedRoute(m.uri.value.prefix.value) then m.uri.value.prefix else None)
  {
    var uri := m.uri.GetOr(UriMatch(None, None));
    match SelectedPrefix(uri)
    case Some(p) => if p != "" && !StartsWith(p, ReservedPrefix) then Some(p) else None
    case None => None
  }

  /** The matches of a rule, `[]` when the key is missing. */
  function MatchesOf(rule: HttpRule): seq<Match> {
    rule.matches.GetOr([])
  }

  /** The kept base paths of a list of matches, in order. */
  function MatchRoutes(ms: seq<Match>): (rs: seq<string>)
    ensures |rs| <= |ms|
    ensures forall p :: p in rs <==> exists j :: 0 <= j < |ms| && KeptPrefix(ms[j]) == Some(p)
  {
    if ms == [] then []
    else
      var head := match KeptPrefix(ms[0]) case Some(p) => [p] case None => [];
      assert forall j :: 0 < j < |ms| ==> ms[j] == ms[1..][j - 1];
      head + MatchRoutes(ms[1..])
  }

  /** The kept base paths of a list of HTTP rules, rule by rule, match by match. */
  function RulesRoutes(rules: seq<HttpRule>): (rs: seq<string>)
    ensures forall p :: p in rs <==>
      exists i, j :: 0 <= i < |rules| && 0 <= j < |MatchesOf(rules[i])| && KeptPrefix(MatchesOf(rules[i])[j]) == Some(p)
  {
    if rules == [] then []
    else
      assert forall i :: 0 < i < |rules| ==> rules[i] == rules[1..][i - 1];
      MatchRoutes(MatchesOf(rules[0])) + RulesRoutes(rules[1..])
  }

  /** A single match contributes its kept base path, or nothing. */
  lemma MatchRoutesSingle(m: Match)
    ensures MatchRoutes([m]) == if KeptPrefix(m).Some? then [KeptPrefix(m).value] else []
  {
  }

  /** Matches are collected in list order: the routes of `a` come before those of `b`. */
  lemma {:induction false} MatchRoutesAppend(a: seq<Match>, b: seq<Match>)
    ensures MatchRoutes(a + b) == MatchRoutes(a) + MatchRoutes(b)
    decreases |a|
  {
    if a == [] {
      assert a + b == b;
    } else {
      assert (a + b)[0] == a[0];
      assert (a + b)[1..] == a[1..] + b;
      MatchRoutesAppend(a[1..], b);
    }
  }

  /** A single rule contributes the kept base paths of its matches. */
  lemma RulesRoutesSingle(rule: HttpRule)
    ensures RulesRoutes([rule]) == MatchRoutes(MatchesOf(rule))
  {
  }

  /** A rule without matches contributes nothing, wherever it stands among the rules. */
  lemma RuleWithoutMatchesSkipped(a: seq<HttpRule>, rule: HttpRule, b: seq<HttpRule>)
    requires rule.matches.None? || rule.matches == Some([])
    ensures RulesRoutes(a + [rule] + b) == RulesRoutes(a + b)
  {
    RulesRoutesAppend(a + [rule], b);
    RulesRoutesAppend(a, [rule]);
    RulesRoutesAppend(a, b);
  }

  /** Rules are collected in list order: the routes of `a` come before those of `b`. */
  lemma {:induction false} RulesRoutesAppend(a: seq<HttpRule>, b: seq<HttpRule>)
    ensures RulesRoutes(a + b) == RulesRoutes(a) + RulesRoutes(b)
    decreases |a|
  {
    if a == [] {
      assert a + b == b;
    } else {
      assert (a + b)[0] == a[0];
      assert (a + b)[1..] == a[1..] + b;
      RulesRoutesAppend(a[1..], b);
    }
  }

  /** `spec.get('hostnames')`, with a missing value read as no hostnames. */
  function Hostnames(item: Route): seq<string> {
    match item.spec
    case None => []
    case Some(s) => s.hostnames.GetOr([])
  }

  /** `spec.get('rules', {}).get('http', [])`. */
  function HttpRules(item: Route): seq<HttpRule> {
    match item.spec
    case None => []
    case Some(s) =>
      match s.rules
      case None => []
      case Some(r) => r.http.GetOr([])
  }

  /** The kept base paths of one item, duplicates included. */
  function ItemRoutes(item: Route): (rs: seq<string>)
    ensures forall p :: p in rs ==> IsProbedRoute(p)
    ensures HttpRules(item) == [] ==> rs == []
  {
    RulesRoutes(HttpRules(item))
  }
}
