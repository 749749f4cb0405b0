/** The routes file: validation, the hash index over it, and its hot reload. */
module RouteConfig {
  import opened Common
  import opened Text
  import opened Balancer

  datatype Route = Route(
    path: string,
    method_: string,
    provider: Option<string>,
    model: Option<string>,
    providers: Option<seq<WeightedProvider>>)

  datatype ConfigFile = ConfigFile(routes: seq<Route>, customProviders: seq<string>)

  datatype Field = Path | Method | ProviderOrProviders

  datatype ConfigError =
    | MissingField(routeIndex: nat, field: Field)
    | InvalidProvider(routeIndex: nat, provider: string)
    | DuplicateRoute(path: string, method_: string, first: nat, second: nat)

  const KNOWN_PROVIDERS: seq<string> :=
    ["openai", "anthropic", "google_vertex_ai", "vertex_anthropic", "oci_genai", "ollama"]

  /** The string operations that validation and lookup rest on. */
  datatype Rules = Rules(upper: string -> string, blank: string -> bool, builtIn: string -> bool)

  /** The gateway's own: Unicode upper-casing, of which nothing more is needed, trimmed emptiness,
      and the built-in provider names. */
  function GatewayRules(upper: string -> string): Rules {
    Rules(upper, s => Trim(s) == [], name => name in KNOWN_PROVIDERS)
  }

  type Key = (string, string)

  predicate Keyed(rules: Rules, r: Route) { !rules.blank(r.path) && !rules.blank(r.method_) }

  function KeyOf(rules: Rules, r: Route): Key { (r.path, rules.upper(r.method_)) }

  predicate Known(rules: Rules, cfg: ConfigFile, name: string) {
    rules.builtIn(name) || name in cfg.customProviders
  }

  predicate HasProvider(rules: Rules, r: Route) {
    || (r.provider.Some? && !rules.blank(r.provider.value))
    || (r.providers.Some? && r.providers.value != [])
  }

  // ---- validation -----------------------------------------------------------------------

  /** The first of the first `n` routes with that key, by linear scan. */
  function FirstWithKey(rules: Rules, cfg: ConfigFile, n: nat, key: Key): (first: Option<nat>)
    requires n <= |cfg.routes|
    ensures first.Some? ==>
      first.value < n && Keyed(rules, cfg.routes[first.value]) && KeyOf(rules, cfg.routes[first.value]) == key
    ensures first.Some? ==>
      forall i :: 0 <= i < first.value && Keyed(rules, cfg.routes[i]) ==> KeyOf(rules, cfg.routes[i]) != key
    ensures first.None? ==> forall i :: 0 <= i < n && Keyed(rules, cfg.routes[i]) ==> KeyOf(rules, cfg.routes[i]) != key
  {
    if n == 0 then None else
      var first := FirstWithKey(rules, cfg, n - 1, key);
      if first.Some? then first
      else if Keyed(rules, cfg.routes[n - 1]) && KeyOf(rules, cfg.routes[n - 1]) == key then Some(n - 1)
      else None
  }

  function UnknownNames(rules: Rules, cfg: ConfigFile, idx: nat, ps: seq<WeightedProvider>): seq<ConfigError> {
    if ps == [] then [] else
      UnknownNames(rules, cfg, idx, ps[..|ps| - 1]) +
        if Known(rules, cfg, ps[|ps| - 1].name) then [] else [InvalidProvider(idx, ps[|ps| - 1].name)]
  }

  function FieldErrors(rules: Rules, cfg: ConfigFile, idx: nat): seq<ConfigError>
    requires idx < |cfg.routes|
  {
    var r := cfg.routes[idx];
    (if rules.blank(r.path) then [MissingField(idx, Path)] else [])
    + (if rules.blank(r.method_) then [MissingField(idx, Method)] else [])
    + (if HasProvider(rules, r) then [] else [MissingField(idx, ProviderOrProviders)])
  }

  function ProviderErrors(rules: Rules, cfg: ConfigFile, idx: nat): seq<ConfigError>
    requires idx < |cfg.routes|
  {
    var r := cfg.routes[idx];
    (if r.provider.Some? && !rules.blank(r.provider.value) && !Known(rules, cfg, r.provider.value)
     then [InvalidProvider(idx, r.provider.value)] else [])
    + (if r.providers.Some? then UnknownNames(rules, cfg, idx, r.providers.value) else [])
  }

  function DuplicateErrors(rules: Rules, cfg: ConfigFile, idx: nat): seq<ConfigError>
    requires idx < |cfg.routes|
  {
    var r := cfg.routes[idx];
    if !Keyed(rules, r) then [] else
      match FirstWithKey(rules, cfg, idx, KeyOf(rules, r))
      case None => []
      case Some(first) => [DuplicateRoute(r.path, r.method_, first, idx)]
  }

  /** The complete report on the first `n` routes. */
  function Report(rules: Rules, cfg: ConfigFile, n: nat): seq<ConfigError>
    requires n <= |cfg.routes|
  {
    Collected(Reporter(rules, cfg), n)
  }

  function Reporter(rules: Rules, cfg: ConfigFile): nat -> seq<ConfigError> {
    (i: nat) => if i < |cfg.routes| then RouteReport(rules, cfg, i) else []
  }

  function Collected(report: nat -> seq<ConfigError>, n: nat): seq<ConfigError> {
    if n == 0 then [] else Collected(report, n - 1) + report(n - 1)
  }

  function RouteReport(rules: Rules, cfg: ConfigFile, idx: nat): seq<ConfigError>
    requires idx < |cfg.routes|
  {
    FieldErrors(rules, cfg, idx) + ProviderErrors(rules, cfg, idx) + DuplicateErrors(rules, cfg, idx)
  }

  /** The map of keys already seen agrees with a linear scan. */
  ghost predicate SeenAgrees(rules: Rules, cfg: ConfigFile, n: nat, seen: map<Key, nat>)
    requires n <= |cfg.routes|
  {
    forall key :: FirstWithKey(rules, cfg, n, key) == if key in seen then Some(seen[key]) else None
  }

  method ValidateProviders(rules: Rules, cfg: ConfigFile, idx: nat) returns (errors: seq<ConfigError>)
    requires idx < |cfg.routes|
    ensures errors == ProviderErrors(rules, cfg, idx)
  {
    var r := cfg.routes[idx];
    errors := [];
    if r.provider.Some? && !rules.blank(r.provider.value) && !Known(rules, cfg, r.provider.value) {
      errors := [InvalidProvider(idx, r.provider.value)];
    }
    if r.providers.Some? {
      var ps, unknown := r.providers.value, [];
      for i := 0 to |ps|
        invariant unknown == UnknownNames(rules, cfg, idx, ps[..i])
      {
        assert ps[..i + 1][..i] == ps[..i];
        if !Known(rules, cfg, ps[i].name) {
          unknown := unknown + [InvalidProvider(idx, ps[i].name)];
        }
      }
      assert ps[..|ps|] == ps;
      errors := errors + unknown;
    }
  }

  method ValidateFields(rules: Rules, cfg: ConfigFile, idx: nat) returns (errors: seq<ConfigError>)
    requires idx < |cfg.routes|
    ensures errors == FieldErrors(rules, cfg, idx)
  {
    var r := cfg.routes[idx];
    errors := [];
    if rules.blank(r.path) { errors := errors + [MissingField(idx, Path)]; }
    if rules.blank(r.method_) { errors := errors + [MissingField(idx, Method)]; }
    if !HasProvider(rules, r) { errors := errors + [MissingField(idx, ProviderOrProviders)]; }
  }

  /** Reports the route if its key was seen, and remembers the key otherwise. */
  method DetectDuplicate(rules: Rules, cfg: ConfigFile, idx: nat, seen: map<Key, nat>)
    returns (errors: seq<ConfigError>, seen': map<Key, nat>)
    requires idx < |cfg.routes| && SeenAgrees(rules, cfg, idx, seen)
    ensures errors == DuplicateErrors(rules, cfg, idx) && SeenAgrees(rules, cfg, idx + 1, seen')
  {
    errors, seen' := [], seen;
    var r := cfg.routes[idx];
    if Keyed(rules, r) {
      var key := KeyOf(rules, r);
      assert FirstWithKey(rules, cfg, idx, key) == if key in seen then Some(seen[key]) else None;
      if key in seen {
        errors := [DuplicateRoute(r.path, r.method_, seen[key], idx)];
      } else {
        seen' := seen[key := idx];
      }
    }
  }

  /** Collects every error of the file, finding duplicates through a hash map. */
  method Validate(rules: Rules, cfg: ConfigFile) returns (errors: seq<ConfigError>)
    ensures errors == Report(rules, cfg, |cfg.routes|)
  {
    errors := [];
    var seen: map<Key, nat> := map[];
    for idx := 0 to |cfg.routes|
      invariant errors == Report(rules, cfg, idx)
      invariant SeenAgrees(rules, cfg, idx, seen)
    {
      var missing := ValidateFields(rules, cfg, idx);
      var invalid := ValidateProviders(rules, cfg, idx);
      var duplicate;
      duplicate, seen := DetectDuplicate(rules, cfg, idx, seen);
      assert missing + invalid + duplicate == RouteReport(rules, cfg, idx);
      errors := errors + (missing + invalid + duplicate);
    }
  }

  /** What a routes file must satisfy. */
  ghost predicate WellFormed(rules: Rules, cfg: ConfigFile) {
    RoutesWellFormed(rules, cfg, |cfg.routes|) && KeysDiffer(rules, cfg, |cfg.routes|)
  }

  ghost predicate RoutesWellFormed(rules: Rules, cfg: ConfigFile, n: nat)
    requires n <= |cfg.routes|
  {
    forall i :: 0 <= i < n ==> RouteWellFormed(rules, cfg, cfg.routes[i])
  }

  ghost predicate KeysDiffer(rules: Rules, cfg: ConfigFile, n: nat)
    requires n <= |cfg.routes|
  {
    forall i, j :: 0 <= i < j < n ==> KeyOf(rules, cfg.routes[i]) != KeyOf(rules, cfg.routes[j])
  }

  ghost predicate RouteWellFormed(rules: Rules, cfg: ConfigFile, r: Route) {
    && Keyed(rules, r) && HasProvider(rules, r)
    && (r.provider.Some? && !rules.blank(r.provider.value) ==> Known(rules, cfg, r.provider.value))
    && (r.providers.Some? ==> forall p :: p in r.providers.value ==> Known(rules, cfg, p.name))
  }

  lemma {:induction false} UnknownNamesEmptyIff(rules: Rules, cfg: ConfigFile, idx: nat, ps: seq<WeightedProvider>)
    ensures UnknownNames(rules, cfg, idx, ps) == [] <==> forall p :: p in ps ==> Known(rules, cfg, p.name)
  {
    if ps == [] {
    } else {
      UnknownNamesEmptyIff(rules, cfg, idx, ps[..|ps| - 1]);
      assert ps == ps[..|ps| - 1] + [ps[|ps| - 1]];
    }
  }

  lemma RouteErrorsEmptyIff(rules: Rules, cfg: ConfigFile, idx: nat)
    requires idx < |cfg.routes|
    ensures FieldErrors(rules, cfg, idx) == [] && ProviderErrors(rules, cfg, idx) == []
      <==> RouteWellFormed(rules, cfg, cfg.routes[idx])
  {
    var r := cfg.routes[idx];
    if r.providers.Some? { UnknownNamesEmptyIff(rules, cfg, idx, r.providers.value); }
  }

  lemma DuplicateErrorsEmptyIff(rules: Rules, cfg: ConfigFile, idx: nat)
    requires idx < |cfg.routes| && RoutesWellFormed(rules, cfg, idx + 1) && KeysDiffer(rules, cfg, idx)
    ensures DuplicateErrors(rules, cfg, idx) == [] <==> KeysDiffer(rules, cfg, idx + 1)
  {
    assert RouteWellFormed(rules, cfg, cfg.routes[idx]);
    var first := FirstWithKey(rules, cfg, idx, KeyOf(rules, cfg.routes[idx]));
    if first.None? {
      forall i | 0 <= i < idx ensures KeyOf(rules, cfg.routes[i]) != KeyOf(rules, cfg.routes[idx]) {
        assert RouteWellFormed(rules, cfg, cfg.routes[i]);
      }
    }
  }

  /** No error is reported exactly when every route is well formed and all keys differ. */
  lemma ReportEmptyIff(rules: Rules, cfg: ConfigFile, n: nat)
    requires n <= |cfg.routes|
    ensures Report(rules, cfg, n) == [] <==> RoutesWellFormed(rules, cfg, n) && KeysDiffer(rules, cfg, n)
  {
    ghost var fine := (i: nat) => i <= |cfg.routes| && RoutesWellFormed(rules, cfg, i) && KeysDiffer(rules, cfg, i);
    forall i: nat | i < n ensures fine(i + 1) <==> fine(i) && Reporter(rules, cfg)(i) == [] {
      if fine(i) { RouteReportEmptyIff(rules, cfg, i); }
    }
    NothingCollectedIff(Reporter(rules, cfg), fine, n);
  }

  /** Nothing is collected exactly when every step kept things fine. */
  lemma {:induction false} NothingCollectedIff(report: nat -> seq<ConfigError>, fine: nat -> bool, n: nat)
    requires fine(0) && forall i: nat :: i < n ==> (fine(i + 1) <==> fine(i) && report(i) == [])
    ensures Collected(report, n) == [] <==> fine(n)
  {
    if n == 0 {
    } else {
      NothingCollectedIff(report, fine, n - 1);
      EmptyConcat(Collected(report, n - 1), report(n - 1));
    }
  }

  lemma EmptyConcat(a: seq<ConfigError>, b: seq<ConfigError>)
    ensures a + b == [] <==> a == [] && b == []
  {
    assert a != [] ==> (a + b)[0] == a[0];
  }

  lemma RouteReportEmptyIff(rules: Rules, cfg: ConfigFile, idx: nat)
    requires idx < |cfg.routes| && RoutesWellFormed(rules, cfg, idx) && KeysDiffer(rules, cfg, idx)
    ensures RouteReport(rules, cfg, idx) == []
      <==> RoutesWellFormed(rules, cfg, idx + 1) && KeysDiffer(rules, cfg, idx + 1)
  {
    RouteErrorsEmptyIff(rules, cfg, idx);
    if RouteWellFormed(rules, cfg, cfg.routes[idx]) {
      DuplicateErrorsEmptyIff(rules, cfg, idx);
    }
  }

  /** What makes a reported error true of a file. */
  ghost predicate Deserved(rules: Rules, cfg: ConfigFile, e: ConfigError) {
    match e
    case MissingField(i, field) =>
      i < |cfg.routes| &&
      (match field
       case Path => rules.blank(cfg.routes[i].path)
       case Method => rules.blank(cfg.routes[i].method_)
       case ProviderOrProviders => !HasProvider(rules, cfg.routes[i]))
    case InvalidProvider(i, name) =>
      && i < |cfg.routes| && !Known(rules, cfg, name)
      && ((cfg.routes[i].provider == Some(name) && !rules.blank(name))
          || (cfg.routes[i].providers.Some? && exists p :: p in cfg.routes[i].providers.value && p.name == name))
    case DuplicateRoute(path, method_, first, second) =>
      && first < second < |cfg.routes|
      && cfg.routes[second].path == path && cfg.routes[second].method_ == method_
      && Keyed(rules, cfg.routes[first]) && Keyed(rules, cfg.routes[second])
      && KeyOf(rules, cfg.routes[first]) == KeyOf(rules, cfg.routes[second])
      && forall k :: 0 <= k < first && Keyed(rules, cfg.routes[k]) ==>
           KeyOf(rules, cfg.routes[k]) != KeyOf(rules, cfg.routes[second])
  }

  function RouteOf(e: ConfigError): nat {
    match e
    case MissingField(i, _) => i
    case InvalidProvider(i, _) => i
    case DuplicateRoute(_, _, _, second) => second
  }

  /** Validation reports every error of the file and nothing else. */
  lemma ReportsExactly(rules: Rules, cfg: ConfigFile, e: ConfigError)
    ensures e in Report(rules, cfg, |cfg.routes|) <==> Deserved(rules, cfg, e)
  {
    var n, report := |cfg.routes|, Reporter(rules, cfg);
    forall i: nat | i < n ensures e in report(i) <==> RouteOf(e) == i && Deserved(rules, cfg, e) {
      RouteReportsExactly(rules, cfg, i, e);
    }
    CollectedMember(report, n, e);
    if Deserved(rules, cfg, e) {
      assert RouteOf(e) < n && e in report(RouteOf(e));
    }
  }

  lemma {:induction false} CollectedMember(report: nat -> seq<ConfigError>, n: nat, e: ConfigError)
    ensures e in Collected(report, n) <==> exists i: nat :: i < n && e in report(i)
  {
    if n == 0 {
    } else {
      CollectedMember(report, n - 1, e);
    }
  }

  lemma RouteReportsExactly(rules: Rules, cfg: ConfigFile, i: nat, e: ConfigError)
    requires i < |cfg.routes|
    ensures e in RouteReport(rules, cfg, i) <==> RouteOf(e) == i && Deserved(rules, cfg, e)
  {
    FieldsExactly(rules, cfg, i, e);
    ProvidersExactly(rules, cfg, i, e);
    DuplicatesExactly(rules, cfg, i, e);
    InThree(FieldErrors(rules, cfg, i), ProviderErrors(rules, cfg, i), DuplicateErrors(rules, cfg, i), e);
  }

  lemma InThree(a: seq<ConfigError>, b: seq<ConfigError>, c: seq<ConfigError>, e: ConfigError)
    ensures e in a + b + c <==> e in a || e in b || e in c
  {
  }

  lemma FieldsExactly(rules: Rules, cfg: ConfigFile, i: nat, e: ConfigError)
    requires i < |cfg.routes|
    ensures e in FieldErrors(rules, cfg, i) <==> e.MissingField? && e.routeIndex == i && Deserved(rules, cfg, e)
  {
  }

  lemma ProvidersExactly(rules: Rules, cfg: ConfigFile, i: nat, e: ConfigError)
    requires i < |cfg.routes|
    ensures e in ProviderErrors(rules, cfg, i) <==> e.InvalidProvider? && e.routeIndex == i && Deserved(rules, cfg, e)
  {
    var r := cfg.routes[i];
    if r.providers.Some? { UnknownNamesExactly(rules, cfg, i, r.providers.value, e); }
  }

  lemma {:induction false} UnknownNamesExactly(rules: Rules, cfg: ConfigFile, idx: nat,
                                               ps: seq<WeightedProvider>, e: ConfigError)
    ensures e in UnknownNames(rules, cfg, idx, ps) <==>
      && e.InvalidProvider? && e.routeIndex == idx && !Known(rules, cfg, e.provider)
      && exists p :: p in ps && p.name == e.provider
  {
    if ps == [] {
    } else {
      var init, last := ps[..|ps| - 1], ps[|ps| - 1];
      UnknownNamesExactly(rules, cfg, idx, init, e);
      assert ps == init + [last];
    }
  }

  lemma DuplicatesExactly(rules: Rules, cfg: ConfigFile, i: nat, e: ConfigError)
    requires i < |cfg.routes|
    ensures e in DuplicateErrors(rules, cfg, i) <==> e.DuplicateRoute? && e.second == i && Deserved(rules, cfg, e)
  {
    var first := FirstWithKey(rules, cfg, i, KeyOf(rules, cfg.routes[i]));
    assert first.Some? && e.DuplicateRoute? ==>
      first.value == e.first || first.value < e.first || e.first < first.value;
  }

  /** Errors are reported route by route. */
  lemma ReportInOrder(rules: Rules, cfg: ConfigFile)
    ensures InRouteOrder(Report(rules, cfg, |cfg.routes|))
  {
    forall i: nat, e | e in Reporter(rules, cfg)(i) ensures RouteOf(e) == i {
      RouteReportsExactly(rules, cfg, i, e);
    }
    CollectedInOrder(Reporter(rules, cfg), |cfg.routes|);
  }

  ghost predicate InRouteOrder(errors: seq<ConfigError>) {
    forall i, j :: 0 <= i < j < |errors| ==> RouteOf(errors[i]) <= RouteOf(errors[j])
  }

  lemma {:induction false} CollectedInOrder(report: nat -> seq<ConfigError>, n: nat)
    requires forall i: nat, e :: e in report(i) ==> RouteOf(e) == i
    ensures InRouteOrder(Collected(report, n)) && forall e :: e in Collected(report, n) ==> RouteOf(e) < n
  {
    if n == 0 {
    } else {
      CollectedInOrder(report, n - 1);
      OrderedAppend(Collected(report, n - 1), report(n - 1), n - 1);
    }
  }

  lemma OrderedAppend(before: seq<ConfigError>, own: seq<ConfigError>, n: nat)
    requires InRouteOrder(before)
    requires (forall e :: e in before ==> RouteOf(e) < n) && forall e :: e in own ==> RouteOf(e) == n
    ensures InRouteOrder(before + own) && forall e :: e in before + own ==> RouteOf(e) <= n
  {
    var all := before + own;
    forall i, j | 0 <= i < j < |all| ensures RouteOf(all[i]) <= RouteOf(all[j]) {
      assert i < |before| ==> all[i] in before;
      assert i >= |before| ==> all[i] in own;
      assert j >= |before| ==> all[j] in own;
    }
  }

  // ---- the gateway's own rules ------------------------------------------------------------

  /** A provider name that the gateway accepts: one of its own, or one that the file registers. */
  predicate AcceptedName(cfg: ConfigFile, name: string) {
    || name == "openai" || name == "anthropic" || name == "google_vertex_ai"
    || name == "vertex_anthropic" || name == "oci_genai" || name == "ollama"
    || name in cfg.customProviders
  }

  /** A route that the gateway accepts on its own: path, method and a provider are given, and every provider
      that it names is known. */
  ghost predicate AcceptedRoute(cfg: ConfigFile, r: Route) {
    && !Blank(r.path) && !Blank(r.method_)
    && ((r.provider.Some? && !Blank(r.provider.value)) || (r.providers.Some? && |r.providers.value| > 0))
    && (r.provider.Some? && !Blank(r.provider.value) ==> AcceptedName(cfg, r.provider.value))
    && (r.providers.Some? ==> forall p :: p in r.providers.value ==> AcceptedName(cfg, p.name))
  }

  lemma GatewayRoute(upper: string -> string, cfg: ConfigFile, r: Route)
    ensures RouteWellFormed(GatewayRules(upper), cfg, r) <==> AcceptedRoute(cfg, r)
  {
    BlankTrimsToNothing(r.path);
    BlankTrimsToNothing(r.method_);
    if r.provider.Some? {
      BlankTrimsToNothing(r.provider.value);
    }
    forall name: string ensures Known(GatewayRules(upper), cfg, name) <==> AcceptedName(cfg, name) {
      GatewayName(upper, cfg, name);
    }
  }

  lemma GatewayName(upper: string -> string, cfg: ConfigFile, name: string)
    ensures Known(GatewayRules(upper), cfg, name) <==> AcceptedName(cfg, name)
  {
    assert name in KNOWN_PROVIDERS <==> exists k :: 0 <= k < 6 && KNOWN_PROVIDERS[k] == name;
  }

  /** The gateway accepts a file, at start-up and on reload, if and only if every route is acceptable and no two
      routes agree in path and upper-cased method. */
  lemma GatewayAcceptsIff(upper: string -> string, cfg: ConfigFile)
    ensures Acceptable(GatewayRules(upper), Some(cfg)) <==>
      && (forall i :: 0 <= i < |cfg.routes| ==> AcceptedRoute(cfg, cfg.routes[i]))
      && forall i, j :: 0 <= i < j < |cfg.routes| ==>
           cfg.routes[i].path != cfg.routes[j].path || upper(cfg.routes[i].method_) != upper(cfg.routes[j].method_)
  {
    var rules := GatewayRules(upper);
    AcceptableIsWellFormed(rules, cfg);
    forall i | 0 <= i < |cfg.routes|
      ensures RouteWellFormed(rules, cfg, cfg.routes[i]) <==> AcceptedRoute(cfg, cfg.routes[i])
    {
      GatewayRoute(upper, cfg, cfg.routes[i]);
    }
    forall i, j | 0 <= i < j < |cfg.routes|
      ensures KeyOf(rules, cfg.routes[i]) != KeyOf(rules, cfg.routes[j]) <==>
        cfg.routes[i].path != cfg.routes[j].path || upper(cfg.routes[i].method_) != upper(cfg.routes[j].method_)
    {
    }
  }

  // ---- the index --------------------------------------------------------------------------

  datatype Resolver = Resolver(config: ConfigFile, lookup: map<Key, nat>)

  function Index(rules: Rules, cfg: ConfigFile, n: nat): map<Key, nat>
    requires n <= |cfg.routes|
  {
    if n == 0 then map[] else Index(rules, cfg, n - 1)[KeyOf(rules, cfg.routes[n - 1]) := n - 1]
  }

  function ResolverOf(rules: Rules, cfg: ConfigFile): Resolver {
    Resolver(cfg, Index(rules, cfg, |cfg.routes|))
  }

  method NewResolver(rules: Rules, cfg: ConfigFile) returns (r: Resolver)
    ensures r == ResolverOf(rules, cfg)
  {
    var lookup := map[];
    for idx := 0 to |cfg.routes|
      invariant lookup == Index(rules, cfg, idx)
    {
      lookup := lookup[KeyOf(rules, cfg.routes[idx]) := idx];
    }
    r := Resolver(cfg, lookup);
  }

  /** The route that the index gives for a path and a method. */
  function Resolve(rules: Rules, r: Resolver, path: string, method_: string): Option<Route> {
    var key := (path, rules.upper(method_));
    if key in r.lookup && r.lookup[key] < |r.config.routes| then Some(r.config.routes[r.lookup[key]]) else None
  }

  predicate MatchesRoute(rules: Rules, r: Route, path: string, method_: string) {
    r.path == path && rules.upper(r.method_) == rules.upper(method_)
  }

  /** On any file, valid or not, the index holds the last route of each key. */
  lemma {:induction false} IndexHoldsLast(rules: Rules, cfg: ConfigFile, n: nat, key: Key)
    requires n <= |cfg.routes|
    ensures key in Index(rules, cfg, n) <==> exists i :: 0 <= i < n && KeyOf(rules, cfg.routes[i]) == key
    ensures key in Index(rules, cfg, n) ==>
      var last := Index(rules, cfg, n)[key];
      && last < n && KeyOf(rules, cfg.routes[last]) == key
      && forall i :: last < i < n ==> KeyOf(rules, cfg.routes[i]) != key
  {
    if n == 0 {
    } else {
      IndexHoldsLast(rules, cfg, n - 1, key);
      if KeyOf(rules, cfg.routes[n - 1]) == key { assert n - 1 < n; }
    }
  }

  /** On a validated file the lookup finds a route exactly when one matches, and then the only one. */
  lemma ResolveAgreesWithScan(rules: Rules, cfg: ConfigFile, path: string, method_: string, i: nat)
    requires WellFormed(rules, cfg) && i < |cfg.routes|
    ensures Resolve(rules, ResolverOf(rules, cfg), path, method_) == Some(cfg.routes[i])
      <==> exists j :: 0 <= j < |cfg.routes| && cfg.routes[j] == cfg.routes[i]
                       && MatchesRoute(rules, cfg.routes[j], path, method_)
    ensures MatchesRoute(rules, cfg.routes[i], path, method_) ==>
      forall j :: 0 <= j < |cfg.routes| && j != i ==> !MatchesRoute(rules, cfg.routes[j], path, method_)
  {
    var key := (path, rules.upper(method_));
    IndexHoldsLast(rules, cfg, |cfg.routes|, key);
    forall j | 0 <= j < |cfg.routes|
      ensures MatchesRoute(rules, cfg.routes[j], path, method_) <==> KeyOf(rules, cfg.routes[j]) == key
    {
    }
  }

  /** Nothing is found exactly when nothing matches. */
  lemma ResolveNoneIff(rules: Rules, cfg: ConfigFile, path: string, method_: string)
    ensures Resolve(rules, ResolverOf(rules, cfg), path, method_).None?
      <==> forall i :: 0 <= i < |cfg.routes| ==> !MatchesRoute(rules, cfg.routes[i], path, method_)
  {
    var key := (path, rules.upper(method_));
    IndexHoldsLast(rules, cfg, |cfg.routes|, key);
    forall i | 0 <= i < |cfg.routes|
      ensures MatchesRoute(rules, cfg.routes[i], path, method_) <==> KeyOf(rules, cfg.routes[i]) == key
    {
    }
  }

  // ---- hot reload -----------------------------------------------------------------------------

  /** A file that could be read and parsed, and passed validation. */
  predicate Acceptable(rules: Rules, file: Option<ConfigFile>) {
    file.Some? && Report(rules, file.value, |file.value.routes|) == []
  }

  class RouteConfigManager {
    const rules: Rules
    var current: Resolver

    constructor (rules: Rules, resolver: Resolver)
      ensures this.rules == rules && current == resolver
    {
      this.rules := rules;
      current := resolver;
    }

    /** Refuses to start on a file that is unreadable or invalid. */
    static method Start(upper: string -> string, file: Option<ConfigFile>) returns (manager: RouteConfigManager?)
      ensures manager != null <==> Acceptable(GatewayRules(upper), file)
      ensures manager != null ==>
        && fresh(manager) && manager.rules == GatewayRules(upper)
        && manager.current == ResolverOf(GatewayRules(upper), file.value)
    {
      var rules := GatewayRules(upper);
      if file.None? {
        return null;
      }
      var errors := Validate(rules, file.value);
      if errors != [] {
        return null;
      }
      var resolver := NewResolver(rules, file.value);
      manager := new RouteConfigManager(rules, resolver);
    }

    /** Publishes a good file, keeps the previous configuration otherwise. */
    method TryReload(file: Option<ConfigFile>)
      modifies this
      ensures current == if Acceptable(rules, file) then ResolverOf(rules, file.value) else old(current)
    {
      if file.None? {
        return;
      }
      var errors := Validate(rules, file.value);
      if errors == [] {
        current := NewResolver(rules, file.value);
      }
    }
  }

  /** What is published after a sequence of file contents. */
  function Published(rules: Rules, start: Resolver, files: seq<Option<ConfigFile>>): Resolver {
    if files == [] then start else
      var file := files[|files| - 1];
      if Acceptable(rules, file) then ResolverOf(rules, file.value)
      else Published(rules, start, files[..|files| - 1])
  }

  /** Position of the last acceptable content, or -1. */
  function LastAcceptable(rules: Rules, files: seq<Option<ConfigFile>>): (at: int)
    ensures -1 <= at < |files| && (at >= 0 ==> Acceptable(rules, files[at]))
    ensures forall k :: at < k < |files| ==> !Acceptable(rules, files[k])
  {
    if files == [] then -1 else
      var last := |files| - 1;
      if Acceptable(rules, files[last]) then last else LastAcceptable(rules, files[..last])
  }

  /** The content that should be in force: the last acceptable one, or the initial one. */
  function LastGood(rules: Rules, initial: ConfigFile, files: seq<Option<ConfigFile>>): ConfigFile {
    var at := LastAcceptable(rules, files);
    if at == -1 then initial else files[at].value
  }

  lemma {:induction false} PublishedIsLastGood(rules: Rules, initial: ConfigFile, files: seq<Option<ConfigFile>>)
    ensures Published(rules, ResolverOf(rules, initial), files) == ResolverOf(rules, LastGood(rules, initial, files))
  {
    if files != [] && !Acceptable(rules, files[|files| - 1]) {
      PublishedIsLastGood(rules, initial, files[..|files| - 1]);
      assert LastGood(rules, initial, files) == LastGood(rules, initial, files[..|files| - 1]);
    }
  }

  lemma AcceptableIsWellFormed(rules: Rules, cfg: ConfigFile)
    ensures Acceptable(rules, Some(cfg)) <==> WellFormed(rules, cfg)
  {
    ReportEmptyIff(rules, cfg, |cfg.routes|);
  }

  /** Through every sequence of reloads the index answers like a linear scan of the last good file. */
  lemma IndexAgreesUnderReload(rules: Rules, initial: ConfigFile, files: seq<Option<ConfigFile>>,
                               path: string, method_: string)
    requires Acceptable(rules, Some(initial))
    ensures var cfg := LastGood(rules, initial, files);
            var found := Resolve(rules, Published(rules, ResolverOf(rules, initial), files), path, method_);
            && WellFormed(rules, cfg)
            && (found.None? <==>
                forall j :: 0 <= j < |cfg.routes| ==> !MatchesRoute(rules, cfg.routes[j], path, method_))
            && forall i :: 0 <= i < |cfg.routes| && MatchesRoute(rules, cfg.routes[i], path, method_) ==>
                 found == Some(cfg.routes[i])
  {
    var cfg := LastGood(rules, initial, files);
    PublishedIsLastGood(rules, initial, files);
    AcceptableIsWellFormed(rules, cfg);
    ResolveNoneIff(rules, cfg, path, method_);
    forall i | 0 <= i < |cfg.routes| && MatchesRoute(rules, cfg.routes[i], path, method_)
      ensures Resolve(rules, ResolverOf(rules, cfg), path, method_) == Some(cfg.routes[i])
    {
      ResolveAgreesWithScan(rules, cfg, path, method_, i);
    }
  }

  // ---- providers of a route ----------------------------------------------------------------------

  /** The providers the request handler may use: the list wins over the single provider. */
  function ExtractProviders(r: Route): seq<WeightedProvider> {
    match r.providers
    case Some(ps) => ps
    case None =>
      match r.provider
      case Some(name) => [WeightedProvider(name, 1, if r.model.Some? then r.model.value else "")]
      case None => []
  }

  /** A validated route leaves the handler without providers exactly when its list is present but
      empty, although it must then name a single provider. */
  lemma NoProvidersIff(rules: Rules, cfg: ConfigFile, r: Route)
    requires RouteWellFormed(rules, cfg, r)
    ensures ExtractProviders(r) == [] <==> r.providers == Some([])
    ensures r.providers == Some([]) ==> r.provider.Some? && !rules.blank(r.provider.value)
    ensures forall p :: p in ExtractProviders(r) ==> Known(rules, cfg, p.name)
  {
  }

  /** A route with a single provider always selects it, with the model of the route; a list is used as it is. */
  lemma SingleProviderSelected(r: Route, tick: u64)
    ensures r.providers.None? && r.provider.Some? ==>
      var selected := Selection(ExtractProviders(r), tick);
      && selected.Ok? && selected.value.name == r.provider.value && selected.value.weight == 1
      && selected.value.model == (match r.model case Some(model) => model case None => "")
    ensures r.providers.Some? ==> ExtractProviders(r) == r.providers.value
  {
  }
}
