/**
  The domain matcher of magellan.py: routing rules keyed by a domain wildcard
  are resolved against the discovered services into the table
  `domain -> {addresses, allow_all}` that the load balancers are configured from.
 */
module Matcher {
  import opened Values
  import opened Dicts
  import opened Wildcard

  /** A discovered service group key `(name, env, app_id)`; a missing tag is `None`. */
  datatype ServiceIndex = ServiceIndex(name: Option<string>, env: Option<string>, appId: Option<string>)
  {
    function Fields(): (r: seq<Option<string>>)
      ensures |r| == 3
    {
      [name, env, appId]
    }
  }

  /** `{container_id: address}` of one service group. */
  type Addresses = Dict<string, string>

  /** What discovery returns: `{(name, env, app_id): {container_id: address}}`. */
  type ServiceTable = Dict<ServiceIndex, Addresses>

  /** The JSON scalars a rule's `allow_all` may hold; a missing key reads as `JNull`. */
  datatype JsonValue = JNull | JBool(b: bool) | JInt(i: int) | JString(s: string)

  /**
    One routing rule. `serviceName` is `None` when the rule has no
    `service_name` key and `Some(v)` when it has one, `v` being `None` for a
    JSON null; the other fields are `None` when their key is missing or null,
    since they are read with `get`.
   */
  datatype RuleDef = RuleDef(
    protocol: Option<string>,
    address: Option<string>,
    allowAll: JsonValue,
    serviceName: Option<Option<string>>,
    environment: Option<string>,
    appId: Option<string>)

  /** `{domain_wildcard: rule}` in iteration order. */
  type Rules = Dict<string, RuleDef>

  /** The resolved target of one domain. */
  datatype DomainMapping = DomainMapping(addresses: Addresses, allowAll: bool)

  type DomainTable = Dict<string, DomainMapping>

  // ---------------------------------------------------------------------------
  // match_domains_to_services

  /** Line 67 of magellan.py: each selector field compiled on its own. */
  function Patterns(selector: ServiceIndex): (r: seq<Option<Pattern>>)
    ensures |r| == 3
    ensures forall i | 0 <= i < 3 :: r[i] == Compile(selector.Fields()[i])
  {
    var fields := selector.Fields();
    assert fields[0] == selector.name && fields[1] == selector.env && fields[2] == selector.appId;
    [Compile(fields[0]), Compile(fields[1]), Compile(fields[2])]
  }

  /** Line 68 of magellan.py: a compiled field that still holds a '%' invalidates the rule. */
  predicate AnyUnresolved(pats: seq<Option<Pattern>>)
  {
    exists i | 0 <= i < |pats| :: Unresolved(pats[i])
  }

  /** Every field that reaches `re.match` is one Python's `re` reads as modelled here. */
  predicate SelectorUsable(selector: ServiceIndex)
  {
    var pats := Patterns(selector);
    AnyUnresolved(pats) || forall i | 0 <= i < 3 :: pats[i].Some? ==> Matchable(pats[i].value)
  }

  /**
    Lines 72-84 of magellan.py: the fields are tried in order; the groups of each
    matching field are merged into the replacements, a later field overwriting
    an earlier one on a shared name.
   */
  function FieldsMatch(pats: seq<Option<Pattern>>, fields: seq<Option<string>>): Option<Dict<string, string>>
    requires |pats| == |fields|
    decreases |pats|
  {
    if pats == [] then Some(Empty())
    else
      match FieldsMatch(pats[..|pats| - 1], fields[..|fields| - 1])
      case None => None
      case Some(replacements) =>
        match MatchField(pats[|pats| - 1], fields[|fields| - 1])
        case None => None
        case Some(groups) => Some(PutAll(replacements, groups))
  }

  /** A field matches as magellan.py means it, stated without the matcher. */
  ghost predicate FieldAgrees(pat: Option<Pattern>, v: Option<string>)
  {
    if pat.None? then !Truthy(v) else Truthy(v) && Accepts(pat.value, v.value)
  }

  /** A service qualifies exactly when every one of its fields agrees with the selector. */
  lemma {:induction false} FieldsMatchIff(pats: seq<Option<Pattern>>, fields: seq<Option<string>>)
    requires |pats| == |fields|
    ensures FieldsMatch(pats, fields).Some? <==> forall i | 0 <= i < |pats| :: FieldAgrees(pats[i], fields[i])
    decreases |pats|
  {
    if pats != [] {
      var n := |pats| - 1;
      FieldsMatchIff(pats[..n], fields[..n]);
      var r := MatchField(pats[n], fields[n]);
      assert r.Some? <==> FieldAgrees(pats[n], fields[n]);
      if forall i | 0 <= i < |pats| :: FieldAgrees(pats[i], fields[i]) {
        assert forall i | 0 <= i < n :: FieldAgrees(pats[..n][i], fields[..n][i]) by {
          forall i | 0 <= i < n ensures FieldAgrees(pats[..n][i], fields[..n][i]) {
            assert pats[..n][i] == pats[i] && fields[..n][i] == fields[i];
          }
        }
      }
      if FieldsMatch(pats, fields).Some? {
        forall i | 0 <= i < |pats| ensures FieldAgrees(pats[i], fields[i]) {
          if i < n { assert pats[..n][i] == pats[i] && fields[..n][i] == fields[i]; }
        }
      }
    }
  }

  lemma {:induction false} FieldsMatchNoneExtends(pats: seq<Option<Pattern>>, fields: seq<Option<string>>, k: nat)
    requires |pats| == |fields| && k <= |pats|
    requires FieldsMatch(pats[..k], fields[..k]).None?
    ensures FieldsMatch(pats, fields).None?
    decreases |pats| - k
  {
    if k < |pats| {
      FieldsMatchStep(pats, fields, k);
      FieldsMatchNoneExtends(pats, fields, k + 1);
    } else {
      assert pats[..k] == pats && fields[..k] == fields;
    }
  }

  /** The fields up to `i` match as the fields before `i` do, extended by field `i`. */
  lemma FieldsMatchStep(pats: seq<Option<Pattern>>, fields: seq<Option<string>>, i: nat)
    requires |pats| == |fields| && i < |pats|
    ensures FieldsMatch(pats[..i + 1], fields[..i + 1]) ==
      match FieldsMatch(pats[..i], fields[..i])
      case None => None
      case Some(replacements) =>
        match MatchField(pats[i], fields[i])
        case None => None
        case Some(groups) => Some(PutAll(replacements, groups))
  {
    assert pats[..i + 1][..i] == pats[..i] && fields[..i + 1][..i] == fields[..i];
  }

  /** The concrete domain one service yields under a rule, if it qualifies and the domain passes the check. */
  function DomainFor(wildcard: string, pats: seq<Option<Pattern>>, service: ServiceIndex): Option<string>
    requires |pats| == 3
  {
    match FieldsMatch(pats, service.Fields())
    case None => None
    case Some(replacements) =>
      var domain := SubstituteAll(wildcard, Items(replacements));
      if ValidDomain(domain) then Some(domain) else None
  }

  /** The `result[domain] = addresses` assignments of the service loop, in order. */
  function DomainPairs(wildcard: string, pats: seq<Option<Pattern>>, services: seq<(ServiceIndex, Addresses)>): seq<(string, Addresses)>
    requires |pats| == 3
    decreases |services|
  {
    if services == [] then []
    else
      var last := services[|services| - 1];
      DomainPairs(wildcard, pats, services[..|services| - 1]) +
        match DomainFor(wildcard, pats, last.0) case None => [] case Some(d) => [(d, last.1)]
  }

  /** What `match_domains_to_services` returns. */
  function ServiceDomains(wildcard: string, selector: ServiceIndex, services: ServiceTable): Dict<string, Addresses>
  {
    var pats := Patterns(selector);
    if AnyUnresolved(pats) then Empty()
    else PutAll(Empty(), DomainPairs(wildcard, pats, Items(services)))
  }

  /** Lines 72-84 of magellan.py: the field loop for one discovered service. */
  method MatchServiceIndex(pats: seq<Option<Pattern>>, service: ServiceIndex)
    returns (matched: bool, replacements: Dict<string, string>)
    requires |pats| == 3
    ensures matched <==> FieldsMatch(pats, service.Fields()).Some?
    ensures matched ==> FieldsMatch(pats, service.Fields()) == Some(replacements)
  {
    var fields := service.Fields();
    replacements := Empty();
    matched := true;
    ghost var decided := 0;
    var i := 0;
    while i < 3
      invariant 0 <= i <= 3 && decided <= 3
      invariant decided == if matched then i else i + 1
      invariant FieldsMatch(pats[..decided], fields[..decided]) == if matched then Some(replacements) else None
    {
      FieldsMatchStep(pats, fields, i);
      decided := i + 1;
      if pats[i].None? && !Truthy(fields[i]) {
        i := i + 1;
        continue;
      }
      if pats[i].None? || !Truthy(fields[i]) {
        matched := false;
        break;
      }
      var m := Match(pats[i].value, fields[i].value);
      if m.None? {
        matched := false;
        break;
      }
      replacements := PutAll(replacements, m.value);
      i := i + 1;
    }
    if !matched {
      FieldsMatchNoneExtends(pats, fields, decided);
    } else {
      assert pats[..3] == pats && fields[..3] == fields;
    }
  }

  /** Lines 86-88 of magellan.py: every captured name is replaced in the domain wildcard, in dict order. */
  method SubstituteDomain(wildcard: string, replacements: Dict<string, string>) returns (domain: string)
    ensures domain == SubstituteAll(wildcard, Items(replacements))
  {
    domain := wildcard;
    var repl := Items(replacements);
    var j := 0;
    while j < |repl|
      invariant 0 <= j <= |repl|
      invariant domain == SubstituteAll(wildcard, repl[..j])
    {
      assert repl[..j + 1][..j] == repl[..j];
      domain := ReplaceAll(domain, Placeholder(repl[j].0), repl[j].1);
      j := j + 1;
    }
    assert repl[..j] == repl;
  }

  /** Lines 63-93 of magellan.py. */
  method MatchDomainsToServices(wildcard: string, selector: ServiceIndex, services: ServiceTable)
    returns (result: Dict<string, Addresses>)
    requires SelectorUsable(selector)
    ensures result == ServiceDomains(wildcard, selector, services)
  {
    var pats := Patterns(selector);
    if exists i | 0 <= i < |pats| :: Unresolved(pats[i]) {
      return Empty();
    }
    result := CollectDomains(wildcard, pats, Items(services));
  }

  /** Lines 71-92 of magellan.py: the loop over the discovered services of a valid selector. */
  method CollectDomains(wildcard: string, pats: seq<Option<Pattern>>, items: seq<(ServiceIndex, Addresses)>)
    returns (result: Dict<string, Addresses>)
    requires |pats| == 3
    ensures result == PutAll(Empty(), DomainPairs(wildcard, pats, items))
  {
    result := Empty();
    var n := 0;
    while n < |items|
      invariant 0 <= n <= |items|
      invariant result == PutAll(Empty(), DomainPairs(wildcard, pats, items[..n]))
    {
      result := AddServiceDomain(wildcard, pats, items, n, result);
      n := n + 1;
    }
    assert items[..n] == items;
  }

  /**
    Lines 72-92 of magellan.py, for the `n`-th discovered service: when its
    fields match and the substituted domain is valid, the domain maps to its
    addresses, replacing an earlier entry for the same domain.
   */
  method AddServiceDomain(wildcard: string, pats: seq<Option<Pattern>>, items: seq<(ServiceIndex, Addresses)>,
                          n: nat, domains: Dict<string, Addresses>)
    returns (result: Dict<string, Addresses>)
    requires |pats| == 3 && n < |items|
    requires domains == PutAll(Empty(), DomainPairs(wildcard, pats, items[..n]))
    ensures result == PutAll(Empty(), DomainPairs(wildcard, pats, items[..n + 1]))
  {
    var service := items[n].0;
    var matched, replacements := MatchServiceIndex(pats, service);
    if matched {
      var domain := SubstituteDomain(wildcard, replacements);
      if ValidDomain(domain) {
        assert DomainFor(wildcard, pats, service) == Some(domain);
        DomainPairsAdds(wildcard, pats, items, n, domain);
        return Put(domains, domain, items[n].1);
      }
      assert DomainFor(wildcard, pats, service) == None;
    } else {
      assert DomainFor(wildcard, pats, service) == None;
    }
    DomainPairsSkips(wildcard, pats, items, n);
    result := domains;
  }

  /** A service that yields `domain` adds it, with the service's addresses, to the dict. */
  lemma DomainPairsAdds(wildcard: string, pats: seq<Option<Pattern>>, services: seq<(ServiceIndex, Addresses)>, n: nat,
                        domain: string)
    requires |pats| == 3 && n < |services|
    requires DomainFor(wildcard, pats, services[n].0) == Some(domain)
    ensures PutAll(Empty(), DomainPairs(wildcard, pats, services[..n + 1])) ==
      Put(PutAll(Empty(), DomainPairs(wildcard, pats, services[..n])), domain, services[n].1)
  {
    DomainPairsStep(wildcard, pats, services, n);
    PutAllSnoc(Empty(), DomainPairs(wildcard, pats, services[..n]), (domain, services[n].1));
  }

  /** A service that yields no domain leaves the dict as it was. */
  lemma DomainPairsSkips(wildcard: string, pats: seq<Option<Pattern>>, services: seq<(ServiceIndex, Addresses)>, n: nat)
    requires |pats| == 3 && n < |services|
    requires DomainFor(wildcard, pats, services[n].0) == None
    ensures DomainPairs(wildcard, pats, services[..n + 1]) == DomainPairs(wildcard, pats, services[..n])
  {
    DomainPairsStep(wildcard, pats, services, n);
    assert DomainPairs(wildcard, pats, services[..n]) + [] == DomainPairs(wildcard, pats, services[..n]);
  }

  lemma DomainPairsStep(wildcard: string, pats: seq<Option<Pattern>>, services: seq<(ServiceIndex, Addresses)>, n: nat)
    requires |pats| == 3 && n < |services|
    ensures DomainPairs(wildcard, pats, services[..n + 1]) ==
      DomainPairs(wildcard, pats, services[..n]) +
        match DomainFor(wildcard, pats, services[n].0) case None => [] case Some(d) => [(d, services[n].1)]
  {
    assert services[..n + 1][..n] == services[..n];
  }

  /** Every domain a service rule produces passes `^[\w\-\./]+$`, so none keeps an unresolved `%x%`. */
  lemma {:induction false} DomainPairsValid(wildcard: string, pats: seq<Option<Pattern>>, services: seq<(ServiceIndex, Addresses)>)
    requires |pats| == 3
    ensures forall i | 0 <= i < |DomainPairs(wildcard, pats, services)| ::
      ValidDomain(DomainPairs(wildcard, pats, services)[i].0)
    decreases |services|
  {
    if services != [] {
      DomainPairsValid(wildcard, pats, services[..|services| - 1]);
    }
  }

  /**
    The domains of `match_domains_to_services` are exactly those of the
    qualifying services whose substituted domain passes the check, each
    mapped to the addresses of the last such service (a later one overwrites).
   */
  lemma ServiceDomainsGet(wildcard: string, selector: ServiceIndex, services: ServiceTable, d: string)
    requires !AnyUnresolved(Patterns(selector))
    ensures var pairs := DomainPairs(wildcard, Patterns(selector), Items(services));
      Get(ServiceDomains(wildcard, selector, services), d) ==
        if HasKey(pairs, d) then Some(LastValue(pairs, d)) else None
  {
    var pairs := DomainPairs(wildcard, Patterns(selector), Items(services));
    PutAllGet(Empty(), pairs, d);
  }

  /** The domain each service would get under the rule, `None` for a service that is skipped. */
  function DomainsOf(wildcard: string, pats: seq<Option<Pattern>>, services: seq<(ServiceIndex, Addresses)>): (r: seq<Option<string>>)
    requires |pats| == 3
    ensures |r| == |services|
    ensures forall i | 0 <= i < |services| :: r[i] == DomainFor(wildcard, pats, services[i].0)
  {
    seq(|services|, i requires 0 <= i < |services| => DomainFor(wildcard, pats, services[i].0))
  }

  /** A domain is produced exactly when some service's substituted domain is that domain and passes the check. */
  lemma {:induction false} DomainPairsKeys(wildcard: string, pats: seq<Option<Pattern>>, services: seq<(ServiceIndex, Addresses)>, d: string)
    requires |pats| == 3
    ensures HasKey(DomainPairs(wildcard, pats, services), d) <==> Some(d) in DomainsOf(wildcard, pats, services)
    decreases |services|
  {
    if services != [] {
      var n := |services| - 1;
      DomainPairsKeys(wildcard, pats, services[..n], d);
      LastPairKeys(wildcard, pats, services, d);
      DomainsOfSnoc(wildcard, pats, services);
    }
  }

  lemma LastPairKeys(wildcard: string, pats: seq<Option<Pattern>>, services: seq<(ServiceIndex, Addresses)>, d: string)
    requires |pats| == 3 && services != []
    ensures var n := |services| - 1;
      HasKey(DomainPairs(wildcard, pats, services), d) <==>
        HasKey(DomainPairs(wildcard, pats, services[..n]), d) || DomainFor(wildcard, pats, services[n].0) == Some(d)
  {
    var n := |services| - 1;
    var last := DomainFor(wildcard, pats, services[n].0);
    var tail := match last case None => [] case Some(e) => [(e, services[n].1)];
    HasKeyConcat(DomainPairs(wildcard, pats, services[..n]), tail, d);
    assert HasKey(tail, d) <==> last == Some(d) by {
      if last.Some? { assert tail[0].0 == last.value; }
    }
  }

  lemma DomainsOfSnoc(wildcard: string, pats: seq<Option<Pattern>>, services: seq<(ServiceIndex, Addresses)>)
    requires |pats| == 3 && services != []
    ensures var n := |services| - 1;
      DomainsOf(wildcard, pats, services) ==
        DomainsOf(wildcard, pats, services[..n]) + [DomainFor(wildcard, pats, services[n].0)]
  {
  }

  // ---------------------------------------------------------------------------
  // match_domains_to_address and match_domains_to_addresses

  /** Lines 96-98 of magellan.py: the wildcard is used as the domain as it is. */
  function MatchDomainsToAddress(wildcard: string, address: string): (r: Dict<string, Addresses>)
    ensures r.order == [wildcard]
    ensures Get(r, wildcard) == Some(Put(Empty(), "0", address))
  {
    Put(Empty(), wildcard, Put(Empty(), "0", address))
  }

  /** Lines 115-119 of magellan.py: every value becomes `{'addresses': ..., 'allow_all': ...}`, keys in place. */
  function Wrap(mapping: Dict<string, Addresses>, allowAll: bool): (r: DomainTable)
    ensures r.order == mapping.order
    ensures forall d | d in mapping.entries :: d in r.entries && r.entries[d] == DomainMapping(mapping.entries[d], allowAll)
  {
    var entries := map d | d in mapping.entries :: DomainMapping(mapping.entries[d], allowAll);
    assert entries.Keys == mapping.entries.Keys;
    RawDict(mapping.order, entries)
  }

  const MissingServiceName := "KeyError: 'service_name'"

  predicate IsHttp(rule: RuleDef)
  {
    rule.protocol == Some("http")
  }

  /** What one `http` rule contributes (lines 106-119), or the `KeyError` it raises. */
  function RuleMapping(wildcard: string, rule: RuleDef, services: ServiceTable): (r: Result<DomainTable, string>)
    ensures r.Err? <==> !Truthy(rule.address) && rule.serviceName.None?
    ensures r.Err? ==> r.error == MissingServiceName
    ensures r.Ok? ==> forall d | d in r.value.entries :: r.value.entries[d].allowAll == (rule.allowAll == JBool(true))
  {
    var allowAll := rule.allowAll == JBool(true);
    if Truthy(rule.address) then Ok(Wrap(MatchDomainsToAddress(wildcard, rule.address.value), allowAll))
    else if rule.serviceName.None? then Err(MissingServiceName)
    else
      var selector := ServiceIndex(rule.serviceName.value, rule.environment, rule.appId);
      Ok(Wrap(ServiceDomains(wildcard, selector, services), allowAll))
  }

  /** The rule loop of `match_domains_to_addresses`, over the first rules in iteration order. */
  function ResolveRules(rules: seq<(string, RuleDef)>, services: ServiceTable): Result<DomainTable, string>
    decreases |rules|
  {
    if rules == [] then Ok(Empty())
    else
      var last := rules[|rules| - 1];
      match ResolveRules(rules[..|rules| - 1], services)
      case Err(e) => Err(e)
      case Ok(acc) =>
        if !IsHttp(last.1) then Ok(acc)
        else
          match RuleMapping(last.0, last.1, services)
          case Err(e) => Err(e)
          case Ok(mapping) => Ok(Update(acc, mapping))
  }

  /**
    Lines 104-111 of magellan.py: only an `http` rule without an address and
    with a `service_name` has its selector compiled and matched.
   */
  predicate ReachesMatch(rule: RuleDef)
  {
    IsHttp(rule) && !Truthy(rule.address) && rule.serviceName.Some?
  }

  /** A rule whose selector reaches `re.match` uses one the model reads like Python does; any other rule is usable. */
  predicate RuleUsable(rule: RuleDef)
  {
    ReachesMatch(rule) ==> SelectorUsable(ServiceIndex(rule.serviceName.value, rule.environment, rule.appId))
  }

  predicate RulesUsable(rules: Rules)
  {
    forall w | w in rules.entries :: RuleUsable(rules.entries[w])
  }

  /** Lines 101-122 of magellan.py; the `KeyError` of a rule without `service_name` is the `Err` result. */
  method MatchDomainsToAddresses(rules: Rules, services: ServiceTable) returns (r: Result<DomainTable, string>)
    requires RulesUsable(rules)
    ensures r == ResolveRules(Items(rules), services)
  {
    var result: DomainTable := Empty();
    var items := Items(rules);
    var n := 0;
    while n < |items|
      invariant 0 <= n <= |items|
      invariant ResolveRules(items[..n], services) == Ok(result)
    {
      var wildcard := items[n].0;
      var rule := items[n].1;
      ResolveStep(items, n, services, result);
      if rule.protocol != Some("http") {
        n := n + 1;
        continue;
      }
      ItemUsable(rules, n);
      var mapping := RuleTargets(wildcard, rule, services);
      if mapping.Err? {
        ResolveErrSticks(items, services, n + 1);
        ResolveErrIsKeyError(items, services);
        return Err(MissingServiceName);
      }
      var allowAll := rule.allowAll == JBool(true);
      result := Update(result, Wrap(mapping.value, allowAll));
      n := n + 1;
    }
    assert items[..n] == items;
    return Ok(result);
  }

  /** Lines 106-114 of magellan.py: the literal address of a rule, or its services, before wrapping. */
  method RuleTargets(wildcard: string, rule: RuleDef, services: ServiceTable) returns (r: Result<Dict<string, Addresses>, string>)
    requires !Truthy(rule.address) && rule.serviceName.Some? ==>
      SelectorUsable(ServiceIndex(rule.serviceName.value, rule.environment, rule.appId))
    ensures r.Err? <==> RuleMapping(wildcard, rule, services).Err?
    ensures r.Err? ==> r.error == MissingServiceName
    ensures r.Ok? ==> RuleMapping(wildcard, rule, services) == Ok(Wrap(r.value, rule.allowAll == JBool(true)))
  {
    var address := rule.address;
    if Truthy(address) {
      return Ok(MatchDomainsToAddress(wildcard, address.value));
    }
    if rule.serviceName.None? {
      return Err(MissingServiceName);
    }
    var selector := ServiceIndex(rule.serviceName.value, rule.environment, rule.appId);
    var mapping := MatchDomainsToServices(wildcard, selector, services);
    return Ok(mapping);
  }

  lemma ItemUsable(rules: Rules, n: nat)
    requires RulesUsable(rules)
    requires n < |Items(rules)|
    ensures RuleUsable(Items(rules)[n].1)
  {
    var items := Items(rules);
    assert items[n].0 in rules.entries && rules.entries[items[n].0] == items[n].1;
  }

  lemma ResolveStep(rules: seq<(string, RuleDef)>, n: nat, services: ServiceTable, acc: DomainTable)
    requires n < |rules|
    requires ResolveRules(rules[..n], services) == Ok(acc)
    ensures !IsHttp(rules[n].1) ==> ResolveRules(rules[..n + 1], services) == Ok(acc)
    ensures IsHttp(rules[n].1) && RuleMapping(rules[n].0, rules[n].1, services).Err? ==>
      ResolveRules(rules[..n + 1], services).Err?
    ensures IsHttp(rules[n].1) && RuleMapping(rules[n].0, rules[n].1, services).Ok? ==>
      ResolveRules(rules[..n + 1], services) == Ok(Update(acc, RuleMapping(rules[n].0, rules[n].1, services).value))
  {
    assert rules[..n + 1][..n] == rules[..n];
  }

  /** Once a rule has raised, the loop never produces a table. */
  lemma {:induction false} ResolveErrSticks(rules: seq<(string, RuleDef)>, services: ServiceTable, k: nat)
    requires k <= |rules|
    requires ResolveRules(rules[..k], services).Err?
    ensures ResolveRules(rules, services).Err?
    decreases |rules|
  {
    if k < |rules| {
      var n := |rules| - 1;
      assert rules[..n][..k] == rules[..k];
      ResolveErrSticks(rules[..n], services, k);
      ResolveErrNext(rules, services);
    } else {
      assert rules[..k] == rules;
    }
  }

  lemma ResolveErrNext(rules: seq<(string, RuleDef)>, services: ServiceTable)
    requires rules != [] && ResolveRules(rules[..|rules| - 1], services).Err?
    ensures ResolveRules(rules, services).Err?
  {
  }

  lemma {:induction false} ResolveErrIsKeyError(rules: seq<(string, RuleDef)>, services: ServiceTable)
    requires ResolveRules(rules, services).Err?
    ensures ResolveRules(rules, services) == Err(MissingServiceName)
    decreases |rules|
  {
    if rules != [] && ResolveRules(rules[..|rules| - 1], services).Err? {
      ResolveErrIsKeyError(rules[..|rules| - 1], services);
    }
  }

  /**
    The table the rule loop builds, as a plain map: each `http` rule's domains
    are laid over those of the rules before it, and other protocols add nothing.
   */
  function MergedEntries(rules: seq<(string, RuleDef)>, services: ServiceTable): map<string, DomainMapping>
    decreases |rules|
  {
    if rules == [] then map[]
    else
      var last := rules[|rules| - 1];
      var prev := MergedEntries(rules[..|rules| - 1], services);
      if IsHttp(last.1) && RuleMapping(last.0, last.1, services).Ok? then
        prev + RuleMapping(last.0, last.1, services).value.entries
      else prev
  }

  /**
    When no rule raises, the result of `match_domains_to_addresses` holds the
    merged domains: a later rule overwrites an earlier rule's domain, and a rule
    whose protocol is not `http` leaves the table as it was.
   */
  lemma {:induction false} ResolveEntries(rules: seq<(string, RuleDef)>, services: ServiceTable)
    requires ResolveRules(rules, services).Ok?
    ensures ResolveRules(rules, services).value.entries == MergedEntries(rules, services)
    decreases |rules|
  {
    if rules != [] {
      var init := rules[..|rules| - 1];
      if ResolveRules(init, services).Err? {
        ResolveErrNext(rules, services);
      } else {
        ResolveEntries(init, services);
        var last := rules[|rules| - 1];
        if IsHttp(last.1) {
          var acc := ResolveRules(init, services).value;
          UpdateEntries(acc, RuleMapping(last.0, last.1, services).value);
        }
      }
    }
  }

  /** An `http` rule with neither an address nor a `service_name`: line 111 of magellan.py raises on it. */
  predicate Raises(rule: RuleDef)
  {
    IsHttp(rule) && !Truthy(rule.address) && rule.serviceName.None?
  }

  predicate SomeRaises(rules: seq<(string, RuleDef)>)
  {
    exists i | 0 <= i < |rules| :: Raises(rules[i].1)
  }

  /** The loop raises exactly when some `http` rule has neither an address nor a `service_name`. */
  lemma {:induction false} ResolveErrIff(rules: seq<(string, RuleDef)>, services: ServiceTable)
    ensures ResolveRules(rules, services).Err? <==> SomeRaises(rules)
    decreases |rules|
  {
    if rules != [] {
      ResolveErrIff(rules[..|rules| - 1], services);
      ResolveErrLast(rules, services);
      SomeRaisesLast(rules);
    }
  }

  lemma ResolveErrLast(rules: seq<(string, RuleDef)>, services: ServiceTable)
    requires rules != []
    ensures ResolveRules(rules, services).Err? <==>
      ResolveRules(rules[..|rules| - 1], services).Err? || Raises(rules[|rules| - 1].1)
  {
  }

  lemma SomeRaisesLast(rules: seq<(string, RuleDef)>)
    requires rules != []
    ensures SomeRaises(rules) <==> SomeRaises(rules[..|rules| - 1]) || Raises(rules[|rules| - 1].1)
  {
    var n := |rules| - 1;
    var init := rules[..n];
    if SomeRaises(rules) {
      var i :| 0 <= i < |rules| && Raises(rules[i].1);
      if i < n {
        assert init[i] == rules[i];
        assert SomeRaises(init);
      }
    }
    if SomeRaises(init) {
      var i :| 0 <= i < |init| && Raises(init[i].1);
      assert rules[i] == init[i];
    }
  }

  /**
    Lines 111-114 and 27-28 of magellan.py: a `service_name` key holding null
    raises no `KeyError`; the name compiles to no pattern, so only a service
    without a name can yield a domain for the rule.
   */
  lemma NullServiceName(wildcard: string, rule: RuleDef, services: ServiceTable, service: ServiceIndex)
    requires !Truthy(rule.address) && rule.serviceName == Some(None)
    ensures RuleMapping(wildcard, rule, services).Ok?
    ensures DomainFor(wildcard, Patterns(ServiceIndex(None, rule.environment, rule.appId)), service).Some? ==>
      !Truthy(service.name)
  {
    var pats := Patterns(ServiceIndex(None, rule.environment, rule.appId));
    if DomainFor(wildcard, pats, service).Some? {
      FieldsMatchIff(pats, service.Fields());
      assert FieldAgrees(pats[0], service.Fields()[0]);
    }
  }

  /**
    A rule with an address maps its wildcard, exactly as written, to that
    address: neither the `%...%` check nor the domain check is applied to it.
   */
  lemma AddressRuleIsLiteral(wildcard: string, rule: RuleDef, services: ServiceTable)
    requires Truthy(rule.address)
    ensures var r := RuleMapping(wildcard, rule, services);
      && r.Ok?
      && r.value.order == [wildcard]
      && r.value.entries == map[wildcard := DomainMapping(Put(Empty(), "0", rule.address.value), rule.allowAll == JBool(true))]
  {
    var m := MatchDomainsToAddress(wildcard, rule.address.value);
    assert m.entries.Keys == {wildcard};
  }
}
