/**
  One pass of the `while True` loop of `main` in magellan.py (lines 133-147):
  the rules are merged, the services discovered, the rules resolved into the
  domain table and, when the table is not empty, the table is saved and every
  load balancer is updated from it. An exception anywhere ends the pass and
  leaves everything as it was.
 */
module Magellan {
  import opened Values
  import opened Dicts
  import opened Matcher
  import opened Consul
  import opened Domains
  import opened HaproxyConfig
  import opened Haproxy

  /**
    The table one pass computes from the configuration files, the Consul
    agent's services and the Armada agent's `/list` answer, or the exception
    that ends the pass.
   */
  function CycleTable(configs: Dict<string, Rules>, agent: seq<AgentService>, shipIp: string,
                      list: string -> seq<ServiceRecord>): Result<DomainTable, string>
  {
    match FirstArmada(agent)
    case None => Err(NoArmada)
    case Some(k) =>
      var services := Grouped(WorkingServices(list(ListUrl(ArmadaAddress(shipIp, agent[k].port)))));
      ResolveRules(Items(MergeConfigs(Items(configs))), services)
  }

  /** The pass has a table to apply: no exception, and at least one domain. */
  predicate Applies(r: Result<DomainTable, string>)
  {
    r.Ok? && r.value.order != []
  }

  /** Lines 133-138 of magellan.py: the three steps that compute the table. */
  method ResolveTable(configs: Dict<string, Rules>, agent: seq<AgentService>, shipIp: string,
                      list: string -> seq<ServiceRecord>) returns (r: Result<DomainTable, string>)
    requires RulesUsable(MergeConfigs(Items(configs)))
    ensures r == CycleTable(configs, agent, shipIp, list)
  {
    var rules := GetDomainsToServices(configs);
    var services := Discover(agent, shipIp, list);
    if services.Err? {
      return Err(services.error);
    }
    r := MatchDomainsToAddresses(rules, services.value);
  }

  /** The first `k` load balancers have been updated from `before`, the others still hold `before`. */
  ghost predicate UpdatedUpTo(balancers: seq<Haproxy>, k: nat, before: seq<Option<string>>, table: DomainTable,
                              isIp: string -> bool, outcomes: seq<Outcome>)
    requires k <= |balancers| == |before| == |outcomes|
    reads balancers
  {
    && (forall j | 0 <= j < k :: balancers[j].UpdatedFrom(before[j], table, isIp, outcomes[j]))
    && (forall j | k <= j < |balancers| :: balancers[j].file == before[j])
  }

  method UpdateAt(balancers: seq<Haproxy>, k: nat, table: DomainTable, isIp: string -> bool, outcomes: seq<Outcome>,
                  ghost before: seq<Option<string>>)
    requires k < |balancers| == |before| == |outcomes|
    requires balancers[k].Valid()
    requires forall j | 0 <= j < |balancers| && j != k :: balancers[j] != balancers[k]
    requires UpdatedUpTo(balancers, k, before, table, isIp, outcomes)
    modifies {balancers[k]}`file
    ensures UpdatedUpTo(balancers, k + 1, before, table, isIp, outcomes)
  {
    balancers[k].Update(table, isIp, outcomes[k]);
  }

  /** Lines 143-144 of magellan.py: every load balancer is updated from the table, in turn. */
  method UpdateAll(balancers: seq<Haproxy>, table: DomainTable, isIp: string -> bool, outcomes: seq<Outcome>)
    requires |outcomes| == |balancers|
    requires forall k | 0 <= k < |balancers| :: balancers[k].Valid()
    requires forall j, k | 0 <= j < k < |balancers| :: balancers[j] != balancers[k]
    modifies balancers`file
    ensures forall k | 0 <= k < |balancers| :: balancers[k].UpdatedFrom(old(balancers[k].file), table, isIp, outcomes[k])
  {
    ghost var before := seq(|balancers|, k requires 0 <= k < |balancers| reads balancers => balancers[k].file);
    var k := 0;
    while k < |balancers|
      invariant 0 <= k <= |balancers|
      invariant UpdatedUpTo(balancers, k, before, table, isIp, outcomes)
    {
      UpdateAt(balancers, k, table, isIp, outcomes, before);
      k := k + 1;
    }
  }

  /**
    Lines 133-147 of magellan.py. `configs` is what the configuration store
    holds for the service, `agent` the Consul agent's services, `list` the
    Armada agent's answer for a URL, `balancers` the load balancers of this
    pass and `outcomes` what each one's push meets. `persisted` is the table
    written to `/tmp/domain_to_addresses.json`, if any. An exception, or an
    empty table, leaves every load balancer as it was.
   */
  method Cycle(configs: Dict<string, Rules>, agent: seq<AgentService>, shipIp: string,
               list: string -> seq<ServiceRecord>, balancers: seq<Haproxy>, isIp: string -> bool, outcomes: seq<Outcome>)
    returns (persisted: Option<DomainTable>)
    requires |outcomes| == |balancers|
    requires forall k | 0 <= k < |balancers| :: balancers[k].Valid()
    requires forall j, k | 0 <= j < k < |balancers| :: balancers[j] != balancers[k]
    requires RulesUsable(MergeConfigs(Items(configs)))
    modifies balancers`file
    ensures var r := CycleTable(configs, agent, shipIp, list);
      && (persisted.Some? <==> Applies(r))
      && (Applies(r) ==> persisted == Some(r.value))
    ensures var r := CycleTable(configs, agent, shipIp, list);
      !Applies(r) ==> forall k | 0 <= k < |balancers| :: balancers[k].file == old(balancers[k].file)
    ensures var r := CycleTable(configs, agent, shipIp, list);
      Applies(r) ==> forall k | 0 <= k < |balancers| :: balancers[k].UpdatedFrom(old(balancers[k].file), r.value, isIp, outcomes[k])
  {
    var table := ResolveTable(configs, agent, shipIp, list);
    if table.Err? || table.value.order == [] {
      return None;
    }
    persisted := Some(table.value);
    UpdateAll(balancers, table.value, isIp, outcomes);
  }

  /** With no `domains-*.json` file the table is empty, so a pass that finds Armada changes nothing. */
  lemma NoRulesNoChange(configs: Dict<string, Rules>, agent: seq<AgentService>, shipIp: string, list: string -> seq<ServiceRecord>)
    requires forall i | 0 <= i < |configs.order| :: !Qualifies(configs.order[i])
    requires FirstArmada(agent).Some?
    ensures CycleTable(configs, agent, shipIp, list) == Ok(Empty())
  {
    var items := Items(configs);
    NoQualifyingConfig(items);
    assert Items(MergeConfigs(items)) == [];
  }

  /**
    A pass ends in an exception exactly when there is no Armada agent or some
    `http` rule of the merged configuration has neither an address nor a
    `service_name`.
   */
  lemma CycleRaises(configs: Dict<string, Rules>, agent: seq<AgentService>, shipIp: string, list: string -> seq<ServiceRecord>)
    ensures CycleTable(configs, agent, shipIp, list).Err? <==>
      FirstArmada(agent).None? || SomeRaises(Items(MergeConfigs(Items(configs))))
  {
    if FirstArmada(agent).Some? {
      var k := FirstArmada(agent).value;
      var services := Grouped(WorkingServices(list(ListUrl(ArmadaAddress(shipIp, agent[k].port)))));
      ResolveErrIff(Items(MergeConfigs(Items(configs))), services);
    }
  }
}
