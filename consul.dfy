/**
  Service discovery of consul.py: the local Armada agent is looked up among the
  services the Consul agent knows, its `/list` endpoint is asked for every
  service instance, and the healthy instances are grouped by
  `(name, env, app_id)` into `{container_id: address}`.
 */
module Consul {
  import opened Values
  import opened Dicts
  import opened Strings
  import opened Matcher

  /** One value of the Consul agent's `agent/services` answer. */
  datatype AgentService = AgentService(service: string, port: int)

  /** One entry of the Armada agent's `/list` result; `env` and `appId` are `None` when the tag is missing. */
  datatype ServiceRecord = ServiceRecord(
    name: string,
    env: Option<string>,
    appId: Option<string>,
    status: string,
    containerId: string,
    address: string)

  const NoArmada := "Could not find local Armada agent."

  /** The name the Armada agent registers under. */
  const ArmadaName := "armada"

  /** Position of the first agent service named `armada`. */
  function FirstArmada(services: seq<AgentService>): (r: Option<nat>)
    ensures r.Some? ==> r.value < |services| && services[r.value].service == ArmadaName
    ensures r.Some? ==> forall j | 0 <= j < r.value :: services[j].service != ArmadaName
    ensures r.None? ==> forall j | 0 <= j < |services| :: services[j].service != ArmadaName
    decreases |services|
  {
    if services == [] then None
    else if services[0].service == ArmadaName then Some(0)
    else match FirstArmada(services[1..])
      case None => None
      case Some(i) => Some(i + 1)
  }

  /** The first `armada` service is at `i` exactly when it is there and at no earlier position. */
  lemma {:induction false} FirstArmadaAt(services: seq<AgentService>, i: nat)
    requires i < |services| && services[i].service == ArmadaName
    requires forall j | 0 <= j < i :: services[j].service != ArmadaName
    ensures FirstArmada(services) == Some(i)
    decreases i
  {
    if i > 0 {
      var rest := services[1..];
      assert services[0].service != ArmadaName;
      assert rest[i - 1] == services[i];
      forall j | 0 <= j < i - 1 ensures rest[j].service != ArmadaName {
        assert rest[j] == services[j + 1];
      }
      FirstArmadaAt(rest, i - 1);
    }
  }

  /** `'{}:{}'.format(ship_ip, service['Port'])` */
  function ArmadaAddress(shipIp: string, port: int): string
  {
    shipIp + ":" + IntToString(port)
  }

  /**
    Lines 12-18 of consul.py: the first `armada` service in the agent's
    answer gives the address; without one the lookup raises.
   */
  method LocalArmadaAddress(services: seq<AgentService>, shipIp: string) returns (r: Result<string, string>)
    ensures r.Ok? <==> exists j | 0 <= j < |services| :: services[j].service == ArmadaName
    ensures r.Ok? ==> FirstArmada(services).Some? && r.value == ArmadaAddress(shipIp, services[FirstArmada(services).value].port)
    ensures r.Err? ==> r.error == NoArmada
  {
    var i := 0;
    while i < |services|
      invariant 0 <= i <= |services|
      invariant forall j | 0 <= j < i :: services[j].service != ArmadaName
    {
      if services[i].service == ArmadaName {
        FirstArmadaAt(services, i);
        return Ok(ArmadaAddress(shipIp, services[i].port));
      }
      i := i + 1;
    }
    return Err(NoArmada);
  }

  /** Line 23 of consul.py. */
  function ListUrl(armadaAddress: string): (url: string)
    ensures StartsWith(url, "http://") && EndsWith(url, "/list")
    ensures |url| == |armadaAddress| + 12 && url[7..|url| - 5] == armadaAddress
  {
    "http://" + armadaAddress + "/list"
  }

  predicate IsWorking(r: ServiceRecord)
  {
    r.status == "passing" || r.status == "warning"
  }

  /** Line 26 of consul.py: the instances whose health check passes or warns, in their order. */
  function WorkingServices(all: seq<ServiceRecord>): (r: seq<ServiceRecord>)
    ensures forall x :: x in r <==> x in all && IsWorking(x)
    ensures |r| <= |all|
    decreases |all|
  {
    if all == [] then []
    else
      var rest := WorkingServices(all[1..]);
      assert forall x :: x in all <==> x == all[0] || x in all[1..];
      if IsWorking(all[0]) then [all[0]] + rest else rest
  }

  /** Filtering distributes over concatenation: the answer's order and repetitions are kept. */
  lemma {:induction false} WorkingServicesConcat(a: seq<ServiceRecord>, b: seq<ServiceRecord>)
    ensures WorkingServices(a + b) == WorkingServices(a) + WorkingServices(b)
    decreases |a|
  {
    if a == [] {
      assert a + b == b;
    } else {
      assert (a + b)[0] == a[0] && (a + b)[1..] == a[1..] + b;
      WorkingServicesConcat(a[1..], b);
    }
  }

  /** A single instance is kept exactly when its check passes or warns. */
  lemma WorkingServicesSingle(x: ServiceRecord)
    ensures WorkingServices([x]) == if IsWorking(x) then [x] else []
  {
    assert [x][1..] == [];
  }

  /** Line 28 of consul.py. */
  function IndexOf(r: ServiceRecord): ServiceIndex
  {
    ServiceIndex(Some(r.name), r.env, r.appId)
  }

  /**
    Lines 25-29 of consul.py: a `defaultdict(dict)` filled one instance at a
    time; an index is added when it is first seen and a container id
    already in its group gets the newer address.
   */
  function Grouped(records: seq<ServiceRecord>): ServiceTable
    decreases |records|
  {
    if records == [] then Empty()
    else
      var table := Grouped(records[..|records| - 1]);
      var r := records[|records| - 1];
      Put(table, IndexOf(r), Put(GroupAt(table, IndexOf(r)), r.containerId, r.address))
  }

  /** `service_to_addresses[idx]` of a `defaultdict(dict)`: a missing index reads as an empty dict. */
  function GroupAt(table: ServiceTable, idx: ServiceIndex): (g: Addresses)
    ensures idx in table.entries ==> g == table.entries[idx]
    ensures idx !in table.entries ==> g == Empty()
  {
    if idx in table.entries then table.entries[idx] else Empty()
  }

  lemma GroupedStep(records: seq<ServiceRecord>, n: nat)
    requires n < |records|
    ensures var r := records[n];
      var table := Grouped(records[..n]);
      Grouped(records[..n + 1]) == Put(table, IndexOf(r), Put(GroupAt(table, IndexOf(r)), r.containerId, r.address))
  {
    assert records[..n + 1][..n] == records[..n];
  }

  /** The `(container_id, address)` pairs of the instances with index `idx`, in order. */
  function GroupOf(records: seq<ServiceRecord>, idx: ServiceIndex): seq<(string, string)>
    decreases |records|
  {
    if records == [] then []
    else
      var r := records[|records| - 1];
      GroupOf(records[..|records| - 1], idx) + if IndexOf(r) == idx then [(r.containerId, r.address)] else []
  }

  /** The grouping loop of `discover`. */
  method GroupServices(working: seq<ServiceRecord>) returns (table: ServiceTable)
    ensures table == Grouped(working)
  {
    table := Empty();
    var n := 0;
    while n < |working|
      invariant 0 <= n <= |working|
      invariant table == Grouped(working[..n])
    {
      GroupedStep(working, n);
      var r := working[n];
      var idx := IndexOf(r);
      var addresses := if idx in table.entries then table.entries[idx] else Empty();
      table := Put(table, idx, Put(addresses, r.containerId, r.address));
      n := n + 1;
    }
    assert working[..n] == working;
  }

  /**
    Lines 21-30 of consul.py. The HTTP request to the Armada agent is the
    parameter `list`: the `result` it answers for a URL.
   */
  method Discover(agent: seq<AgentService>, shipIp: string, list: string -> seq<ServiceRecord>)
    returns (r: Result<ServiceTable, string>)
    ensures r.Err? <==> FirstArmada(agent).None?
    ensures r.Err? ==> r.error == NoArmada
    ensures r.Ok? ==>
      var address := ArmadaAddress(shipIp, agent[FirstArmada(agent).value].port);
      r.value == Grouped(WorkingServices(list(ListUrl(address))))
  {
    var address := LocalArmadaAddress(agent, shipIp);
    if address.Err? {
      return Err(address.error);
    }
    var all := list(ListUrl(address.value));
    var working := WorkingServices(all);
    var table := GroupServices(working);
    return Ok(table);
  }

  /**
    The group of an index is the dict built from its instances' pairs in
    order, so the last instance of a container id gives its address; an
    index no instance has is absent.
   */
  lemma {:induction false} GroupedGet(records: seq<ServiceRecord>, idx: ServiceIndex)
    ensures Get(Grouped(records), idx) ==
      if GroupOf(records, idx) == [] then None else Some(PutAll(Empty(), GroupOf(records, idx)))
    decreases |records|
  {
    if records != [] {
      var init := records[..|records| - 1];
      var r := records[|records| - 1];
      GroupedGet(init, idx);
      var g := GroupOf(init, idx);
      if IndexOf(r) == idx {
        PutAllSnoc(Empty(), g, (r.containerId, r.address));
        assert GroupOf(records, idx) == g + [(r.containerId, r.address)];
        assert Get(Grouped(records), idx) == Some(Put(GroupAt(Grouped(init), idx), r.containerId, r.address));
        assert GroupAt(Grouped(init), idx) == PutAll(Empty(), g);
        var full := GroupOf(records, idx);
        assert |full| == |g| + 1;
        assert Get(Grouped(records), idx) == Some(PutAll(Empty(), full));
      } else {
        assert GroupOf(records, idx) == g + [];
        assert g + [] == g;
        assert Get(Grouped(records), idx) == Get(Grouped(init), idx);
      }
    } else {
      assert Get(Grouped(records), idx) == None;
    }
  }

  /** An index has a group exactly when some instance carries it. */
  lemma {:induction false} GroupOfEmpty(records: seq<ServiceRecord>, idx: ServiceIndex)
    ensures GroupOf(records, idx) == [] <==> forall i | 0 <= i < |records| :: IndexOf(records[i]) != idx
    decreases |records|
  {
    if records != [] {
      var n := |records| - 1;
      GroupOfEmpty(records[..n], idx);
      if forall i | 0 <= i < n :: IndexOf(records[..n][i]) != idx {
        forall i | 0 <= i < n ensures IndexOf(records[i]) != idx {
          assert records[..n][i] == records[i];
        }
      } else {
        var i :| 0 <= i < n && IndexOf(records[..n][i]) == idx;
        assert records[..n][i] == records[i];
      }
    }
  }

  /** No discovered group is empty. */
  lemma GroupsNonEmpty(records: seq<ServiceRecord>, idx: ServiceIndex)
    requires idx in Grouped(records).entries
    ensures Grouped(records).entries[idx].entries != map[]
  {
    GroupedGet(records, idx);
    var g := GroupOf(records, idx);
    assert g[0].0 in PutAll(Empty(), g).entries;
  }
}
