# magellan, modelled in Dafny

magellan keeps HAProxy load balancers in step with the services that run on
an Armada cluster. Each pass of its main loop does the following:

- it reads the routing rules from the `domains-*.json` configuration files;
- it asks the local Armada agent (found through Consul) for the healthy
  service instances, grouped by `(name, env, app_id)`;
- it resolves every `http` rule into concrete domains. A domain wildcard such
  as `%app%.example.com` is filled from the `%name%` captures of the rule's
  selector fields. A rule with a literal `address` is used as it is;
- when the resulting table is not empty, it saves the table and updates every
  load balancer.

A load balancer renders the table into an HAProxy configuration text and
caches the text it last pushed in a local file. It pushes and reloads only
when the text changed. A failed push removes the cache.

The model follows the source module by module:

| module | file | models |
|---|---|---|
| `Values`, `Dicts`, `Strings` | values.dfy, dicts.dfy, strings.dfy | the Python values, dicts (with their iteration order) and string operations the code relies on |
| `Wildcard` | wildcard.dfy | `create_named_pattern_for_wildcard`, `re.match` on the compiled selector, `str.replace` of the captures and the domain check of magellan.py |
| `Matcher` | matcher.dfy | `match_domains_to_services`, `match_domains_to_address` and `match_domains_to_addresses` of magellan.py |
| `Consul` | consul.dfy | `get_local_armada_address` and `discover` of consul.py |
| `Domains` | domains.dfy | `get_domains_to_services` of domains.py |
| `HaproxyConfig` | haproxy_config.dfy | `split_url`, `_clean_string`, the two sorts and the configuration text of haproxy.py, described as data and rendered to the templates' exact text |
| `Haproxy` | haproxy.dfy | the `Haproxy` and `MainHaproxy` objects: the loops that render the text, the cache file, `update`, `configure_stats` and `override_haproxy_parameters` |
| `Magellan` | cycle.dfy | one pass of the loop of `main` |

Loops in the source are methods with loop invariants. Each method is proved
equal to a function, and the properties are lemmas about that function. The
load balancer is a class whose `file` field is the cache file at
`config_path` (`None` when there is no file). Everything outside the process
is a parameter:

- the configuration store's files;
- the Consul agent's services and the ship IP;
- the Armada agent's `/list` answer, as a function of the URL;
- `_is_ip`;
- what each push meets (`Outcome`).

The model follows what the code does, including these points where one might
expect otherwise:

- A failed push or reload is caught inside `update`. The load balancer clears
  its cache and the error does not reach the caller.
- `MainHaproxy` accepts only status 200, not any 2xx status.
- A selector field that has no value matches only a service field that has
  no value. A literal field is a regular expression, so `.` matches any
  character.
- An `http` rule with neither `address` nor a `service_name` key raises
  `KeyError`. This ends the whole pass; the rule is not skipped.
- A `service_name` key holding null raises nothing. That rule then yields
  domains only for services without a name.
- The table values are `{'addresses': ..., 'allow_all': ...}`. The
  configuration generator does not read `allow_all`.

## Model

| member | source | states |
|---|---|---|
| Dicts.Get | src/magellan.py:104-107 | `d.get(k)` is a value exactly when `k` is a key, and then it is the stored value |
| Dicts.Put | src/consul.py:29 | `d[k] = v` stores `v`; an existing key keeps its position and a new key is appended to the iteration order |
| Dicts.Items | src/domains.py:7 | `items()` yields every key in iteration order with its own value |
| Dicts.PutAllGet | src/magellan.py:84 | after a run of assignments a key holds the last value assigned to it, and an untouched key keeps its old value |
| Dicts.UpdateEntries | src/domains.py:9 | `d.update(e)` is the union of the two dicts in which `e` wins on shared keys |
| Dicts.UpdateGetNew | src/magellan.py:120 | after `update`, a key of the new dict holds the new dict's value |
| Dicts.UpdateGetOld | src/magellan.py:120 | after `update`, a key absent from the new dict keeps its old value |
| Strings.CharIndex | src/haproxy.py:105 | the position of the first `/`, or the length when there is none |
| Strings.NatToString | src/haproxy.py:128 | `str(i)` of a position is a non-empty run of decimal digits |
| Strings.NatToStringValue | src/haproxy.py:128 | reading the digits of `str(n)` back gives `n` |
| Strings.NatToStringInjective | src/haproxy.py:141 | distinct positions render to distinct digit strings |
| Strings.DigitsPrefix | src/haproxy.py:141 | a run of digits followed by a non-digit is determined by the whole string |
| Strings.LexLessIrreflexive | src/haproxy.py:145 | the string order of `sorted` is irreflexive |
| Strings.LexLessTransitive | src/haproxy.py:145 | the string order of `sorted` is transitive |
| Strings.LexLessTotal | src/haproxy.py:145 | any two distinct strings are ordered one way or the other |
| Wildcard.CaptureEnd | src/magellan.py:18 | a `%` opens a placeholder exactly when the next character is not `%` and a later `%` follows; the placeholder closes at the first such `%` |
| Wildcard.SegmentsNames | src/magellan.py:18-19 | every capture made from a placeholder has a non-empty name without `%` |
| Wildcard.SegmentsRoundTrip | src/magellan.py:29 | writing the compiled segments back gives the wildcard: compiling loses nothing |
| Wildcard.SegmentsPlain | src/magellan.py:29 | a wildcard without `%` compiles to its characters as literals |
| Wildcard.SegmentsPlaceholder | src/magellan.py:26-29 | a `%name%` placeholder at the front compiles to the capture `name`, followed by the compiled rest |
| Wildcard.SegmentsPlainPrefix | src/magellan.py:29 | text without `%` in front compiles to its own segments, whatever follows it |
| Wildcard.SegmentsLitFront | src/magellan.py:29 | a first character other than `%` stays a literal, and the rest compiles on its own |
| Wildcard.LiteralPercentUnpaired | src/magellan.py:29 | a `%` is left as a literal only at a position of the wildcard where it opens no placeholder |
| Wildcard.PercentInRegex | src/magellan.py:68 | the compiled expression contains `%` exactly when a `%` is left as a literal |
| Wildcard.Compile | src/magellan.py:26-29 | a falsy field compiles to nothing; otherwise the segments write back to the field, and the expression holds `%` exactly when a literal `%` is left |
| Wildcard.TailRun | src/magellan.py:19 | the longest prefix made of characters the capture class accepts |
| Wildcard.RunPrefix | src/magellan.py:19 | every prefix of length 2 up to the greedy run is a valid capture |
| Wildcard.RunMaximal | src/magellan.py:19 | no valid capture is longer than the greedy run |
| Wildcard.MatchSound | src/magellan.py:80 | when the backtracking matcher succeeds, the text is in the pattern's language and there is one group per capture |
| Wildcard.BacktrackSound | src/magellan.py:80 | when the capture's backtracking succeeds, a valid capture prefix is followed by text the rest of the pattern accepts |
| Wildcard.MatchComplete | src/magellan.py:80 | every text in the pattern's language is matched |
| Wildcard.BacktrackFinds | src/magellan.py:80 | backtracking from a longer run still finds a split that a shorter prefix allows |
| Wildcard.MatchIffAccepts | src/magellan.py:80 | `re.match('^' + p + '$', s)` succeeds exactly on the pattern's language |
| Wildcard.MatchField | src/magellan.py:75-84 | two falsy fields agree; exactly one falsy field is a mismatch; otherwise the anchored match decides |
| Wildcard.ReplaceAllPlain | src/magellan.py:88 | `replace` of a placeholder leaves a text without `%` unchanged |
| Wildcard.SubstitutePlain | src/magellan.py:86-88 | a domain wildcard without `%` comes out of the substitution loop unchanged |
| Wildcard.ValidDomainHasNoPlaceholder | src/magellan.py:89-91 | a domain that passes `^[\w\-\./]+$` contains no `%`, so an unfilled placeholder is always rejected |
| Matcher.Patterns | src/magellan.py:67 | pattern `i` is field `i` of the selector (name, environment, app id), compiled on its own |
| Matcher.FieldsMatchIff | src/magellan.py:74-84 | a service qualifies exactly when every one of its three fields agrees with the selector |
| Matcher.FieldsMatchNoneExtends | src/magellan.py:77-83 | once a field fails, the `break` makes the whole service fail whatever the later fields are |
| Matcher.FieldsMatchStep | src/magellan.py:74-84 | each field either ends the loop or adds its groups to the replacements, later fields overwriting |
| Matcher.MatchServiceIndex | src/magellan.py:72-84 | the field loop sets `matched` exactly when the fields agree, and its replacements are the merged groups |
| Matcher.SubstituteDomain | src/magellan.py:86-88 | every captured name is replaced in the wildcard, in the replacements' order |
| Matcher.MatchDomainsToServices | src/magellan.py:63-93 | the result is the dict built from the domains of the qualifying services, in discovery order |
| Matcher.CollectDomains | src/magellan.py:71-92 | the service loop of a resolved selector yields the dict built from the domains of the qualifying services, in discovery order |
| Matcher.AddServiceDomain | src/magellan.py:72-92 | one service extends the dict exactly as its domain pair, if it yields one, extends the pair list; a service that does not qualify leaves it unchanged |
| Matcher.DomainPairsAdds | src/magellan.py:92 | a service that yields a valid domain sets that domain to its addresses |
| Matcher.DomainPairsSkips | src/magellan.py:89-91 | a service that yields no valid domain leaves the result as it was |
| Matcher.DomainPairsValid | src/magellan.py:89-92 | every domain in the result passes the domain check |
| Matcher.ServiceDomainsGet | src/magellan.py:71-92 | a domain maps to the addresses of the last service that yields it, and is absent when no service yields it |
| Matcher.DomainsOf | src/magellan.py:85-91 | the domain each discovered service yields under the rule, or none |
| Matcher.DomainPairsKeys | src/magellan.py:85-92 | a domain is produced exactly when some service yields it |
| Matcher.MatchDomainsToAddress | src/magellan.py:96-98 | a literal address maps the wildcard, as written, to `{'0': address}` |
| Matcher.Wrap | src/magellan.py:115-119 | every domain keeps its position, and its value becomes its addresses with the rule's `allow_all` |
| Matcher.RuleMapping | src/magellan.py:104-119 | a rule fails exactly when it has neither an address nor a `service_name` key (a key holding null does not fail), and then with `KeyError`; every domain it yields carries `allow_all is True` |
| Matcher.MatchDomainsToAddresses | src/magellan.py:101-122 | the rule loop computes the resolution function over the rules in dict order; only selectors that reach `re.match` are constrained |
| Matcher.RuleTargets | src/magellan.py:106-114 | the address branch and the service branch give the mapping that wrapping turns into the rule's contribution, or the same `KeyError` |
| Matcher.ResolveStep | src/magellan.py:103-120 | a non-`http` rule changes nothing, a failing rule fails the loop, and any other rule updates the table with its mapping |
| Matcher.ResolveErrSticks | src/magellan.py:111 | once a rule has raised, the loop never produces a table |
| Matcher.ResolveErrIsKeyError | src/magellan.py:111 | the only failure of the loop is the missing `service_name` |
| Matcher.ResolveEntries | src/magellan.py:115-120 | the table is the union of the `http` rules' domains, a later rule overwriting an earlier one |
| Matcher.ResolveErrIff | src/magellan.py:104-111 | the loop raises exactly when some `http` rule has neither an address nor a `service_name` |
| Matcher.NullServiceName | src/magellan.py:111-114 | a `service_name` key holding null raises no `KeyError`, and only a service without a name can yield a domain for the rule |
| Matcher.AddressRuleIsLiteral | src/magellan.py:108-109 | a rule with an address yields exactly its wildcard, with neither the `%` check nor the domain check applied |
| Consul.FirstArmada | src/consul.py:15-17 | the position of the first service named `armada`, with none before it, or none at all |
| Consul.FirstArmadaAt | src/consul.py:15-17 | the first `armada` is at `i` exactly when it is there and at no earlier position |
| Consul.LocalArmadaAddress | src/consul.py:12-18 | an address exactly when some service is `armada`; the address is the ship IP and the first one's port; otherwise the "Could not find local Armada agent." error |
| Consul.ListUrl | src/consul.py:23 | the URL is `http://`, then exactly the Armada address, then `/list` |
| Consul.WorkingServices | src/consul.py:26 | an instance is kept exactly when its status is `passing` or `warning` |
| Consul.WorkingServicesConcat | src/consul.py:26 | the filter distributes over concatenation, so the answer's order and repetitions are kept |
| Consul.WorkingServicesSingle | src/consul.py:26 | one instance is kept exactly when its check passes or warns |
| Consul.GroupAt | src/consul.py:25 | a missing group of the `defaultdict` reads as an empty dict |
| Consul.GroupServices | src/consul.py:27-29 | the grouping loop computes the grouping function over the working instances |
| Consul.Discover | src/consul.py:21-30 | fails exactly when there is no Armada agent; otherwise groups the working instances of the agent's `/list` answer |
| Consul.GroupedGet | src/consul.py:27-29 | a group is the dict of its instances' `(container_id, address)` pairs in order, so the last instance of a container wins |
| Consul.GroupOfEmpty | src/consul.py:27-29 | an index has instances exactly when some working instance carries it |
| Consul.GroupsNonEmpty | src/consul.py:25-29 | no discovered group is empty |
| Domains.GetDomainsToServices | src/domains.py:4-10 | the loop merges the qualifying files in the store's order |
| Domains.MergeConfigsEntries | src/domains.py:7-9 | the merged rules are the union in which a later qualifying file wins |
| Domains.MergedRulesKeys | src/domains.py:7-9 | a wildcard has a rule exactly when some `domains-*.json` file defines it |
| Domains.MergedRulesLastWins | src/domains.py:9 | a wildcard's rule comes from the last qualifying file that defines it |
| Domains.NoQualifyingConfig | src/domains.py:8 | with no `domains-*.json` file there are no rules |
| HaproxyConfig.StripSlashes | src/haproxy.py:106 | the result neither starts nor ends with `/` |
| HaproxyConfig.StripSlashesRemovesEnds | src/haproxy.py:106 | `strip('/')` removes a run of slashes at each end and nothing else |
| HaproxyConfig.SplitUrl | src/haproxy.py:104-106 | the host has no `/`; the path has no slash at either end; a URL without `/` is all host |
| HaproxyConfig.SplitUrlParts | src/haproxy.py:105-106 | the URL is the host, a `/`, and the path surrounded by slashes |
| HaproxyConfig.CleanString | src/haproxy.py:27-28 | same length; an allowed character is kept and any other becomes `_` |
| HaproxyConfig.CleanStringClean | src/haproxy.py:27-28 | the output has only allowed characters, and cleaning is idempotent |
| HaproxyConfig.CleanStringKeeps | src/haproxy.py:27-28 | a string that is already clean is unchanged |
| HaproxyConfig.InsertByLength | src/haproxy.py:123 | insertion adds exactly the new entry |
| HaproxyConfig.SortByLength | src/haproxy.py:123 | the sort is a permutation of the items |
| HaproxyConfig.InsertByLengthOrdered | src/haproxy.py:123 | insertion keeps the list longest first |
| HaproxyConfig.InsertByLengthStable | src/haproxy.py:123 | among keys of one length, the inserted entry comes after the earlier ones |
| HaproxyConfig.SortByLengthOrdered | src/haproxy.py:120-123 | the domains come out longest first, and domains of equal length keep the table's order |
| HaproxyConfig.InsertByKey | src/haproxy.py:145 | insertion adds exactly the new pair |
| HaproxyConfig.SortByKey | src/haproxy.py:145 | `sorted(items())` is a permutation of the items |
| HaproxyConfig.InsertByKeyAscending | src/haproxy.py:145 | inserting a new key keeps the keys strictly ascending |
| HaproxyConfig.SortByKeyAscending | src/haproxy.py:145 | distinct container ids come out strictly ascending |
| HaproxyConfig.HostOf | src/haproxy.py:147 | the host part is the text before the first `:`, or the whole address without one |
| HaproxyConfig.Routes | src/haproxy.py:125-126 | route `k` is built from the `k`-th sorted domain, its position and its addresses |
| HaproxyConfig.HostOnlyLines | src/haproxy.py:128-135 | a bare host declares its ACL and then routes to its one backend |
| HaproxyConfig.HostPathLines | src/haproxy.py:128-133 | a host with a path routes to the prefix backend and then the exact backend, each ACL declared before its use |
| HaproxyConfig.RouteTargets | src/haproxy.py:126-157 | the frontend lines of a domain use exactly the backends it defines, in order: one for a host, two for a path |
| HaproxyConfig.FrontendTargets | src/haproxy.py:126-136 | the frontend lines use the domain's intended backend names, and each ACL is declared before it is used |
| HaproxyConfig.BackendsNamed | src/haproxy.py:141-152 | the backends carry the domain's intended names |
| HaproxyConfig.SortedPairs | src/haproxy.py:145 | `sorted(addresses.items())` lists each container once, ascending, with its own address |
| HaproxyConfig.SortedPairsSound | src/haproxy.py:145 | every sorted pair is a container with its own address |
| HaproxyConfig.SortedPairsComplete | src/haproxy.py:145 | every container appears among the sorted pairs |
| HaproxyConfig.SortedServers | src/haproxy.py:145-149 | one server per container, ascending by id, with its own address; `Host` is set exactly for a non-IP host where asked |
| HaproxyConfig.RouteServers | src/haproxy.py:145-156 | every backend of a domain serves its sorted containers; only the prefix backend sets `Host` |
| HaproxyConfig.BackendNameInjective | src/haproxy.py:131-135 | the position, the suffix and the cleaned host can be read back from a backend name, which is never `backend_default` |
| HaproxyConfig.RouteBackendName | src/haproxy.py:141-152 | a domain's backend is named from its position, the suffix `a` for the exact path, and its cleaned host |
| HaproxyConfig.BackendNamesUnique | src/haproxy.py:126-158 | no two backends of a text share a name, and none is `backend_default` |
| HaproxyConfig.Format | src/haproxy.py:110-118 | a template with literal text formats to a non-empty text |
| HaproxyConfig.StandardTemplatesWellFormed | src/haproxy.py:35-86 | the three templates use only the names the generator passes |
| HaproxyConfig.HeaderFields | src/haproxy.py:114-118 | the header is formatted with exactly its three names |
| HaproxyConfig.StatsFields | src/haproxy.py:110-113 | the statistics section is formatted with exactly the user and the password |
| HaproxyConfig.DefaultBackendFields | src/haproxy.py:159 | the default backend is formatted with exactly the service limit |
| HaproxyConfig.DefaultBackendText | src/haproxy.py:159 | the default backend section is never empty |
| HaproxyConfig.ConfigText | src/haproxy.py:108-161 | the generated text is never empty, so it always differs from a missing cache |
| HaproxyConfig.ConfigTextFrame | src/haproxy.py:114-159 | the text opens with the header and closes with the default backend |
| HaproxyConfig.EmptyTableConfig | src/haproxy.py:108-161 | with no domains the text is the header and the default backend alone |
| HaproxyConfig.WrapperItems | src/magellan.py:116-119 | the sorted items of a table value are `('addresses', the addresses)` then `('allow_all', the flag)`, and neither value is a string |
| HaproxyConfig.ServersAsWritten | src/haproxy.py:145-149 | the server loop as written succeeds exactly when every value is a string |
| HaproxyConfig.BackendsAsWrittenRaise | src/haproxy.py:145-147 | the backend loop as written raises on the first non-string value |
| HaproxyConfig.AsWrittenRaises | src/haproxy.py:145-147 | the generator as written raises for every non-empty table, and agrees with the corrected text on the empty one |
| Haproxy.UpdateSettles | src/haproxy.py:186-195 | after `update` the cache holds the rendered text exactly when it already did or the push succeeded |
| Haproxy.UpdateKeepsCacheTrue | src/haproxy.py:189-195 | a cache that named the running text still does after `update` |
| Haproxy.ConfiguredStats | src/haproxy.py:197-201 | each statistics attribute takes the configured value only when that value is truthy |
| Haproxy.StatsStayEnabled | src/haproxy.py:199 | once enabled, statistics stay enabled through any sequence of calls |
| Haproxy.OverriddenLimits | src/haproxy.py:230-233 | each limit is read from its key or reset to its default |
| Haproxy.FrontendLines | src/haproxy.py:126-137 | the loop body renders the domain's frontend lines and an empty line |
| Haproxy.ServerLines | src/haproxy.py:145-149 | the server loop renders one line per server, plus the `Host` line where set |
| Haproxy.BackendSectionLines | src/haproxy.py:141-150 | one backend renders as its head, its rewrite, its servers and an empty line |
| Haproxy.BackendLines | src/haproxy.py:140-157 | the loop body renders the domain's backends |
| Haproxy.FrontendSection | src/haproxy.py:125-137 | the frontend loop renders every route's lines in order |
| Haproxy.BackendSection | src/haproxy.py:138-158 | the backend loop renders every route's backends in order |
| Haproxy.Haproxy.constructor | src/haproxy.py:88-95 | the class defaults, port 80, and whatever file is already at `config_path` |
| Haproxy.Haproxy.GetCurrentConfig | src/haproxy.py:97-101 | the cached text, or `''` without a file |
| Haproxy.Haproxy.GenerateConfig | src/haproxy.py:108-161 | the generated text is the configuration function of the object's settings and the table |
| Haproxy.Haproxy.PutConfig | src/haproxy.py:163-172 | the file is written first; the push fails exactly on a failed transfer, a failed `cp`, or a status other than 200 |
| Haproxy.Haproxy.Restart | src/haproxy.py:174-178 | a reload succeeds exactly on exit code 0; `MainHaproxy` always succeeds |
| Haproxy.Haproxy.ClearCurrentConfig | src/haproxy.py:180-184 | the cache file is gone |
| Haproxy.Haproxy.Update | src/haproxy.py:186-195 | an unchanged text touches nothing, a successful push caches the text, and a failed one removes the cache |
| Haproxy.Haproxy.ConfigureStats | src/haproxy.py:197-201 | the attributes become the configured statistics |
| Haproxy.Haproxy.OverrideHaproxyParameters | src/haproxy.py:230-233 | the limits become the overridden ones |
| Magellan.ResolveTable | src/magellan.py:133-138 | merge, discover and resolve compute the pass's table or its exception |
| Magellan.UpdateAll | src/magellan.py:143-144 | every load balancer is updated from the table |
| Magellan.Cycle | src/magellan.py:132-147 | a table is saved exactly when the pass raises nothing and finds a domain; only then are the load balancers updated, otherwise none changes |
| Magellan.NoRulesNoChange | src/magellan.py:140 | without rule files the table is empty, so nothing is pushed |
| Magellan.CycleRaises | src/magellan.py:132-147 | a pass raises exactly when there is no Armada agent or some `http` rule has neither an address nor a `service_name` |

## Left out

- I/O is not modelled. The file reads and writes, the SSH transfer and `sudo cp`, the HTTP upload, `requests`, `hermes`, Sentry and logging become parameters or are dropped. Their results enter as `Outcome` and as function parameters.
- `watch_for_health_checks` (consul.py lines 33-39), the `while True` loop and `time.sleep` are left out. The model describes one pass.
- `get_load_balancers` and `get_matching_main_haproxies` (magellan.py lines 32-60) are left out because they query the network. The load balancers of a pass are a parameter.
- `MainHaproxy.get_headers` and the authorization token are left out. They do not change what is pushed or cached.
- The md5 name of `config_path` is left out. Each load balancer owns its cache file, and load balancers are assumed distinct.
- `_is_ip` is a parameter, because `socket.inet_aton` is a foreign call.
- Dict order is insertion order, where a reassigned key keeps its place. Python 2's hash order is not modelled.
- Wildcard.Match: `re.match` is modelled only on the expressions magellan compiles. Literal characters must not be regular-expression operators other than `.`, and group names must be distinct identifiers. `Matcher.MatchDomainsToServices` requires this of its selector. `Matcher.MatchDomainsToAddresses` and `Magellan.Cycle` require it only of `http` rules without an address that have a `service_name`, the only rules whose selector is matched.
- Matcher.MatchDomainsToServices: strings are sequences of characters and `str(domain_wildcard)` (line 86 of magellan.py) is the identity. Under Python 2 a non-ASCII wildcard read as `unicode` makes `str` raise `UnicodeEncodeError` once a service qualifies, and that ends the whole pass. The model instead lets the domain check reject the domain. Whether rules arrive as `unicode` depends on the configuration loader, which is not part of this model.
- HaproxyConfig.ConfigText: the second `format` of each section is taken as the identity. Host and path are substituted once, as values; only the container ids and addresses of the server and `Host` lines are formatted a second time (line 158 of haproxy.py), so this is exact for container ids and addresses without braces.
- HaproxyConfig.Format: states only that literal text makes the output non-empty; the rendered text itself is stated by the functions that call it.
- Haproxy.OverrideHaproxyParameters: values are modelled as integers. A non-integer `max_connections_*` value is not modelled.
- Haproxy.ConfiguredStats: `user` and `password` are modelled as strings. Other JSON values are not modelled.
- Magellan.Cycle: after an exception in the middle of the balancer loop, the balancers already updated keep their state. The model only covers passes that raise before that loop. With the corrected generator, no exception occurs there.
- `allow_all` is carried into the table but never read, because the generator ignores it.

## Findings

| source | as written | input that shows it | evidently intended | confidence | as-written member | corrected member |
|---|---|---|---|---|---|---|
| src/haproxy.py:145-147 | the backend loop iterates `sorted(domains[i][1].items())`, but each value magellan.py passes is the `{'addresses': ..., 'allow_all': ...}` dict, so `address` is a dict and `address.split(':')` raises `AttributeError` outside `update`'s `try` | any table with one domain, e.g. `{'a.com': {'addresses': {'c1': '10.0.0.1:80'}, 'allow_all': False}}` | iterate `domains[i][1]['addresses'].items()`: one server per container | not executed | HaproxyConfig.AsWrittenRaises | HaproxyConfig.ConfigText |
