/**
  domains.py: the routing rules are spread over configuration files; every
  file named `domains-*.json` holds a `{domain_wildcard: rule}` dict, and the
  dicts are merged in the order the configuration store lists the files.
 */
module Domains {
  import opened Dicts
  import opened Strings
  import opened Matcher

  /** Line 8 of domains.py: the file names that hold rules. */
  predicate Qualifies(configName: string)
  {
    StartsWith(configName, "domains-") && EndsWith(configName, ".json")
  }

  /** The rules after the first configs have been merged, later files overwriting earlier ones. */
  function MergeConfigs(configs: seq<(string, Rules)>): Rules
    decreases |configs|
  {
    if configs == [] then Empty()
    else
      var last := configs[|configs| - 1];
      var acc := MergeConfigs(configs[..|configs| - 1]);
      if Qualifies(last.0) then Update(acc, last.1) else acc
  }

  /**
    Lines 4-10 of domains.py. `configs` is what the configuration store
    returns for the service: file name to parsed contents.
   */
  method GetDomainsToServices(configs: Dict<string, Rules>) returns (result: Rules)
    ensures result == MergeConfigs(Items(configs))
  {
    result := Empty();
    var items := Items(configs);
    var n := 0;
    while n < |items|
      invariant 0 <= n <= |items|
      invariant result == MergeConfigs(items[..n])
    {
      assert items[..n + 1][..n] == items[..n];
      var configName := items[n].0;
      var domains := items[n].1;
      if StartsWith(configName, "domains-") && EndsWith(configName, ".json") {
        result := Update(result, domains);
      }
      n := n + 1;
    }
    assert items[..n] == items;
  }

  /** The merged rules as a plain map: a union in which a later qualifying file wins. */
  function MergedRules(configs: seq<(string, Rules)>): map<string, RuleDef>
    decreases |configs|
  {
    if configs == [] then map[]
    else
      var last := configs[|configs| - 1];
      var acc := MergedRules(configs[..|configs| - 1]);
      if Qualifies(last.0) then acc + last.1.entries else acc
  }

  /** Merging with `dict.update` gives exactly the union in which the later file wins. */
  lemma {:induction false} MergeConfigsEntries(configs: seq<(string, Rules)>)
    ensures MergeConfigs(configs).entries == MergedRules(configs)
    decreases |configs|
  {
    if configs != [] {
      var init := configs[..|configs| - 1];
      var last := configs[|configs| - 1];
      MergeConfigsEntries(init);
      if Qualifies(last.0) {
        UpdateEntries(MergeConfigs(init), last.1);
      }
    }
  }

  /** The file is a `domains-*.json` file and has a rule for `wildcard`. */
  predicate Defines(config: (string, Rules), wildcard: string)
  {
    Qualifies(config.0) && wildcard in config.1.entries
  }

  /** A wildcard has a rule exactly when some qualifying file defines it. */
  lemma {:induction false} MergedRulesKeys(configs: seq<(string, Rules)>, wildcard: string)
    ensures wildcard in MergedRules(configs) <==> exists i | 0 <= i < |configs| :: Defines(configs[i], wildcard)
    decreases |configs|
  {
    if configs != [] {
      var n := |configs| - 1;
      var init := configs[..n];
      MergedRulesKeys(init, wildcard);
      if Defines(configs[n], wildcard) {
        assert wildcard in MergedRules(configs);
      } else {
        assert wildcard in MergedRules(configs) <==> wildcard in MergedRules(init);
        if exists i | 0 <= i < |configs| :: Defines(configs[i], wildcard) {
          var i :| 0 <= i < |configs| && Defines(configs[i], wildcard);
          assert i < n && init[i] == configs[i];
        }
        if exists i | 0 <= i < n :: Defines(init[i], wildcard) {
          var i :| 0 <= i < n && Defines(init[i], wildcard);
          assert configs[i] == init[i];
        }
      }
    }
  }

  /** The rule of a wildcard comes from the last qualifying file that defines it. */
  lemma {:induction false} MergedRulesLastWins(configs: seq<(string, Rules)>, i: nat, wildcard: string)
    requires i < |configs| && Defines(configs[i], wildcard)
    requires forall j | i < j < |configs| :: !Defines(configs[j], wildcard)
    ensures wildcard in MergedRules(configs) && MergedRules(configs)[wildcard] == configs[i].1.entries[wildcard]
    decreases |configs|
  {
    var n := |configs| - 1;
    if i < n {
      var init := configs[..n];
      forall j | i < j < |init| ensures !Defines(init[j], wildcard) {
        assert init[j] == configs[j];
      }
      assert init[i] == configs[i];
      MergedRulesLastWins(init, i, wildcard);
    }
  }

  /** With no `domains-*.json` file there are no rules. */
  lemma {:induction false} NoQualifyingConfig(configs: seq<(string, Rules)>)
    requires forall i | 0 <= i < |configs| :: !Qualifies(configs[i].0)
    ensures MergeConfigs(configs) == Empty()
    decreases |configs|
  {
    if configs != [] {
      var init := configs[..|configs| - 1];
      forall i | 0 <= i < |init| ensures !Qualifies(init[i].0) {
        assert init[i] == configs[i];
      }
      NoQualifyingConfig(init);
    }
  }
}
