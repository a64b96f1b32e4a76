/**
  The configuration text haproxy.py generates for one load balancer: the
  string helpers `split_url` and `_clean_string`, the two orders the
  generator sorts by, and the sections of the text. The sections are
  described as data (ACLs, `use_backend` rules, backends and their server
  lines) and rendered to the exact text of the Python templates.
 */
module HaproxyConfig {
  import opened Values
  import opened Dicts
  import opened Strings
  import opened Matcher

  // ---------------------------------------------------------------------------
  // split_url

  predicate OnlySlashes(s: string)
  {
    forall i | 0 <= i < |s| :: s[i] == '/'
  }

  /** `s.strip('/')` */
  function StripSlashes(s: string): (r: string)
    ensures r == "" || (r[0] != '/' && r[|r| - 1] != '/')
    decreases |s|
  {
    if s != "" && s[0] == '/' then StripSlashes(s[1..])
    else if s != "" && s[|s| - 1] == '/' then StripSlashes(s[..|s| - 1])
    else s
  }

  /** `p` is `s` without a run of slashes at each end. */
  predicate StrippedAt(s: string, i: nat, j: nat, p: string)
  {
    i <= j <= |s| && p == s[i..j] && OnlySlashes(s[..i]) && OnlySlashes(s[j..])
  }

  lemma StrippedFront(s: string, i: nat, j: nat, p: string)
    requires s != "" && s[0] == '/' && StrippedAt(s[1..], i, j, p)
    ensures StrippedAt(s, i + 1, j + 1, p)
  {
    assert s[1..][i..j] == s[i + 1..j + 1];
    assert s[1..][j..] == s[j + 1..];
    assert forall k | 1 <= k < i + 1 :: s[k] == s[1..][..i][k - 1];
  }

  lemma StrippedBack(s: string, i: nat, j: nat, p: string)
    requires s != "" && s[|s| - 1] == '/' && StrippedAt(s[..|s| - 1], i, j, p)
    ensures StrippedAt(s, i, j, p)
  {
    var t := s[..|s| - 1];
    assert t[i..j] == s[i..j] && t[..i] == s[..i];
    assert forall k | 0 <= k < |s| - j :: s[j..][k] == if k < |t| - j then t[j..][k] else '/';
  }

  /** `strip` removes only slashes, and only at the two ends. */
  lemma {:induction false} StripSlashesRemovesEnds(s: string)
    ensures exists i: nat, j: nat :: StrippedAt(s, i, j, StripSlashes(s))
    decreases |s|
  {
    if s != "" && s[0] == '/' {
      StripSlashesRemovesEnds(s[1..]);
      var i: nat, j: nat :| StrippedAt(s[1..], i, j, StripSlashes(s[1..]));
      StrippedFront(s, i, j, StripSlashes(s));
    } else if s != "" && s[|s| - 1] == '/' {
      StripSlashesRemovesEnds(s[..|s| - 1]);
      var i: nat, j: nat :| StrippedAt(s[..|s| - 1], i, j, StripSlashes(s[..|s| - 1]));
      StrippedBack(s, i, j, StripSlashes(s));
    } else {
      assert s[..0] == "" && s[|s|..] == "" && s[0..|s|] == s;
      assert StrippedAt(s, 0, |s|, StripSlashes(s));
    }
  }

  /** `Haproxy.split_url`: the host before the first '/', and the rest with its slashes stripped. */
  function SplitUrl(url: string): (r: (string, string))
    ensures '/' !in url ==> r == (url, "")
    ensures '/' !in r.0
    ensures r.1 == "" || (r.1[0] != '/' && r.1[|r.1| - 1] != '/')
  {
    var k := CharIndex(url, '/');
    if k < |url| then (url[..k], StripSlashes(url[k + 1..])) else (url, "")
  }

  /**
    `split_url` loses only slashes: the URL is the host, a '/', and the path
    with runs of slashes around it.
   */
  lemma SplitUrlParts(url: string)
    requires '/' in url
    ensures var host := SplitUrl(url).0;
      var rest := url[|host| + 1..];
      && url == host + "/" + rest
      && exists i: nat, j: nat :: StrippedAt(rest, i, j, SplitUrl(url).1)
  {
    var k := CharIndex(url, '/');
    var host := url[..k];
    var rest := url[k + 1..];
    assert SplitUrl(url) == (host, StripSlashes(rest));
    assert url == host + "/" + rest;
    StripSlashesRemovesEnds(rest);
    var i: nat, j: nat :| StrippedAt(rest, i, j, StripSlashes(rest));
    assert StrippedAt(url[|SplitUrl(url).0| + 1..], i, j, SplitUrl(url).1);
  }

  // ---------------------------------------------------------------------------
  // _clean_string

  /** `[a-zA-Z0-9_\-\.]` */
  predicate CleanChar(c: char)
  {
    ('a' <= c <= 'z') || ('A' <= c <= 'Z') || ('0' <= c <= '9') || c == '_' || c == '-' || c == '.'
  }

  /** `_clean_string`: every other character becomes '_'. */
  function CleanString(s: string): (r: string)
    ensures |r| == |s|
    ensures forall i | 0 <= i < |s| :: CleanChar(s[i]) ==> r[i] == s[i]
    ensures forall i | 0 <= i < |s| :: !CleanChar(s[i]) ==> r[i] == '_'
  {
    seq(|s|, i requires 0 <= i < |s| => if CleanChar(s[i]) then s[i] else '_')
  }

  /** The output uses only the allowed characters, and cleaning it again changes nothing. */
  lemma CleanStringClean(s: string)
    ensures forall i | 0 <= i < |CleanString(s)| :: CleanChar(CleanString(s)[i])
    ensures CleanString(CleanString(s)) == CleanString(s)
  {
  }

  /** A string that is already clean is left as it is. */
  lemma CleanStringKeeps(s: string)
    requires forall i | 0 <= i < |s| :: CleanChar(s[i])
    ensures CleanString(s) == s
  {
  }

  // ---------------------------------------------------------------------------
  // The two sorts

  /** Places `x` after every entry whose key is at least as long. */
  function InsertByLength<V>(x: (string, V), s: seq<(string, V)>): (r: seq<(string, V)>)
    ensures multiset(r) == multiset(s) + multiset{x}
    decreases |s|
  {
    if s == [] then [x]
    else if |s[0].0| >= |x.0| then
      assert s == [s[0]] + s[1..];
      [s[0]] + InsertByLength(x, s[1..])
    else [x] + s
  }

  /**
    Line 123 of haproxy.py: `sorted(items, key=lambda (domain, _): -len(domain))`,
    which keeps the order of the items among keys of equal length.
   */
  function SortByLength<V>(s: seq<(string, V)>): (r: seq<(string, V)>)
    ensures multiset(r) == multiset(s)
    decreases |s|
  {
    if s == [] then []
    else
      assert s == s[..|s| - 1] + [s[|s| - 1]];
      InsertByLength(s[|s| - 1], SortByLength(s[..|s| - 1]))
  }

  predicate LongestFirst<V>(s: seq<(string, V)>)
  {
    forall i, j | 0 <= i < j < |s| :: |s[i].0| >= |s[j].0|
  }

  /** `[x]` when the key of `x` has length `n`. */
  function Keep<V>(x: (string, V), n: nat): seq<(string, V)>
  {
    if |x.0| == n then [x] else []
  }

  /** The entries of `s` whose key has length `n`, in order. */
  function OfLength<V>(s: seq<(string, V)>, n: nat): seq<(string, V)>
    decreases |s|
  {
    if s == [] then []
    else OfLength(s[..|s| - 1], n) + Keep(s[|s| - 1], n)
  }

  lemma {:induction false} OfLengthCons<V>(y: (string, V), s: seq<(string, V)>, n: nat)
    ensures OfLength([y] + s, n) == Keep(y, n) + OfLength(s, n)
    decreases |s|
  {
    if s != [] {
      var t := [y] + s;
      assert t[..|t| - 1] == [y] + s[..|s| - 1];
      OfLengthCons(y, s[..|s| - 1], n);
    } else {
      assert OfLength([y], n) == OfLength([], n) + Keep(y, n);
    }
  }

  lemma {:induction false} InsertByLengthOrdered<V>(x: (string, V), s: seq<(string, V)>)
    requires LongestFirst(s)
    ensures LongestFirst(InsertByLength(x, s))
    decreases |s|
  {
    if s != [] && |s[0].0| >= |x.0| {
      InsertByLengthOrdered(x, s[1..]);
      var rest := InsertByLength(x, s[1..]);
      forall k | 0 <= k < |rest| ensures |rest[k].0| <= |s[0].0| {
        InsertedFrom(x, s[1..], k);
        if rest[k] != x {
          var m :| 0 <= m < |s[1..]| && s[1..][m] == rest[k];
          assert s[m + 1] == rest[k];
        }
      }
      ConsOrdered(s[0], rest);
    } else if s != [] {
      forall k | 0 <= k < |s| ensures |s[k].0| <= |x.0| {
        if k > 0 { assert |s[k].0| <= |s[0].0|; }
      }
      ConsOrdered(x, s);
    }
  }

  /** An entry at least as long as every entry of an ordered list can go in front of it. */
  lemma ConsOrdered<V>(y: (string, V), t: seq<(string, V)>)
    requires LongestFirst(t)
    requires forall k | 0 <= k < |t| :: |t[k].0| <= |y.0|
    ensures LongestFirst([y] + t)
  {
    var r := [y] + t;
    forall i, j | 0 <= i < j < |r| ensures |r[i].0| >= |r[j].0| {
      assert r[j] == t[j - 1];
      if i > 0 { assert r[i] == t[i - 1]; }
    }
  }

  /** Every entry after the insertion is `x` or an entry of `s`. */
  lemma InsertedFrom<V>(x: (string, V), s: seq<(string, V)>, k: nat)
    requires k < |InsertByLength(x, s)|
    ensures InsertByLength(x, s)[k] == x || InsertByLength(x, s)[k] in s
  {
    var r := InsertByLength(x, s);
    assert r[k] in multiset(r);
  }

  lemma {:induction false} InsertByLengthStable<V>(x: (string, V), s: seq<(string, V)>, n: nat)
    requires LongestFirst(s)
    ensures OfLength(InsertByLength(x, s), n) == OfLength(s, n) + Keep(x, n)
    decreases |s|
  {
    if s == [] {
      assert OfLength([x], n) == OfLength([], n) + Keep(x, n);
    } else if |s[0].0| >= |x.0| {
      LongestFirstTail(s);
      InsertByLengthStable(x, s[1..], n);
      assert OfLength(s, n) == Keep(s[0], n) + OfLength(s[1..], n) by {
        assert s == [s[0]] + s[1..];
        OfLengthCons(s[0], s[1..], n);
      }
      InsertByLengthBehind(x, s, n);
      Regroup(OfLength(InsertByLength(x, s), n), OfLength(InsertByLength(x, s[1..]), n), OfLength(s, n),
        Keep(s[0], n), OfLength(s[1..], n), Keep(x, n));
    } else {
      InsertByLengthFront(x, s, n);
    }
  }

  /** Inserting in front of a first entry with a shorter key. */
  lemma InsertByLengthFront<V>(x: (string, V), s: seq<(string, V)>, n: nat)
    requires LongestFirst(s) && s != [] && |s[0].0| < |x.0|
    ensures OfLength(InsertByLength(x, s), n) == OfLength(s, n) + Keep(x, n)
  {
    assert InsertByLength(x, s) == [x] + s;
    OfLengthCons(x, s, n);
    if |x.0| == n {
      NoneOfLength(s, n);
      assert Keep(x, n) + [] == [] + Keep(x, n);
    } else {
      assert Keep(x, n) == [];
      assert [] + OfLength(s, n) == OfLength(s, n) + [];
    }
  }

  lemma Regroup<T>(p: seq<T>, q: seq<T>, r: seq<T>, k: seq<T>, a: seq<T>, b: seq<T>)
    requires p == k + q && q == a + b && r == k + a
    ensures p == r + b
  {
  }

  lemma LongestFirstTail<V>(s: seq<(string, V)>)
    requires LongestFirst(s) && s != []
    ensures LongestFirst(s[1..])
  {
    var tail := s[1..];
    forall i, j | 0 <= i < j < |tail| ensures |tail[i].0| >= |tail[j].0| {
      assert tail[i] == s[i + 1] && tail[j] == s[j + 1];
    }
  }

  /** Inserting behind a first entry that stays first. */
  lemma InsertByLengthBehind<V>(x: (string, V), s: seq<(string, V)>, n: nat)
    requires s != [] && |s[0].0| >= |x.0|
    ensures OfLength(InsertByLength(x, s), n) == Keep(s[0], n) + OfLength(InsertByLength(x, s[1..]), n)
  {
    assert InsertByLength(x, s) == [s[0]] + InsertByLength(x, s[1..]);
    OfLengthCons(s[0], InsertByLength(x, s[1..]), n);
  }

  /** In a longest-first list whose first key is shorter than `n`, no key has length `n`. */
  lemma {:induction false} NoneOfLength<V>(s: seq<(string, V)>, n: nat)
    requires LongestFirst(s) && s != [] && |s[0].0| < n
    ensures OfLength(s, n) == []
    decreases |s|
  {
    if |s| > 1 {
      var init := s[..|s| - 1];
      assert init[0] == s[0];
      NoneOfLength(init, n);
      assert |s[|s| - 1].0| <= |s[0].0|;
    }
  }

  /**
    The domains come out longest first, and among domains of equal length the
    order of the table is kept (the sort is stable).
   */
  lemma {:induction false} SortByLengthOrdered<V>(s: seq<(string, V)>)
    ensures LongestFirst(SortByLength(s))
    ensures forall n: nat :: OfLength(SortByLength(s), n) == OfLength(s, n)
    decreases |s|
  {
    if s != [] {
      var init := s[..|s| - 1];
      SortByLengthOrdered(init);
      InsertByLengthOrdered(s[|s| - 1], SortByLength(init));
      forall n: nat ensures OfLength(SortByLength(s), n) == OfLength(s, n) {
        InsertByLengthStable(s[|s| - 1], SortByLength(init), n);
      }
    }
  }

  /** Places `x` before the first entry whose key is not smaller. */
  function InsertByKey(x: (string, string), s: seq<(string, string)>): (r: seq<(string, string)>)
    ensures multiset(r) == multiset(s) + multiset{x}
    decreases |s|
  {
    if s == [] then [x]
    else if LexLess(s[0].0, x.0) then
      assert s == [s[0]] + s[1..];
      [s[0]] + InsertByKey(x, s[1..])
    else [x] + s
  }

  /** `sorted(d.items())` for a dict of strings: the pairs in ascending key order. */
  function SortByKey(s: seq<(string, string)>): (r: seq<(string, string)>)
    ensures multiset(r) == multiset(s)
    decreases |s|
  {
    if s == [] then []
    else
      assert s == s[..|s| - 1] + [s[|s| - 1]];
      InsertByKey(s[|s| - 1], SortByKey(s[..|s| - 1]))
  }

  predicate Ascending(s: seq<(string, string)>)
  {
    forall i, j | 0 <= i < j < |s| :: LexLess(s[i].0, s[j].0)
  }

  lemma {:induction false} InsertByKeyAscending(x: (string, string), s: seq<(string, string)>)
    requires Ascending(s)
    requires forall i | 0 <= i < |s| :: s[i].0 != x.0
    ensures Ascending(InsertByKey(x, s))
    decreases |s|
  {
    var r := InsertByKey(x, s);
    if s != [] {
      if LexLess(s[0].0, x.0) {
        var rest := InsertByKey(x, s[1..]);
        InsertByKeyAscending(x, s[1..]);
        assert multiset(rest) == multiset(s[1..]) + multiset{x};
        forall i, j | 0 <= i < j < |r| ensures LexLess(r[i].0, r[j].0) {
          if i == 0 {
            assert r[j] in multiset(rest);
            if r[j] != x {
              assert r[j] in multiset(s[1..]);
              var k :| 0 <= k < |s[1..]| && s[1..][k] == r[j];
              assert s[k + 1] == r[j];
            }
          } else {
            assert r[i] == rest[i - 1] && r[j] == rest[j - 1];
          }
        }
      } else {
        LexLessTotal(s[0].0, x.0);
        forall i, j | 0 <= i < j < |r| ensures LexLess(r[i].0, r[j].0) {
          if i == 0 {
            if j > 1 { LexLessTransitive(x.0, s[0].0, s[j - 1].0); }
          } else {
            assert r[i] == s[i - 1] && r[j] == s[j - 1];
          }
        }
      }
    }
  }

  /** Distinct keys come out in strictly ascending order. */
  lemma {:induction false} SortByKeyAscending(s: seq<(string, string)>)
    requires forall i, j | 0 <= i < j < |s| :: s[i].0 != s[j].0
    ensures Ascending(SortByKey(s))
    decreases |s|
  {
    if s != [] {
      var init := s[..|s| - 1];
      var x := s[|s| - 1];
      SortByKeyAscending(init);
      var sorted := SortByKey(init);
      forall i | 0 <= i < |sorted| ensures sorted[i].0 != x.0 {
        assert sorted[i] in multiset(init);
        var k :| 0 <= k < |init| && init[k] == sorted[i];
        assert s[k] == init[k];
      }
      InsertByKeyAscending(x, sorted);
    }
  }

  // ---------------------------------------------------------------------------
  // The parts of the configuration, as data

  /** A `str.format` template, split into literal text and `{name}` fields. */
  datatype Piece = Text(s: string) | Field(name: string)

  type Template = seq<Piece>

  /** The class attributes `CONFIG_HEADER`, `STATS_SECTION` and `DEFAULT_BACKEND_SECTION`. */
  datatype Templates = Templates(header: Template, stats: Template, defaultBackend: Template)

  /**
    What a `Haproxy` object formats into the text: its templates, its
    listening port, its two connection limits and, while statistics are
    enabled, the statistics user and password.
   */
  datatype Settings = Settings(
    templates: Templates,
    listenPort: int,
    maxConnGlobal: int,
    maxConnService: int,
    stats: Option<(string, string)>)

  /** A line of the `http-in` frontend: an ACL, or a `use_backend` guarded by a host ACL and perhaps a path ACL. */
  datatype FrontendLine =
    | Acl(name: string, test: string)
    | UseBackend(backend: string, hostAcl: string, pathAcl: Option<string>)

  /** A `server` line; `setHost` adds the `set-header Host` line after it. */
  datatype Server = Server(containerId: string, address: string, setHost: bool)

  /** A backend section; `rewrite` is the argument of its `reqirep` line, if any. */
  datatype Backend = Backend(name: string, rewrite: Option<string>, servers: seq<Server>)

  /** What the domain at position `i` contributes: its frontend lines and its backends. */
  datatype Route = Route(frontend: seq<FrontendLine>, backends: seq<Backend>)

  function BackendName(i: nat, suffix: string, cleanedHost: string): string
  {
    "backend_" + NatToString(i) + suffix + "_" + cleanedHost
  }

  function HostAcl(i: nat): string { "host_" + NatToString(i) }

  function PathAcl(i: nat): string { "path_" + NatToString(i) }

  function ExactPathAcl(i: nat): string { "path_" + NatToString(i) + "a" }

  /** Line 144 of haproxy.py: strips the path prefix from the request line. */
  function PrefixRewrite(path: string): string
  {
    "^([^\\ ]*)\\ /" + path + "/(.*)  \\1\\ /\\2"
  }

  /** Line 154 of haproxy.py: rewrites a request for exactly `/<path>` to `/`. */
  function ExactRewrite(path: string): string
  {
    "^([^\\ ]*)\\ /" + path + "\\ (.*)  \\1\\ /\\ \\2"
  }

  /** The ACL tests of lines 127, 129 and 131 of haproxy.py. */
  function HostTest(host: string): string { "hdr(host) -i " + host }

  function PrefixTest(path: string): string { "path_beg /" + path + "/" }

  function ExactTest(path: string): string { "path /" + path }

  /** Line 147 of haproxy.py: `address.split(':')[0]`. */
  function HostOf(address: string): (h: string)
    ensures ':' !in h
    ensures StartsWith(address, h)
    ensures h == address || (|h| < |address| && address[|h|] == ':')
  {
    address[..CharIndex(address, ':')]
  }

  /** The server lines for sorted `(container_id, address)` pairs. */
  function Servers(pairs: seq<(string, string)>, isIp: string -> bool, withHost: bool): seq<Server>
  {
    seq(|pairs|, k requires 0 <= k < |pairs| => Server(pairs[k].0, pairs[k].1, withHost && !isIp(HostOf(pairs[k].1))))
  }

  /**
    Lines 126-136 and 139-157 of haproxy.py for the domain at position `i`:
    a domain without a path is routed on its host alone; a domain with a
    path gets one backend for the paths below it and one, without `Host`
    headers, for the path itself.
   */
  function RouteFor(i: nat, domain: string, addresses: Addresses, isIp: string -> bool): Route
  {
    Route(FrontendFor(i, domain), BackendsFor(i, domain, addresses, isIp))
  }

  /** Lines 127-136 of haproxy.py. */
  function FrontendFor(i: nat, domain: string): seq<FrontendLine>
  {
    var (host, path) := SplitUrl(domain);
    var cleanedHost := CleanString(host);
    var hostLine := Acl(HostAcl(i), HostTest(host));
    if path == "" then
      [hostLine, UseBackend(BackendName(i, "", cleanedHost), HostAcl(i), None)]
    else
      [hostLine,
       Acl(PathAcl(i), PrefixTest(path)),
       UseBackend(BackendName(i, "", cleanedHost), HostAcl(i), Some(PathAcl(i))),
       Acl(ExactPathAcl(i), ExactTest(path)),
       UseBackend(BackendName(i, "a", cleanedHost), HostAcl(i), Some(ExactPathAcl(i)))]
  }

  /** Lines 140-157 of haproxy.py. */
  function BackendsFor(i: nat, domain: string, addresses: Addresses, isIp: string -> bool): seq<Backend>
  {
    var (host, path) := SplitUrl(domain);
    var cleanedHost := CleanString(host);
    var pairs := SortByKey(Items(addresses));
    if path == "" then
      [Backend(BackendName(i, "", cleanedHost), None, Servers(pairs, isIp, true))]
    else
      [Backend(BackendName(i, "", cleanedHost), Some(PrefixRewrite(path)), Servers(pairs, isIp, true)),
       Backend(BackendName(i, "a", cleanedHost), Some(ExactRewrite(path)), Servers(pairs, isIp, false))]
  }

  /** Line 123 of haproxy.py: the table's domains, longest first. */
  function Domains(table: DomainTable): seq<(string, DomainMapping)>
  {
    SortByLength(Items(table))
  }

  function Routes(domains: seq<(string, DomainMapping)>, isIp: string -> bool): (r: seq<Route>)
    ensures |r| == |domains|
    ensures forall k | 0 <= k < |domains| :: r[k] == RouteFor(k, domains[k].0, domains[k].1.addresses, isIp)
  {
    seq(|domains|, k requires 0 <= k < |domains| => RouteFor(k, domains[k].0, domains[k].1.addresses, isIp))
  }

  // ---------------------------------------------------------------------------
  // Properties of the parts

  /** The backend a line routes to, if it is a `use_backend` line. */
  function UsedBy(line: FrontendLine): seq<string>
  {
    if line.UseBackend? then [line.backend] else []
  }

  /** The ACL a line declares, if it is an `acl` line. */
  function DeclaredBy(line: FrontendLine): seq<string>
  {
    if line.Acl? then [line.name] else []
  }

  /** The backends the `use_backend` lines name, in order. */
  function UsedBackends(lines: seq<FrontendLine>): seq<string>
    decreases |lines|
  {
    if lines == [] then [] else UsedBackends(lines[..|lines| - 1]) + UsedBy(lines[|lines| - 1])
  }

  /** The ACL names declared by the lines, in order. */
  function DeclaredAcls(lines: seq<FrontendLine>): seq<string>
    decreases |lines|
  {
    if lines == [] then [] else DeclaredAcls(lines[..|lines| - 1]) + DeclaredBy(lines[|lines| - 1])
  }

  lemma LinesSnoc(lines: seq<FrontendLine>, line: FrontendLine)
    ensures UsedBackends(lines + [line]) == UsedBackends(lines) + UsedBy(line)
    ensures DeclaredAcls(lines + [line]) == DeclaredAcls(lines) + DeclaredBy(line)
    ensures AclsDeclaredFirst(lines + [line]) == (AclsDeclaredFirst(lines) && TestsDeclared(line, DeclaredAcls(lines)))
  {
    assert (lines + [line])[..|lines|] == lines;
  }

  function BackendNames(backends: seq<Backend>): seq<string>
  {
    seq(|backends|, k requires 0 <= k < |backends| => backends[k].name)
  }

  /** A `use_backend` line tests only ACLs in `declared`. */
  predicate TestsDeclared(line: FrontendLine, declared: seq<string>)
  {
    line.UseBackend? ==> line.hostAcl in declared && (line.pathAcl.Some? ==> line.pathAcl.value in declared)
  }

  /** Every ACL a `use_backend` line tests is declared on an earlier line. */
  predicate AclsDeclaredFirst(lines: seq<FrontendLine>)
    decreases |lines|
  {
    lines == [] ||
      (AclsDeclaredFirst(lines[..|lines| - 1]) && TestsDeclared(lines[|lines| - 1], DeclaredAcls(lines[..|lines| - 1])))
  }

  /** The frontend lines of a domain without a path. */
  lemma HostOnlyLines(hostAcl: string, test: string, backend: string)
    ensures var lines := [Acl(hostAcl, test), UseBackend(backend, hostAcl, None)];
      UsedBackends(lines) == [backend] && AclsDeclaredFirst(lines)
  {
    var lines := [Acl(hostAcl, test), UseBackend(backend, hostAcl, None)];
    LinesSnoc([], lines[0]);
    assert [] + [lines[0]] == lines[..1];
    LinesSnoc(lines[..1], lines[1]);
    assert lines[..1] + [lines[1]] == lines;
  }

  /** The frontend lines of a domain with a path. */
  lemma HostPathLines(hostAcl: string, hostTest: string, pathAcl: string, pathTest: string, backend: string,
                      exactAcl: string, exactTest: string, exactBackend: string)
    ensures var lines := [Acl(hostAcl, hostTest), Acl(pathAcl, pathTest), UseBackend(backend, hostAcl, Some(pathAcl)),
                          Acl(exactAcl, exactTest), UseBackend(exactBackend, hostAcl, Some(exactAcl))];
      UsedBackends(lines) == [backend, exactBackend] && AclsDeclaredFirst(lines)
  {
    var lines := [Acl(hostAcl, hostTest), Acl(pathAcl, pathTest), UseBackend(backend, hostAcl, Some(pathAcl)),
                  Acl(exactAcl, exactTest), UseBackend(exactBackend, hostAcl, Some(exactAcl))];
    HostPathHead(hostAcl, hostTest, pathAcl, pathTest, backend);
    assert lines[..4][..3] == [Acl(hostAcl, hostTest), Acl(pathAcl, pathTest), UseBackend(backend, hostAcl, Some(pathAcl))];
  }

  /** The first three frontend lines of a domain with a path. */
  lemma HostPathHead(hostAcl: string, hostTest: string, pathAcl: string, pathTest: string, backend: string)
    ensures var lines := [Acl(hostAcl, hostTest), Acl(pathAcl, pathTest), UseBackend(backend, hostAcl, Some(pathAcl))];
      && UsedBackends(lines) == [backend]
      && DeclaredAcls(lines) == [hostAcl, pathAcl]
      && AclsDeclaredFirst(lines)
  {
    var lines := [Acl(hostAcl, hostTest), Acl(pathAcl, pathTest), UseBackend(backend, hostAcl, Some(pathAcl))];
    var pair := [Acl(hostAcl, hostTest), Acl(pathAcl, pathTest)];
    assert pair[..1][..0] == [];
    assert UsedBackends(pair[..1]) == [] && DeclaredAcls(pair[..1]) == [hostAcl];
    assert UsedBackends(pair) == [] && DeclaredAcls(pair) == [hostAcl, pathAcl] && AclsDeclaredFirst(pair);
    assert lines[..2] == pair;
  }

  /**
    Each domain's frontend lines send traffic exactly to the backends it
    defines, in the same order: one backend for a bare host, two for a
    domain with a path; and each ACL is declared before it is used.
   */
  lemma RouteTargets(i: nat, domain: string, addresses: Addresses, isIp: string -> bool)
    ensures var r := RouteFor(i, domain, addresses, isIp);
      && UsedBackends(r.frontend) == BackendNames(r.backends)
      && |r.backends| == (if SplitUrl(domain).1 == "" then 1 else 2)
      && AclsDeclaredFirst(r.frontend)
  {
    FrontendTargets(i, domain);
    BackendsNamed(i, domain, addresses, isIp);
  }

  /** The backend names a domain's lines are meant to use: one, or two for a domain with a path. */
  function TargetNames(i: nat, domain: string): seq<string>
  {
    var cleanedHost := CleanString(SplitUrl(domain).0);
    if SplitUrl(domain).1 == "" then [BackendName(i, "", cleanedHost)]
    else [BackendName(i, "", cleanedHost), BackendName(i, "a", cleanedHost)]
  }

  lemma FrontendTargets(i: nat, domain: string)
    ensures UsedBackends(FrontendFor(i, domain)) == TargetNames(i, domain)
    ensures AclsDeclaredFirst(FrontendFor(i, domain))
  {
    var (host, path) := SplitUrl(domain);
    var cleanedHost := CleanString(host);
    if path == "" {
      HostOnlyLines(HostAcl(i), HostTest(host), BackendName(i, "", cleanedHost));
    } else {
      HostPathLines(HostAcl(i), HostTest(host), PathAcl(i), PrefixTest(path), BackendName(i, "", cleanedHost),
        ExactPathAcl(i), ExactTest(path), BackendName(i, "a", cleanedHost));
    }
  }

  lemma BackendsNamed(i: nat, domain: string, addresses: Addresses, isIp: string -> bool)
    ensures BackendNames(BackendsFor(i, domain, addresses, isIp)) == TargetNames(i, domain)
  {
  }

  /** `sorted(addresses.items())`: every entry once, ascending by container id. */
  lemma SortedPairs(addresses: Addresses)
    ensures var pairs := SortByKey(Items(addresses));
      && |pairs| == |addresses.order|
      && Ascending(pairs)
      && (forall p | 0 <= p < |pairs| :: pairs[p].0 in addresses.entries && addresses.entries[pairs[p].0] == pairs[p].1)
      && (forall c | c in addresses.entries :: exists p | 0 <= p < |pairs| :: pairs[p].0 == c)
  {
    var items := Items(addresses);
    var pairs := SortByKey(items);
    SortByKeyAscending(items);
    assert |pairs| == |items| by {
      assert |multiset(pairs)| == |multiset(items)|;
    }
    SortedPairsSound(addresses);
    SortedPairsComplete(addresses);
  }

  lemma SortedPairsSound(addresses: Addresses)
    ensures var pairs := SortByKey(Items(addresses));
      forall p | 0 <= p < |pairs| :: pairs[p].0 in addresses.entries && addresses.entries[pairs[p].0] == pairs[p].1
  {
    var items := Items(addresses);
    var pairs := SortByKey(items);
    forall p | 0 <= p < |pairs| ensures pairs[p].0 in addresses.entries && addresses.entries[pairs[p].0] == pairs[p].1 {
      assert pairs[p] in multiset(items);
      var k :| 0 <= k < |items| && items[k] == pairs[p];
    }
  }

  lemma SortedPairsComplete(addresses: Addresses)
    ensures var pairs := SortByKey(Items(addresses));
      forall c | c in addresses.entries :: exists p | 0 <= p < |pairs| :: pairs[p].0 == c
  {
    var items := Items(addresses);
    var pairs := SortByKey(items);
    assert |pairs| == |items| by {
      assert |multiset(pairs)| == |multiset(items)|;
    }
    forall c | c in addresses.entries ensures exists p | 0 <= p < |pairs| :: pairs[p].0 == c {
      var k :| 0 <= k < |addresses.order| && addresses.order[k] == c;
      assert items[k] in multiset(pairs);
      var p :| 0 <= p < |pairs| && pairs[p] == items[k];
      assert pairs[p].0 == c;
    }
    assert pairs == SortByKey(Items(addresses));
  }

  /**
    Lines 145-149 of haproxy.py: a backend lists each container of the
    domain once, in ascending container-id order, with its own address;
    the `Host` header is set only for an address whose host part is not
    an IP address, and only where `withHost` asks for it.
   */
  lemma SortedServers(addresses: Addresses, isIp: string -> bool, withHost: bool)
    ensures var ss := Servers(SortByKey(Items(addresses)), isIp, withHost);
      && |ss| == |addresses.order|
      && (forall p, q | 0 <= p < q < |ss| :: LexLess(ss[p].containerId, ss[q].containerId))
      && (forall p | 0 <= p < |ss| ::
            && ss[p].containerId in addresses.entries
            && addresses.entries[ss[p].containerId] == ss[p].address
            && ss[p].setHost == (withHost && !isIp(HostOf(ss[p].address))))
      && (forall c | c in addresses.entries :: exists p | 0 <= p < |ss| :: ss[p].containerId == c)
  {
    var pairs := SortByKey(Items(addresses));
    var ss := Servers(pairs, isIp, withHost);
    SortedPairs(addresses);
    forall c | c in addresses.entries ensures exists p | 0 <= p < |ss| :: ss[p].containerId == c {
      var p :| 0 <= p < |pairs| && pairs[p].0 == c;
      assert ss[p].containerId == c;
    }
  }

  /**
    The servers of every backend of a domain are its containers, sorted; only
    the backend for the paths below the domain sets the `Host` header.
   */
  lemma RouteServers(i: nat, domain: string, addresses: Addresses, isIp: string -> bool)
    ensures var r := RouteFor(i, domain, addresses, isIp);
      forall x | 0 <= x < |r.backends| ::
        r.backends[x].servers == Servers(SortByKey(Items(addresses)), isIp, x == 0)
  {
  }

  /** The second backend of a domain with a path carries the suffix `a`. */
  function BackendSuffix(x: nat): string
  {
    if x == 0 then "" else "a"
  }

  lemma BackendNameInjective(i: nat, x: nat, h: string, j: nat, y: nat, g: string)
    requires x < 2 && y < 2
    ensures BackendName(i, BackendSuffix(x), h) == BackendName(j, BackendSuffix(y), g) ==> i == j && x == y && h == g
    ensures BackendName(i, BackendSuffix(x), h) != "backend_default"
  {
    var m, n := NatToString(i), NatToString(j);
    var rest1, rest2 := BackendSuffix(x) + "_" + h, BackendSuffix(y) + "_" + g;
    assert BackendName(i, BackendSuffix(x), h) == "backend_" + (m + rest1);
    assert BackendName(j, BackendSuffix(y), g) == "backend_" + (n + rest2);
    assert ("backend_" + (m + rest1))[8] == m[0];
    assert "backend_default"[8] == 'd';
    if BackendName(i, BackendSuffix(x), h) == BackendName(j, BackendSuffix(y), g) {
      assert m + rest1 == ("backend_" + (m + rest1))[8..];
      assert n + rest2 == ("backend_" + (n + rest2))[8..];
      DigitsPrefix(m, rest1, n, rest2);
      NatToStringInjective(i, j);
      assert rest1[0] == rest2[0];
      assert x == y;
      assert h == rest1[|BackendSuffix(x)| + 1..] && g == rest2[|BackendSuffix(y)| + 1..];
    }
  }

  /** The name of a domain's backend: its position in the table, the suffix, and the cleaned host. */
  lemma RouteBackendName(i: nat, domain: string, addresses: Addresses, isIp: string -> bool, x: nat)
    requires x < |RouteFor(i, domain, addresses, isIp).backends|
    ensures x < 2
    ensures RouteFor(i, domain, addresses, isIp).backends[x].name == BackendName(i, BackendSuffix(x), CleanString(SplitUrl(domain).0))
  {
  }

  /**
    No two backends of a configuration share a name, and none is called
    `backend_default`: the position of the domain in the sorted table is
    part of the name, so domains whose hosts clean to the same string still
    get backends of their own.
   */
  lemma BackendNamesUnique(domains: seq<(string, DomainMapping)>, isIp: string -> bool, k1: nat, x1: nat, k2: nat, x2: nat)
    requires k1 < |domains| && x1 < |Routes(domains, isIp)[k1].backends|
    requires k2 < |domains| && x2 < |Routes(domains, isIp)[k2].backends|
    ensures Routes(domains, isIp)[k1].backends[x1].name == Routes(domains, isIp)[k2].backends[x2].name ==> k1 == k2 && x1 == x2
    ensures Routes(domains, isIp)[k1].backends[x1].name != "backend_default"
  {
    var routes := Routes(domains, isIp);
    RouteBackendName(k1, domains[k1].0, domains[k1].1.addresses, isIp, x1);
    RouteBackendName(k2, domains[k2].0, domains[k2].1.addresses, isIp, x2);
    BackendNameInjective(k1, x1, CleanString(SplitUrl(domains[k1].0).0), k2, x2, CleanString(SplitUrl(domains[k2].0).0));
  }

  // ---------------------------------------------------------------------------
  // The text

  function LineText(line: FrontendLine): string
  {
    match line
    case Acl(name, test) => "\tacl " + name + " " + test + "\n"
    case UseBackend(backend, hostAcl, pathAcl) =>
      "\tuse_backend " + backend + " if " + hostAcl + (if pathAcl.Some? then " " + pathAcl.value else "") + "\n"
  }

  function LinesText(lines: seq<FrontendLine>): string
    decreases |lines|
  {
    if lines == [] then "" else LinesText(lines[..|lines| - 1]) + LineText(lines[|lines| - 1])
  }

  function ServerLine(containerId: string, address: string, maxConnService: int): string
  {
    "\tserver server_" + containerId + " " + address + " maxconn " + IntToString(maxConnService) + "\n"
  }

  function HostLine(address: string): string
  {
    "\thttp-request set-header Host " + address + "\n"
  }

  /** Line 146 of haproxy.py, and line 149 when the `Host` header is set. */
  function ServerText(server: Server, maxConnService: int): string
  {
    ServerLine(server.containerId, server.address, maxConnService) + if server.setHost then HostLine(server.address) else ""
  }

  function ServersText(servers: seq<Server>, maxConnService: int): string
    decreases |servers|
  {
    if servers == [] then ""
    else ServersText(servers[..|servers| - 1], maxConnService) + ServerText(servers[|servers| - 1], maxConnService)
  }

  /** Lines 140-141 of haproxy.py (and 151-152 for the exact-path backend). */
  function BackendHead(name: string): string
  {
    "backend " + name + "\n\thttp-request del-header Proxy\n"
  }

  function RewriteLine(rewrite: string): string
  {
    "\treqirep " + rewrite + "\n"
  }

  function BackendText(backend: Backend, maxConnService: int): string
  {
    BackendHead(backend.name) + (if backend.rewrite.Some? then RewriteLine(backend.rewrite.value) else "")
      + ServersText(backend.servers, maxConnService) + "\n"
  }

  function BackendsText(backends: seq<Backend>, maxConnService: int): string
    decreases |backends|
  {
    if backends == [] then ""
    else BackendsText(backends[..|backends| - 1], maxConnService) + BackendText(backends[|backends| - 1], maxConnService)
  }

  /** Lines 126-137 of haproxy.py: each domain's frontend lines, then an empty line. */
  function FrontendsText(routes: seq<Route>): string
    decreases |routes|
  {
    if routes == [] then "" else FrontendsText(routes[..|routes| - 1]) + (LinesText(routes[|routes| - 1].frontend) + "\n")
  }

  /** Lines 139-158 of haproxy.py. */
  function RoutesBackendsText(routes: seq<Route>, maxConnService: int): string
    decreases |routes|
  {
    if routes == [] then ""
    else RoutesBackendsText(routes[..|routes| - 1], maxConnService) + BackendsText(routes[|routes| - 1].backends, maxConnService)
  }

  /** Every field of the template is one of `names`. */
  predicate FieldsIn(template: Template, names: set<string>)
  {
    forall k | 0 <= k < |template| && template[k].Field? :: template[k].name in names
  }

  /** `template.format(**values)`. */
  function Format(template: Template, values: map<string, string>): (r: string)
    requires FieldsIn(template, values.Keys)
    ensures forall k | 0 <= k < |template| && template[k].Text? && template[k].s != "" :: r != ""
    decreases |template|
  {
    if template == [] then ""
    else
      var init := template[..|template| - 1];
      assert FieldsIn(init, values.Keys) by {
        forall k | 0 <= k < |init| && init[k].Field? ensures init[k].name in values.Keys {
          assert init[k] == template[k];
        }
      }
      var last := template[|template| - 1];
      var r := Format(init, values) + (if last.Text? then last.s else values[last.name]);
      assert forall k | 0 <= k < |init| && init[k].Text? && init[k].s != "" :: Format(init, values) != "";
      r
  }

  predicate HasText(template: Template)
  {
    exists k | 0 <= k < |template| :: template[k].Text? && template[k].s != ""
  }

  // The field names the templates are formatted with.
  const ListenPortName := "listen_port"
  const MaxConnectionsName := "max_connections"
  const StatsSectionName := "stats_section"
  const StatsUserName := "stats_user"
  const StatsPasswordName := "stats_password"
  const MaxConnectionsServiceName := "max_connections_service"

  // The names each template is formatted with.
  const HeaderNames := {MaxConnectionsName, StatsSectionName, ListenPortName}
  const StatsNames := {StatsUserName, StatsPasswordName}
  const DefaultBackendNames := {MaxConnectionsServiceName}

  /** The templates use only the names the generator passes to `format`, and the default backend section has text. */
  predicate WellFormed(t: Templates)
  {
    && FieldsIn(t.header, HeaderNames)
    && FieldsIn(t.stats, StatsNames)
    && FieldsIn(t.defaultBackend, DefaultBackendNames)
    && HasText(t.defaultBackend)
  }

  // The literal text of the three templates of lines 35-86 of haproxy.py.
  const GlobalText := "\nglobal\n    daemon\n    maxconn "
  const SocketText := "\n    stats socket /var/run/haproxy/stats.sock\n\n"
  const DefaultsText := "\n\ndefaults\n    mode http\n    timeout connect 5s\n    timeout client 300s\n    timeout server 300s\n    option http-server-close\n\nfrontend http-in\n    bind *:"
  const FrontendText := "\n    default_backend backend_default\n    http-request del-header Proxy\n    maxconn "
  const StatsHeadText := "\n\nlisten stats\n    bind            *:8001\n    mode            http\n    log             global\n\n    maxconn 10\n\n    timeout client      100s\n    timeout server      100s\n    timeout connect     100s\n    timeout queue       100s\n\n    stats enable\n    stats hide-version\n    stats refresh 30s\n    stats show-node\n    stats auth "
  const StatsTailText := "\n    stats uri /\n\n"
  const DefaultBackendHead := "\nbackend backend_default\n    server server_0 localhost:8080 maxconn "
  const DefaultBackendTail := "\n    http-request del-header Proxy\n\n"

  /** `CONFIG_HEADER`, lines 35-56 of haproxy.py. */
  const HeaderTemplate: Template := [
    Text(GlobalText), Field(MaxConnectionsName), Text(SocketText), Field(StatsSectionName), Text(DefaultsText),
    Field(ListenPortName), Text(FrontendText), Field(MaxConnectionsName), Text("\n\n")]

  /** `STATS_SECTION`, lines 58-79 of haproxy.py. */
  const StatsTemplate: Template := [Text(StatsHeadText), Field(StatsUserName), Text(":"), Field(StatsPasswordName), Text(StatsTailText)]

  /** `DEFAULT_BACKEND_SECTION`, lines 81-86 of haproxy.py. */
  const DefaultBackendTemplate: Template := [Text(DefaultBackendHead), Field(MaxConnectionsServiceName), Text(DefaultBackendTail)]

  const StandardTemplates := Templates(HeaderTemplate, StatsTemplate, DefaultBackendTemplate)

  lemma StandardTemplatesWellFormed()
    ensures WellFormed(StandardTemplates)
  {
    assert DefaultBackendTemplate[0].s != "";
  }

  /** Lines 109-113 of haproxy.py: the statistics section when enabled, else nothing. */
  function StatsText(settings: Settings): string
    requires WellFormed(settings.templates)
  {
    if settings.stats.None? then ""
    else Format(settings.templates.stats, StatsFields(settings.stats.value.0, settings.stats.value.1))
  }

  /** The values `CONFIG_HEADER` is formatted with. */
  function HeaderFields(listenPort: int, maxConnGlobal: int, statsSection: string): (r: map<string, string>)
    ensures r.Keys == HeaderNames
  {
    map[ListenPortName := IntToString(listenPort), MaxConnectionsName := IntToString(maxConnGlobal), StatsSectionName := statsSection]
  }

  /** The values `STATS_SECTION` is formatted with. */
  function StatsFields(user: string, password: string): (r: map<string, string>)
    ensures r.Keys == StatsNames
  {
    map[StatsUserName := user, StatsPasswordName := password]
  }

  /** The values `DEFAULT_BACKEND_SECTION` is formatted with. */
  function DefaultBackendFields(maxConnService: int): (r: map<string, string>)
    ensures r.Keys == DefaultBackendNames
  {
    map[MaxConnectionsServiceName := IntToString(maxConnService)]
  }

  /** Lines 114-118 of haproxy.py. */
  function HeaderText(settings: Settings): string
    requires WellFormed(settings.templates)
  {
    Format(settings.templates.header, HeaderFields(settings.listenPort, settings.maxConnGlobal, StatsText(settings)))
  }

  /** Line 159 of haproxy.py. */
  function DefaultBackendText(settings: Settings): (r: string)
    requires WellFormed(settings.templates)
    ensures r != ""
  {
    Format(settings.templates.defaultBackend, DefaultBackendFields(settings.maxConnService))
  }

  /**
    What `generate_config_from_domains_to_addresses` (lines 108-161 of
    haproxy.py) returns, with each domain's backends reading the domain's
    `addresses`.
   */
  function ConfigText(settings: Settings, table: DomainTable, isIp: string -> bool): (r: string)
    requires WellFormed(settings.templates)
    ensures r != ""
  {
    var routes := Routes(Domains(table), isIp);
    HeaderText(settings) + FrontendsText(routes) + RoutesBackendsText(routes, settings.maxConnService)
      + DefaultBackendText(settings)
  }

  /** The text opens with the header and closes with the default backend. */
  lemma ConfigTextFrame(settings: Settings, table: DomainTable, isIp: string -> bool)
    requires WellFormed(settings.templates)
    ensures StartsWith(ConfigText(settings, table, isIp), HeaderText(settings))
    ensures EndsWith(ConfigText(settings, table, isIp), DefaultBackendText(settings))
  {
    var routes := Routes(Domains(table), isIp);
    Framed(ConfigText(settings, table, isIp), HeaderText(settings),
      FrontendsText(routes), RoutesBackendsText(routes, settings.maxConnService), DefaultBackendText(settings));
  }

  /** With no domains the text is the header and the default backend alone: every request goes to `backend_default`. */
  lemma EmptyTableConfig(settings: Settings, table: DomainTable, isIp: string -> bool)
    requires WellFormed(settings.templates)
    requires table.order == []
    ensures ConfigText(settings, table, isIp) == HeaderText(settings) + DefaultBackendText(settings)
  {
    EmptyTableBody(table, isIp, settings.maxConnService);
  }

  lemma EmptyTableBody(table: DomainTable, isIp: string -> bool, maxConnService: int)
    requires table.order == []
    ensures var routes := Routes(Domains(table), isIp);
      FrontendsText(routes) + RoutesBackendsText(routes, maxConnService) == ""
  {
    assert |Domains(table)| == 0 by {
      assert |multiset(Domains(table))| == |multiset(Items(table))|;
    }
  }

  lemma Framed(text: string, head: string, frontends: string, backends: string, tail: string)
    requires text == head + frontends + backends + tail
    ensures StartsWith(text, head) && EndsWith(text, tail)
  {
    assert text[..|head|] == head;
    assert text[|text| - |tail|..] == tail;
  }

  // ---------------------------------------------------------------------------
  // The generator as written

  /** A value of the table as the generator sees it when it iterates a domain's entry. */
  datatype PyValue = PyStr(s: string) | PyDict(d: Addresses) | PyBool(b: bool)

  function TypeName(v: PyValue): string
  {
    match v
    case PyStr(_) => "str"
    case PyDict(_) => "dict"
    case PyBool(_) => "bool"
  }

  /**
    `sorted(mapping.items())` for the `{'addresses': ..., 'allow_all': ...}`
    dict that magellan.py builds for each domain (lines 116-119): the two
    keys, `addresses` first.
   */
  function WrapperItems(m: DomainMapping): (r: seq<(string, PyValue)>)
    ensures |r| == 2 && LexLess(r[0].0, r[1].0)
    ensures r[0] == ("addresses", PyDict(m.addresses)) && r[1] == ("allow_all", PyBool(m.allowAll))
    ensures forall k | 0 <= k < |r| :: !r[k].1.PyStr?
  {
    [("addresses", PyDict(m.addresses)), ("allow_all", PyBool(m.allowAll))]
  }

  /**
    Lines 145-149 of haproxy.py over arbitrary items: `address.split(':')`
    raises `AttributeError` as soon as a value is not a string.
   */
  function ServersAsWritten(items: seq<(string, PyValue)>, isIp: string -> bool): (r: Result<seq<Server>, string>)
    ensures r.Ok? <==> forall k | 0 <= k < |items| :: items[k].1.PyStr?
    ensures r.Ok? ==> r.value == Servers(seq(|items|, k requires 0 <= k < |items| && items[k].1.PyStr? => (items[k].0, items[k].1.s)), isIp, true)
    decreases |items|
  {
    if items == [] then Ok([])
    else
      var init := items[..|items| - 1];
      var (containerId, value) := items[|items| - 1];
      match ServersAsWritten(init, isIp)
      case Err(e) => Err(e)
      case Ok(servers) =>
        if value.PyStr? then Ok(servers + [Server(containerId, value.s, !isIp(HostOf(value.s)))])
        else Err("AttributeError: '" + TypeName(value) + "' object has no attribute 'split'")
  }

  /**
    Lines 139-158 of haproxy.py as written: `domains` pairs each domain with
    the items of its value in the table, which the loop iterates as
    `(container_id, address)` pairs. The first failure ends the generation.
   */
  function BackendsAsWritten(domains: seq<(string, seq<(string, PyValue)>)>, isIp: string -> bool, maxConnService: int): Result<string, string>
    decreases |domains|
  {
    if domains == [] then Ok("")
    else
      var k := |domains| - 1;
      match BackendsAsWritten(domains[..k], isIp, maxConnService)
      case Err(e) => Err(e)
      case Ok(text) =>
        match ServersAsWritten(domains[k].1, isIp)
        case Err(e) => Err(e)
        case Ok(servers) =>
          var (host, path) := SplitUrl(domains[k].0);
          var cleanedHost := CleanString(host);
          var main := Backend(BackendName(k, "", cleanedHost), if path == "" then None else Some(PrefixRewrite(path)), servers);
          var exact := Backend(BackendName(k, "a", cleanedHost), Some(ExactRewrite(path)), seq(|servers|, x requires 0 <= x < |servers| => servers[x].(setHost := false)));
          Ok(text + BackendsText(if path == "" then [main] else [main, exact], maxConnService))
  }

  /**
    `generate_config_from_domains_to_addresses` as written, applied to the
    table magellan.py passes: the value of each domain is the wrapper dict,
    so the loop iterates the wrapper's items instead of the addresses.
   */
  function ConfigAsWritten(settings: Settings, table: DomainTable, isIp: string -> bool): Result<string, string>
    requires WellFormed(settings.templates)
  {
    var domains := Domains(table);
    var iterated := seq(|domains|, k requires 0 <= k < |domains| => (domains[k].0, WrapperItems(domains[k].1)));
    match BackendsAsWritten(iterated, isIp, settings.maxConnService)
    case Err(e) => Err(e)
    case Ok(backends) =>
      Ok(HeaderText(settings) + FrontendsText(Routes(domains, isIp)) + backends + DefaultBackendText(settings))
  }

  lemma {:induction false} BackendsAsWrittenRaise(domains: seq<(string, seq<(string, PyValue)>)>, isIp: string -> bool, maxConnService: int)
    requires domains != [] && domains[0].1 != [] && !domains[0].1[0].1.PyStr?
    ensures BackendsAsWritten(domains, isIp, maxConnService).Err?
    decreases |domains|
  {
    var k := |domains| - 1;
    if k > 0 {
      assert domains[..k][0] == domains[0];
      BackendsAsWrittenRaise(domains[..k], isIp, maxConnService);
    } else {
      assert ServersAsWritten(domains[0].1, isIp).Err?;
    }
  }

  /**
    The discrepancy: for every table with at least one domain the generator
    as written raises, so no load balancer is ever configured; with an empty
    table it agrees with `ConfigText`.
   */
  lemma AsWrittenRaises(settings: Settings, table: DomainTable, isIp: string -> bool)
    requires WellFormed(settings.templates)
    ensures table.order != [] <==> ConfigAsWritten(settings, table, isIp).Err?
    ensures table.order == [] ==> ConfigAsWritten(settings, table, isIp) == Ok(ConfigText(settings, table, isIp))
  {
    var domains := Domains(table);
    var iterated := seq(|domains|, k requires 0 <= k < |domains| => (domains[k].0, WrapperItems(domains[k].1)));
    assert |domains| == |table.order| by {
      assert |multiset(domains)| == |multiset(Items(table))|;
    }
    if domains != [] {
      BackendsAsWrittenRaise(iterated, isIp, settings.maxConnService);
    } else {
      assert iterated == [] && Routes(domains, isIp) == [];
    }
  }
}
