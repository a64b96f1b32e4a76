/**
  The wildcard machinery of magellan.py. A selector field such as `%env%` or
  `web-%app%` is compiled by `create_named_pattern_for_wildcard` into a regular
  expression in which every `%name%` becomes the named group
  `(?P<name>[A-Za-z_][A-Za-z_\-0-9\.]+)`. Here the compiled field is a list of
  segments (literal characters and named captures), matched by an explicit
  backtracking matcher that behaves like Python's `re.match('^' + p + '$', s)`
  on expressions of exactly this shape. Captured values are substituted into
  the domain wildcard with `str.replace`, and the result is checked against
  `^[\w\-\./]+$`.
 */
module Wildcard {
  import opened Values
  import opened Dicts
  import opened Strings

  /** A piece of a compiled selector field. */
  datatype Segment = Lit(c: char) | Capture(name: string)

  type Pattern = seq<Segment>

  /**
    Where the capture that opens `s` closes: the index of the second '%' when
    `s` starts with '%', then a non-empty run of other characters, then '%';
    0 when `s` does not open a capture.
   */
  function CaptureEnd(s: string): (j: nat)
    ensures j != 0 <==> |s| >= 2 && s[0] == '%' && s[1] != '%' && '%' in s[2..]
    ensures j != 0 ==> 1 < j < |s| && s[0] == '%' && s[j] == '%' && '%' !in s[1..j]
  {
    if |s| >= 2 && s[0] == '%' then
      var k := CharIndex(s[1..], '%');
      assert forall i | 0 <= i < |s[2..]| :: s[2..][i] == s[1..][i + 1];
      assert forall i | 0 <= i < k :: s[1..][i] == s[1..1 + k][i];
      if 1 <= k < |s| - 1 then 1 + k else 0
    else 0
  }

  /**
    `re.sub('%(?P<variable>[^%]+)%', ..., s)`: scanning left to right, a '%'
    followed by a non-empty run of other characters and a closing '%' becomes a
    capture; every other character, including an unpaired '%', stays literal.
   */
  function Segments(s: string): (p: Pattern)
    decreases |s|
  {
    if s == "" then []
    else if CaptureEnd(s) != 0 then
      var j := CaptureEnd(s);
      [Capture(s[1..j])] + Segments(s[j + 1..])
    else
      [Lit(s[0])] + Segments(s[1..])
  }

  /** Every capture has a non-empty name without '%' in it. */
  predicate NamesWellFormed(p: Pattern)
  {
    forall i | 0 <= i < |p| :: p[i].Capture? ==> p[i].name != "" && '%' !in p[i].name
  }

  lemma {:induction false} SegmentsNames(s: string)
    ensures NamesWellFormed(Segments(s))
    decreases |s|
  {
    if s != "" {
      var p := Segments(s);
      var j := CaptureEnd(s);
      if j != 0 {
        SegmentsNames(s[j + 1..]);
        assert p == [Capture(s[1..j])] + Segments(s[j + 1..]);
      } else {
        SegmentsNames(s[1..]);
        assert p == [Lit(s[0])] + Segments(s[1..]);
      }
    }
  }

  /** The wildcard text a segment came from. */
  function Source(p: Pattern): string
    decreases |p|
  {
    if p == [] then ""
    else (match p[0] case Lit(c) => [c] case Capture(n) => "%" + n + "%") + Source(p[1..])
  }

  /** Compiling loses nothing: writing the segments back gives the wildcard. */
  lemma {:induction false} SegmentsRoundTrip(s: string)
    ensures Source(Segments(s)) == s
    decreases |s|
  {
    if s != "" {
      var j := CaptureEnd(s);
      if j != 0 {
        SourceOfCapture(s);
        SegmentsRoundTrip(s[j + 1..]);
        Reassemble(s, j);
      } else {
        SourceOfLit(s);
        SegmentsRoundTrip(s[1..]);
        assert s == [s[0]] + s[1..];
      }
    }
  }

  lemma SourceOfCapture(s: string)
    requires CaptureEnd(s) != 0
    ensures var j := CaptureEnd(s);
      Source(Segments(s)) == "%" + s[1..j] + "%" + Source(Segments(s[j + 1..]))
  {
    var j := CaptureEnd(s);
    var p := Segments(s);
    assert p == [Capture(s[1..j])] + Segments(s[j + 1..]);
    assert p[0] == Capture(s[1..j]) && p[1..] == Segments(s[j + 1..]);
  }

  lemma Reassemble(s: string, j: nat)
    requires 0 < j < |s| && s[0] == '%' && s[j] == '%'
    ensures s == "%" + s[1..j] + "%" + s[j + 1..]
  {
    assert s == [s[0]] + s[1..j] + [s[j]] + s[j + 1..];
  }

  lemma SourceOfLit(s: string)
    requires s != "" && CaptureEnd(s) == 0
    ensures Source(Segments(s)) == [s[0]] + Source(Segments(s[1..]))
  {
    var p := Segments(s);
    assert p[0] == Lit(s[0]) && p[1..] == Segments(s[1..]);
  }

  /** A wildcard without any '%' compiles to literals only. */
  lemma {:induction false} SegmentsPlain(s: string)
    requires '%' !in s
    ensures |Segments(s)| == |s|
    ensures forall i | 0 <= i < |Segments(s)| :: Segments(s)[i] == Lit(s[i])
    decreases |s|
  {
    if s != "" {
      SegmentsPlain(s[1..]);
    }
  }

  /** A placeholder `%name%` at the front of a wildcard compiles to the capture `name`. */
  lemma SegmentsPlaceholder(n: string, t: string)
    requires n != "" && '%' !in n
    ensures Segments("%" + n + "%" + t) == [Capture(n)] + Segments(t)
  {
    var s := "%" + n + "%" + t;
    assert s[1] == n[0] && s[|n| + 1] == '%';
    assert s[2..][|n| - 1] == '%';
    var j := CaptureEnd(s);
    assert j != 0;
    assert s[1..j] == n;
    assert s[j + 1..] == t;
  }

  /** Text without '%' in front of a wildcard compiles to its own segments, whatever follows. */
  lemma {:induction false} SegmentsPlainPrefix(a: string, t: string)
    requires '%' !in a
    ensures Segments(a + t) == Segments(a) + Segments(t)
    decreases |a|
  {
    if a == "" {
      assert a + t == t;
    } else {
      assert a == [a[0]] + a[1..];
      assert a + t == [a[0]] + (a[1..] + t);
      SegmentsPlainPrefix(a[1..], t);
      SegmentsLitStep(a[0], a[1..], t);
    }
  }

  /** One step of SegmentsPlainPrefix: a leading character other than '%' stays in front. */
  lemma SegmentsLitStep(c: char, rest: string, t: string)
    requires c != '%'
    requires Segments(rest + t) == Segments(rest) + Segments(t)
    ensures Segments([c] + (rest + t)) == Segments([c] + rest) + Segments(t)
  {
    SegmentsLitFront(c, rest + t);
    SegmentsLitFront(c, rest);
    PrependAssoc(Lit(c), Segments(rest), Segments(t));
  }

  lemma PrependAssoc(x: Segment, p: Pattern, q: Pattern)
    ensures [x] + (p + q) == ([x] + p) + q
  {
  }

  /** A character other than '%' at the front compiles to a literal. */
  lemma SegmentsLitFront(c: char, t: string)
    requires c != '%'
    ensures Segments([c] + t) == [Lit(c)] + Segments(t)
  {
    var s := [c] + t;
    assert s[0] == c && s[1..] == t;
  }

  /** A '%' is left as a literal only where, in the scan, it opens no placeholder. */
  lemma {:induction false} LiteralPercentUnpaired(s: string)
    requires HasPercent(Segments(s))
    ensures exists i | 0 <= i < |s| :: s[i] == '%' && CaptureEnd(s[i..]) == 0
    decreases |s|
  {
    var p := Segments(s);
    var j := CaptureEnd(s);
    var k := if j != 0 then j + 1 else 1;
    assert p == [p[0]] + Segments(s[k..]);
    if p[0] == Lit('%') {
      assert j == 0 && s[0] == '%' && s[0..] == s;
    } else {
      assert Lit('%') in Segments(s[k..]);
      LiteralPercentUnpaired(s[k..]);
      var i :| 0 <= i < |s[k..]| && s[k..][i] == '%' && CaptureEnd(s[k..][i..]) == 0;
      assert s[k..][i..] == s[k + i..];
    }
  }

  const CaptureClass := "[A-Za-z_][A-Za-z_\\-0-9\\.]+"

  /** The regular-expression text `create_named_pattern_for_wildcard` returns. */
  function Regex(p: Pattern): string
    decreases |p|
  {
    if p == [] then ""
    else (match p[0] case Lit(c) => [c] case Capture(n) => "(?P<" + n + ">" + CaptureClass + ")") + Regex(p[1..])
  }

  /** An unpaired '%' left as a literal. */
  predicate HasPercent(p: Pattern)
  {
    Lit('%') in p
  }

  /** The regular expression holds a '%' exactly when a literal '%' is left over. */
  lemma {:induction false} PercentInRegex(p: Pattern)
    requires NamesWellFormed(p)
    ensures '%' in Regex(p) <==> HasPercent(p)
    decreases |p|
  {
    if p != [] {
      PercentInRegex(p[1..]);
      var head := match p[0] case Lit(c) => [c] case Capture(n) => "(?P<" + n + ">" + CaptureClass + ")";
      assert Regex(p) == head + Regex(p[1..]);
      InConcat('%', head, Regex(p[1..]));
      HasPercentCons(p);
      if p[0].Capture? {
        CaptureHasNoPercent(p[0].name);
      }
    }
  }

  lemma HasPercentCons(p: Pattern)
    requires p != []
    ensures HasPercent(p) <==> p[0] == Lit('%') || HasPercent(p[1..])
  {
    assert p == [p[0]] + p[1..];
  }

  lemma InConcat(c: char, a: string, b: string)
    ensures c in a + b <==> c in a || c in b
  {
    if c in a + b {
      var i :| 0 <= i < |a + b| && (a + b)[i] == c;
      if i >= |a| { assert b[i - |a|] == c; }
    }
    if c in b {
      var i :| 0 <= i < |b| && b[i] == c;
      assert (a + b)[|a| + i] == c;
    }
  }

  lemma CaptureHasNoPercent(n: string)
    ensures '%' in "(?P<" + n + ">" + CaptureClass + ")" <==> '%' in n
  {
    InConcat('%', "(?P<", n);
    InConcat('%', "(?P<" + n, ">");
    InConcat('%', "(?P<" + n + ">", CaptureClass);
    InConcat('%', "(?P<" + n + ">" + CaptureClass, ")");
  }

  /** `create_named_pattern_for_wildcard`: a falsy field compiles to nothing. */
  function Compile(w: Option<string>): (r: Option<Pattern>)
    ensures r.None? <==> !Truthy(w)
    ensures r.Some? ==> Source(r.value) == w.value
    ensures r.Some? ==> ('%' in Regex(r.value) <==> HasPercent(r.value))
  {
    if !Truthy(w) then None
    else
      SegmentsRoundTrip(w.value);
      SegmentsNames(w.value);
      PercentInRegex(Segments(w.value));
      Some(Segments(w.value))
  }

  /** Lines 67-70 of magellan.py: a rule whose compiled field still contains '%' is rejected. */
  predicate Unresolved(pat: Option<Pattern>)
  {
    pat.Some? && '%' in Regex(pat.value)
  }

  // ---------------------------------------------------------------------------
  // Matching

  predicate CaptureStart(c: char)
  {
    'A' <= c <= 'Z' || 'a' <= c <= 'z' || c == '_'
  }

  predicate CaptureChar(c: char)
  {
    CaptureStart(c) || '0' <= c <= '9' || c == '-' || c == '.'
  }

  /** What a capture `[A-Za-z_][A-Za-z_\-0-9\.]+` accepts. */
  predicate CaptureText(v: string)
  {
    |v| >= 2 && CaptureStart(v[0]) && forall i | 1 <= i < |v| :: CaptureChar(v[i])
  }

  /** A literal of the pattern against one character: `.` is any character but a newline. */
  predicate LitMatches(c: char, x: char)
  {
    if c == '.' then x != '\n' else x == c
  }

  predicate Metachar(c: char)
  {
    c in "\\[](){}*+?^$|"
  }

  predicate IsIdentifier(n: string)
  {
    |n| >= 1 && CaptureStart(n[0]) && forall i | 1 <= i < |n| :: CaptureStart(n[i]) || '0' <= n[i] <= '9'
  }

  /**
    A compiled field that Python's `re` accepts with the meaning given here:
    literal characters are not regular-expression operators (magellan does
    not escape them; `.` is kept and matches any character), and group names
    are identifiers that appear once.
   */
  predicate Matchable(p: Pattern)
  {
    && (forall i | 0 <= i < |p| :: p[i].Lit? ==> !Metachar(p[i].c))
    && (forall i | 0 <= i < |p| :: p[i].Capture? ==> IsIdentifier(p[i].name))
    && (forall i, j | 0 <= i < j < |p| :: p[i].Capture? && p[j].Capture? ==> p[i].name != p[j].name)
  }

  /** Length of the longest prefix of `s` made of capture characters. */
  function TailRun(s: string): (r: nat)
    ensures r <= |s|
    ensures forall i | 0 <= i < r :: CaptureChar(s[i])
    ensures r < |s| ==> !CaptureChar(s[r])
  {
    if s != "" && CaptureChar(s[0]) then 1 + TailRun(s[1..]) else 0
  }

  /** How far the greedy capture reaches before it starts to give characters back. */
  function RunLength(s: string): (r: nat)
    ensures r <= |s|
  {
    if s != "" && CaptureStart(s[0]) then 1 + TailRun(s[1..]) else 0
  }

  lemma RunPrefix(s: string, k: nat)
    requires 2 <= k <= RunLength(s)
    ensures CaptureText(s[..k])
  {
    forall i | 1 <= i < k ensures CaptureChar(s[..k][i]) {
      assert s[..k][i] == s[1..][i - 1];
    }
  }

  lemma RunMaximal(s: string, k: nat)
    requires k <= |s| && CaptureText(s[..k])
    ensures k <= RunLength(s)
  {
  }

  /**
    `re.match('^' + Regex(p) + '$', s)`, giving `groupdict()` on success. A
    capture first takes the longest run it can and then gives back one
    character at a time, as Python's backtracking does; `$` also matches just
    before a final newline.
   */
  function Match(p: Pattern, s: string): Option<seq<(string, string)>>
    decreases |p|, 1, 0
  {
    if p == [] then (if s == "" || s == "\n" then Some([]) else None)
    else match p[0]
      case Lit(c) => if s != "" && LitMatches(c, s[0]) then Match(p[1..], s[1..]) else None
      case Capture(n) => Backtrack(n, p[1..], s, RunLength(s))
  }

  function Backtrack(n: string, rest: Pattern, s: string, k: nat): Option<seq<(string, string)>>
    requires k <= |s|
    decreases |rest| + 1, 0, k
  {
    if k < 2 then None
    else match Match(rest, s[k..])
      case Some(groups) => Some([(n, s[..k])] + groups)
      case None => Backtrack(n, rest, s, k - 1)
  }

  /** The language of a compiled field, stated without any search order. */
  ghost predicate Accepts(p: Pattern, s: string)
    decreases |p|
  {
    if p == [] then s == "" || s == "\n"
    else match p[0]
      case Lit(c) => s != "" && LitMatches(c, s[0]) && Accepts(p[1..], s[1..])
      case Capture(_) => exists k | 2 <= k <= |s| :: CaptureText(s[..k]) && Accepts(p[1..], s[k..])
  }

  /** The names of the captures of a pattern, in order. */
  function CaptureNames(p: Pattern): seq<string>
    decreases |p|
  {
    if p == [] then [] else (if p[0].Capture? then [p[0].name] else []) + CaptureNames(p[1..])
  }

  /** What a successful match returns: one group per capture, in order, each a capture text. */
  ghost predicate GroupsFit(p: Pattern, groups: seq<(string, string)>)
  {
    && |groups| == |CaptureNames(p)|
    && (forall i | 0 <= i < |groups| :: groups[i].0 == CaptureNames(p)[i] && CaptureText(groups[i].1))
  }

  /** The matcher never accepts outside the language, and its groups are the pattern's captures. */
  lemma {:induction false} MatchSound(p: Pattern, s: string)
    requires Match(p, s).Some?
    ensures Accepts(p, s)
    ensures GroupsFit(p, Match(p, s).value)
    decreases |p|, 1, 0
  {
    if p != [] {
      match p[0]
      case Lit(c) =>
        MatchSound(p[1..], s[1..]);
      case Capture(n) =>
        BacktrackSound(n, p[1..], s, RunLength(s));
        assert p == [Capture(n)] + p[1..];
    }
  }

  lemma {:induction false} BacktrackSound(n: string, rest: Pattern, s: string, k: nat)
    requires k <= RunLength(s)
    requires Backtrack(n, rest, s, k).Some?
    ensures exists j | 2 <= j <= |s| :: CaptureText(s[..j]) && Accepts(rest, s[j..])
    ensures GroupsFit([Capture(n)] + rest, Backtrack(n, rest, s, k).value)
    decreases |rest| + 1, 0, k
  {
    assert [Capture(n)] + rest != [] && ([Capture(n)] + rest)[1..] == rest;
    match Match(rest, s[k..])
    case Some(groups) =>
      MatchSound(rest, s[k..]);
      RunPrefix(s, k);
      assert Backtrack(n, rest, s, k).value == [(n, s[..k])] + groups;
    case None =>
      BacktrackSound(n, rest, s, k - 1);
  }

  /** Everything in the language is found by the matcher. */
  lemma {:induction false} MatchComplete(p: Pattern, s: string)
    requires Accepts(p, s)
    ensures Match(p, s).Some?
    decreases |p|
  {
    if p != [] {
      match p[0]
      case Lit(c) =>
        MatchComplete(p[1..], s[1..]);
      case Capture(n) =>
        var k :| 2 <= k <= |s| && CaptureText(s[..k]) && Accepts(p[1..], s[k..]);
        MatchComplete(p[1..], s[k..]);
        RunMaximal(s, k);
        BacktrackFinds(n, p[1..], s, RunLength(s), k);
    }
  }

  lemma {:induction false} BacktrackFinds(n: string, rest: Pattern, s: string, top: nat, k: nat)
    requires 2 <= k <= top <= |s|
    requires Match(rest, s[k..]).Some?
    ensures Backtrack(n, rest, s, top).Some?
    decreases top
  {
    if top > k && Match(rest, s[top..]).None? {
      BacktrackFinds(n, rest, s, top - 1, k);
    }
  }

  /** The matcher decides exactly the language of the pattern. */
  lemma MatchIffAccepts(p: Pattern, s: string)
    ensures Match(p, s).Some? <==> Accepts(p, s)
  {
    if Match(p, s).Some? { MatchSound(p, s); }
    if Accepts(p, s) { MatchComplete(p, s); }
  }

  /**
    One selector field against one discovered field (lines 75-84 of the
    source): both falsy is a match with no groups; exactly one falsy is a
    mismatch; otherwise the anchored regular expression decides.
   */
  function MatchField(pat: Option<Pattern>, v: Option<string>): (r: Option<seq<(string, string)>>)
    ensures pat.None? ==> (r.Some? <==> !Truthy(v))
    ensures pat.Some? && !Truthy(v) ==> r.None?
    ensures pat.Some? && Truthy(v) ==> (r.Some? <==> Accepts(pat.value, v.value))
  {
    if pat.None? && !Truthy(v) then Some([])
    else if pat.None? || !Truthy(v) then None
    else
      MatchIffAccepts(pat.value, v.value);
      Match(pat.value, v.value)
  }

  // ---------------------------------------------------------------------------
  // Substitution and the domain check

  /** `s.replace(target, replacement)`: every occurrence, left to right, without overlaps. */
  function ReplaceAll(s: string, target: string, replacement: string): string
    requires target != ""
    decreases |s|
  {
    if |s| < |target| then s
    else if s[..|target|] == target then replacement + ReplaceAll(s[|target|..], target, replacement)
    else [s[0]] + ReplaceAll(s[1..], target, replacement)
  }

  function Placeholder(name: string): string
  {
    "%" + name + "%"
  }

  /** Lines 87-88 of magellan.py: each replacement, in dict order, rewrites the domain. */
  function SubstituteAll(domain: string, replacements: seq<(string, string)>): string
    decreases |replacements|
  {
    if replacements == [] then domain
    else
      var last := replacements[|replacements| - 1];
      ReplaceAll(SubstituteAll(domain, replacements[..|replacements| - 1]), Placeholder(last.0), last.1)
  }

  /** A text without '%' contains no placeholder, so no replacement touches it. */
  lemma {:induction false} ReplaceAllPlain(s: string, name: string, value: string)
    requires '%' !in s
    ensures ReplaceAll(s, Placeholder(name), value) == s
    decreases |s|
  {
    var target := Placeholder(name);
    if |s| >= |target| {
      assert s[0] != '%';
      assert s[..|target|] != target by { assert target[0] == '%'; }
      ReplaceAllPlain(s[1..], name, value);
      assert s == [s[0]] + s[1..];
    }
  }

  lemma {:induction false} SubstitutePlain(domain: string, replacements: seq<(string, string)>)
    requires '%' !in domain
    ensures SubstituteAll(domain, replacements) == domain
    decreases |replacements|
  {
    if replacements != [] {
      var last := replacements[|replacements| - 1];
      SubstitutePlain(domain, replacements[..|replacements| - 1]);
      ReplaceAllPlain(domain, last.0, last.1);
    }
  }

  /** `\w`, `-`, `.` and `/` of the domain pattern (`\w` is ASCII: no UNICODE flag). */
  predicate DomainChar(c: char)
  {
    'a' <= c <= 'z' || 'A' <= c <= 'Z' || '0' <= c <= '9' || c == '_' || c == '-' || c == '.' || c == '/'
  }

  /** `re.match('^[\w\-\./]+$', d)`; `$` also accepts one final newline. */
  predicate ValidDomain(d: string)
  {
    var body := if |d| > 0 && d[|d| - 1] == '\n' then d[..|d| - 1] else d;
    |body| > 0 && forall i | 0 <= i < |body| :: DomainChar(body[i])
  }

  /** A domain that passes the check has no '%' left, so an unresolved `%x%` is always rejected. */
  lemma ValidDomainHasNoPlaceholder(d: string)
    requires ValidDomain(d)
    ensures '%' !in d
  {
    var body := if |d| > 0 && d[|d| - 1] == '\n' then d[..|d| - 1] else d;
    forall i | 0 <= i < |d| ensures d[i] != '%' {
      if i < |body| { assert d[i] == body[i] && DomainChar(body[i]); } else { assert d[i] == '\n'; }
    }
  }
}
