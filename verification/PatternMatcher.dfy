/** The rule matcher behind name blocking, allowing and cloaking. Suffix rules are
    kept reversed in a prefix index that answers only the longest stored prefix;
    this module proves what that index decides against the plain meaning of rules. */
module PatternMatcher {
  import opened Common
  import opened DomainNames

  // ---------------------------------------------------------------- rules

  datatype Rule =
    | Exact(name: string)
    | Suffix(name: string)
    | Prefix(name: string)
    | Substring(name: string)
    | Glob(name: string)

  /** `filepath.Match`: whether a glob is well formed, and whether it matches a name. */
  datatype Globs = Globs(wellFormed: string -> bool, matches: (string, string) -> bool)

  function LowerChar(c: char): char { if 'A' <= c <= 'Z' then (c as int + 32) as char else c }

  function ToLower(s: string): (r: string)
    ensures |r| == |s|
    ensures forall i :: 0 <= i < |s| ==> r[i] == LowerChar(s[i])
  {
    seq(|s|, i requires 0 <= i < |s| => LowerChar(s[i]))
  }

  /** Only the 26 capital letters change, each to the small letter in its place. */
  lemma CaseFolding(c: char)
    ensures LowerChar(c) == c || 'A' <= c <= 'Z'
    ensures 'A' <= c <= 'Z' ==> 'a' <= LowerChar(c) <= 'z' && LowerChar(c) as int - 'a' as int == c as int - 'A' as int
  {
  }

  ghost predicate GlobChar(s: string, i: int)
    requires 0 <= i < |s|
  {
    s[i] == '?' || s[i] == '[' || (s[i] == '*' && i != 0 && i != |s| - 1)
  }

  ghost predicate GlobCandidate(s: string) {
    exists i :: 0 <= i < |s| && GlobChar(s, i)
  }

  method IsGlobCandidate(s: string) returns (r: bool)
    ensures r <==> GlobCandidate(s)
  {
    for i := 0 to |s|
      invariant forall k :: 0 <= k < i ==> !GlobChar(s, k)
    {
      var c := s[i];
      if c == '?' || c == '[' {
        assert GlobChar(s, i);
        return true;
      } else if c == '*' && i != 0 && i != |s| - 1 {
        assert GlobChar(s, i);
        return true;
      }
    }
    return false;
  }

  /** The rule a line stands for, in lower case; a syntax error gives none. */
  ghost function Parse(globs: Globs, pattern: string): Option<Rule> {
    var n := |pattern|;
    var leading, trailing := n > 0 && pattern[0] == '*', n > 0 && pattern[n-1] == '*';
    if GlobCandidate(pattern) then
      if n < 2 || !globs.wellFormed(pattern) then None else Some(Glob(ToLower(pattern)))
    else if leading && trailing then
      if n < 3 then None else Some(Substring(ToLower(pattern[1..n-1])))
    else if trailing then
      if n < 2 then None else Some(Prefix(ToLower(pattern[..n-1])))
    else if n > 0 && pattern[0] == '=' then
      if n < 2 then None else Some(Exact(ToLower(pattern[1..])))
    else
      var bare := if leading then pattern[1..] else pattern;
      Some(Suffix(ToLower(if |bare| > 0 && bare[0] == '.' then bare[1..] else bare)))
  }

  /** A pattern without any of the characters rule files give a meaning to. */
  predicate PlainPattern(s: string) {
    && s != [] && s[0] != '=' && s[0] != '.'
    && forall i :: 0 <= i < |s| ==> s[i] != '*' && s[i] != '?' && s[i] != '['
  }

  /** No character of the line makes it a glob: stars stand at its ends only. */
  lemma NotAGlob(line: string)
    requires forall i :: 0 <= i < |line| ==> line[i] != '?' && line[i] != '['
    requires forall i :: 0 < i < |line| - 1 ==> line[i] != '*'
    ensures !GlobCandidate(line)
  {
  }

  /** The notation of rule files, written out: stars on both sides mean a substring, a
      star behind a prefix, an equals sign an exact name. */
  lemma StarNotation(globs: Globs, s: string)
    requires PlainPattern(s)
    ensures Parse(globs, "*" + s + "*") == Some(Substring(ToLower(s)))
    ensures Parse(globs, s + "*") == Some(Prefix(ToLower(s)))
    ensures Parse(globs, "=" + s) == Some(Exact(ToLower(s)))
  {
    BothStars(globs, s);
    TrailingStar(globs, s);
    EqualsSign(globs, s);
  }

  lemma BothStars(globs: Globs, s: string)
    requires PlainPattern(s)
    ensures Parse(globs, "*" + s + "*") == Some(Substring(ToLower(s)))
  {
    var line := "*" + s + "*";
    assert line[1..|line|-1] == s;
    NotAGlob(line);
  }

  lemma TrailingStar(globs: Globs, s: string)
    requires PlainPattern(s)
    ensures Parse(globs, s + "*") == Some(Prefix(ToLower(s)))
  {
    var line := s + "*";
    assert line[..|line|-1] == s;
    NotAGlob(line);
  }

  lemma EqualsSign(globs: Globs, s: string)
    requires PlainPattern(s)
    ensures Parse(globs, "=" + s) == Some(Exact(ToLower(s)))
  {
    var line := "=" + s;
    assert line[1..] == s;
    NotAGlob(line);
  }

  /** A bare name, or one behind a dot, a star or both, means a domain and its subdomains. */
  lemma DomainNotation(globs: Globs, head: string, s: string)
    requires PlainPattern(s) && (head == "" || head == "." || head == "*" || head == "*.")
    ensures Parse(globs, head + s) == Some(Suffix(ToLower(s)))
  {
    if head == "" {
      assert head + s == s;
      SuffixLine(globs, s);
    } else if head == "." {
      DottedDomain(globs, s);
    } else if head == "*" {
      StarredDomain(globs, s);
    } else {
      StarDotDomain(globs, s);
    }
  }

  lemma DottedDomain(globs: Globs, s: string)
    requires PlainPattern(s)
    ensures Parse(globs, "." + s) == Some(Suffix(ToLower(s)))
  {
    var line := "." + s;
    assert line[1..] == s;
    SuffixLine(globs, line);
  }

  lemma StarredDomain(globs: Globs, s: string)
    requires PlainPattern(s)
    ensures Parse(globs, "*" + s) == Some(Suffix(ToLower(s)))
  {
    var line := "*" + s;
    assert line[1..] == s;
    SuffixLine(globs, line);
  }

  lemma StarDotDomain(globs: Globs, s: string)
    requires PlainPattern(s)
    ensures Parse(globs, "*." + s) == Some(Suffix(ToLower(s)))
  {
    var line := "*." + s;
    assert line[1..] == "." + s && ("." + s)[1..] == s;
    assert line[0] == '*' && line[1] == '.' && forall i :: 2 <= i < |line| ==> line[i] == s[i-2];
    SuffixLine(globs, line);
  }

  /** A line that no other notation claims. */
  lemma SuffixLine(globs: Globs, line: string)
    requires line != [] && line[|line|-1] != '*' && line[0] != '='
    requires forall i :: 0 <= i < |line| ==> line[i] != '?' && line[i] != '[' && (i == 0 || line[i] != '*')
    ensures var bare := if line[0] == '*' then line[1..] else line;
            Parse(globs, line) ==
              Some(Suffix(ToLower(if |bare| > 0 && bare[0] == '.' then bare[1..] else bare)))
  {
    NotAGlob(line);
  }

  /** A question mark or bracket anywhere, or a star between two characters, makes the
      line a glob: stored in lower case if it is well formed and has two characters, and
      refused otherwise. */
  lemma GlobNotation(globs: Globs, a: string, c: char, b: string)
    requires c == '?' || c == '[' || (c == '*' && a != [] && b != [])
    ensures var line := a + [c] + b;
            Parse(globs, line) == if |line| >= 2 && globs.wellFormed(line) then Some(Glob(ToLower(line))) else None
  {
    assert GlobChar(a + [c] + b, |a|);
  }

  /** A star, two stars or an equals sign alone are syntax errors; nothing and a dot
      are taken as the empty domain. */
  lemma DegenerateNotation(globs: Globs)
    ensures Parse(globs, "*").None? && Parse(globs, "**").None? && Parse(globs, "=").None?
    ensures Parse(globs, "") == Parse(globs, ".") == Some(Suffix(""))
  {
    NotAGlob("*");
    NotAGlob("**");
    NotAGlob("=");
    NotAGlob(".");
    assert ToLower("") == "" && "."[1..] == "";
  }

  /** The documented meaning of a rule. */
  ghost predicate Matches(globs: Globs, rule: Rule, q: string) {
    match rule
    case Exact(name) => q == name
    case Suffix(name) => InZone(q, name)
    case Prefix(name) => IsPrefix(name, q)
    case Substring(name) => Contains(q, name)
    case Glob(name) => globs.matches(name, q)
  }

  // ---------------------------------------------------------------- the index

  /** `LongestPrefix` of the index: the longest stored key that is a prefix. */
  function LongestPrefix(keys: set<string>, s: string): (r: Option<string>)
    ensures r.Some? ==> r.value in keys && IsPrefix(r.value, s)
    ensures r.Some? ==> forall k :: k in keys && IsPrefix(k, s) ==> |k| <= |r.value|
    ensures r.None? ==> forall k :: k in keys ==> !IsPrefix(k, s)
  {
    LongestPrefixUpTo(keys, s, |s|)
  }

  function LongestPrefixUpTo(keys: set<string>, s: string, n: nat): (r: Option<string>)
    requires n <= |s|
    ensures r.Some? ==> r.value in keys && IsPrefix(r.value, s)
    ensures r.Some? ==> forall k :: k in keys && IsPrefix(k, s) && |k| <= n ==> |k| <= |r.value|
    ensures r.None? ==> forall k :: k in keys && |k| <= n ==> !IsPrefix(k, s)
  {
    if s[..n] in keys then Some(s[..n])
    else if n == 0 then None
    else LongestPrefixUpTo(keys, s, n - 1)
  }

  /** `strings.LastIndex(s, ".")`. */
  function LastDot(s: string): (r: int)
    ensures -1 <= r < |s|
    ensures r >= 0 ==> s[r] == '.'
    ensures forall i :: r < i < |s| ==> s[i] != '.'
  {
    if s == [] then -1
    else if s[|s|-1] == '.' then |s| - 1
    else LastDot(s[..|s|-1])
  }

  /** The suffix stage on a reversed name: the match it reports, if any. */
  function SuffixMatch(keys: set<string>, rev: string): (r: Option<string>)
    ensures r.Some? ==> r.value in keys && IsPrefix(r.value, rev) && OnBoundary(r.value, rev)
  {
    var first := LongestPrefix(keys, rev);
    if first.None? then None
    else if OnBoundary(first.value, rev) then first
    else
      var i := LastDot(rev);
      if i <= 0 then None
      else
        var second := LongestPrefix(keys, rev[..i]);
        if second.Some? && OnBoundary(second.value, rev[..i]) then second else None
  }

  // ---------------------------------------------------------------- the tables

  datatype Tables<V> = Tables(
    prefixes: map<string, Option<V>>,
    suffixes: map<string, Option<V>>,
    substrings: seq<string>,
    patterns: seq<string>,
    exact: map<string, Option<V>>,
    indirect: map<string, V>)

  datatype Verdict<V> = Pass | Rejected(reason: string, val: Option<V>)

  function Empty<V>(): Tables<V> { Tables(map[], map[], [], [], map[], map[]) }

  function Indirect<V>(m: map<string, V>, key: string, val: Option<V>): map<string, V> {
    if val.Some? then m[key := val.value] else m
  }

  /** Inserting into a prefix index leaves a key that is there already, and its value, alone. */
  function InsertNew<V>(m: map<string, V>, key: string, val: V): map<string, V> {
    if key in m then m else m[key := val]
  }

  /** A repeated prefix or suffix rule keeps its first value, the others take the last. */
  function Insert<V>(t: Tables<V>, rule: Rule, val: Option<V>): Tables<V> {
    match rule
    case Substring(p) => t.(substrings := t.substrings + [p], indirect := Indirect(t.indirect, p, val))
    case Glob(p) => t.(patterns := t.patterns + [p], indirect := Indirect(t.indirect, p, val))
    case Prefix(p) => t.(prefixes := InsertNew(t.prefixes, p, val))
    case Suffix(p) => t.(suffixes := InsertNew(t.suffixes, Reverse(p), val))
    case Exact(p) => t.(exact := t.exact[p := val])
  }

  function Lookup<V>(m: map<string, V>, key: string): Option<V> {
    if key in m then Some(m[key]) else None
  }

  /** The rules the tables hold. An exact rule with a nil value is stored but dead. */
  ghost predicate Stored<V>(t: Tables<V>, rule: Rule) {
    match rule
    case Exact(p) => p in t.exact && t.exact[p].Some?
    case Suffix(p) => Reverse(p) in t.suffixes
    case Prefix(p) => p in t.prefixes
    case Substring(p) => p in t.substrings
    case Glob(p) => p in t.patterns
  }

  ghost predicate SuffixStage<V>(t: Tables<V>, q: string) { SuffixMatch(t.suffixes.Keys, Reverse(q)).Some? }

  ghost predicate StoredMatch<V>(globs: Globs, t: Tables<V>, q: string, rule: Rule) {
    Stored(t, rule) && Matches(globs, rule, q)
  }

  /** Whether a verdict's reason spells a rule, in the notation of rule files. */
  ghost predicate Spells(reason: string, rule: Rule) {
    reason == match rule {
      case Exact(p) => p
      case Suffix(p) => "*." + p
      case Prefix(p) => p + "*"
      case Substring(p) => "*" + p + "*"
      case Glob(p) => p
    }
  }

  /** The reason given for a rejection by a domain, prefix or substring rule, put into a
      rule file, is that rule again; for an exact name and a glob it is the name or glob. */
  lemma ReasonReadsBack(globs: Globs, rule: Rule, reason: string)
    requires Spells(reason, rule)
    ensures rule.Suffix? || rule.Prefix? || rule.Substring? ==>
              PlainPattern(rule.name) && ToLower(rule.name) == rule.name ==> Parse(globs, reason) == Some(rule)
    ensures rule.Exact? || rule.Glob? ==> reason == rule.name
  {
    if PlainPattern(rule.name) {
      StarNotation(globs, rule.name);
      DomainNotation(globs, "*.", rule.name);
    }
  }

  /** The order in which kinds of rules are consulted. */
  function Stage(rule: Rule): nat {
    match rule
    case Exact(_) => 0
    case Suffix(_) => 1
    case Prefix(_) => 2
    case Substring(_) => 3
    case Glob(_) => 4
  }

  /** Exact names come first, then domains, prefixes, substrings and globs. */
  lemma StagesInOrder(a: string, b: string, c: string, d: string, e: string)
    ensures Stage(Exact(a)) < Stage(Suffix(b)) < Stage(Prefix(c)) < Stage(Substring(d)) < Stage(Glob(e))
  {
  }

  /** The value stored for a rule; substrings and globs share one table. */
  ghost function ValueOf<V>(t: Tables<V>, rule: Rule): Option<V>
    requires Stored(t, rule)
  {
    match rule
    case Exact(p) => t.exact[p]
    case Suffix(p) => t.suffixes[Reverse(p)]
    case Prefix(p) => t.prefixes[p]
    case _ => Lookup(t.indirect, rule.name)
  }

  /** No stage before the given one has anything to say about q. */
  ghost predicate QuietBefore<V>(globs: Globs, t: Tables<V>, q: string, stage: nat) {
    && (stage > 1 ==> !SuffixStage(t, q))
    && forall rule: Rule :: !rule.Suffix? && StoredMatch(globs, t, q, rule) ==> Stage(rule) >= stage
  }

  /** Among matching rules of one kind: the longest prefix, the first substring or glob listed. */
  ghost predicate Foremost<V>(globs: Globs, t: Tables<V>, q: string, rule: Rule) {
    match rule
    case Prefix(p) => forall o :: o in t.prefixes && IsPrefix(o, q) ==> |o| <= |p|
    case Substring(p) =>
      exists k :: 0 <= k < |t.substrings| && t.substrings[k] == p
                  && forall j :: 0 <= j < k ==> !Contains(q, t.substrings[j])
    case Glob(p) =>
      exists k :: 0 <= k < |t.patterns| && t.patterns[k] == p
                  && forall j :: 0 <= j < k ==> !globs.matches(t.patterns[j], q)
    case _ => true
  }

  /** A verdict is justified when its reason spells a stored rule that matches, of the
      earliest kind that decides and the foremost of its kind, with that rule's value
      unless it is a suffix rule. */
  ghost predicate Justified<V>(globs: Globs, t: Tables<V>, q: string, v: Verdict<V>) {
    v.Rejected? ==> exists rule :: JustifiedBy(globs, t, q, v, rule)
  }

  ghost predicate JustifiedBy<V>(globs: Globs, t: Tables<V>, q: string, v: Verdict<V>, rule: Rule)
    requires v.Rejected?
  {
    && StoredMatch(globs, t, q, rule) && Spells(v.reason, rule) && QuietBefore(globs, t, q, Stage(rule))
    && Foremost(globs, t, q, rule) && (rule.Suffix? || v.val == ValueOf(t, rule))
  }

  /** Everything the stages can decide on: the suffix stage as it is, and the plain
      meaning of every stored rule of another kind. */
  ghost predicate Decisive<V>(globs: Globs, t: Tables<V>, q: string) {
    SuffixStage(t, q) || exists rule: Rule :: !rule.Suffix? && StoredMatch(globs, t, q, rule)
  }

  class PatternMatcher<V> {
    var tables: Tables<V>

    constructor ()
      ensures tables == Empty()
    {
      tables := Empty();
    }

    /** Adds one line of a rule file; a syntax error leaves the matcher unchanged. */
    method Add(globs: Globs, line: string, val: Option<V>) returns (ok: bool)
      modifies this
      ensures ok == Parse(globs, line).Some?
      ensures tables == if ok then Insert(old(tables), Parse(globs, line).value, val) else old(tables)
    {
      var pattern := line;
      var n := |pattern|;
      var leadingStar := n > 0 && pattern[0] == '*';
      var trailingStar := n > 0 && pattern[n-1] == '*';
      var exact := n > 0 && pattern[0] == '=';
      var glob := IsGlobCandidate(pattern);
      if glob {
        if n < 2 || !globs.wellFormed(pattern) { return false; }
        tables := Insert(tables, Glob(ToLower(pattern)), val);
      } else if leadingStar && trailingStar {
        if n < 3 { return false; }
        tables := Insert(tables, Substring(ToLower(pattern[1..n-1])), val);
      } else if trailingStar {
        if n < 2 { return false; }
        tables := Insert(tables, Prefix(ToLower(pattern[..n-1])), val);
      } else if exact {
        if n < 2 { return false; }
        tables := Insert(tables, Exact(ToLower(pattern[1..])), val);
      } else {
        if leadingStar { pattern := pattern[1..]; }
        if |pattern| > 0 && pattern[0] == '.' { pattern := pattern[1..]; }
        tables := Insert(tables, Suffix(ToLower(pattern)), val);
      }
      return true;
    }

    /** A name is rejected exactly when the suffix stage or the plain meaning of a
        rule of another kind says so; the reason spells a stored rule that matches, of
        the earliest kind that does. */
    method Eval(globs: Globs, qName: string) returns (v: Verdict<V>)
      ensures v.Rejected? <==> |qName| >= 2 && Decisive(globs, tables, qName)
      ensures Justified(globs, tables, qName, v)
    {
      if |qName| < 2 { return Pass; }
      var xval := Lookup(tables.exact, qName);
      if xval.Some? && xval.value.Some? {
        v := Rejected(qName, xval.value);
        assert JustifiedBy(globs, tables, qName, v, Exact(qName));
        return;
      }
      QuietAfterExact(globs, tables, qName);
      v := EvalSuffix(qName);
      if v.Rejected? {
        assert JustifiedBy(globs, tables, qName, v,
                           Suffix(Reverse(SuffixMatch(tables.suffixes.Keys, Reverse(qName)).value)));
        return;
      }
      v := EvalRest(globs, qName);
    }

    /** The stages behind the suffix stage: prefixes, substrings, globs. */
    method EvalRest(globs: Globs, qName: string) returns (v: Verdict<V>)
      requires QuietBefore(globs, tables, qName, 2)
      ensures v.Rejected? <==> Decisive(globs, tables, qName)
      ensures Justified(globs, tables, qName, v)
    {
      var found := LongestPrefix(tables.prefixes.Keys, qName);
      if found.Some? {
        v := Rejected(found.value + "*", tables.prefixes[found.value]);
        assert JustifiedBy(globs, tables, qName, v, Prefix(found.value));
        return;
      }
      QuietAfterPrefixes(globs, tables, qName);
      for i := 0 to |tables.substrings|
        invariant forall k :: 0 <= k < i ==> !Contains(qName, tables.substrings[k])
      {
        var substring := tables.substrings[i];
        if Contains(qName, substring) {
          v := Rejected("*" + substring + "*", Lookup(tables.indirect, substring));
          assert Foremost(globs, tables, qName, Substring(substring));
          assert JustifiedBy(globs, tables, qName, v, Substring(substring));
          return;
        }
      }
      QuietAfterSubstrings(globs, tables, qName);
      v := EvalGlobs(globs, qName);
    }

    method EvalGlobs(globs: Globs, qName: string) returns (v: Verdict<V>)
      requires QuietBefore(globs, tables, qName, 4)
      ensures v.Rejected? <==> Decisive(globs, tables, qName)
      ensures Justified(globs, tables, qName, v)
    {
      for i := 0 to |tables.patterns|
        invariant forall k :: 0 <= k < i ==> !globs.matches(tables.patterns[k], qName)
      {
        var pattern := tables.patterns[i];
        if globs.matches(pattern, qName) {
          v := Rejected(pattern, Lookup(tables.indirect, pattern));
          assert Foremost(globs, tables, qName, Glob(pattern));
          assert JustifiedBy(globs, tables, qName, v, Glob(pattern));
          return;
        }
      }
      return Pass;
    }

    /** The suffix stage. On the retry the value reported is the first match's. */
    method EvalSuffix(qName: string) returns (v: Verdict<V>)
      ensures v.Rejected? <==> SuffixStage(tables, qName)
      ensures v.Rejected? ==>
                var rule := Reverse(SuffixMatch(tables.suffixes.Keys, Reverse(qName)).value);
                && Stored(tables, Suffix(rule)) && InZone(qName, rule) && v.reason == "*." + rule
                && v.val == tables.suffixes[LongestPrefix(tables.suffixes.Keys, Reverse(qName)).value]
    {
      var keys := tables.suffixes.Keys;
      var rev := StringReverse(qName);
      SuffixMatchMeans(keys, qName);
      var first := LongestPrefix(keys, rev);
      if first.None? { return Pass; }
      var m := first.value;
      if |m| == |rev| || rev[|m|] == '.' {
        return Rejected("*." + Reverse(m), tables.suffixes[m]);
      }
      var i := LastDot(rev);
      if i > 0 {
        var parent := rev[..i];
        var second := LongestPrefix(keys, parent);
        if second.Some? {
          var m2 := second.value;
          if |m2| == |parent| || parent[|m2|] == '.' {
            return Rejected("*." + Reverse(m2), tables.suffixes[m]);
          }
        }
      }
      return Pass;
    }
  }

  lemma QuietAfterExact<V>(globs: Globs, t: Tables<V>, q: string)
    requires q in t.exact ==> t.exact[q].None?
    ensures QuietBefore(globs, t, q, 1)
  {
  }

  lemma QuietAfterPrefixes<V>(globs: Globs, t: Tables<V>, q: string)
    requires QuietBefore(globs, t, q, 2) && LongestPrefix(t.prefixes.Keys, q).None?
    ensures QuietBefore(globs, t, q, 3)
  {
  }

  lemma QuietAfterSubstrings<V>(globs: Globs, t: Tables<V>, q: string)
    requires QuietBefore(globs, t, q, 3)
    requires forall k :: 0 <= k < |t.substrings| ==> !Contains(q, t.substrings[k])
    ensures QuietBefore(globs, t, q, 4)
  {
  }

  lemma SuffixMatchMeans(keys: set<string>, q: string)
    ensures SuffixMatch(keys, Reverse(q)).Some? ==>
              var rule := Reverse(SuffixMatch(keys, Reverse(q)).value);
              Reverse(rule) in keys && InZone(q, rule)
  {
    var m := SuffixMatch(keys, Reverse(q));
    if m.Some? {
      ReverseTwice(m.value);
      ZoneIsReversedPrefix(q, Reverse(m.value));
    }
  }

  // ---------------------------------------------------------------- loading a rule file

  /** The matcher after the lines of a file, each with its value. */
  ghost function Load<V>(globs: Globs, lines: seq<(string, Option<V>)>): Tables<V> {
    if lines == [] then Empty()
    else
      var t := Load(globs, lines[..|lines|-1]);
      var (line, val) := lines[|lines|-1];
      var rule := Parse(globs, line);
      if rule.Some? then Insert(t, rule.value, val) else t
  }

  ghost predicate Listed<V>(globs: Globs, lines: seq<(string, Option<V>)>, rule: Rule) {
    exists i :: 0 <= i < |lines| && Parse(globs, lines[i].0) == Some(rule)
  }

  lemma InsertStores<V>(t: Tables<V>, rule: Rule, val: Option<V>, other: Rule)
    requires val.Some?
    ensures Stored(Insert(t, rule, val), other) <==> Stored(t, other) || other == rule
  {
    if rule.Suffix? && other.Suffix? {
      ReverseTwice(rule.name);
      ReverseTwice(other.name);
    }
  }

  /** A prefix or suffix rule given twice keeps its first value, any other its last. */
  lemma RepeatedRule<V>(t: Tables<V>, rule: Rule, first: Option<V>, second: Option<V>)
    requires !Stored(t, rule) && first.Some? && second.Some?
    ensures var twice := Insert(Insert(t, rule, first), rule, second);
            Stored(twice, rule) && ValueOf(twice, rule) == if rule.Prefix? || rule.Suffix? then first else second
  {
  }

  /** With non-nil values the tables hold exactly the rules of the file. */
  lemma {:induction false} LoadStores<V>(globs: Globs, lines: seq<(string, Option<V>)>, rule: Rule)
    requires forall i :: 0 <= i < |lines| ==> lines[i].1.Some?
    ensures Stored(Load(globs, lines), rule) <==> Listed(globs, lines, rule)
  {
    if lines != [] {
      var n := |lines| - 1;
      var init := lines[..n];
      LoadStores(globs, init, rule);
      var added := Parse(globs, lines[n].0);
      if added.Some? { InsertStores(Load(globs, init), added.value, lines[n].1, rule); }
      if Listed(globs, lines, rule) && added != Some(rule) {
        var i :| 0 <= i < |lines| && Parse(globs, lines[i].0) == Some(rule);
        assert Parse(globs, init[i].0) == Some(rule);
      }
      if Listed(globs, init, rule) {
        var i :| 0 <= i < |init| && Parse(globs, init[i].0) == Some(rule);
        assert Parse(globs, lines[i].0) == Some(rule);
      }
    }
  }

  // ---------------------------------------------------------------- what the suffix stage decides

  /** The suffix rules of the tables. */
  ghost function SuffixRules<V>(t: Tables<V>): (r: set<string>)
    ensures forall p :: p in r <==> Stored(t, Suffix(p))
  {
    var r := set k | k in t.suffixes :: Reverse(k);
    assert forall p :: Stored(t, Suffix(p)) ==> p in r by {
      forall p | Stored(t, Suffix(p)) ensures p in r { ReverseTwice(p); }
    }
    assert forall p :: p in r ==> Stored(t, Suffix(p)) by {
      forall k | k in t.suffixes ensures Stored(t, Suffix(Reverse(k))) { ReverseTwice(k); }
    }
    r
  }

  /** No rule that q ends with, letter by letter, is longer than the rule p. */
  ghost predicate IsLongest(rules: set<string>, q: string, p: string) {
    p in rules && forall o :: o in rules && EndsWith(q, o) ==> |o| <= |p|
  }

  /** Among the rules that q ends with, letter by letter, the longest is a zone of q. */
  ghost predicate LongestIsZone(rules: set<string>, q: string) {
    exists p :: IsLongest(rules, q, p) && InZone(q, p)
  }

  /** What follows the first dot of a name. */
  function Parent(q: string): string {
    if q == [] then [] else if q[0] == '.' then q[1..] else Parent(q[1..])
  }

  lemma EndsWithReversed(q: string, p: string)
    ensures EndsWith(q, p) <==> IsPrefix(Reverse(p), Reverse(q))
  {
    var rq, rp := Reverse(q), Reverse(p);
    if EndsWith(q, p) {
      forall i | 0 <= i < |p| ensures rq[i] == rp[i] { assert q[|q|-|p|..][|p|-1-i] == p[|p|-1-i]; }
    }
    if IsPrefix(rp, rq) {
      forall i | 0 <= i < |p| ensures q[|q|-|p|+i] == p[i] { assert rq[|p|-1-i] == rp[|p|-1-i]; }
    }
  }

  /** The index's longest prefix, read forwards. */
  lemma LongestIsZoneReversed<V>(t: Tables<V>, q: string)
    ensures LongestIsZone(SuffixRules(t), q) <==>
              var m := LongestPrefix(t.suffixes.Keys, Reverse(q));
              m.Some? && OnBoundary(m.value, Reverse(q))
  {
    var rules, keys := SuffixRules(t), t.suffixes.Keys;
    var m := LongestPrefix(keys, Reverse(q));
    forall o ensures EndsWith(q, o) <==> IsPrefix(Reverse(o), Reverse(q)) { EndsWithReversed(q, o); }
    if m.Some? && OnBoundary(m.value, Reverse(q)) {
      var p := Reverse(m.value);
      ReverseTwice(m.value);
      ZoneIsReversedPrefix(q, p);
      assert Stored(t, Suffix(p));
      assert IsLongest(rules, q, p);
    }
    if p :| IsLongest(rules, q, p) && InZone(q, p) {
      assert Stored(t, Suffix(p));
      ZoneIsReversedPrefix(q, p);
      var o := Reverse(m.value);
      ReverseTwice(m.value);
      assert Stored(t, Suffix(o));
      assert |m.value| == |p|;
      assert m.value == Reverse(q)[..|p|] == Reverse(p);
    }
  }

  lemma {:induction false} ParentReversed(q: string)
    ensures LastDot(Reverse(q)) >= 0 ==> Reverse(Reverse(q)[..LastDot(Reverse(q))]) == Parent(q)
    ensures LastDot(Reverse(q)) < 0 ==> Parent(q) == []
  {
    if q != [] {
      var rq := Reverse(q);
      assert rq[..|q|-1] == Reverse(q[1..]);
      if q[0] == '.' {
        ReverseTwice(q[1..]);
      } else {
        ParentReversed(q[1..]);
        var i := LastDot(rq);
        if i >= 0 { assert rq[..i] == Reverse(q[1..])[..i]; }
      }
    }
  }

  lemma SecondLookup<V>(t: Tables<V>, q: string, i: int)
    requires i == LastDot(Reverse(q)) >= 0
    ensures LongestIsZone(SuffixRules(t), Parent(q)) <==>
              var m := LongestPrefix(t.suffixes.Keys, Reverse(q)[..i]);
              m.Some? && OnBoundary(m.value, Reverse(q)[..i])
  {
    ParentReversed(q);
    ReverseTwice(Reverse(q)[..i]);
    LongestIsZoneReversed(t, Parent(q));
  }

  /** A prefix found for a shorter key is found for the longer one. */
  lemma FoundForLonger(keys: set<string>, s: string, i: int)
    requires 0 <= i <= |s| && LongestPrefix(keys, s[..i]).Some?
    ensures LongestPrefix(keys, s).Some?
  {
  }

  /** The suffix stage rejects exactly when the longest stored letter-suffix of the
      name, or of its parent, is a zone of it. */
  lemma SuffixStageExactly<V>(t: Tables<V>, q: string)
    ensures SuffixStage(t, q) <==>
              LongestIsZone(SuffixRules(t), q) || (Parent(q) != [] && LongestIsZone(SuffixRules(t), Parent(q)))
  {
    var rev, keys := Reverse(q), t.suffixes.Keys;
    var i := LastDot(rev);
    LongestIsZoneReversed(t, q);
    ParentReversed(q);
    assert Parent(q) != [] <==> i > 0;
    if i > 0 {
      SecondLookup(t, q, i);
      if LongestPrefix(keys, rev[..i]).Some? { FoundForLonger(keys, rev, i); }
    }
  }

  /** The rule named in a suffix rejection is the rule whose value is reported if and
      only if the first lookup already stopped on a label boundary; on the retry they
      always differ. */
  lemma ValueBelongsToRuleIff(keys: set<string>, q: string)
    requires SuffixMatch(keys, Reverse(q)).Some?
    ensures SuffixMatch(keys, Reverse(q)) == LongestPrefix(keys, Reverse(q)) <==>
              OnBoundary(LongestPrefix(keys, Reverse(q)).value, Reverse(q))
  {
  }

  /** For instance: ab.com is rejected for com, with the value of b.com. */
  lemma RetryReportsForeignValue()
    ensures var keys := {Reverse("com"), Reverse("b.com")};
            && SuffixMatch(keys, Reverse("ab.com")) == Some(Reverse("com"))
            && LongestPrefix(keys, Reverse("ab.com")) == Some(Reverse("b.com"))
  {
    var rev := "moc.ba";
    assert Reverse("ab.com") == rev && Reverse("com") == "moc" && Reverse("b.com") == "moc.b";
    var keys := {"moc", "moc.b"};
    assert IsPrefix("moc.b", rev) && !OnBoundary("moc.b", rev);
    assert LongestPrefix(keys, rev) == Some("moc.b");
    assert LastDot(rev) == 3;
    assert rev[..3] == "moc" && IsPrefix("moc", rev[..3]);
    assert LongestPrefix(keys, rev[..3]) == Some("moc");
  }

  /** The simple suffix rule. */
  ghost predicate UnderSomeRule(rules: set<string>, q: string) {
    exists p :: p in rules && InZone(q, p)
  }

  /** No rule is inside another rule's zone. */
  ghost predicate SubdomainFree(rules: set<string>) {
    forall p, o :: p in rules && o in rules && p != o ==> !InZone(p, o)
  }

  lemma SuffixStageSound<V>(t: Tables<V>, q: string)
    requires SuffixStage(t, q)
    ensures UnderSomeRule(SuffixRules(t), q)
  {
    SuffixMatchMeans(t.suffixes.Keys, q);
    var rule := Reverse(SuffixMatch(t.suffixes.Keys, Reverse(q)).value);
    assert Stored(t, Suffix(rule));
  }

  lemma SuffixStageComplete<V>(t: Tables<V>, q: string)
    requires SubdomainFree(SuffixRules(t)) && UnderSomeRule(SuffixRules(t), q)
    ensures SuffixStage(t, q)
  {
    var rules := SuffixRules(t);
    var p :| p in rules && InZone(q, p);
    forall o | o in rules && EndsWith(q, o) ensures |o| <= |p| {
      if |o| > |p| { LongerRuleIsNested(q, p, o); }
    }
    assert IsLongest(rules, q, p);
    SuffixStageExactly(t, q);
  }

  lemma LongerRuleIsNested(q: string, p: string, o: string)
    requires InZone(q, p) && EndsWith(q, o) && |o| > |p|
    ensures InZone(o, p)
  {
  }

  /** For a file without nested suffix rules and with non-nil values, a name is
      rejected exactly when one of the file's rules matches it. */
  lemma MatcherMeaning<V>(globs: Globs, lines: seq<(string, Option<V>)>, q: string)
    requires forall i :: 0 <= i < |lines| ==> lines[i].1.Some?
    requires SubdomainFree(SuffixRules(Load(globs, lines)))
    ensures Decisive(globs, Load(globs, lines), q) <==>
              exists rule :: Listed(globs, lines, rule) && Matches(globs, rule, q)
  {
    var t := Load(globs, lines);
    forall rule: Rule ensures Stored(t, rule) <==> Listed(globs, lines, rule) { LoadStores(globs, lines, rule); }
    if SuffixStage(t, q) {
      SuffixStageSound(t, q);
      var p :| p in SuffixRules(t) && InZone(q, p);
      assert Stored(t, Suffix(p)) && Matches(globs, Suffix(p), q);
    }
    if rule: Rule :| Stored(t, rule) && Matches(globs, rule, q) {
      if rule.Suffix? {
        assert rule.name in SuffixRules(t);
        SuffixStageComplete(t, q);
      } else {
        assert StoredMatch(globs, t, q, rule);
      }
    }
  }
}
