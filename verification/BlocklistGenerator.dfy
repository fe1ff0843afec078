/** The blocklist generator: which listed names it keeps, and what the proxy's
    matcher blocks once it has loaded them. */
module BlocklistGenerator {
  import opened Common
  import opened DomainNames
  import PM = PatternMatcher

  // ---------------------------------------------------------------- labels

  /** `str.split(name, ".")`. */
  function Split(name: string): (r: seq<string>)
    ensures r != []
  {
    if name == [] then [[]]
    else
      var rest := Split(name[1..]);
      if name[0] == '.' then [[]] + rest else [[name[0]] + rest[0]] + rest[1..]
  }

  /** `str.join(".", parts)`. */
  function Join(parts: seq<string>): string {
    if parts == [] then []
    else if |parts| == 1 then parts[0]
    else parts[0] + "." + Join(parts[1..])
  }

  lemma {:induction false} JoinSplit(name: string)
    ensures Join(Split(name)) == name
  {
    if name != [] {
      var rest := Split(name[1..]);
      JoinSplit(name[1..]);
      if name[0] == '.' {
        assert Split(name)[1..] == rest;
      } else {
        assert Split(name)[1..] == rest[1..];
        assert |rest| > 1 ==> Join(Split(name)) == [name[0]] + (rest[0] + "." + Join(rest[1..]));
      }
    }
  }

  /** What the loop of `has_suffix` looks for, part by part. */
  ghost predicate TailListed(names: set<string>, parts: seq<string>) {
    parts != [] && (Join(parts[1..]) in names || TailListed(names, parts[1..]))
  }

  /** a is strictly above name: a parent domain of it, or the empty string, which
      the loop also looks up. */
  predicate Above(a: string, name: string) { a == "" || EndsWith(name, "." + a) }

  ghost predicate SomeAbove(names: set<string>, name: string) {
    exists a :: a in names && Above(a, name)
  }

  /** Dropping a leading character that is not a dot does not change what is above;
      dropping a leading dot only takes out the name behind it. */
  lemma AboveStep(a: string, name: string)
    requires name != []
    ensures Above(a, name) <==> Above(a, name[1..]) || (name[0] == '.' && a == name[1..])
  {
    if a != "" && EndsWith(name, "." + a) {
      if |name| == |a| + 1 {
        assert name == "." + a;
        assert name[1..] == a;
      } else {
        assert name[1..][|name[1..]|-|a|-1..] == name[|name|-|a|-1..];
      }
    }
    if EndsWith(name[1..], "." + a) {
      assert name[1..][|name[1..]|-|a|-1..] == name[|name|-|a|-1..];
    }
    if name[0] == '.' && a == name[1..] {
      assert name == "." + a;
    }
  }

  lemma {:induction false} TailListedMeans(names: set<string>, name: string)
    ensures TailListed(names, Split(name)) <==> SomeAbove(names, name)
  {
    if name == [] {
      assert Split(name)[1..] == [];
      assert forall a: string :: !EndsWith(name, "." + a);
      assert "" in names ==> Above("", name);
    } else {
      var rest := Split(name[1..]);
      TailListedMeans(names, name[1..]);
      JoinSplit(name[1..]);
      forall a ensures Above(a, name) <==> Above(a, name[1..]) || (name[0] == '.' && a == name[1..]) {
        AboveStep(a, name);
      }
      if name[0] == '.' {
        assert Split(name)[1..] == rest;
      } else {
        assert Split(name)[1..] == rest[1..];
      }
    }
  }

  method HasSuffix(names: set<string>, name: string) returns (found: bool)
    ensures found <==> SomeAbove(names, name)
  {
    var parts := Split(name);
    TailListedMeans(names, name);
    while parts != []
      invariant TailListed(names, Split(name)) <==> TailListed(names, parts)
      decreases |parts|
    {
      parts := parts[1..];
      if Join(parts) in names {
        return true;
      }
    }
    return false;
  }

  // ---------------------------------------------------------------- processing the lists

  /** `fnmatch.fnmatch`, with a glob it cannot handle counting as no match. */
  type Fnmatch = (string, string) -> bool

  ghost predicate Covered(fn: Fnmatch, globs: set<string>, name: string) {
    name !in globs && exists g :: g in globs && fn(name, g)
  }

  method CoveredByGlob(fn: Fnmatch, globs: set<string>, name: string) returns (r: bool)
    ensures r <==> Covered(fn, globs, name)
  {
    if name in globs { return false; }
    var left := globs;
    while left != {}
      invariant left <= globs
      invariant forall g :: g in globs && fn(name, g) ==> g in left
    {
      var g :| g in left;
      if fn(name, g) { return true; }
      left := left - {g};
    }
    return false;
  }

  datatype Category = GlobIgnored | Ignored | Allowed | Kept

  /** All lists together, the allowed names and the globs, as the generator sees them. */
  datatype Input = Input(all: set<string>, allowed: set<string>, globs: set<string>)

  /** What becomes of a name that no earlier list has put out. */
  ghost function CategoryOf(fn: Fnmatch, input: Input, name: string): Category {
    if Covered(fn, input.globs, name) then GlobIgnored
    else if SomeAbove(input.all, name) then Ignored
    else if SomeAbove(input.allowed, name) || name in input.allowed then Allowed
    else Kept
  }

  /** A name put out by an earlier list counts as a duplicate unless a glob covers it. */
  ghost function CategoryAfter(fn: Fnmatch, input: Input, seen: bool, name: string): Category {
    if seen && !Covered(fn, input.globs, name) then Ignored else CategoryOf(fn, input, name)
  }

  function Elements(s: seq<string>): set<string> { set x | x in s }

  datatype Counts = Counts(ignored: nat, globIgnored: nat, allowed: nat)

  function Bump(counts: Counts, c: Category): Counts {
    match c
    case Ignored => counts.(ignored := counts.ignored + 1)
    case GlobIgnored => counts.(globIgnored := counts.globIgnored + 1)
    case Allowed => counts.(allowed := counts.allowed + 1)
    case Kept => counts
  }

  /** The names of a list that are kept, in order. */
  function KeptOf(cat: string -> Category, names: seq<string>): seq<string> {
    if names == [] then []
    else KeptOf(cat, names[..|names|-1]) + if cat(names[|names|-1]) == Kept then [names[|names|-1]] else []
  }

  /** The numbers of names in the other categories. */
  function CountsOf(cat: string -> Category, names: seq<string>): Counts {
    if names == [] then Counts(0, 0, 0) else Bump(CountsOf(cat, names[..|names|-1]), cat(names[|names|-1]))
  }

  lemma {:induction false} KeptOfElements(cat: string -> Category, names: seq<string>)
    ensures forall x :: x in KeptOf(cat, names) <==> x in names && cat(x) == Kept
  {
    if names != [] {
      var init, last := names[..|names|-1], names[|names|-1];
      KeptOfElements(cat, init);
      assert names == init + [last];
    }
  }

  lemma {:induction false} KeptOfDistinct(cat: string -> Category, names: seq<string>)
    requires NoDuplicates(names)
    ensures NoDuplicates(KeptOf(cat, names))
  {
    if names != [] {
      var init := names[..|names|-1];
      KeptOfDistinct(cat, init);
      KeptOfElements(cat, init);
    }
  }

  /** Every name of a list is put out or counted, once. */
  lemma {:induction false} EveryNameAccounted(cat: string -> Category, names: seq<string>)
    ensures var c := CountsOf(cat, names);
            |KeptOf(cat, names)| + c.ignored + c.globIgnored + c.allowed == |names|
  {
    if names != [] { EveryNameAccounted(cat, names[..|names|-1]); }
  }

  ghost function InCategory(cat: string -> Category, names: seq<string>, c: Category): set<string> {
    set x | x in names && cat(x) == c
  }

  lemma OneMoreInCategory(cat: string -> Category, names: seq<string>, name: string, c: Category)
    requires name !in names
    ensures |InCategory(cat, names + [name], c)| == |InCategory(cat, names, c)| + if cat(name) == c then 1 else 0
  {
    var before, after := InCategory(cat, names, c), InCategory(cat, names + [name], c);
    assert after == if cat(name) == c then before + {name} else before;
  }

  /** Each counter is the number of names of the list in its category. */
  lemma {:induction false} CountsAreSizes(cat: string -> Category, names: seq<string>)
    requires NoDuplicates(names)
    ensures CountsOf(cat, names).ignored == |InCategory(cat, names, Ignored)|
    ensures CountsOf(cat, names).globIgnored == |InCategory(cat, names, GlobIgnored)|
    ensures CountsOf(cat, names).allowed == |InCategory(cat, names, Allowed)|
  {
    if names == [] {
      assert forall c :: InCategory(cat, [], c) == {};
    } else {
      var init, last := names[..|names|-1], names[|names|-1];
      assert names == init + [last] && last !in init;
      CountsAreSizes(cat, init);
      OneMoreInCategory(cat, init, last, Ignored);
      OneMoreInCategory(cat, init, last, GlobIgnored);
      OneMoreInCategory(cat, init, last, Allowed);
    }
  }

  /** A line that is itself a glob is never dropped as covered by one, and a plain line
      that some glob matches always is, whatever else holds of it. */
  lemma GlobsCoverOthersOnly(fn: Fnmatch, input: Input, seen: bool, name: string, g: string)
    ensures name in input.globs ==> CategoryAfter(fn, input, seen, name) != GlobIgnored
    ensures name !in input.globs && g in input.globs && fn(name, g) ==>
              CategoryAfter(fn, input, seen, name) == GlobIgnored
  {
  }

  method Categorize(fn: Fnmatch, input: Input, seen: bool, name: string) returns (c: Category)
    ensures c == CategoryAfter(fn, input, seen, name)
  {
    var covered := CoveredByGlob(fn, input.globs, name);
    if covered { return GlobIgnored; }
    var above := HasSuffix(input.all, name);
    if above || seen { return Ignored; }
    var allowedAbove := HasSuffix(input.allowed, name);
    if allowedAbove || name in input.allowed { return Allowed; }
    return Kept;
  }

  /** The category of every name, as decided when a list is started. */
  ghost function Categories(fn: Fnmatch, input: Input, done: set<string>): (cat: string -> Category)
    ensures forall x :: cat(x) == CategoryAfter(fn, input, x in done, x)
  {
    x => CategoryAfter(fn, input, x in done, x)
  }

  lemma ElementsConcat(a: seq<string>, b: seq<string>)
    ensures Elements(a + b) == Elements(a) + Elements(b)
  {
  }

  /** Some names of a list have been put out or counted. */
  ghost predicate ListSoFar(cat: string -> Category, done: set<string>, names: seq<string>, out: seq<string>,
                            counts: Counts, unique: set<string>) {
    out == KeptOf(cat, names) && counts == CountsOf(cat, names) && unique == done + Elements(out)
  }

  /** One more name of a list. */
  method AddName(fn: Fnmatch, input: Input, ghost done: set<string>, ghost names: seq<string>, name: string,
                 out: seq<string>, counts: Counts, unique: set<string>)
    returns (out': seq<string>, counts': Counts, unique': set<string>)
    requires ListSoFar(Categories(fn, input, done), done, names, out, counts, unique) && name !in names
    ensures ListSoFar(Categories(fn, input, done), done, names + [name], out', counts', unique')
  {
    ghost var cat := Categories(fn, input, done);
    KeptOfElements(cat, names);
    assert (names + [name])[..|names|] == names;
    var c := Categorize(fn, input, name in unique, name);
    counts' := Bump(counts, c);
    out', unique' := out, unique;
    if c == Kept {
      ElementsConcat(out, [name]);
      out', unique' := out + [name], unique + {name};
    }
  }

  /** One list, in whatever order its set is iterated. */
  method ProcessList(fn: Fnmatch, input: Input, names: seq<string>, done: set<string>)
    returns (out: seq<string>, counts: Counts, unique: set<string>)
    requires NoDuplicates(names)
    ensures ListSoFar(Categories(fn, input, done), done, names, out, counts, unique)
  {
    out, counts, unique := [], Counts(0, 0, 0), done;
    for i := 0 to |names|
      invariant ListSoFar(Categories(fn, input, done), done, names[..i], out, counts, unique)
    {
      out, counts, unique := AddName(fn, input, done, names[..i], names[i], out, counts, unique);
      assert names[..i+1] == names[..i] + [names[i]];
    }
    assert names[..|names|] == names;
  }

  function Flat(lists: seq<seq<string>>): seq<string> {
    if lists == [] then [] else Flat(lists[..|lists|-1]) + lists[|lists|-1]
  }

  /** The names the generator is meant to keep. */
  ghost function KeptNames(fn: Fnmatch, input: Input, names: set<string>): set<string> {
    set x | x in names && CategoryOf(fn, input, x) == Kept
  }

  lemma DistinctConcat(a: seq<string>, b: seq<string>)
    requires NoDuplicates(a) && NoDuplicates(b) && Elements(a) !! Elements(b)
    ensures NoDuplicates(a + b)
  {
    forall i, j | 0 <= i < j < |a + b| ensures (a + b)[i] != (a + b)[j] {
      if i < |a| <= j {
        assert a[i] in Elements(a) && b[j-|a|] in Elements(b);
      }
    }
  }

  /** After one more list, what is out is what is kept of the lists so far. */
  lemma OneMoreList(fn: Fnmatch, input: Input, names: seq<string>, list: seq<string>, outs: seq<string>)
    requires NoDuplicates(list) && NoDuplicates(outs)
    requires Elements(outs) == KeptNames(fn, input, Elements(names))
    ensures var out := KeptOf(Categories(fn, input, Elements(outs)), list);
            NoDuplicates(outs + out) && Elements(outs + out) == KeptNames(fn, input, Elements(names + list))
  {
    var cat := Categories(fn, input, Elements(outs));
    var out := KeptOf(cat, list);
    KeptOfElements(cat, list);
    KeptOfDistinct(cat, list);
    ElementsConcat(outs, out);
    ElementsConcat(names, list);
    assert forall x :: x in Elements(out) ==> x !in Elements(outs);
    DistinctConcat(outs, out);
    forall x | x in list && CategoryOf(fn, input, x) == Kept ensures x in Elements(outs) || x in Elements(out) {
      assert x !in Elements(outs) ==> cat(x) == Kept;
    }
  }

  lemma FlatAppend(outs: seq<seq<string>>, out: seq<string>)
    ensures Flat(outs + [out]) == Flat(outs) + out
  {
  }

  predicate Accounts(out: seq<string>, c: Counts, list: seq<string>) {
    |out| + c.ignored + c.globIgnored + c.allowed == |list|
  }

  /** What has been put out for some lists, and counted: over all of them exactly the
      kept names, each once, and per list everything accounted for. */
  ghost predicate SoFar(fn: Fnmatch, input: Input, lists: seq<seq<string>>,
                        outs: seq<seq<string>>, counts: seq<Counts>, unique: set<string>) {
    && |outs| == |counts| == |lists|
    && NoDuplicates(Flat(outs))
    && unique == Elements(Flat(outs)) == KeptNames(fn, input, Elements(Flat(lists)))
    && forall i :: 0 <= i < |outs| ==> Accounts(outs[i], counts[i], lists[i])
  }

  lemma SoFarStep(fn: Fnmatch, input: Input, lists: seq<seq<string>>,
                  outs: seq<seq<string>>, counts: seq<Counts>, unique: set<string>, list: seq<string>)
    requires SoFar(fn, input, lists, outs, counts, unique) && NoDuplicates(list)
    ensures var cat := Categories(fn, input, unique);
            SoFar(fn, input, lists + [list], outs + [KeptOf(cat, list)], counts + [CountsOf(cat, list)],
                  unique + Elements(KeptOf(cat, list)))
  {
    var cat := Categories(fn, input, unique);
    OneMoreList(fn, input, Flat(lists), list, Flat(outs));
    EveryNameAccounted(cat, list);
    FlatAppend(lists, list);
    FlatAppend(outs, KeptOf(cat, list));
    ElementsConcat(Flat(outs), KeptOf(cat, list));
  }

  lemma SoFarNothing(fn: Fnmatch, input: Input)
    ensures SoFar(fn, input, [], [], [], {})
  {
  }

  /** One more list, after the given ones. */
  method AddList(fn: Fnmatch, input: Input, ghost lists: seq<seq<string>>, outs: seq<seq<string>>,
                 counts: seq<Counts>, unique: set<string>, list: seq<string>)
    returns (outs': seq<seq<string>>, counts': seq<Counts>, unique': set<string>)
    requires SoFar(fn, input, lists, outs, counts, unique) && NoDuplicates(list)
    ensures SoFar(fn, input, lists + [list], outs', counts', unique')
  {
    SoFarStep(fn, input, lists, outs, counts, unique, list);
    var out, count, next := ProcessList(fn, input, list, unique);
    outs', counts', unique' := outs + [out], counts + [count], next;
  }

  /** All lists, in order: neither the order of the lists nor the iteration order of
      each list's set matters for what is put out in all. */
  method ProcessLists(fn: Fnmatch, input: Input, lists: seq<seq<string>>)
    returns (outs: seq<seq<string>>, counts: seq<Counts>, unique: set<string>)
    requires forall i :: 0 <= i < |lists| ==> NoDuplicates(lists[i])
    ensures SoFar(fn, input, lists, outs, counts, unique)
  {
    outs, counts, unique := [], [], {};
    SoFarNothing(fn, input);
    assert lists[..0] == [];
    for i := 0 to |lists|
      invariant SoFar(fn, input, lists[..i], outs, counts, unique)
    {
      outs, counts, unique := AddList(fn, input, lists[..i], outs, counts, unique, lists[i]);
      assert lists[..i+1] == lists[..i] + [lists[i]];
    }
    assert lists[..|lists|] == lists;
  }

  // ---------------------------------------------------------------- plain names, end to end

  /** A lower-case host name: letters, digits, dashes and dots, not starting with a dot. */
  predicate PlainName(name: string) {
    && name != [] && name[0] != '.'
    && forall i :: 0 <= i < |name| ==> PlainChar(name[i])
  }

  predicate PlainChar(c: char) { 'a' <= c <= 'z' || '0' <= c <= '9' || c == '-' || c == '.' }

  /** The matcher reads a plain name as the suffix rule of that name. */
  lemma PlainNameIsSuffixRule(globs: PM.Globs, name: string)
    requires PlainName(name)
    ensures PM.Parse(globs, name) == Some(PM.Suffix(name))
  {
    forall i | 0 <= i < |name| ensures !PM.GlobChar(name, i) { assert PlainChar(name[i]); }
    assert PlainChar(name[0]) && PlainChar(name[|name|-1]);
    assert PM.ToLower(name) == name;
  }

  /** Lists of plain names, with nothing but plain names allowed to interfere. */
  ghost predicate PlainInput(input: Input) {
    input.globs == {} && forall n :: n in input.all ==> PlainName(n)
  }

  /** What the proxy has loaded: the kept names, one per line, in any order. */
  ghost predicate IsOutput<V>(fn: Fnmatch, input: Input, lines: seq<(string, Option<V>)>) {
    && (forall i :: 0 <= i < |lines| ==> lines[i].1.Some? && lines[i].0 in KeptNames(fn, input, input.all))
    && (forall n :: n in KeptNames(fn, input, input.all) ==> exists i :: 0 <= i < |lines| && lines[i].0 == n)
  }

  /** What is put out is free of subdomains of other names put out. */
  lemma OutputSubdomainFree(fn: Fnmatch, input: Input)
    ensures PM.SubdomainFree(KeptNames(fn, input, input.all))
  {
  }

  lemma LoadedRules<V>(fn: Fnmatch, input: Input, globs: PM.Globs, lines: seq<(string, Option<V>)>)
    requires PlainInput(input) && IsOutput(fn, input, lines)
    ensures forall rule :: PM.Listed(globs, lines, rule) <==>
              rule.Suffix? && rule.name in KeptNames(fn, input, input.all)
    ensures PM.SuffixRules(PM.Load(globs, lines)) == KeptNames(fn, input, input.all)
  {
    forall rule
      ensures PM.Listed(globs, lines, rule) <==> rule.Suffix? && rule.name in KeptNames(fn, input, input.all) {
      if PM.Listed(globs, lines, rule) {
        var i :| 0 <= i < |lines| && PM.Parse(globs, lines[i].0) == Some(rule);
        PlainNameIsSuffixRule(globs, lines[i].0);
      }
      if rule.Suffix? && rule.name in KeptNames(fn, input, input.all) {
        var i :| 0 <= i < |lines| && lines[i].0 == rule.name;
        PlainNameIsSuffixRule(globs, lines[i].0);
      }
    }
    forall p ensures p in PM.SuffixRules(PM.Load(globs, lines)) <==> p in KeptNames(fn, input, input.all) {
      PM.LoadStores(globs, lines, PM.Suffix(p));
    }
  }

  /** End to end: once the matcher has loaded the generated list, it rejects a name
      exactly when the name or one of its parents was put out. */
  lemma GeneratedListBlocks<V>(fn: Fnmatch, input: Input, globs: PM.Globs, lines: seq<(string, Option<V>)>, q: string)
    requires PlainInput(input) && IsOutput(fn, input, lines)
    ensures PM.Decisive(globs, PM.Load(globs, lines), q) <==>
              exists n :: n in KeptNames(fn, input, input.all) && InZone(q, n)
  {
    LoadedRules(fn, input, globs, lines);
    OutputSubdomainFree(fn, input);
    PM.MatcherMeaning(globs, lines, q);
    if n :| n in KeptNames(fn, input, input.all) && InZone(q, n) {
      assert PM.Listed(globs, lines, PM.Suffix(n)) && PM.Matches(globs, PM.Suffix(n), q);
    }
  }

  lemma AboveAbove(a: string, b: string, name: string)
    requires Above(a, b) && (b == name || Above(b, name)) && b != ""
    ensures Above(a, name)
  {
  }

  /** The highest listed domain a listed name belongs to. */
  lemma {:induction false} Topmost(all: set<string>, name: string) returns (top: string)
    requires name in all && forall n :: n in all ==> n != ""
    ensures top in all && (top == name || Above(top, name)) && !SomeAbove(all, top)
    decreases |name|
  {
    top := name;
    if SomeAbove(all, name) {
      var a :| a in all && Above(a, name);
      top := Topmost(all, a);
      if top != a { AboveAbove(top, a, name); }
    }
  }

  ghost predicate UnderAllowed(input: Input, name: string) {
    name in input.allowed || SomeAbove(input.allowed, name)
  }

  lemma AllowedPassesDown(input: Input, top: string, name: string)
    requires UnderAllowed(input, top) && top != "" && (top == name || Above(top, name))
    ensures UnderAllowed(input, name)
  {
  }

  /** No other name put out can hold what the topmost listed domain holds. */
  lemma OnlyTheTopmost(input: Input, top: string, n: string, name: string)
    requires top in input.all && n in input.all && InZone(name, top) && InZone(name, n)
    requires !SomeAbove(input.all, top) && !SomeAbove(input.all, n)
    ensures n == top
  {
    if |n| <= |top| {
      ZonesOfOneNameNest(name, n, top);
      assert n != top ==> Above(n, top);
    } else {
      ZonesOfOneNameNest(name, top, n);
      assert EndsWith(n, "." + top) ==> Above(top, n);
    }
  }

  /** A listed name stays blocked by the reduced list if and only if the highest
      listed domain it belongs to is not allowed. */
  lemma ListedNameBlocked<V>(fn: Fnmatch, input: Input, globs: PM.Globs, lines: seq<(string, Option<V>)>, name: string)
    returns (top: string)
    requires PlainInput(input) && IsOutput(fn, input, lines) && name in input.all
    ensures top in input.all && InZone(name, top) && !SomeAbove(input.all, top)
    ensures PM.Decisive(globs, PM.Load(globs, lines), name) <==> !UnderAllowed(input, top)
    ensures UnderAllowed(input, top) ==> UnderAllowed(input, name)
  {
    top := Topmost(input.all, name);
    GeneratedListBlocks(fn, input, globs, lines, name);
    var kept := KeptNames(fn, input, input.all);
    assert top in kept <==> !UnderAllowed(input, top);
    if n :| n in kept && InZone(name, n) {
      OnlyTheTopmost(input, top, n, name);
    }
    if UnderAllowed(input, top) {
      AllowedPassesDown(input, top, name);
    }
  }

  /** So no listed name that is not allowed escapes the reduction. */
  lemma NothingEscapes<V>(fn: Fnmatch, input: Input, globs: PM.Globs, lines: seq<(string, Option<V>)>, name: string)
    requires PlainInput(input) && IsOutput(fn, input, lines)
    requires name in input.all && !UnderAllowed(input, name)
    ensures PM.Decisive(globs, PM.Load(globs, lines), name)
  {
    var top := ListedNameBlocked(fn, input, globs, lines, name);
  }
}
