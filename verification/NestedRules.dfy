/** Suffix rules nested in one another, and exactly which names the matcher then
    misses: over all strings, and over names with bounded labels and length. */
module NestedRules {
  import opened Common
  import opened DomainNames
  import opened PatternMatcher

  // ---------------------------------------------------------------- nested rules always break it

  function Repeat(c: char, n: nat): (r: string)
    ensures |r| == n && forall i :: 0 <= i < n ==> r[i] == c
  {
    seq(n, _ => c)
  }

  lemma {:induction false} LengthBound(rules: set<string>) returns (n: nat)
    ensures forall p :: p in rules ==> |p| <= n
  {
    if rules == {} {
      n := 0;
    } else {
      var p :| p in rules;
      n := LengthBound(rules - {p});
      if n < |p| { n := |p|; }
    }
  }

  /** A rule shorter than the run of x before t, but not than t, is not a zone of ...x...xt. */
  lemma NotAZone(q: string, p: string, head: string, n: nat, t: string)
    requires q == head + (Repeat('x', n) + t) && |t| <= |p| < n
    ensures !InZone(q, p)
  {
    var i := |q| - |p| - 1;
    assert q[i] == (Repeat('x', n) + t)[i-|head|] == 'x';
    assert q[i..][0] != ("." + p)[0];
  }

  lemma LongestMisses(rules: set<string>, q: string, head: string, n: nat, inner: string)
    requires q == head + (Repeat('x', n) + inner) && inner in rules
    requires forall p :: p in rules ==> |p| < n
    ensures !LongestIsZone(rules, q)
  {
    assert EndsWith(q, inner);
    if p :| IsLongest(rules, q, p) && InZone(q, p) {
      NotAZone(q, p, head, n, inner);
    }
  }

  /** A name in the zone of `inner`, letter by letter, that stops inside a label. */
  function Missed(n: nat, inner: string): string { ['a', '.'] + (Repeat('x', n) + inner) }

  lemma MissedParent(n: nat, inner: string)
    ensures Parent(Missed(n, inner)) == Repeat('x', n) + inner
  {
  }

  lemma MissedInZone(n: nat, inner: string, outer: string)
    requires inner != outer && InZone(inner, outer)
    ensures InZone(Missed(n, inner), outer)
  {
  }

  lemma MissedByLongest(rules: set<string>, n: nat, inner: string)
    requires inner in rules && forall p :: p in rules ==> |p| < n
    ensures !LongestIsZone(rules, Missed(n, inner)) && !LongestIsZone(rules, Repeat('x', n) + inner)
  {
    LongestMisses(rules, Missed(n, inner), ['a', '.'], n, inner);
    assert Repeat('x', n) + inner == [] + (Repeat('x', n) + inner);
    LongestMisses(rules, Repeat('x', n) + inner, [], n, inner);
  }

  lemma MissedName(rules: set<string>, outer: string, inner: string) returns (q: string, parent: string)
    requires inner in rules && inner != outer && InZone(inner, outer)
    ensures |q| >= 2 && InZone(q, outer) && Parent(q) == parent
    ensures !LongestIsZone(rules, q) && !LongestIsZone(rules, parent)
  {
    var bound := LengthBound(rules);
    q, parent := Missed(bound + 1, inner), Repeat('x', bound + 1) + inner;
    MissedParent(bound + 1, inner);
    MissedInZone(bound + 1, inner, outer);
    MissedByLongest(rules, bound + 1, inner);
  }

  /** If a stored rule is inside the zone of another stored rule, then some
      subdomain of that zone is missed. */
  lemma NestedRulesMissAName<V>(t: Tables<V>, outer: string, inner: string) returns (q: string)
    requires outer in SuffixRules(t) && inner in SuffixRules(t) && inner != outer && InZone(inner, outer)
    ensures |q| >= 2 && InZone(q, outer) && !SuffixStage(t, q)
  {
    var parent;
    q, parent := MissedName(SuffixRules(t), outer, inner);
    SuffixStageExactly(t, q);
  }

  /** The suffix stage agrees with the simple suffix rule on all names if and only
      if no stored suffix is a subdomain of another. */
  lemma SuffixStageCorrectIffSubdomainFree<V>(t: Tables<V>)
    ensures SubdomainFree(SuffixRules(t)) <==>
              forall q: string :: |q| >= 2 ==> (SuffixStage(t, q) <==> UnderSomeRule(SuffixRules(t), q))
  {
    var rules := SuffixRules(t);
    if SubdomainFree(rules) {
      forall q: string | |q| >= 2 ensures SuffixStage(t, q) <==> UnderSomeRule(rules, q) {
        if SuffixStage(t, q) { SuffixStageSound(t, q); }
        if UnderSomeRule(rules, q) { SuffixStageComplete(t, q); }
      }
    } else {
      var inner, outer :| inner in rules && outer in rules && inner != outer && InZone(inner, outer);
      var q := NestedRulesMissAName(t, outer, inner);
      assert UnderSomeRule(rules, q);
    }
  }

  // ---------------------------------------------------------------- short witnesses

  predicate DotFree(s: string) { forall i :: 0 <= i < |s| ==> s[i] != '.' }

  /** A label in front of a name. */
  function Sub(lab: string, name: string): string { lab + ("." + name) }

  lemma {:induction false} SubParent(lab: string, name: string)
    requires DotFree(lab)
    ensures Parent(Sub(lab, name)) == name
  {
    var q := Sub(lab, name);
    if lab == [] {
      assert q == "." + name;
    } else {
      assert q[1..] == Sub(lab[1..], name);
      SubParent(lab[1..], name);
    }
  }

  lemma ZoneHasDot(q: string, p: string)
    requires InZone(q, p) && q != p
    ensures |q| > |p| && q[|q|-|p|-1] == '.'
  {
  }

  /** A rule stopped by a letter in front of it is not a zone. */
  lemma NotAZoneBehind(q: string, head: string, o: string)
    requires q == head + o && head != [] && head[|head|-1] != '.'
    ensures !InZone(q, o) && EndsWith(q, o)
  {
  }

  /** A rule longer than what follows the first dot, and not the whole name, stops
      inside the first label. */
  lemma NotAZoneOfSub(lab: string, name: string, p: string)
    requires DotFree(lab) && |p| > |name| && p != Sub(lab, name)
    ensures !InZone(Sub(lab, name), p)
  {
    var q := Sub(lab, name);
    var i := |q| - |p| - 1;
    if i >= 0 { assert q[i] == lab[i]; }
    if InZone(q, p) { ZoneHasDot(q, p); }
  }

  lemma SuffixOfSuffix(q: string, r: string, p: string)
    requires EndsWith(q, r) && EndsWith(q, p) && |p| <= |r|
    ensures EndsWith(r, p)
  {
  }

  lemma SuffixTransitive(q: string, r: string, p: string)
    requires EndsWith(q, r) && EndsWith(r, p)
    ensures EndsWith(q, p)
  {
  }

  /** If the longest rule a name ends with is not a zone of it, no longest rule is. */
  lemma LongestDecides(rules: set<string>, q: string, o: string)
    requires IsLongest(rules, q, o) && EndsWith(q, o) && !InZone(q, o)
    ensures !LongestIsZone(rules, q)
  {
  }

  /** A gap in the rules: o lies in the zone of p, nothing longer than o is stored for
      the name wo, whose first label is longer than o's, and the name lab.wo is no rule. */
  ghost predicate Gap(rules: set<string>, o: string, p: string, w: string, lab: string) {
    && p in rules && o != p && InZone(o, p)
    && DotFree(w) && w != [] && DotFree(lab) && lab != []
    && IsLongest(rules, w + o, o) && Sub(lab, w + o) !in rules
  }

  lemma GapBlindsParent(rules: set<string>, o: string, w: string)
    requires DotFree(w) && w != [] && IsLongest(rules, w + o, o)
    ensures !LongestIsZone(rules, w + o)
  {
    NotAZoneBehind(w + o, w, o);
    LongestDecides(rules, w + o, o);
  }

  lemma GapBlindsName(rules: set<string>, o: string, w: string, lab: string)
    requires DotFree(w) && w != [] && IsLongest(rules, w + o, o)
    requires DotFree(lab) && Sub(lab, w + o) !in rules
    ensures !LongestIsZone(rules, Sub(lab, w + o))
  {
    var q, head := Sub(lab, w + o), lab + "." + w;
    assert q == head + o;
    NotAZoneBehind(q, head, o);
    assert EndsWith(q, w + o);
    forall p | IsLongest(rules, q, p) ensures !InZone(q, p) {
      if |p| > |w + o| {
        NotAZoneOfSub(lab, w + o, p);
      } else if EndsWith(q, p) {
        SuffixOfSuffix(q, w + o, p);
        assert p == o;
      }
    }
  }

  /** Every gap is a name of p's zone that is missed. Nothing but the rules that end
      wo has to be looked at; w and lab may be single letters. */
  lemma GapMissesName<V>(t: Tables<V>, o: string, p: string, w: string, lab: string)
    requires Gap(SuffixRules(t), o, p, w, lab)
    ensures InZone(Sub(lab, w + o), p) && !SuffixStage(t, Sub(lab, w + o))
  {
    GapInZone(o, p, w, lab);
    GapBlindsParent(SuffixRules(t), o, w);
    GapBlindsName(SuffixRules(t), o, w, lab);
    SubParent(lab, w + o);
    BlindLookupsMiss(t, Sub(lab, w + o), w + o);
  }

  lemma GapInZone(o: string, p: string, w: string, lab: string)
    requires o != p && InZone(o, p)
    ensures InZone(Sub(lab, w + o), p)
  {
  }

  lemma BlindLookupsMiss<V>(t: Tables<V>, q: string, parent: string)
    requires Parent(q) == parent && !LongestIsZone(SuffixRules(t), q) && !LongestIsZone(SuffixRules(t), parent)
    ensures !SuffixStage(t, q)
  {
    SuffixStageExactly(t, q);
  }

  /** For instance: with com and example.com stored, xx.yexample.com is missed, although
      it is in the zone of com. */
  lemma DocumentedZoneMissed<V>(t: Tables<V>)
    requires SuffixRules(t) == {"com", "example.com"}
    ensures InZone("xx.yexample.com", "com") && !SuffixStage(t, "xx.yexample.com")
  {
    DocumentedGap(SuffixRules(t));
    GapMissesName(t, "example.com", "com", "y", "xx");
  }

  lemma DocumentedGap(rules: set<string>)
    requires rules == {"com", "example.com"}
    ensures Gap(rules, "example.com", "com", "y", "xx") && Sub("xx", "y" + "example.com") == "xx.yexample.com"
  {
    assert EndsWith("example.com", "." + "com");
    LengthsBound(rules, "example.com", "y" + "example.com");
  }

  lemma LengthsBound(rules: set<string>, o: string, r: string)
    requires o in rules && forall p :: p in rules ==> |p| <= |o|
    ensures IsLongest(rules, r, o)
  {
  }

  // ---------------------------------------------------------------- names with bounded labels

  /** There is a dot among the m + 1 characters from i on. */
  ghost predicate DotWithin(q: string, i: int, m: nat) {
    exists j :: 0 <= i <= j < |q| && j <= i + m && q[j] == '.'
  }

  /** A name of at most maxName characters whose labels have 1 to maxLabel characters. */
  ghost predicate Fits(maxLabel: nat, maxName: nat, q: string) {
    && q != [] && |q| <= maxName && q[0] != '.' && q[|q|-1] != '.'
    && (forall i :: 0 < i < |q| && q[i-1] == '.' ==> q[i] != '.')
    && (forall i :: 0 <= i < |q| - maxLabel ==> DotWithin(q, i, maxLabel))
  }

  /** What follows a dot of a fitting name fits. */
  lemma SuffixFits(maxLabel: nat, maxName: nat, q: string, k: int)
    requires Fits(maxLabel, maxName, q) && 0 <= k < |q| && (k == 0 || q[k-1] == '.')
    ensures Fits(maxLabel, maxName, q[k..])
  {
    var r := q[k..];
    assert forall i :: 0 <= i < |r| ==> r[i] == q[k + i];
    forall i | 0 <= i < |r| - maxLabel ensures DotWithin(r, i, maxLabel) {
      assert DotWithin(q, k + i, maxLabel);
      var j :| k + i <= j < |q| && j <= k + i + maxLabel && q[j] == '.';
      assert r[j-k] == '.';
    }
    forall i | 0 < i < |r| && r[i-1] == '.' ensures r[i] != '.' {
      assert q[k+i-1] == '.';
    }
  }

  /** The last label of a string, and where it starts. */
  lemma {:induction false} LastLabel(s: string) returns (k: int)
    requires s != [] && s[|s|-1] != '.'
    ensures 0 <= k < |s| && DotFree(s[k..]) && (k == 0 || s[k-1] == '.')
  {
    k := |s| - 1;
    while k > 0 && s[k-1] != '.'
      invariant 0 <= k < |s| && DotFree(s[k..])
    {
      k := k - 1;
    }
  }

  lemma {:induction false} FirstLabel(q: string, i: int) returns (lab: string)
    requires 0 <= i < |q| && q[i] == '.'
    ensures DotFree(lab) && q == Sub(lab, Parent(q)) && |lab| <= i
  {
    if q[0] == '.' {
      lab := [];
      assert q == "." + q[1..];
    } else {
      var rest := FirstLabel(q[1..], i - 1);
      lab := [q[0]] + rest;
      assert q == [q[0]] + q[1..];
    }
  }

  lemma {:induction false} FindLongest(rules: set<string>, q: string, p: string) returns (o: string)
    requires p in rules && EndsWith(q, p)
    ensures IsLongest(rules, q, o) && EndsWith(q, o)
    decreases |q| - |p|
  {
    o := p;
    if !IsLongest(rules, q, p) {
      var r :| r in rules && EndsWith(q, r) && |r| > |p|;
      o := FindLongest(rules, q, r);
    }
  }

  lemma StoredIsItsOwnZone(rules: set<string>, q: string)
    requires q in rules
    ensures LongestIsZone(rules, q)
  {
    assert IsLongest(rules, q, q);
  }

  /** The parent of a missed name is missed by its own lookup, under the same rule. */
  lemma ParentStillUnder(rules: set<string>, q: string, p: string) returns (lab: string)
    requires p in rules && InZone(q, p) && !LongestIsZone(rules, q)
    requires q != [] && q[0] != '.' && q[|q|-1] != '.'
    ensures DotFree(lab) && lab != [] && q == Sub(lab, Parent(q)) && InZone(Parent(q), p) && Parent(q) != []
    ensures q !in rules
  {
    if q in rules { StoredIsItsOwnZone(rules, q); }
    ZoneHasDot(q, p);
    var i := |q| - |p| - 1;
    lab := FirstLabel(q, i);
    var r := Parent(q);
    assert q[|lab|] == '.';
    assert |r| == |q| - |lab| - 1;
    if |r| > |p| {
      assert EndsWith(q, r) && EndsWith(q, "." + p);
      SuffixOfSuffix(q, r, "." + p);
    } else {
      assert r == q[|q|-|p|..];
      assert q[i..][1..] == p;
    }
  }

  /** The longest rule of a name it does not serve lies in the zone of the rule that
      should have matched, behind a letter. */
  lemma LongestInside(rules: set<string>, r: string, p: string) returns (o: string, head: string)
    requires p in rules && InZone(r, p) && !LongestIsZone(rules, r)
    ensures IsLongest(rules, r, o) && o != p && InZone(o, p)
    ensures r == head + o && head != [] && head[|head|-1] != '.'
  {
    assert EndsWith(r, p);
    o := FindLongest(rules, r, p);
    assert !InZone(r, o);
    assert |o| == |p| ==> o == p;
    LongerRuleIsNested(r, p, o);
    head := r[..|r|-|o|];
    assert r == head + o;
    assert r[|head|-1..] == [head[|head|-1]] + o;
  }

  /** Every missed name that fits contains a gap that fits. */
  lemma MissedNameHasGap(rules: set<string>, maxLabel: nat, maxName: nat, q: string)
    returns (o: string, p: string, w: string, lab: string)
    requires Fits(maxLabel, maxName, q) && UnderSomeRule(rules, q) && !LongestIsZone(rules, q)
    requires Parent(q) != [] ==> !LongestIsZone(rules, Parent(q))
    ensures Gap(rules, o, p, w, lab) && Fits(maxLabel, maxName, Sub(lab, w + o))
  {
    p :| p in rules && InZone(q, p);
    var first := ParentStillUnder(rules, q, p);
    o, w, lab := GapOfParent(rules, maxLabel, maxName, q, first, Parent(q), p);
  }

  lemma GapOfParent(rules: set<string>, maxLabel: nat, maxName: nat, q: string, first: string, r: string, p: string)
    returns (o: string, w: string, lab: string)
    requires Fits(maxLabel, maxName, q) && q !in rules && q == Sub(first, r) && DotFree(first) && first != []
    requires p in rules && InZone(r, p) && !LongestIsZone(rules, r)
    ensures Gap(rules, o, p, w, lab) && Fits(maxLabel, maxName, Sub(lab, w + o))
  {
    var head;
    o, head := LongestInside(rules, r, p);
    w, lab := CutGap(rules, maxLabel, maxName, q, first, r, head, o);
  }

  /** The letters right in front of o, back to a dot or to the start. */
  lemma CutWord(rules: set<string>, r: string, head: string, o: string) returns (pre: string, w: string)
    requires r == head + o && head != [] && head[|head|-1] != '.' && IsLongest(rules, r, o)
    ensures head == pre + w && DotFree(w) && w != [] && (pre == [] || pre[|pre|-1] == '.')
    ensures IsLongest(rules, w + o, o)
  {
    var k := LastLabel(head);
    pre, w := head[..k], head[k..];
    assert EndsWith(r, w + o);
    forall p | p in rules && EndsWith(w + o, p) ensures |p| <= |o| {
      SuffixTransitive(r, w + o, p);
    }
  }

  /** The label in front of a dot of a fitting name. */
  lemma CutLabel(maxLabel: nat, maxName: nat, q: string, front: string, rest: string) returns (l: int, lab: string)
    requires Fits(maxLabel, maxName, q) && q == front + ("." + rest)
    ensures DotFree(lab) && lab != [] && 0 <= l < |q| && q[l..] == Sub(lab, rest)
    ensures (l == 0 || q[l-1] == '.') && Fits(maxLabel, maxName, Sub(lab, rest))
  {
    var m := |front|;
    assert q[m] == '.';
    assert m > 0 && q[m-1] == front[m-1] && q[m-1] != '.';
    l := LastLabel(front);
    lab := front[l..];
    assert l > 0 ==> q[l-1] == front[l-1];
    SuffixFits(maxLabel, maxName, q, l);
  }

  /** A part of q that starts behind a dot is part of what follows q's first dot. */
  lemma PartOfParent(q: string, first: string, r: string, l: int)
    requires q == Sub(first, r) && DotFree(first) && 0 < l < |q| && q[l-1] == '.'
    ensures EndsWith(r, q[l..])
  {
  }

  lemma CutGap(rules: set<string>, maxLabel: nat, maxName: nat, q: string, first: string, r: string,
               head: string, o: string)
    returns (w: string, lab: string)
    requires Fits(maxLabel, maxName, q) && q !in rules && q == Sub(first, r) && DotFree(first)
    requires r == head + o && head != [] && head[|head|-1] != '.' && IsLongest(rules, r, o)
    ensures DotFree(w) && w != [] && DotFree(lab) && lab != []
    ensures IsLongest(rules, w + o, o) && Sub(lab, w + o) !in rules && Fits(maxLabel, maxName, Sub(lab, w + o))
  {
    var pre;
    pre, w := CutWord(rules, r, head, o);
    var l, front := 0, (first + "." + pre)[..|first|+|pre|];
    SplitBeforeWord(q, first, pre, w, o, front);
    l, lab := CutLabel(maxLabel, maxName, q, front, w + o);
    if l > 0 { PartOfParent(q, first, r, l); }
    assert l == 0 ==> q[l..] == q;
  }

  lemma SplitBeforeWord(q: string, first: string, pre: string, w: string, o: string, front: string)
    requires q == Sub(first, (pre + w) + o) && (pre == [] || pre[|pre|-1] == '.')
    requires front == (first + "." + pre)[..|first|+|pre|]
    ensures q == front + ("." + (w + o))
  {
  }

  ghost predicate HasGap(rules: set<string>, maxLabel: nat, maxName: nat) {
    exists o, p, w, lab :: Gap(rules, o, p, w, lab) && Fits(maxLabel, maxName, Sub(lab, w + o))
  }

  ghost predicate CorrectOnNames<V>(t: Tables<V>, maxLabel: nat, maxName: nat) {
    forall q: string :: |q| >= 2 && Fits(maxLabel, maxName, q) ==>
      (SuffixStage(t, q) <==> UnderSomeRule(SuffixRules(t), q))
  }

  /** For any bounds on labels and on whole names: the suffix stage agrees with the
      simple suffix rule on all names within the bounds if and only if no gap of the
      rules fits the bounds. */
  lemma CorrectOnNamesIffNoGap<V>(t: Tables<V>, maxLabel: nat, maxName: nat)
    ensures CorrectOnNames(t, maxLabel, maxName) <==> !HasGap(SuffixRules(t), maxLabel, maxName)
  {
    var rules := SuffixRules(t);
    if o, p, w, lab :| Gap(rules, o, p, w, lab) && Fits(maxLabel, maxName, Sub(lab, w + o)) {
      GapMissesName(t, o, p, w, lab);
      assert UnderSomeRule(rules, Sub(lab, w + o));
      assert |Sub(lab, w + o)| >= 2;
    }
    if !CorrectOnNames(t, maxLabel, maxName) {
      var q :| |q| >= 2 && Fits(maxLabel, maxName, q) && !(SuffixStage(t, q) <==> UnderSomeRule(rules, q));
      if SuffixStage(t, q) { SuffixStageSound(t, q); }
      SuffixStageExactly(t, q);
      var o, p, w, lab := MissedNameHasGap(rules, maxLabel, maxName, q);
    }
  }

  /** A gap needs room for a letter in the first label of the nested rule. So rules
      nested in others do no harm while their first labels are full. */
  lemma FullLabelsAreHarmless<V>(t: Tables<V>, maxLabel: nat, maxName: nat)
    requires forall o, p :: o in SuffixRules(t) && p in SuffixRules(t) && o != p && InZone(o, p) ==>
               |o| >= maxLabel && DotFree(o[..maxLabel])
    ensures CorrectOnNames(t, maxLabel, maxName)
  {
    var rules := SuffixRules(t);
    CorrectOnNamesIffNoGap(t, maxLabel, maxName);
    forall o, p, w, lab | Gap(rules, o, p, w, lab) ensures !Fits(maxLabel, maxName, Sub(lab, w + o)) {
      LabelTooLong(maxLabel, lab, w, o);
    }
  }

  lemma LabelTooLong(maxLabel: nat, lab: string, w: string, o: string)
    requires DotFree(w) && w != [] && |o| >= maxLabel && DotFree(o[..maxLabel])
    ensures forall maxName :: !Fits(maxLabel, maxName, Sub(lab, w + o))
  {
    var q, k := Sub(lab, w + o), |lab| + 1;
    forall j | k <= j <= k + maxLabel && j < |q| ensures q[j] != '.' {
      assert q[j] == (w + o)[j-k];
      assert j - k >= |w| ==> (w + o)[j-k] == o[..maxLabel][j-k-|w|];
    }
    assert !DotWithin(q, k, maxLabel);
  }

  /** No stored rule has the one-letter label d in front. */
  ghost predicate FreshLetter(rules: set<string>, d: char) {
    d != '.' && forall p :: p in rules ==> !(|p| >= 2 && p[0] == d && p[1] == '.')
  }

  /** A nested rule that can be extended by the letter c, within the bounds, to a name
      that is no rule. */
  ghost predicate Extendable(rules: set<string>, maxLabel: nat, maxName: nat, d: char, o: string, p: string, c: char) {
    && o in rules && p in rules && o != p && InZone(o, p)
    && c != '.' && [c] + o !in rules && Fits(maxLabel, maxName, Sub([d], [c] + o))
  }

  /** In terms of the rules alone, given a letter that is no rule's first label: the
      suffix stage is right on all names within the bounds if and only if every rule
      nested in another is too long to be extended, or has all its one-letter
      extensions stored. */
  lemma CorrectOnNamesIffNotExtendable<V>(t: Tables<V>, maxLabel: nat, maxName: nat, d: char)
    requires FreshLetter(SuffixRules(t), d)
    ensures CorrectOnNames(t, maxLabel, maxName) <==>
              forall o, p, c :: !Extendable(SuffixRules(t), maxLabel, maxName, d, o, p, c)
  {
    var rules := SuffixRules(t);
    CorrectOnNamesIffNoGap(t, maxLabel, maxName);
    if o, p, c :| Extendable(rules, maxLabel, maxName, d, o, p, c) {
      ExtensionIsGap(rules, maxLabel, maxName, d, o, p, c);
    }
    if o, p, w, lab :| Gap(rules, o, p, w, lab) && Fits(maxLabel, maxName, Sub(lab, w + o)) {
      GapIsExtension(rules, maxLabel, maxName, d, o, p, w, lab);
    }
  }

  lemma ExtensionIsGap(rules: set<string>, maxLabel: nat, maxName: nat, d: char, o: string, p: string, c: char)
    requires FreshLetter(rules, d) && Extendable(rules, maxLabel, maxName, d, o, p, c)
    ensures Gap(rules, o, p, [c], [d])
  {
  }

  lemma GapIsExtension(rules: set<string>, maxLabel: nat, maxName: nat, d: char,
                       o: string, p: string, w: string, lab: string)
    requires FreshLetter(rules, d) && Gap(rules, o, p, w, lab) && Fits(maxLabel, maxName, Sub(lab, w + o))
    ensures Extendable(rules, maxLabel, maxName, d, o, p, w[|w|-1])
  {
    var c := w[|w|-1];
    assert w + o == w[..|w|-1] + ([c] + o);
    assert EndsWith(w + o, [c] + o);
    ShorterFits(maxLabel, maxName, d, c, o, w, lab);
  }

  lemma ShorterFits(maxLabel: nat, maxName: nat, d: char, c: char, o: string, w: string, lab: string)
    requires d != '.' && DotFree(w) && w != [] && c == w[|w|-1] && lab != []
    requires Fits(maxLabel, maxName, Sub(lab, w + o))
    ensures Fits(maxLabel, maxName, Sub([d], [c] + o))
  {
    var q, r := Sub(lab, w + o), Sub([d], [c] + o);
    var k := |q| - |r|;
    assert forall i :: 2 <= i < |r| ==> r[i] == q[k + i];
    assert maxLabel == 0 ==> DotWithin(q, 0, maxLabel);
    forall i | 0 <= i < |r| - maxLabel ensures DotWithin(r, i, maxLabel) {
      if i <= 1 {
        assert r[1] == '.';
      } else {
        assert DotWithin(q, k + i, maxLabel);
        var j :| k + i <= j < |q| && j <= k + i + maxLabel && q[j] == '.';
        assert r[j-k] == '.';
      }
    }
    forall i | 0 < i < |r| && r[i-1] == '.' ensures r[i] != '.' {
      if i > 2 { assert q[k+i-1] == '.'; }
    }
  }
}
