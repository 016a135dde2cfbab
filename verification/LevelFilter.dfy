/** Per-package log levels: rules built from an unordered map by an unstable sort, a
    shared cache, and the two gates of the handler (pkg/logging/slog/level_filter.go),
    with the module lookup of the stack rewriter (pkg/logging/slog/stack_rewriter.go). */
module LevelFilter {
  import opened Common
  import opened Text

  type Level = int
  type Levels = map<string, Level>

  // ----- what a level configuration means -----

  /** `p` is the longest configured prefix of the path. */
  ghost predicate IsLongest<V>(table: map<string, V>, path: string, p: string) {
    && p in table && p <= path
    && forall q :: q in table && q <= path ==> |q| <= |p|
  }

  ghost predicate HasPrefixIn<V>(table: map<string, V>, path: string) {
    exists q :: q in table && q <= path
  }

  /** The level of a package: that of its longest configured prefix, else the default. */
  ghost predicate Resolves(default: Level, levels: Levels, path: string, level: Level) {
    if HasPrefixIn(levels, path) then exists p :: IsLongest(levels, path, p) && level == levels[p]
    else level == default
  }

  lemma LongestUnique<V>(table: map<string, V>, path: string, p: string, q: string)
    requires IsLongest(table, path, p) && IsLongest(table, path, q)
    ensures p == q
  {
    assert p == path[..|p|] && q == path[..|q|];
  }

  /** A configuration gives a package one level, however it is looked up. */
  lemma ResolvesUnique(default: Level, levels: Levels, path: string, a: Level, b: Level)
    requires Resolves(default, levels, path, a) && Resolves(default, levels, path, b)
    ensures a == b
  {
    if HasPrefixIn(levels, path) {
      var p :| IsLongest(levels, path, p) && a == levels[p];
      var q :| IsLongest(levels, path, q) && b == levels[q];
      LongestUnique(levels, path, p, q);
    }
  }

  /** The level found by trying ever shorter prefixes of the path. */
  ghost function LevelFrom(default: Level, levels: Levels, path: string, k: nat): Level
    requires k <= |path|
  {
    if path[..k] in levels then levels[path[..k]]
    else if k == 0 then default
    else LevelFrom(default, levels, path, k - 1)
  }

  ghost function LevelOf(default: Level, levels: Levels, path: string): Level {
    LevelFrom(default, levels, path, |path|)
  }

  lemma {:induction false} LevelFromResolves(default: Level, levels: Levels, path: string, k: nat)
    requires k <= |path|
    requires forall q :: q in levels && q <= path ==> |q| <= k
    ensures Resolves(default, levels, path, LevelFrom(default, levels, path, k))
  {
    if path[..k] in levels {
      assert IsLongest(levels, path, path[..k]);
    } else {
      forall q | q in levels && q <= path ensures |q| < k {
        assert q == path[..|q|];
      }
      if k > 0 {
        LevelFromResolves(default, levels, path, k - 1);
      }
    }
  }

  /** Both ways of saying what a configuration means agree. */
  lemma LevelOfIsResolved(default: Level, levels: Levels, path: string, level: Level)
    ensures Resolves(default, levels, path, level) <==> level == LevelOf(default, levels, path)
  {
    LevelFromResolves(default, levels, path, |path|);
    if Resolves(default, levels, path, level) {
      ResolvesUnique(default, levels, path, level, LevelOf(default, levels, path));
    }
  }

  // ----- rules -----

  datatype Rule = Rule(prefix: string, level: Level)

  datatype Rules = Rules(default: Level, rules: seq<Rule>, minLevel: Level)

  /** No rule stands behind a shorter one. */
  ghost predicate LongestFirst(rules: seq<Rule>) {
    forall i, j :: 0 <= i < j < |rules| ==> |rules[i].prefix| >= |rules[j].prefix|
  }

  ghost predicate Lists(rules: seq<Rule>, levels: Levels) {
    && (forall i :: 0 <= i < |rules| ==> rules[i].prefix in levels && rules[i].level == levels[rules[i].prefix])
    && (forall p :: p in levels ==> HasRule(rules, p))
  }

  ghost predicate HasRule(rules: seq<Rule>, p: string) {
    exists i :: 0 <= i < |rules| && rules[i].prefix == p
  }

  /** The rules are those of the configuration, and the minimum is attained and never undercut. */
  ghost predicate BuiltFrom(r: Rules, default: Level, levels: Levels) {
    && r.default == default && Lists(r.rules, levels) && LongestFirst(r.rules)
    && r.minLevel <= default && (forall p :: p in levels ==> r.minLevel <= levels[p])
    && (r.minLevel == default || exists p :: p in levels && r.minLevel == levels[p])
  }

  function InsertAt(sorted: seq<Rule>, k: nat, r: Rule): seq<Rule>
    requires k <= |sorted|
  {
    sorted[..k] + [r] + sorted[k..]
  }

  lemma InsertKeepsOrder(sorted: seq<Rule>, k: nat, r: Rule)
    requires LongestFirst(sorted) && k <= |sorted|
    requires forall j :: 0 <= j < k ==> |sorted[j].prefix| > |r.prefix|
    requires k < |sorted| ==> |sorted[k].prefix| <= |r.prefix|
    ensures LongestFirst(InsertAt(sorted, k, r))
  {
    var t := InsertAt(sorted, k, r);
    forall i, j | 0 <= i < j < |t| ensures |t[i].prefix| >= |t[j].prefix| {
      assert j > k ==> t[j] == sorted[j - 1];
      assert i > k ==> t[i] == sorted[i - 1];
    }
  }

  lemma InsertKeepsRules(sorted: seq<Rule>, k: nat, r: Rule)
    requires k <= |sorted|
    ensures multiset(InsertAt(sorted, k, r)) == multiset(sorted) + multiset{r}
  {
    assert sorted == sorted[..k] + sorted[k..];
  }

  method InsertRule(sorted: seq<Rule>, r: Rule) returns (more: seq<Rule>)
    requires LongestFirst(sorted)
    ensures LongestFirst(more) && multiset(more) == multiset(sorted) + multiset{r}
  {
    var k := 0;
    while k < |sorted| && |sorted[k].prefix| > |r.prefix|
      invariant 0 <= k <= |sorted|
      invariant forall j :: 0 <= j < k ==> |sorted[j].prefix| > |r.prefix|
    {
      k := k + 1;
    }
    hide InsertAt, LongestFirst;
    InsertKeepsOrder(sorted, k, r);
    InsertKeepsRules(sorted, k, r);
    more := InsertAt(sorted, k, r);
  }

  /** A sort that may put rules of equal length in any order. */
  method SortByLength(rules: seq<Rule>) returns (sorted: seq<Rule>)
    ensures multiset(sorted) == multiset(rules) && LongestFirst(sorted)
  {
    sorted := [];
    for i := 0 to |rules|
      invariant multiset(sorted) == multiset(rules[..i]) && LongestFirst(sorted)
    {
      hide LongestFirst;
      assert rules[..i + 1] == rules[..i] + [rules[i]];
      sorted := InsertRule(sorted, rules[i]);
    }
    assert rules[..|rules|] == rules;
  }

  /** buildRules: the map may be visited in any order. */
  method BuildRules(default: Level, levels: Levels) returns (r: Rules)
    ensures BuiltFrom(r, default, levels)
  {
    var rules: seq<Rule> := [];
    var minLevel := default;
    var todo := levels.Keys;
    while todo != {}
      invariant todo <= levels.Keys
      invariant forall i :: 0 <= i < |rules| ==> rules[i].prefix in levels && rules[i].level == levels[rules[i].prefix]
      invariant forall p :: p in levels && p !in todo ==> HasRule(rules, p) && minLevel <= levels[p]
      invariant minLevel <= default
      invariant minLevel == default || exists p :: p in levels && minLevel == levels[p]
      decreases todo
    {
      var prefix :| prefix in todo;
      ghost var before := rules;
      rules := rules + [Rule(prefix, levels[prefix])];
      if levels[prefix] < minLevel {
        minLevel := levels[prefix];
      }
      todo := todo - {prefix};
      assert rules[|before|].prefix == prefix;
      forall p | HasRule(before, p) ensures HasRule(rules, p) {
        var i :| 0 <= i < |before| && before[i].prefix == p;
        assert rules[i].prefix == p;
      }
    }
    var sorted := SortByLength(rules);
    SameRules(rules, sorted, levels);
    r := Rules(default, sorted, minLevel);
  }

  lemma SameRules(a: seq<Rule>, b: seq<Rule>, levels: Levels)
    requires multiset(a) == multiset(b) && Lists(a, levels)
    ensures Lists(b, levels)
  {
    forall i | 0 <= i < |b| ensures b[i].prefix in levels && b[i].level == levels[b[i].prefix] {
      assert b[i] in multiset(a);
    }
    forall p | p in levels ensures HasRule(b, p) {
      assert HasRule(a, p);
      var i :| 0 <= i < |a| && a[i].prefix == p;
      assert a[i] in multiset(b);
    }
  }

  /** matchLevel: the first rule whose prefix fits. */
  method MatchLevel(r: Rules, path: string, ghost levels: Levels) returns (level: Level)
    requires BuiltFrom(r, r.default, levels)
    ensures Resolves(r.default, levels, path, level)
  {
    hide Lists, LongestFirst;
    for i := 0 to |r.rules|
      invariant forall j :: 0 <= j < i ==> !(r.rules[j].prefix <= path)
    {
      if r.rules[i].prefix <= path {
        FirstIsLongest(r.rules, levels, path, i);
        return r.rules[i].level;
      }
    }
    NoRuleFits(r.rules, levels, path);
    level := r.default;
  }

  lemma NoRuleFits(rules: seq<Rule>, levels: Levels, path: string)
    requires Lists(rules, levels) && forall j :: 0 <= j < |rules| ==> !(rules[j].prefix <= path)
    ensures !HasPrefixIn(levels, path)
  {
    forall q | q in levels ensures !(q <= path) {
      assert HasRule(rules, q);
    }
  }

  lemma FirstIsLongest(rules: seq<Rule>, levels: Levels, path: string, i: nat)
    requires Lists(rules, levels) && LongestFirst(rules) && i < |rules| && rules[i].prefix <= path
    requires forall j :: 0 <= j < i ==> !(rules[j].prefix <= path)
    ensures IsLongest(levels, path, rules[i].prefix) && rules[i].level == levels[rules[i].prefix]
  {
    forall q | q in levels && q <= path ensures |q| <= |rules[i].prefix| {
      assert HasRule(rules, q);
      var j :| 0 <= j < |rules| && rules[j].prefix == q;
    }
  }

  lemma ResolvedNotBelowMin(r: Rules, levels: Levels, path: string, level: Level)
    requires BuiltFrom(r, r.default, levels) && Resolves(r.default, levels, path, level)
    ensures r.minLevel <= level
  {
  }

  // ----- package of a function name -----

  /** extractPackagePath */
  function ExtractPackagePath(funcName: string): string {
    if funcName == "" then ""
    else
      var lastSlash := LastIndex(funcName, '/');
      if lastSlash == -1 then
        var cut := Cut(funcName, '.');
        if cut.None? then funcName else cut.value.0
      else
        var cut := Cut(funcName[lastSlash + 1..], '.');
        if cut.None? then funcName else funcName[..lastSlash + 1 + |cut.value.0|]
  }

  /** What is extracted of any text: all of it up to the first dot behind its last slash. */
  lemma ExtractedUpToDot(funcName: string)
    ensures
      var path := ExtractPackagePath(funcName);
      && path <= funcName && '/' !in funcName[|path|..]
      && (path != funcName ==> funcName[|path|] == '.')
      && forall k :: 0 <= k < |path| && '/' !in funcName[k..] ==> funcName[k] != '.'
  {
    hide Cut, LastIndex;
    var last := LastIndex(funcName, '/');
    var path, rest := ExtractPackagePath(funcName), funcName[last + 1..];
    assert rest == funcName || last >= 0;
    forall k | 0 <= k <= last ensures '/' in funcName[k..] {
      assert funcName[k..][last - k] == '/';
    }
    forall k | last < k < |path| ensures funcName[k] != '.' {
      assert funcName[k] == rest[k - last - 1];
    }
  }

  /** How the Go runtime writes the last element of an import path in function names: dots
      are escaped, since the first one ends the package. */
  function Escaped(name: string): string {
    if name == "" then ""
    else (if name[0] == '.' then "%2e" else [name[0]]) + Escaped(name[1..])
  }

  lemma {:induction false} EscapedChars(name: string)
    ensures '.' !in Escaped(name)
    ensures forall c :: c in Escaped(name) ==> c in name || c in "%2e"
  {
    if name != "" {
      EscapedChars(name[1..]);
    }
  }

  lemma {:induction false} EscapedSame(name: string)
    requires '.' !in name
    ensures Escaped(name) == name
  {
    if name != "" {
      EscapedSame(name[1..]);
      assert name == [name[0]] + name[1..];
    }
  }

  lemma {:induction false} EscapedAppend(a: string, b: string)
    ensures Escaped(a + b) == Escaped(a) + Escaped(b)
  {
    if a == "" {
      assert a + b == b;
    } else {
      assert (a + b)[1..] == a[1..] + b;
      EscapedAppend(a[1..], b);
    }
  }

  lemma PackageWithoutSlash(name: string, symbol: string)
    requires '/' !in name && '/' !in symbol && '.' !in name
    ensures ExtractPackagePath(name + "." + symbol) == name
  {
    hide Cut;
    CutFirst(name, '.', symbol);
    assert LastIndex(name + "." + symbol, '/') == -1;
  }

  lemma LastIs(s: string, c: char, k: nat)
    requires k < |s| && s[k] == c && forall j :: k < j < |s| ==> s[j] != c
    ensures LastIndex(s, c) == k
  {
    hide LastIndex;
    var last := LastIndex(s, c);
    assert last >= k;
  }

  lemma SplitAtSlash(dir: string, tail: string)
    ensures (dir + "/" + tail)[|dir| + 1..] == tail && (dir + "/" + tail)[..|dir| + 1] == dir + "/"
    ensures (dir + "/" + tail)[|dir|] == '/'
  {
    var front := dir + "/";
    assert |front| == |dir| + 1 && front[|dir|] == '/';
  }

  lemma BehindLastSlash(dir: string, tail: string)
    requires '/' !in tail
    ensures LastIndex(dir + "/" + tail, '/') == |dir|
    ensures (dir + "/" + tail)[|dir| + 1..] == tail && (dir + "/" + tail)[..|dir| + 1] == dir + "/"
  {
    hide LastIndex;
    SplitAtSlash(dir, tail);
    var f := dir + "/" + tail;
    forall j | |dir| < j < |f| ensures f[j] != '/' {
      assert f[j] == f[|dir| + 1..][j - |dir| - 1] == tail[j - |dir| - 1];
    }
    LastIs(f, '/', |dir|);
  }

  /** What is extracted when there is a slash. */
  lemma ExtractBehindSlash(dir: string, tail: string)
    requires '/' !in tail
    ensures ExtractPackagePath(dir + "/" + tail) ==
      if Cut(tail, '.').None? then dir + "/" + tail else (dir + "/" + tail)[..|dir| + 1 + |Cut(tail, '.').value.0|]
  {
    hide Cut, LastIndex;
    BehindLastSlash(dir, tail);
  }

  lemma PackageBehindSlash(dir: string, name: string, symbol: string)
    requires '/' !in name && '/' !in symbol && '.' !in name
    ensures ExtractPackagePath(dir + "/" + (name + "." + symbol)) == dir + "/" + name
  {
    hide Cut, ExtractPackagePath;
    var front := dir + "/" + name;
    ExtractBehindSlash(dir, name + "." + symbol);
    CutFirst(name, '.', symbol);
    assert dir + "/" + (name + "." + symbol) == front + ("." + symbol);
  }

  /** A function called `symbol` of package `dir/name` resolves to the path of that package as
      the runtime writes it, which is the import path exactly when `name` has no dot. */
  lemma PackageOfFunction(dir: string, name: string, symbol: string)
    requires '/' !in name && '/' !in symbol
    ensures ExtractPackagePath(dir + "/" + (Escaped(name) + "." + symbol)) == dir + "/" + Escaped(name)
    ensures ExtractPackagePath(Escaped(name) + "." + symbol) == Escaped(name)
    ensures dir + "/" + Escaped(name) == dir + "/" + name <==> '.' !in name
  {
    hide ExtractPackagePath, Escaped;
    EscapedChars(name);
    PackageBehindSlash(dir, Escaped(name), symbol);
    PackageWithoutSlash(Escaped(name), symbol);
    if '.' !in name {
      EscapedSame(name);
    } else {
      var i :| 0 <= i < |name| && name[i] == '.';
      assert (dir + "/" + name)[|dir| + 1 + i] == '.';
      assert forall k :: |dir| < k < |dir + "/" + Escaped(name)| ==> (dir + "/" + Escaped(name))[k] != '.';
    }
  }

  /** So no level configured under the import path of a package with such a dot, up to the
      dot or further, is ever the level of its functions. */
  lemma DottedPrefixNeverFits(dir: string, before: string, after: string, more: string)
    ensures !(dir + "/" + before + "." + more <= dir + "/" + Escaped(before + "." + after))
  {
    var prefix, path := dir + "/" + before + "." + more, dir + "/" + Escaped(before + "." + after);
    EscapedChars(before + "." + after);
    hide Escaped;
    var k := |dir| + 1 + |before|;
    assert prefix[k] == '.';
    assert forall j :: |dir| < j < |path| ==> path[j] in Escaped(before + "." + after);
    assert k < |path| ==> path[k] != '.';
  }

  // ----- the filter -----

  class Filter {
    var rules: Rules
    /** Resolved levels by function name, shared by derived handlers. */
    var cache: map<string, Level>
    /** The configuration in force. */
    ghost var levels: Levels

    /** The cache agrees with the current configuration. */
    ghost predicate Valid()
      reads this
    {
      && BuiltFrom(rules, rules.default, levels)
      && forall f :: f in cache ==> Resolves(rules.default, levels, ExtractPackagePath(f), cache[f])
    }

    constructor (default: Level, levels: Levels)
      ensures Valid() && this.levels == levels && rules.default == default
    {
      var built := BuildRules(default, levels);
      rules := built;
      cache := map[];
      this.levels := levels;
    }

    /** Update: swap the rules and clear the cache. */
    method Update(default: Level, levels: Levels)
      modifies this
      ensures Valid() && this.levels == levels && rules.default == default && cache == map[]
    {
      rules := BuildRules(default, levels);
      cache := map[];
      this.levels := levels;
    }

    /** resolveLevel */
    method ResolveLevel(funcName: string) returns (level: Level)
      requires Valid()
      modifies this`cache
      ensures Valid()
      ensures Resolves(rules.default, levels, ExtractPackagePath(funcName), level)
      ensures cache == old(cache)[funcName := level]
    {
      hide Resolves, BuiltFrom, ExtractPackagePath;
      if funcName in cache {
        assert cache == cache[funcName := cache[funcName]];
        return cache[funcName];
      }
      level := MatchLevel(rules, ExtractPackagePath(funcName), levels);
      cache := cache[funcName := level];
    }

    /** Enabled: could a record of this level pass? `upstream` is the upstream's own answer. */
    predicate Enabled(override: Option<Level>, level: Level, upstream: bool)
      reads this
    {
      if override.Some? && level >= override.value then upstream
      else level >= rules.minLevel && upstream
    }

    /** Handle: whether the record is forwarded. */
    method Handle(override: Option<Level>, level: Level, funcName: string) returns (forwarded: bool)
      requires Valid()
      modifies this`cache
      ensures Valid()
      ensures override.Some? ==> (forwarded <==> level >= override.value)
      ensures override.None? ==>
        exists threshold ::
          Resolves(rules.default, levels, ExtractPackagePath(funcName), threshold) && (forwarded <==> level >= threshold)
      ensures forwarded ==> Enabled(override, level, true)
    {
      if override.Some? {
        return level >= override.value;
      }
      var threshold := ResolveLevel(funcName);
      ResolvedNotBelowMin(rules, levels, ExtractPackagePath(funcName), threshold);
      forwarded := level >= threshold;
    }
  }

  /** Enabled answers as the upstream does exactly for a level that the override, the default
      or some configured level admits. */
  lemma EnabledIff(f: Filter, override: Option<Level>, level: Level, upstream: bool)
    requires f.Valid()
    ensures f.Enabled(override, level, upstream) <==>
      && upstream
      && ((override.Some? && level >= override.value) || level >= f.rules.default
          || exists p :: p in f.levels && level >= f.levels[p])
  {
    hide Resolves, ExtractPackagePath;
    if p :| p in f.levels && level >= f.levels[p] {
      assert level >= f.rules.minLevel;
    }
  }

  /** Some package passes a level exactly if a configured level admits it or, unless the
      empty prefix is configured, the default does. Otherwise Enabled lets it through in
      vain. */
  lemma PassableIff(default: Level, levels: Levels, level: Level)
    ensures (exists path :: level >= LevelOf(default, levels, path)) <==>
      (exists p :: p in levels && level >= levels[p]) || ("" !in levels && level >= default)
  {
    hide LevelOf;
    if p :| p in levels && level >= levels[p] {
      assert IsLongest(levels, p, p);
      LevelOfIsResolved(default, levels, p, levels[p]);
    }
    if "" !in levels {
      assert !HasPrefixIn(levels, "");
      LevelOfIsResolved(default, levels, "", default);
    }
    if path :| level >= LevelOf(default, levels, path) {
      LevelOfIsResolved(default, levels, path, LevelOf(default, levels, path));
      if !HasPrefixIn(levels, path) {
        assert "" in levels ==> "" <= path;
      }
    }
  }

  datatype Op =
    | DoUpdate(default: Level, levels: Levels)
    | DoHandle(override: Option<Level>, level: Level, funcName: string)

  /** Any sequence of updates and records: no record that is forwarded was rejected by
      Enabled before, and every verdict is the one of the configuration in force. */
  method Serve(f: Filter, ops: seq<Op>) returns (verdicts: seq<bool>)
    requires f.Valid()
    modifies f
    ensures f.Valid() && |verdicts| == |ops|
    ensures forall i :: 0 <= i < |ops| ==> verdicts[i] == Verdict(old(f.rules.default), old(f.levels), ops, i)
  {
    hide ExtractPackagePath, LevelFrom, Resolves, BuiltFrom;
    verdicts := [];
    for i := 0 to |ops|
      invariant f.Valid() && |verdicts| == i
      invariant Config(old(f.rules.default), old(f.levels), ops, i) == (f.rules.default, f.levels)
      invariant forall j :: 0 <= j < i ==> verdicts[j] == Verdict(old(f.rules.default), old(f.levels), ops, j)
    {
      match ops[i] {
        case DoUpdate(default, levels) =>
          f.Update(default, levels);
          verdicts := verdicts + [false];
        case DoHandle(override, level, funcName) =>
          var enabled := f.Enabled(override, level, true);
          var forwarded := f.Handle(override, level, funcName);
          if override.None? {
            ghost var threshold :|
              Resolves(f.rules.default, f.levels, ExtractPackagePath(funcName), threshold)
              && (forwarded <==> level >= threshold);
            LevelOfIsResolved(f.rules.default, f.levels, ExtractPackagePath(funcName), threshold);
          }
          verdicts := verdicts + [enabled && forwarded];
      }
    }
  }

  /** The configuration in force before the i-th operation. */
  ghost function Config(default: Level, levels: Levels, ops: seq<Op>, i: nat): (Level, Levels)
    requires i <= |ops|
  {
    if i == 0 then (default, levels)
    else match ops[i - 1]
         case DoUpdate(d, l) => (d, l)
         case DoHandle(_, _, _) => Config(default, levels, ops, i - 1)
  }

  /** Whether the i-th operation is a record that must be forwarded to an accepting upstream. */
  ghost predicate Verdict(default: Level, levels: Levels, ops: seq<Op>, i: nat)
    requires i < |ops|
  {
    match ops[i]
    case DoUpdate(_, _) => false
    case DoHandle(override, level, funcName) =>
      if override.Some? then level >= override.value
      else
        var (d, l) := Config(default, levels, ops, i);
        level >= LevelOf(d, l, ExtractPackagePath(funcName))
  }

  // ----- resolution and update interleaved step by step -----

  /** A resolver in flight: it missed the cache, or has loaded the configuration as well. */
  datatype Resolver = Missed(funcName: string) | Loaded(funcName: string, default: Level, levels: Levels)

  /** The shared state between the steps of concurrent resolvers and updates. `unclear`
      counts the updates that have swapped the rules and not yet cleared the cache. */
  datatype Shared = Shared(
    default: Level, levels: Levels, cache: map<string, Level>, inFlight: seq<Resolver>, unclear: nat)

  function Fresh(default: Level, levels: Levels): Shared {
    Shared(default, levels, map[], [], 0)
  }

  datatype Step =
    | Miss(funcName: string)
    | LoadRules(k: nat)
    | StoreLevel(k: nat)
    | SwapRules(default: Level, levels: Levels)
    | ClearCache

  predicate CanStep(s: Shared, a: Step) {
    match a
    case Miss(f) => f !in s.cache
    case LoadRules(k) => k < |s.inFlight| && s.inFlight[k].Missed?
    case StoreLevel(k) => k < |s.inFlight| && s.inFlight[k].Loaded?
    case SwapRules(_, _) => true
    case ClearCache => s.unclear > 0
  }

  ghost function DoStep(s: Shared, a: Step): Shared
    requires CanStep(s, a)
  {
    match a
    case Miss(f) => s.(inFlight := s.inFlight + [Missed(f)])
    case LoadRules(k) => s.(inFlight := s.inFlight[k := Loaded(s.inFlight[k].funcName, s.default, s.levels)])
    case StoreLevel(k) =>
      var p := s.inFlight[k];
      s.(cache := s.cache[p.funcName := LevelFor(p.default, p.levels, p.funcName)],
         inFlight := s.inFlight[..k] + s.inFlight[k + 1..])
    case SwapRules(d, l) => s.(default := d, levels := l, unclear := s.unclear + 1)
    case ClearCache => s.(cache := map[], unclear := s.unclear - 1)
  }

  /** The level a function resolves to. */
  ghost function LevelFor(default: Level, levels: Levels, funcName: string): Level {
    LevelOf(default, levels, ExtractPackagePath(funcName))
  }

  ghost predicate Steps(s: Shared, acts: seq<Step>, t: Shared)
    decreases |acts|
  {
    if acts == [] then s == t else CanStep(s, acts[0]) && Steps(DoStep(s, acts[0]), acts[1..], t)
  }

  ghost predicate CacheAgrees(s: Shared) {
    forall f :: f in s.cache ==> s.cache[f] == LevelFor(s.default, s.levels, f)
  }

  /** The resolver has not loaded rules that answer differently from the present ones. */
  ghost predicate PendingAgrees(s: Shared, p: Resolver) {
    p.Loaded? ==> LevelFor(p.default, p.levels, p.funcName) == LevelFor(s.default, s.levels, p.funcName)
  }

  ghost predicate NoneStale(s: Shared) {
    forall k :: 0 <= k < |s.inFlight| ==> PendingAgrees(s, s.inFlight[k])
  }

  predicate SwapFree(acts: seq<Step>) {
    forall k :: 0 <= k < |acts| ==> !acts[k].SwapRules?
  }

  /** A state in which every update has been completed agrees. */
  ghost predicate AgreesWhenClear(s: Shared) {
    s.unclear == 0 ==> CacheAgrees(s)
  }

  lemma AgreementStep(s: Shared, a: Step)
    requires CanStep(s, a) && !a.SwapRules? && NoneStale(s)
    ensures NoneStale(DoStep(s, a))
    ensures AgreesWhenClear(s) ==> AgreesWhenClear(DoStep(s, a))
    ensures CacheAgrees(s) ==> CacheAgrees(DoStep(s, a))
  {
    hide LevelFor;
    var u := DoStep(s, a);
    forall k | 0 <= k < |u.inFlight| ensures PendingAgrees(u, u.inFlight[k]) {
      assert a.StoreLevel? ==> u.inFlight[k] == if k < a.k then s.inFlight[k] else s.inFlight[k + 1];
    }
    assert a.StoreLevel? ==> PendingAgrees(s, s.inFlight[a.k]);
  }

  lemma {:induction false} AgreementKept(s: Shared, acts: seq<Step>, t: Shared)
    requires Steps(s, acts, t) && SwapFree(acts) && NoneStale(s)
    ensures NoneStale(t)
    ensures AgreesWhenClear(s) ==> AgreesWhenClear(t)
    ensures CacheAgrees(s) ==> CacheAgrees(t)
    decreases |acts|
  {
    hide DoStep, NoneStale, AgreesWhenClear, CacheAgrees;
    if acts != [] {
      AgreementStep(s, acts[0]);
      AgreementKept(DoStep(s, acts[0]), acts[1..], t);
    }
  }

  lemma {:induction false} StepsOn(s: Shared, acts: seq<Step>, t: Shared, a: Step)
    requires Steps(s, acts, t) && CanStep(t, a)
    ensures Steps(s, acts + [a], DoStep(t, a))
    decreases |acts|
  {
    if acts == [] {
      assert [a][1..] == [] && [] + [a] == [a];
    } else {
      assert (acts + [a])[1..] == acts[1..] + [a];
      StepsOn(DoStep(s, acts[0]), acts[1..], t, a);
    }
  }

  /** The updates under way can all be completed at once. */
  lemma {:induction false} CanClear(s: Shared) returns (acts: seq<Step>)
    ensures SwapFree(acts) && Steps(s, acts, s.(cache := if s.unclear == 0 then s.cache else map[], unclear := 0))
    decreases s.unclear
  {
    if s.unclear == 0 {
      acts := [];
    } else {
      var rest := CanClear(DoStep(s, ClearCache));
      acts := [ClearCache] + rest;
      assert acts[1..] == rest;
    }
  }

  /** In any state, whatever is cached: after the rules are swapped, every continuation
      leaves a cache that agrees with the new rules once the updates are complete, exactly
      when no resolver in flight has loaded rules that answer differently. */
  lemma UpdateAgreesIff(s: Shared, default: Level, levels: Levels)
    ensures
      var u := DoStep(s, SwapRules(default, levels));
      (forall acts, t :: Steps(u, acts, t) && SwapFree(acts) ==> AgreesWhenClear(t)) <==> NoneStale(u)
  {
    hide LevelFor;
    var u := DoStep(s, SwapRules(default, levels));
    if NoneStale(u) {
      forall acts, t | Steps(u, acts, t) && SwapFree(acts) ensures AgreesWhenClear(t) {
        AgreementKept(u, acts, t);
      }
    } else {
      var k :| 0 <= k < |u.inFlight| && !PendingAgrees(u, u.inFlight[k]);
      var acts := CanClear(u);
      var v := u.(cache := if u.unclear == 0 then u.cache else map[], unclear := 0);
      var end := DoStep(v, StoreLevel(k));
      StepsOn(u, acts, v, StoreLevel(k));
      assert !PendingAgrees(v, v.inFlight[k]);
      StaleAnswerStays(v, k);
      assert Steps(u, acts + [StoreLevel(k)], end) && SwapFree(acts + [StoreLevel(k)]) && !AgreesWhenClear(end);
    }
  }

  /** A cache that has just been cleared agrees for good exactly then. */
  lemma AgreesAfterClearIff(s: Shared)
    requires s.cache == map[]
    ensures (forall acts, t :: Steps(s, acts, t) && SwapFree(acts) ==> CacheAgrees(t)) <==> NoneStale(s)
  {
    hide LevelFor;
    if NoneStale(s) {
      forall acts, t | Steps(s, acts, t) && SwapFree(acts) ensures CacheAgrees(t) {
        AgreementKept(s, acts, t);
      }
    } else {
      var k :| 0 <= k < |s.inFlight| && !PendingAgrees(s, s.inFlight[k]);
      assert Steps(s, [], s);
      StepsOn(s, [], s, StoreLevel(k));
      StaleAnswerStays(s, k);
      assert SwapFree([] + [StoreLevel(k)]);
    }
  }

  lemma StaleAnswerStays(s: Shared, k: nat)
    requires k < |s.inFlight| && s.inFlight[k].Loaded? && !PendingAgrees(s, s.inFlight[k])
    ensures !CacheAgrees(DoStep(s, StoreLevel(k)))
  {
    hide LevelFor;
    var f := s.inFlight[k].funcName;
    var t := DoStep(s, StoreLevel(k));
    assert f in t.cache && t.cache[f] != LevelFor(t.default, t.levels, f);
  }

  /** Until a clear, a cached level that no resolver in flight is for keeps answering, also
      across updates of the rules. */
  lemma {:induction false} CachedUntilCleared(s: Shared, acts: seq<Step>, t: Shared, f: string)
    requires Steps(s, acts, t) && ClearCache !in acts && f in s.cache
    requires forall k :: 0 <= k < |s.inFlight| ==> s.inFlight[k].funcName != f
    ensures f in t.cache && t.cache[f] == s.cache[f]
    decreases |acts|
  {
    hide LevelFor;
    if acts != [] {
      var u := DoStep(s, acts[0]);
      forall k | 0 <= k < |u.inFlight| ensures u.inFlight[k].funcName != f {
        assert acts[0].StoreLevel? ==> u.inFlight[k] == if k < acts[0].k then s.inFlight[k] else s.inFlight[k + 1];
      }
      CachedUntilCleared(u, acts[1..], t, f);
    }
  }

  // --- runs from a fresh filter ---

  /** The rules are swapped to these ones only. */
  predicate SwapsTo(acts: seq<Step>, default: Level, levels: Levels) {
    forall k :: 0 <= k < |acts| && acts[k].SwapRules? ==> acts[k] == SwapRules(default, levels)
  }

  /** A resolver that loads before an update and stores after it leaves the old answer. */
  lemma RunToDisagreement(d0: Level, l0: Levels, d1: Level, l1: Levels, f: string) returns (acts: seq<Step>, t: Shared)
    requires LevelFor(d0, l0, f) != LevelFor(d1, l1, f)
    ensures Steps(Fresh(d0, l0), acts, t) && SwapsTo(acts, d1, l1) && t.unclear == 0 && !CacheAgrees(t)
  {
    hide LevelFor;
    var s0 := Fresh(d0, l0);
    var s1 := s0.(inFlight := [Missed(f)]);
    var s2 := s0.(inFlight := [Loaded(f, d0, l0)]);
    var s3 := Shared(d1, l1, map[], [Loaded(f, d0, l0)], 1);
    var s4 := s3.(unclear := 0);
    t := DoStep(s4, StoreLevel(0));
    assert DoStep(s0, Miss(f)) == s1 && DoStep(s1, LoadRules(0)) == s2;
    assert DoStep(s2, SwapRules(d1, l1)) == s3 && DoStep(s3, ClearCache) == s4;
    StepsOn(s0, [], s0, Miss(f));
    StepsOn(s0, [] + [Miss(f)], s1, LoadRules(0));
    StepsOn(s0, [] + [Miss(f)] + [LoadRules(0)], s2, SwapRules(d1, l1));
    StepsOn(s0, [] + [Miss(f)] + [LoadRules(0)] + [SwapRules(d1, l1)], s3, ClearCache);
    acts := [] + [Miss(f)] + [LoadRules(0)] + [SwapRules(d1, l1)] + [ClearCache];
    StepsOn(s0, acts, s4, StoreLevel(0));
    acts := acts + [StoreLevel(0)];
    assert !PendingAgrees(s4, s4.inFlight[0]);
    StaleAnswerStays(s4, 0);
  }

  /** Raising the default level from 0 to 1 while a record of `p.F` is resolved. */
  lemma DisagreementExists() returns (acts: seq<Step>, t: Shared)
    ensures Steps(Fresh(0, map[]), acts, t) && SwapsTo(acts, 1, map[]) && t.unclear == 0 && !CacheAgrees(t)
  {
    NoLevels(0, ExtractPackagePath("p.F"), |ExtractPackagePath("p.F")|);
    NoLevels(1, ExtractPackagePath("p.F"), |ExtractPackagePath("p.F")|);
    acts, t := RunToDisagreement(0, map[], 1, map[], "p.F");
  }

  lemma {:induction false} NoLevels(default: Level, path: string, k: nat)
    requires k <= |path|
    ensures LevelFrom(default, map[], path, k) == default
  {
    if k > 0 {
      NoLevels(default, path, k - 1);
    }
  }

  /** Everything cached or loaded comes from one of two configurations. */
  ghost predicate OneOfTwo(s: Shared, d0: Level, l0: Levels, d1: Level, l1: Levels) {
    && ((s.default == d0 && s.levels == l0) || (s.default == d1 && s.levels == l1))
    && (forall k :: 0 <= k < |s.inFlight| && s.inFlight[k].Loaded? ==>
          (s.inFlight[k].default == d0 && s.inFlight[k].levels == l0)
          || (s.inFlight[k].default == d1 && s.inFlight[k].levels == l1))
    && (forall f :: f in s.cache ==> s.cache[f] == LevelFor(d0, l0, f) || s.cache[f] == LevelFor(d1, l1, f))
  }

  lemma OneOfTwoStep(s: Shared, a: Step, d0: Level, l0: Levels, d1: Level, l1: Levels)
    requires CanStep(s, a) && OneOfTwo(s, d0, l0, d1, l1) && (a.SwapRules? ==> a == SwapRules(d1, l1))
    ensures OneOfTwo(DoStep(s, a), d0, l0, d1, l1)
  {
    hide LevelFor;
    var u := DoStep(s, a);
    if a.StoreLevel? {
      forall k | 0 <= k < |u.inFlight| ensures u.inFlight[k] == if k < a.k then s.inFlight[k] else s.inFlight[k + 1] {
      }
    }
  }

  lemma {:induction false} OneOfTwoKept(s: Shared, acts: seq<Step>, t: Shared, d0: Level, l0: Levels, d1: Level, l1: Levels)
    requires Steps(s, acts, t) && SwapsTo(acts, d1, l1) && OneOfTwo(s, d0, l0, d1, l1)
    ensures OneOfTwo(t, d0, l0, d1, l1)
    decreases |acts|
  {
    hide DoStep, OneOfTwo;
    if acts != [] {
      OneOfTwoStep(s, acts[0], d0, l0, d1, l1);
      OneOfTwoKept(DoStep(s, acts[0]), acts[1..], t, d0, l0, d1, l1);
    }
  }

  /** Updating a fresh filter to another configuration, while records are resolved in any
      interleaving, always ends in agreement exactly when the update changes no level. */
  lemma FreshUpdateAgreesIff(d0: Level, l0: Levels, d1: Level, l1: Levels)
    ensures (forall acts, t :: Steps(Fresh(d0, l0), acts, t) && SwapsTo(acts, d1, l1) ==> AgreesWhenClear(t))
       <==> forall f :: LevelFor(d0, l0, f) == LevelFor(d1, l1, f)
  {
    hide LevelFor;
    if f :| LevelFor(d0, l0, f) != LevelFor(d1, l1, f) {
      var acts, t := RunToDisagreement(d0, l0, d1, l1, f);
    } else {
      forall acts, t | Steps(Fresh(d0, l0), acts, t) && SwapsTo(acts, d1, l1) ensures AgreesWhenClear(t) {
        OneOfTwoKept(Fresh(d0, l0), acts, t, d0, l0, d1, l1);
      }
    }
  }

  // ----- the module of a package -----

  /** determineModule, from the package path on: the longest module path that is a
      prefix of it, with its version; no module if there is none. */
  method LongestModule(packagePath: string, modules: map<string, string>) returns (found: Option<(string, string)>)
    ensures match found
            case Some((path, version)) => path != "" && IsLongest(modules, packagePath, path) && version == modules[path]
            case None => forall q :: q in modules && q <= packagePath ==> q == ""
  {
    var longest, version := "", "";
    var todo := modules.Keys;
    while todo != {}
      invariant todo <= modules.Keys
      invariant longest != "" ==> longest in modules && longest <= packagePath && version == modules[longest]
      invariant forall q :: q in modules && q !in todo && q <= packagePath ==> |q| <= |longest|
      decreases todo
    {
      var path :| path in todo;
      if path <= packagePath && |path| > |longest| {
        longest, version := path, modules[path];
      }
      todo := todo - {path};
    }
    found := if longest != "" then Some((longest, version)) else None;
  }

  /** Whatever order the module map is visited in, the answer is the same. */
  lemma ModuleUnique(packagePath: string, modules: map<string, string>, a: string, b: string)
    requires a != "" && IsLongest(modules, packagePath, a)
    requires b != "" && IsLongest(modules, packagePath, b)
    ensures a == b
  {
    LongestUnique(modules, packagePath, a, b);
  }
}
