/**
 Which tool servers are published when several candidates claim an id: candidates are grouped by their
 folded id, and each group has at most one winner. The order of the candidates must not matter.
 */
module Candidates {
  import opened Json

  datatype Source = Existing | GuiImport | InstalledPlugin | ComputerUse | Schedule

  type Config(==) = string

  /** `normal` and `disabled` are what the candidate normalizes to, with and without forced disabling. */
  datatype Candidate = Candidate(
    serverId: string, source: Source, verifiedPlugin: bool, pluginName: string,
    normal: Option<Config>, disabled: Option<Config>)

  /** Folding and validity of ids, the reserved ids, the projection of a configuration, and the sort of ids. */
  datatype Rules = Rules(
    fold: string -> string, validId: string -> bool, scheduleId: string, computerUseId: string,
    hubPlugin: (string, string) -> bool, project: (Option<Config>, bool) -> Option<Config>, enabled: Config -> bool,
    sorted: set<string> -> seq<string>)

  /** A valid id is lower-case and unpadded; the reserved ids differ; sorting lists every id once. */
  ghost predicate Lawful(rules: Rules) {
    && (forall id: string :: rules.validId(id) ==> rules.fold(id) == id)
    && rules.scheduleId != rules.computerUseId
    && (forall ids: set<string> :: Distinct(rules.sorted(ids)) && forall id :: id in rules.sorted(ids) <==> id in ids)
  }

  ghost predicate Distinct(s: seq<string>) {
    forall i, j :: 0 <= i < j < |s| ==> s[i] != s[j]
  }

  function Filter(cs: seq<Candidate>, p: Candidate -> bool): seq<Candidate> {
    if cs == [] then []
    else Filter(cs[..|cs| - 1], p) + if p(cs[|cs| - 1]) then [cs[|cs| - 1]] else []
  }

  /** The candidates whose ids fold to one key, in their order. */
  function Group(cs: seq<Candidate>, key: string, rules: Rules): seq<Candidate> {
    Filter(cs, (c: Candidate) => rules.fold(c.serverId) == key)
  }

  function Keys(cs: seq<Candidate>, rules: Rules): set<string> {
    set c | c in cs && rules.fold(c.serverId) != "" :: rules.fold(c.serverId)
  }

  /** The winner of a group, if it has one. */
  function Select(group: seq<Candidate>, key: string, rules: Rules): Option<Candidate> {
    var schedule := Filter(group, (c: Candidate) => c.source == Schedule);
    var computerUse := Filter(group, (c: Candidate) => c.source == ComputerUse);
    var verified := Filter(group, (c: Candidate) => c.verifiedPlugin);
    var existing := Filter(group, (c: Candidate) => c.source == Existing);
    var current := Filter(group, (c: Candidate) => c.source != Existing);
    if key == rules.scheduleId then if |schedule| == 1 then Some(schedule[0]) else None
    else if key == rules.computerUseId then if |computerUse| == 1 then Some(computerUse[0]) else None
    else if |group| == 1 then Some(group[0])
    else if |verified| == 1 && rules.hubPlugin(key, verified[0].pluginName)
            && (forall c :: c in group ==> c == verified[0] || c.source != InstalledPlugin) then Some(verified[0])
    else if |group| == 2 && |existing| > 0 && |current| > 0 && current[0].source != InstalledPlugin
            && existing[0].serverId == current[0].serverId && existing[0].normal.Some?
            && existing[0].normal == current[0].normal then Some(current[0])
    else None
  }

  /** The configuration a group publishes, if any. */
  function Publishes(group: seq<Candidate>, key: string, forceDisabled: bool, rules: Rules): Option<Config> {
    var winner := Select(group, key, rules);
    if winner.None? || !rules.validId(winner.value.serverId) then None
    else
      var plugin := winner.value.source == InstalledPlugin;
      var projected := rules.project(
        if forceDisabled then winner.value.disabled else winner.value.normal, forceDisabled);
      if (plugin && forceDisabled) || projected.None? || (plugin && !rules.enabled(projected.value)) then None
      else projected
  }

  function IsPlugin(group: seq<Candidate>, key: string, rules: Rules): bool {
    var winner := Select(group, key, rules);
    winner.Some? && winner.value.source == InstalledPlugin
  }

  function Servers(cs: seq<Candidate>, forceDisabled: bool, rules: Rules): map<string, Config> {
    map key | key in Keys(cs, rules) && Publishes(Group(cs, key, rules), key, forceDisabled, rules).Some? ::
      Publishes(Group(cs, key, rules), key, forceDisabled, rules).value
  }

  function PluginIds(cs: seq<Candidate>, forceDisabled: bool, rules: Rules): set<string> {
    set key | key in Servers(cs, forceDisabled, rules) && IsPlugin(Group(cs, key, rules), key, rules)
  }

  // ---------------------------------------------------------------- order does not matter

  lemma {:induction false} FilterCount(cs: seq<Candidate>, p: Candidate -> bool, c: Candidate)
    ensures multiset(Filter(cs, p))[c] == if p(c) then multiset(cs)[c] else 0
  {
    if cs != [] {
      var init, last := cs[..|cs| - 1], cs[|cs| - 1];
      FilterCount(init, p, c);
      assert cs == init + [last];
      assert multiset(cs) == multiset(init) + multiset([last]);
    }
  }

  lemma FilterPermuted(a: seq<Candidate>, b: seq<Candidate>, p: Candidate -> bool)
    requires multiset(a) == multiset(b)
    ensures multiset(Filter(a, p)) == multiset(Filter(b, p))
    ensures |Filter(a, p)| == |Filter(b, p)|
  {
    forall c ensures multiset(Filter(a, p))[c] == multiset(Filter(b, p))[c] {
      FilterCount(a, p, c);
      FilterCount(b, p, c);
    }
    assert |multiset(Filter(a, p))| == |Filter(a, p)| && |multiset(Filter(b, p))| == |Filter(b, p)|;
  }

  lemma SingletonPermuted(a: seq<Candidate>, b: seq<Candidate>)
    requires multiset(a) == multiset(b) && |a| == 1
    ensures a == b
  {
    assert |multiset(a)| == |a| && |multiset(b)| == |b|;
    assert b[0] in multiset(b);
  }

  lemma SameMembers(a: seq<Candidate>, b: seq<Candidate>)
    requires multiset(a) == multiset(b)
    ensures |a| == |b| && forall c :: c in a <==> c in b
  {
    assert |multiset(a)| == |a| && |multiset(b)| == |b|;
    forall c ensures c in a <==> c in b {
      assert c in a <==> c in multiset(a);
      assert c in b <==> c in multiset(b);
    }
  }

  lemma {:induction false} FilterSplit(cs: seq<Candidate>)
    ensures |Filter(cs, (c: Candidate) => c.source == Existing)|
            + |Filter(cs, (c: Candidate) => c.source != Existing)| == |cs|
  {
    if cs != [] {
      FilterSplit(cs[..|cs| - 1]);
    }
  }

  /** Filtering for one thing gives the same single candidate in any order. */
  lemma OneOf(a: seq<Candidate>, b: seq<Candidate>, p: Candidate -> bool)
    requires multiset(a) == multiset(b)
    ensures |Filter(a, p)| == |Filter(b, p)|
    ensures |Filter(a, p)| == 1 ==> Filter(a, p) == Filter(b, p)
  {
    FilterPermuted(a, b, p);
    if |Filter(a, p)| == 1 {
      SingletonPermuted(Filter(a, p), Filter(b, p));
    }
  }

  /** The winner does not depend on the order of the group. */
  lemma SelectPermuted(a: seq<Candidate>, b: seq<Candidate>, key: string, rules: Rules)
    requires multiset(a) == multiset(b)
    ensures Select(a, key, rules) == Select(b, key, rules)
  {
    SameMembers(a, b);
    OneOf(a, b, (c: Candidate) => c.source == Schedule);
    OneOf(a, b, (c: Candidate) => c.source == ComputerUse);
    OneOf(a, b, (c: Candidate) => c.verifiedPlugin);
    OneOf(a, b, (c: Candidate) => c.source == Existing);
    OneOf(a, b, (c: Candidate) => c.source != Existing);
    FilterSplit(a);
    FilterSplit(b);
    if |a| == 1 {
      SingletonPermuted(a, b);
    }
  }

  /** Permuting the candidates changes neither the published servers nor the plugin ids. */
  lemma OrderDoesNotMatter(a: seq<Candidate>, b: seq<Candidate>, forceDisabled: bool, rules: Rules)
    requires multiset(a) == multiset(b)
    ensures Servers(a, forceDisabled, rules) == Servers(b, forceDisabled, rules)
    ensures PluginIds(a, forceDisabled, rules) == PluginIds(b, forceDisabled, rules)
  {
    SameMembers(a, b);
    assert Keys(a, rules) == Keys(b, rules);
    forall key ensures Select(Group(a, key, rules), key, rules) == Select(Group(b, key, rules), key, rules) {
      FilterPermuted(a, b, (c: Candidate) => rules.fold(c.serverId) == key);
      SelectPermuted(Group(a, key, rules), Group(b, key, rules), key, rules);
    }
  }

  lemma {:induction false} FilterMembers(cs: seq<Candidate>, p: Candidate -> bool)
    ensures forall c :: c in Filter(cs, p) <==> c in cs && p(c)
  {
    if cs != [] {
      FilterMembers(cs[..|cs| - 1], p);
      assert forall c :: c in cs <==> c in cs[..|cs| - 1] || c == cs[|cs| - 1];
    }
  }

  /** A winner is one of its group; a reserved id is won by its own source alone. */
  lemma WinnerBelongs(group: seq<Candidate>, key: string, rules: Rules)
    requires Lawful(rules) && Select(group, key, rules).Some?
    ensures Select(group, key, rules).value in group
    ensures key == rules.scheduleId ==> Select(group, key, rules).value.source == Schedule
    ensures key == rules.computerUseId ==> Select(group, key, rules).value.source == ComputerUse
  {
    FilterMembers(group, (c: Candidate) => c.source == Schedule);
    FilterMembers(group, (c: Candidate) => c.source == ComputerUse);
    FilterMembers(group, (c: Candidate) => c.verifiedPlugin);
    FilterMembers(group, (c: Candidate) => c.source != Existing);
  }

  /** A published id is the winner's own, valid and folded already, so no two published ids fold to one. */
  lemma PublishedUnderOwnId(cs: seq<Candidate>, forceDisabled: bool, rules: Rules, key: string)
    requires Lawful(rules) && key in Servers(cs, forceDisabled, rules)
    ensures var winner := Select(Group(cs, key, rules), key, rules);
            && winner.Some? && winner.value in cs && winner.value.serverId == key && rules.fold(key) == key
            && (key == rules.scheduleId ==> winner.value.source == Schedule)
            && (key == rules.computerUseId ==> winner.value.source == ComputerUse)
  {
    WinnerBelongs(Group(cs, key, rules), key, rules);
    FilterMembers(cs, (c: Candidate) => rules.fold(c.serverId) == key);
  }

  // ---------------------------------------------------------------- the loops

  ghost predicate Grouped(groups: map<string, seq<Candidate>>, cs: seq<Candidate>, rules: Rules) {
    groups.Keys == Keys(cs, rules) && forall key :: key in groups ==> groups[key] == Group(cs, key, rules)
  }

  lemma EmptyGroup(cs: seq<Candidate>, key: string, rules: Rules)
    requires key !in Keys(cs, rules) && key != ""
    ensures Group(cs, key, rules) == []
  {
    FilterMembers(cs, (c: Candidate) => rules.fold(c.serverId) == key);
    FirstIsMember(Group(cs, key, rules));
  }

  lemma FirstIsMember(cs: seq<Candidate>)
    ensures cs == [] || exists c :: c in cs
  {
    if cs != [] {
      assert cs[0] in cs;
    }
  }

  lemma KeysSnoc(cs: seq<Candidate>, c: Candidate, rules: Rules)
    ensures Keys(cs + [c], rules) ==
            Keys(cs, rules) + if rules.fold(c.serverId) == "" then {} else {rules.fold(c.serverId)}
  {
    assert forall d :: d in cs + [c] <==> d in cs || d == c;
  }

  lemma GroupSnoc(cs: seq<Candidate>, c: Candidate, key: string, rules: Rules)
    ensures Group(cs + [c], key, rules) == Group(cs, key, rules) + if rules.fold(c.serverId) == key then [c] else []
  {
    assert (cs + [c])[..|cs + [c]| - 1] == cs;
  }

  lemma GroupedStep(groups: map<string, seq<Candidate>>, cs: seq<Candidate>, c: Candidate, rules: Rules)
    requires Grouped(groups, cs, rules)
    ensures var key := rules.fold(c.serverId);
            Grouped(if key == "" then groups else groups[key := (if key in groups then groups[key] else []) + [c]],
                    cs + [c], rules)
  {
    var key := rules.fold(c.serverId);
    var after := if key == "" then groups else groups[key := (if key in groups then groups[key] else []) + [c]];
    KeysSnoc(cs, c, rules);
    forall k | k in after ensures after[k] == Group(cs + [c], k, rules) {
      GroupSnoc(cs, c, k, rules);
      if k !in groups {
        EmptyGroup(cs, k, rules);
      }
    }
  }

  method GroupAll(cs: seq<Candidate>, rules: Rules) returns (groups: map<string, seq<Candidate>>)
    ensures Grouped(groups, cs, rules)
  {
    groups := map[];
    for i := 0 to |cs|
      invariant Grouped(groups, cs[..i], rules)
    {
      var key := rules.fold(cs[i].serverId);
      GroupedStep(groups, cs[..i], cs[i], rules);
      assert cs[..i + 1] == cs[..i] + [cs[i]];
      if key != "" {
        var group := if key in groups then groups[key] else [];
        groups := groups[key := group + [cs[i]]];
      }
    }
    assert cs[..|cs|] == cs;
  }

  /** The part of a map, and of a set, at the keys done so far. */
  function Restrict(m: map<string, Config>, done: seq<string>): map<string, Config> {
    map k | k in m && k in done :: m[k]
  }

  function Among(ids: set<string>, done: seq<string>): set<string> {
    set k | k in ids && k in done
  }

  lemma RestrictStep(m: map<string, Config>, ids: set<string>, done: seq<string>, key: string)
    ensures Restrict(m, done + [key]) == if key in m then Restrict(m, done)[key := m[key]] else Restrict(m, done)
    ensures Among(ids, done + [key]) == Among(ids, done) + if key in ids then {key} else {}
  {
    assert forall k :: k in done + [key] <==> k in done || k == key;
  }

  lemma RestrictAll(m: map<string, Config>, ids: set<string>, done: seq<string>)
    requires forall k :: k in m ==> k in done
    requires ids <= m.Keys
    ensures Restrict(m, done) == m && Among(ids, done) == ids
  {}

  /** What one group contributes. */
  lemma KeyContributes(cs: seq<Candidate>, key: string, forceDisabled: bool, rules: Rules)
    requires Lawful(rules) && key in Keys(cs, rules)
    ensures var group := Group(cs, key, rules);
            var published := Publishes(group, key, forceDisabled, rules);
            && (key in Servers(cs, forceDisabled, rules) <==> published.Some?)
            && (published.Some? ==>
                  && Servers(cs, forceDisabled, rules)[key] == published.value
                  && Select(group, key, rules).Some? && Select(group, key, rules).value.serverId == key
                  && (key in PluginIds(cs, forceDisabled, rules)
                      <==> Select(group, key, rules).value.source == InstalledPlugin))
            && (published.None? ==> key !in PluginIds(cs, forceDisabled, rules))
  {
    if key in Servers(cs, forceDisabled, rules) {
      PublishedUnderOwnId(cs, forceDisabled, rules, key);
    }
  }

  method Resolve(cs: seq<Candidate>, forceDisabled: bool, rules: Rules)
    returns (servers: map<string, Config>, pluginServerIds: seq<string>)
    requires Lawful(rules)
    ensures servers == Servers(cs, forceDisabled, rules)
    ensures pluginServerIds == rules.sorted(PluginIds(cs, forceDisabled, rules))
  {
    var groups := GroupAll(cs, rules);
    var keys := rules.sorted(groups.Keys);
    var ids: set<string>;
    servers, ids := Publish(cs, groups, keys, forceDisabled, rules);
    pluginServerIds := rules.sorted(ids);
  }

  method Publish(ghost cs: seq<Candidate>, groups: map<string, seq<Candidate>>, keys: seq<string>, forceDisabled: bool,
    rules: Rules) returns (servers: map<string, Config>, ids: set<string>)
    requires Lawful(rules) && Grouped(groups, cs, rules) && forall key :: key in keys <==> key in groups.Keys
    ensures servers == Servers(cs, forceDisabled, rules) && ids == PluginIds(cs, forceDisabled, rules)
  {
    ghost var all, plugins := Servers(cs, forceDisabled, rules), PluginIds(cs, forceDisabled, rules);
    servers, ids := map[], {};
    for n := 0 to |keys|
      invariant servers == Restrict(all, keys[..n]) && ids == Among(plugins, keys[..n])
    {
      var key := keys[n];
      assert keys[..n + 1] == keys[..n] + [key] && key in keys;
      RestrictStep(all, plugins, keys[..n], key);
      KeyContributes(cs, key, forceDisabled, rules);
      var published := Publishes(groups[key], key, forceDisabled, rules);
      if published.Some? {
        var winner := Select(groups[key], key, rules).value;
        servers := servers[winner.serverId := published.value];
        if winner.source == InstalledPlugin {
          ids := ids + {winner.serverId};
        }
      }
    }
    assert keys[..|keys|] == keys;
    RestrictAll(all, plugins, keys);
  }
}
