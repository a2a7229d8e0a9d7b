/** Collecting normalised items under distinct keys, the shape shared by the loops over
    rule sets, rules and inspection rules. */
module KeyedCollection {
  import opened Text

  /** The items normalised in order; the first refusal or repeated key fails it. */
  function Collect<T, U, E>(f: T -> Result<U, E>, key: U -> string, repeated: E, items: seq<T>): Result<seq<U>, E> {
    if items == [] then Ok([])
    else
      var prior := Collect(f, key, repeated, items[..|items| - 1]);
      var next := f(items[|items| - 1]);
      if prior.Err? then prior
      else if next.Err? then Err(next.error)
      else if HasKey(key, prior.value, key(next.value)) then Err(repeated)
      else Ok(prior.value + [next.value])
  }

  predicate HasKey<U>(key: U -> string, us: seq<U>, k: string) {
    exists i :: 0 <= i < |us| && key(us[i]) == k
  }

  predicate AllOk<T, U, E>(f: T -> Result<U, E>, items: seq<T>) {
    forall i :: 0 <= i < |items| ==> f(items[i]).Ok?
  }

  function Values<T, U, E>(f: T -> Result<U, E>, items: seq<T>): (us: seq<U>)
    requires AllOk(f, items)
    ensures |us| == |items|
    ensures forall i :: 0 <= i < |items| ==> us[i] == f(items[i]).value
  {
    seq(|items|, i requires 0 <= i < |items| => f(items[i]).value)
  }

  lemma DistinctNext<U>(key: U -> string, us: seq<U>, u: U)
    ensures DistinctKeys(key, us + [u]) <==> DistinctKeys(key, us) && !HasKey(key, us, key(u))
  {
    var next := us + [u];
    if DistinctKeys(key, next) {
      forall i, j | 0 <= i < j < |us| ensures key(us[i]) != key(us[j]) {
        assert key(next[i]) != key(next[j]);
      }
      forall i | 0 <= i < |us| ensures key(us[i]) != key(u) {
        assert key(next[i]) != key(next[|us|]);
      }
    }
    if DistinctKeys(key, us) && !HasKey(key, us, key(u)) {
      forall i, j | 0 <= i < j < |next| ensures key(next[i]) != key(next[j]) {
        assert next[i] == us[i] && (j < |us| ==> next[j] == us[j]);
      }
    }
  }

  lemma ValuesNext<T, U, E>(f: T -> Result<U, E>, items: seq<T>, item: T)
    ensures AllOk(f, items + [item]) <==> AllOk(f, items) && f(item).Ok?
    ensures AllOk(f, items + [item]) ==> Values(f, items + [item]) == Values(f, items) + [f(item).value]
  {
    var next := items + [item];
    if AllOk(f, items) && f(item).Ok? {
      assert forall i :: 0 <= i < |items| ==> next[i] == items[i];
    }
    if AllOk(f, next) {
      forall i | 0 <= i < |items| ensures f(items[i]).Ok? {
        assert next[i] == items[i];
      }
      assert f(next[|items|]).Ok?;
    }
  }

  /** Collecting succeeds exactly when every item does and no key repeats. */
  lemma {:induction false} CollectExactly<T, U, E>(f: T -> Result<U, E>, key: U -> string, repeated: E, items: seq<T>)
    ensures Collect(f, key, repeated, items).Ok? <==> AllOk(f, items) && DistinctKeys(key, Values(f, items))
    ensures Collect(f, key, repeated, items).Ok? ==> Collect(f, key, repeated, items).value == Values(f, items)
  {
    hide AllOk, Values, HasKey, DistinctKeys;
    if items == [] {
      NoValues(f, key);
    } else {
      var n := |items| - 1;
      var init, item := items[..n], items[n];
      assert items == init + [item];
      CollectExactly(f, key, repeated, init);
      ValuesNext(f, init, item);
      if AllOk(f, items) {
        DistinctNext(key, Values(f, init), f(item).value);
      }
    }
  }

  lemma NoValues<T, U, E>(f: T -> Result<U, E>, key: U -> string)
    ensures AllOk(f, []) && Values(f, []) == [] && DistinctKeys(key, Values(f, []))
  {
  }

  /** s without its element k. */
  function Without<T>(s: seq<T>, k: nat): (r: seq<T>)
    requires k < |s|
    ensures multiset(s) == multiset(r) + multiset([s[k]])
    ensures |r| == |s| - 1 && forall i :: 0 <= i < |r| ==> r[i] == if i < k then s[i] else s[i + 1]
  {
    assert s == s[..k] + [s[k]] + s[k + 1..];
    s[..k] + s[k + 1..]
  }

  lemma ValuesWithout<T, U, E>(f: T -> Result<U, E>, s: seq<T>, k: nat)
    requires AllOk(f, s) && k < |s|
    ensures AllOk(f, Without(s, k)) && Values(f, Without(s, k)) == Without(Values(f, s), k)
    ensures Values(f, s)[k] == f(s[k]).value
  {
  }

  lemma WithoutSame<T>(a: seq<T>, b: seq<T>, i: nat, j: nat)
    requires i < |a| && j < |b| && a[i] == b[j]
    ensures multiset(Without(a, i)) == multiset(Without(b, j)) <==> multiset(a) == multiset(b)
  {
    assert multiset(Without(a, i)) == multiset(a) - multiset([a[i]]);
    assert multiset(Without(b, j)) == multiset(b) - multiset([b[j]]);
  }

  lemma {:induction false} ValuesPermute<T, U, E>(f: T -> Result<U, E>, a: seq<T>, b: seq<T>)
    requires multiset(a) == multiset(b) && AllOk(f, a) && AllOk(f, b)
    ensures multiset(Values(f, a)) == multiset(Values(f, b))
    decreases |a|
  {
    hide AllOk, Values, Without;
    if a == [] {
      assert |b| == |multiset(b)| == |multiset(a)| == 0;
    } else {
      assert a[0] in multiset(b);
      var k :| 0 <= k < |b| && b[k] == a[0];
      WithoutSame(a, b, 0, k);
      ValuesWithout(f, a, 0);
      ValuesWithout(f, b, k);
      ValuesPermute(f, Without(a, 0), Without(b, k));
      WithoutSame(Values(f, a), Values(f, b), 0, k);
    }
  }

  /** Results that cannot be told apart but for the error. */
  ghost predicate Agree<U, E>(x: Result<U, E>, y: Result<U, E>) {
    if x.Ok? then y.Ok? && x.value == y.value else y.Err?
  }

  /** Both fail, or both succeed with the same sorted collection. */
  ghost predicate AgreeSorted<U, E>(key: U -> string, x: Result<seq<U>, E>, y: Result<seq<U>, E>) {
    if x.Ok? then y.Ok? && SortBy(key, x.value) == SortBy(key, y.value) else y.Err?
  }

  /** Sorted by its keys a collection does not depend on the order of the items. */
  lemma CollectPermutes<T, U, E>(f: T -> Result<U, E>, key: U -> string, repeated: E, a: seq<T>, b: seq<T>)
    requires multiset(a) == multiset(b)
    ensures AgreeSorted(key, Collect(f, key, repeated, a), Collect(f, key, repeated, b))
  {
    CollectExactly(f, key, repeated, a);
    CollectExactly(f, key, repeated, b);
    SameMultisetSameMembers(a, b);
    AllOkMembers(f, a, b);
    AllOkMembers(f, b, a);
    if AllOk(f, a) {
      ValuesPermute(f, a, b);
      var va, vb := Values(f, a), Values(f, b);
      if DistinctKeys(key, va) {
        DistinctKeysPermute(key, va, vb);
        SortByForgetsOrder(key, va, vb);
      }
      if DistinctKeys(key, vb) {
        DistinctKeysPermute(key, vb, va);
      }
    }
  }

  lemma AllOkMembers<T, U, E>(f: T -> Result<U, E>, a: seq<T>, b: seq<T>)
    requires forall x :: x in b ==> x in a
    ensures AllOk(f, a) ==> AllOk(f, b)
  {
    if AllOk(f, a) {
      forall i | 0 <= i < |b| ensures f(b[i]).Ok? {
        assert b[i] in a;
      }
    }
  }

  /** A collection that failed on a prefix fails on the whole with the same error. */
  lemma {:induction false} CollectKeepsError<T, U, E>(f: T -> Result<U, E>, key: U -> string, repeated: E, items: seq<T>, n: nat)
    requires n <= |items| && Collect(f, key, repeated, items[..n]).Err?
    ensures Collect(f, key, repeated, items) == Collect(f, key, repeated, items[..n])
  {
    if n == |items| {
      assert items[..n] == items;
    } else {
      var m := |items| - 1;
      assert items[..m][..n] == items[..n];
      CollectKeepsError(f, key, repeated, items[..m], n);
    }
  }

  /** Collecting fails at the first item that is refused or repeats a key. */
  lemma {:induction false} CollectFails<T, U, E>(f: T -> Result<U, E>, key: U -> string, repeated: E, items: seq<T>) returns (n: nat)
    requires Collect(f, key, repeated, items).Err?
    ensures n < |items| && Collect(f, key, repeated, items[..n]).Ok?
    ensures var next := f(items[n]);
            if next.Err? then Collect(f, key, repeated, items).error == next.error
            else HasKey(key, Collect(f, key, repeated, items[..n]).value, key(next.value)) && Collect(f, key, repeated, items).error == repeated
  {
    hide HasKey;
    var m := |items| - 1;
    if Collect(f, key, repeated, items[..m]).Err? {
      n := CollectFails(f, key, repeated, items[..m]);
      assert items[..m][..n] == items[..n];
    } else {
      n := m;
    }
  }

  /** The keys collected so far, as the loops record them. */
  ghost predicate SeenKeys<U>(key: U -> string, seen: set<string>, us: seq<U>) {
    forall k :: k in seen <==> HasKey(key, us, k)
  }

  lemma SeesNext<U>(key: U -> string, seen: set<string>, us: seq<U>, u: U)
    requires SeenKeys(key, seen, us)
    ensures SeenKeys(key, seen + {key(u)}, us + [u])
  {
    var next := us + [u];
    forall k ensures k in seen + {key(u)} <==> HasKey(key, next, k) {
      if HasKey(key, us, k) {
        var i :| 0 <= i < |us| && key(us[i]) == k;
        assert key(next[i]) == k;
      }
      assert key(next[|us|]) == key(u);
    }
  }

  lemma NothingCollected<T, U, E>(f: T -> Result<U, E>, key: U -> string, repeated: E, items: seq<T>)
    ensures Collect(f, key, repeated, items[..0]) == Ok([]) && SeenKeys(key, {}, [])
  {
  }

  /** One turn of a collecting loop: stop with the error of the whole, or take one item more. */
  lemma CollectTurn<T, U, E>(f: T -> Result<U, E>, key: U -> string, repeated: E, items: seq<T>, n: nat,
                             seen: set<string>, us: seq<U>)
    requires n < |items| && Collect(f, key, repeated, items[..n]) == Ok(us) && SeenKeys(key, seen, us)
    ensures var next := f(items[n]);
            if next.Err? then Collect(f, key, repeated, items) == Err(next.error)
            else if key(next.value) in seen then Collect(f, key, repeated, items) == Err(repeated)
            else Collect(f, key, repeated, items[..n + 1]) == Ok(us + [next.value])
                 && SeenKeys(key, seen + {key(next.value)}, us + [next.value])
  {
    assert items[..n + 1][..n] == items[..n];
    var next := f(items[n]);
    if Collect(f, key, repeated, items[..n + 1]).Err? {
      CollectKeepsError(f, key, repeated, items, n + 1);
    } else {
      SeesNext(key, seen, us, next.value);
    }
  }

  /** Items that normalise alike collect alike. */
  lemma {:induction false} CollectCongruent<T, U, E>(f: T -> Result<U, E>, key: U -> string, repeated: E, a: seq<T>, b: seq<T>)
    requires |a| == |b| && forall i :: 0 <= i < |a| ==> Agree(f(a[i]), f(b[i]))
    ensures Agree(Collect(f, key, repeated, a), Collect(f, key, repeated, b))
  {
    if a != [] {
      var n := |a| - 1;
      CollectCongruent(f, key, repeated, a[..n], b[..n]);
      assert Agree(f(a[n]), f(b[n]));
    }
  }
}

/** External rule sets and their normal form (external_rule_sets_normalize.go, string_lists.go). */
module ExternalRuleSets {
  import opened Text
  import opened KeyedCollection

  datatype RouteMatch = RouteMatch(pathPrefixes: seq<string>, methods: seq<string>)

  datatype HeaderValue = HeaderValue(name: string, value: string)

  datatype HeaderPolicy = HeaderPolicy(add: seq<HeaderValue>, set_: seq<HeaderValue>, remove: seq<string>)

  datatype Rule = Rule(ruleId: string, destinationId: string, displayName: string, hostExact: string, hostWildcard: string,
                       port: int, protocol: string, resolution: string, accounts: seq<string>, proxyEndpointId: string)

  datatype Inspection = Inspection(inspectionRuleId: string, displayName: string, destinationId: string,
                                   matches: seq<RouteMatch>, requestHeaders: HeaderPolicy, responseHeaders: HeaderPolicy,
                                   authPolicyId: string, dynamicHeaderAuthz: bool)

  datatype RuleSet = RuleSet(ruleSetId: string, displayName: string, ownerService: string, policyId: string,
                             startupSync: Option<bool>, accounts: seq<string>, rules: seq<Rule>, inspections: seq<Inspection>)

  datatype Refusal = MissingField | Repeated | NotOneHost | PortOutOfRange | UnknownDestination

  // ----- string lists

  function StringList(values: seq<string>): seq<string> { SortBy(SELF, Deduped(values)) }

  method NormalizeStringList(values: seq<string>) returns (out: seq<string>)
    ensures out == StringList(values)
  {
    hide Trim, SortBy;
    var seen: set<string> := {};
    out := [];
    for i := 0 to |values|
      invariant out == Deduped(values[..i])
      invariant forall x :: x in seen <==> x in out
    {
      assert values[..i + 1][..i] == values[..i];
      var v := Trim(values[i]);
      if v != "" && v !in seen {
        seen := seen + {v};
        out := out + [v];
      }
    }
    assert values[..|values|] == values;
    out := SortBy(SELF, out);
  }

  /** A string list is strictly increasing and depends only on which values occur. */
  lemma StringListCanonical(a: seq<string>, b: seq<string>)
    requires forall v :: v in a <==> v in b
    ensures StringList(a) == StringList(b) && StrictlySortedBy(SELF, StringList(a))
    ensures forall x :: x in StringList(a) <==> x != "" && exists v :: v in a && Trim(v) == x
  {
    hide Trim, SortBy, Deduped;
    var da, db := Deduped(a), Deduped(b);
    forall x ensures (x in da <==> x in db) && (x in da <==> x != "" && exists v :: v in a && Trim(v) == x) {
      DedupedMembers(a, x);
      DedupedMembers(b, x);
      if i :| 0 <= i < |a| && Trim(a[i]) == x {
        assert a[i] in a && a[i] in b;
      }
      if v :| v in a && Trim(v) == x {
        assert v in b;
      }
    }
    assert DistinctKeys(SELF, da) && DistinctKeys(SELF, db);
    SortByForgetsOrder(SELF, da, da);
    SortByForgetsOrder(SELF, db, db);
    SameMultisetSameMembers(SortBy(SELF, da), da);
    SameMultisetSameMembers(SortBy(SELF, db), db);
    StrictlySortedUnique(SELF, SortBy(SELF, da), SortBy(SELF, db));
  }

  // ----- single rules

  function Host(raw: string): string {
    var h := Trim(raw);
    Lower(if h != "" && h[|h| - 1] == '.' then h[..|h| - 1] else h)
  }

  function OrElse(value: string, fallback: string): string {
    if Trim(value) == "" then fallback else Trim(value)
  }

  function NormalizeRule(setId: string, rule: Rule): Result<Rule, Refusal> {
    var id := Trim(rule.ruleId);
    var exact, wildcard := Host(rule.hostExact), Host(rule.hostWildcard);
    var port := if rule.port == 0 then 443 else rule.port;
    if id == "" then Err(MissingField)
    else if (exact == "") == (wildcard == "") then Err(NotOneHost)
    else if port < 1 || port > 65535 then Err(PortOutOfRange)
    else Ok(Rule(id, OrElse(rule.destinationId, setId + "." + id), OrElse(rule.displayName, id), exact, wildcard, port,
                 Trim(rule.protocol), Trim(rule.resolution), StringList(rule.accounts), Trim(rule.proxyEndpointId)))
  }

  function NormalizeMatches(matches: seq<RouteMatch>): seq<RouteMatch> {
    seq(|matches|, i requires 0 <= i < |matches| => RouteMatch(StringList(matches[i].pathPrefixes), StringList(matches[i].methods)))
  }

  function NormalizeHeaders(values: seq<HeaderValue>): seq<HeaderValue> {
    if values == [] then []
    else
      var last := values[|values| - 1];
      NormalizeHeaders(values[..|values| - 1]) + if Trim(last.name) == "" then [] else [HeaderValue(Trim(last.name), last.value)]
  }

  function NormalizePolicy(p: HeaderPolicy): HeaderPolicy {
    HeaderPolicy(NormalizeHeaders(p.add), NormalizeHeaders(p.set_), StringList(p.remove))
  }

  function NormalizeInspection(known: set<string>, rule: Inspection): Result<Inspection, Refusal> {
    var id, destination := Trim(rule.inspectionRuleId), Trim(rule.destinationId);
    if id == "" || destination == "" then Err(MissingField)
    else if destination !in known then Err(UnknownDestination)
    else Ok(Inspection(id, OrElse(rule.displayName, id), destination, NormalizeMatches(rule.matches),
                       NormalizePolicy(rule.requestHeaders), NormalizePolicy(rule.responseHeaders),
                       Trim(rule.authPolicyId), rule.dynamicHeaderAuthz))
  }

  // ----- whole sets

  const RULE_ID: Rule -> string := (r: Rule) => r.ruleId
  const INSPECTION_ID: Inspection -> string := (r: Inspection) => r.inspectionRuleId
  const SET_ID: RuleSet -> string := (s: RuleSet) => s.ruleSetId

  function RuleNormalizer(setId: string): Rule -> Result<Rule, Refusal> {
    (rule: Rule) => NormalizeRule(setId, rule)
  }

  function InspectionNormalizer(known: set<string>): Inspection -> Result<Inspection, Refusal> {
    (rule: Inspection) => NormalizeInspection(known, rule)
  }

  function Destinations(rules: seq<Rule>): set<string> {
    set r | r in rules :: r.destinationId
  }

  function CollectRules(setId: string, rules: seq<Rule>): Result<seq<Rule>, Refusal> {
    Collect(RuleNormalizer(setId), RULE_ID, Repeated, rules)
  }

  function CollectInspections(known: set<string>, rules: seq<Inspection>): Result<seq<Inspection>, Refusal> {
    Collect(InspectionNormalizer(known), INSPECTION_ID, Repeated, rules)
  }

  /** The set's own fields, before its rules are looked at. */
  function Header(s: RuleSet): RuleSet {
    var id := Trim(s.ruleSetId);
    RuleSet(id, OrElse(s.displayName, id), Trim(s.ownerService), Trim(s.policyId), Some(s.startupSync.GetOr(true)),
            StringList(s.accounts), [], [])
  }

  function NormalizeSet(s: RuleSet): Result<RuleSet, Refusal> {
    var h := Header(s);
    if h.ruleSetId == "" || h.ownerService == "" || h.accounts == [] || s.rules == [] then Err(MissingField)
    else
      var rules := CollectRules(h.ruleSetId, s.rules);
      if rules.Err? then Err(rules.error)
      else
        var sorted := SortBy(RULE_ID, rules.value);
        var inspections := CollectInspections(Destinations(sorted), s.inspections);
        if inspections.Err? then Err(inspections.error)
        else Ok(h.(rules := sorted, inspections := SortBy(INSPECTION_ID, inspections.value)))
  }

  const SET_NORMALIZER: RuleSet -> Result<RuleSet, Refusal> := (s: RuleSet) => NormalizeSet(s)

  /** The sets normalised in order. A repeated id is refused before the set's other fields. */
  function CollectSets(sets: seq<RuleSet>): Result<seq<RuleSet>, Refusal> {
    if sets == [] then Ok([])
    else
      var prior, s := CollectSets(sets[..|sets| - 1]), sets[|sets| - 1];
      if prior.Err? then prior
      else if Blank(s.ruleSetId) then Err(MissingField)
      else if HasKey(SET_ID, prior.value, Trim(s.ruleSetId)) then Err(Repeated)
      else
        var next := NormalizeSet(s);
        if next.Err? then Err(next.error) else Ok(prior.value + [next.value])
  }

  lemma NormalizedSetId(s: RuleSet)
    ensures NormalizeSet(s).Ok? ==> NormalizeSet(s).value.ruleSetId == Trim(s.ruleSetId) != ""
  {
    hide Trim, OrElse, StringList, CollectRules, CollectInspections, SortBy;
  }

  /** But for which refusal comes first, that is collecting under distinct keys. */
  lemma {:induction false} CollectSetsCollects(sets: seq<RuleSet>)
    ensures Agree(CollectSets(sets), Collect(SET_NORMALIZER, SET_ID, Repeated, sets))
  {
    hide Trim, NormalizeSet, HasKey;
    if sets != [] {
      CollectSetsCollects(sets[..|sets| - 1]);
      NormalizedSetId(sets[|sets| - 1]);
    }
  }

  function NormalizeFile(sets: seq<RuleSet>): Result<seq<RuleSet>, Refusal> {
    var collected := CollectSets(sets);
    if collected.Err? then collected else Ok(SortBy(SET_ID, collected.value))
  }

  // ----- canonical: the order of the input does not matter

  /** The same rule with its accounts listed in another order. */
  ghost predicate RuleLike(a: Rule, b: Rule) {
    a.(accounts := b.accounts) == b && multiset(a.accounts) == multiset(b.accounts)
  }

  /** b's rules are a's in another order, each up to the order of its accounts. */
  ghost predicate RulesLike(a: seq<Rule>, b: seq<Rule>) {
    exists mid: seq<Rule> :: |mid| == |a| && multiset(mid) == multiset(b) && forall i :: 0 <= i < |a| ==> RuleLike(a[i], mid[i])
  }

  ghost predicate SetLike(a: RuleSet, b: RuleSet) {
    && a.(accounts := b.accounts, rules := b.rules, inspections := b.inspections) == b
    && multiset(a.accounts) == multiset(b.accounts) && RulesLike(a.rules, b.rules)
    && multiset(a.inspections) == multiset(b.inspections)
  }

  ghost predicate FileLike(a: seq<RuleSet>, b: seq<RuleSet>) {
    exists mid: seq<RuleSet> :: |mid| == |a| && multiset(mid) == multiset(b) && forall i :: 0 <= i < |a| ==> SetLike(a[i], mid[i])
  }

  lemma StringListPermutes(a: seq<string>, b: seq<string>)
    requires multiset(a) == multiset(b)
    ensures StringList(a) == StringList(b)
  {
    hide StringList;
    SameMultisetSameMembers(a, b);
    StringListCanonical(a, b);
  }

  lemma RuleLikeNormalizes(setId: string, a: Rule, b: Rule)
    requires RuleLike(a, b)
    ensures NormalizeRule(setId, a) == NormalizeRule(setId, b)
  {
    hide StringList, Trim, Host, OrElse;
    StringListPermutes(a.accounts, b.accounts);
  }

  lemma RulesLikeCollect(setId: string, a: seq<Rule>, b: seq<Rule>)
    requires RulesLike(a, b)
    ensures AgreeSorted(RULE_ID, CollectRules(setId, a), CollectRules(setId, b))
    ensures a == [] <==> b == []
  {
    hide NormalizeRule, SortBy, Collect;
    var mid: seq<Rule> :| |mid| == |a| && multiset(mid) == multiset(b) && forall i :: 0 <= i < |a| ==> RuleLike(a[i], mid[i]);
    var f := RuleNormalizer(setId);
    forall i | 0 <= i < |a| ensures Agree(f(a[i]), f(mid[i])) {
      RuleLikeNormalizes(setId, a[i], mid[i]);
    }
    CollectCongruent(f, RULE_ID, Repeated, a, mid);
    CollectPermutes(f, RULE_ID, Repeated, mid, b);
    assert |mid| == |multiset(mid)| == |multiset(b)| == |b|;
  }

  lemma SetLikeNormalizes(a: RuleSet, b: RuleSet)
    requires SetLike(a, b)
    ensures Agree(NormalizeSet(a), NormalizeSet(b))
  {
    hide SortBy, Collect, StringList, Trim, OrElse, RulesLike, RuleNormalizer, InspectionNormalizer;
    StringListPermutes(a.accounts, b.accounts);
    var h := Header(a);
    assert Header(b) == h;
    RulesLikeCollect(h.ruleSetId, a.rules, b.rules);
    var ra := CollectRules(h.ruleSetId, a.rules);
    if ra.Ok? {
      var known := Destinations(SortBy(RULE_ID, ra.value));
      CollectPermutes(InspectionNormalizer(known), INSPECTION_ID, Repeated, a.inspections, b.inspections);
    }
  }

  /** Permuting sets, rules, inspection rules or account lists changes neither whether
      normalisation succeeds nor what it returns. */
  lemma NormalizationIgnoresOrder(a: seq<RuleSet>, b: seq<RuleSet>)
    requires FileLike(a, b)
    ensures Agree(NormalizeFile(a), NormalizeFile(b))
  {
    hide SortBy, Collect, CollectSets, NormalizeSet, SetLike;
    CollectSetsCollects(a);
    CollectSetsCollects(b);
    var mid: seq<RuleSet> :| |mid| == |a| && multiset(mid) == multiset(b) && forall i :: 0 <= i < |a| ==> SetLike(a[i], mid[i]);
    var f := SET_NORMALIZER;
    forall i | 0 <= i < |a| ensures Agree(f(a[i]), f(mid[i])) {
      SetLikeNormalizes(a[i], mid[i]);
    }
    CollectCongruent(f, SET_ID, Repeated, a, mid);
    CollectPermutes(f, SET_ID, Repeated, mid, b);
  }

  // ----- sound: what success promises

  ghost predicate RuleOk(r: Rule) {
    r.ruleId != "" && r.destinationId != "" && r.displayName != "" && 1 <= r.port <= 65535 && (r.hostExact == "" <==> r.hostWildcard != "")
    && StrictlySortedBy(SELF, r.accounts)
  }

  ghost predicate SetOk(s: RuleSet) {
    && s.ruleSetId != "" && s.displayName != "" && s.ownerService != "" && s.startupSync.Some?
    && s.accounts != [] && StrictlySortedBy(SELF, s.accounts)
    && s.rules != [] && StrictlySortedBy(RULE_ID, s.rules) && (forall r :: r in s.rules ==> RuleOk(r))
    && StrictlySortedBy(INSPECTION_ID, s.inspections)
    && (forall i :: i in s.inspections ==> i.inspectionRuleId != "" && i.destinationId in Destinations(s.rules))
  }

  lemma RuleIsOk(setId: string, rule: Rule)
    ensures NormalizeRule(setId, rule).Ok? ==> RuleOk(NormalizeRule(setId, rule).value)
  {
    hide StringList, Trim, Host, StrictlySortedBy;
    StringListCanonical(rule.accounts, rule.accounts);
  }

  lemma InspectionIsOk(known: set<string>, rule: Inspection)
    ensures var r := NormalizeInspection(known, rule); r.Ok? ==> r.value.inspectionRuleId != "" && r.value.destinationId in known
  {
    hide StringList, Trim, NormalizePolicy, NormalizeMatches;
  }

  /** A collection sorted by its key is strictly sorted and holds the normalised items. */
  lemma CollectedSorted<T, U, E>(f: T -> Result<U, E>, key: U -> string, repeated: E, items: seq<T>)
    requires Collect(f, key, repeated, items).Ok?
    ensures var us := SortBy(key, Collect(f, key, repeated, items).value);
            StrictlySortedBy(key, us) && |us| == |items| && forall u :: u in us ==> exists i :: 0 <= i < |items| && f(items[i]) == Ok(u)
  {
    hide SortBy, Collect;
    CollectExactly(f, key, repeated, items);
    var vs := Values(f, items);
    SortByForgetsOrder(key, vs, vs);
    var us := SortBy(key, vs);
    SameMultisetSameMembers(us, vs);
    forall u | u in us ensures exists i :: 0 <= i < |items| && f(items[i]) == Ok(u) {
      assert u in multiset(us) && u in multiset(vs);
      var i :| 0 <= i < |vs| && vs[i] == u;
      assert f(items[i]) == Ok(u);
    }
  }

  /** Every item is in it. */
  lemma CollectedHolds<T, U, E>(f: T -> Result<U, E>, key: U -> string, repeated: E, items: seq<T>, x: T) returns (k: nat)
    requires Collect(f, key, repeated, items).Ok? && x in items
    ensures var us := SortBy(key, Collect(f, key, repeated, items).value); k < |us| && f(x) == Ok(us[k])
  {
    hide SortBy, Collect;
    CollectExactly(f, key, repeated, items);
    var vs := Values(f, items);
    SortBySorts(key, vs);
    var us := SortBy(key, vs);
    SameMultisetSameMembers(us, vs);
    var i :| 0 <= i < |items| && items[i] == x;
    assert vs[i] in vs && vs[i] in us;
    k :| 0 <= k < |us| && us[k] == vs[i];
  }

  lemma SetIsOk(s: RuleSet)
    requires NormalizeSet(s).Ok?
    ensures SetOk(NormalizeSet(s).value) && |NormalizeSet(s).value.rules| == |s.rules| && |NormalizeSet(s).value.inspections| == |s.inspections|
  {
    hide SortBy, Collect, StringList, Trim, NormalizeRule, NormalizeInspection;
    var h := Header(s);
    StringListCanonical(s.accounts, s.accounts);
    CollectedSorted(RuleNormalizer(h.ruleSetId), RULE_ID, Repeated, s.rules);
    var sorted := SortBy(RULE_ID, CollectRules(h.ruleSetId, s.rules).value);
    forall r | r in sorted ensures RuleOk(r) {
      var i :| 0 <= i < |s.rules| && RuleNormalizer(h.ruleSetId)(s.rules[i]) == Ok(r);
      RuleIsOk(h.ruleSetId, s.rules[i]);
    }
    var known := Destinations(sorted);
    CollectedSorted(InspectionNormalizer(known), INSPECTION_ID, Repeated, s.inspections);
    var inspections := SortBy(INSPECTION_ID, CollectInspections(known, s.inspections).value);
    forall r | r in inspections ensures r.inspectionRuleId != "" && r.destinationId in known {
      var i :| 0 <= i < |s.inspections| && InspectionNormalizer(known)(s.inspections[i]) == Ok(r);
      InspectionIsOk(known, s.inspections[i]);
    }
  }

  /** Success gives strictly increasing set ids, and sets whose rules have unique ids, one
      host each and a valid port, and whose inspection rules target known destinations. */
  lemma NormalizationIsSound(sets: seq<RuleSet>)
    requires NormalizeFile(sets).Ok?
    ensures StrictlySortedBy(SET_ID, NormalizeFile(sets).value) && |NormalizeFile(sets).value| == |sets|
    ensures forall s :: s in NormalizeFile(sets).value ==> SetOk(s)
  {
    hide SortBy, Collect, CollectSets, NormalizeSet, SetOk;
    CollectSetsCollects(sets);
    CollectedSorted(SET_NORMALIZER, SET_ID, Repeated, sets);
    forall s | s in NormalizeFile(sets).value ensures SetOk(s) {
      var i :| 0 <= i < |sets| && SET_NORMALIZER(sets[i]) == Ok(s);
      SetIsOk(sets[i]);
    }
  }

  // ----- what is read from the input

  /** The text names a host: it is not blank and no lone dot. */
  predicate GivesHost(raw: string) { Trim(raw) != "" && Trim(raw) != "." }

  /** The host is the text trimmed, without one trailing dot and in lower case. */
  predicate ReadsHost(raw: string, host: string) {
    var t := Trim(raw);
    && |host| == (if t != "" && t[|t| - 1] == '.' then |t| - 1 else |t|)
    && forall i :: 0 <= i < |host| <= |t| ==> host[i] == LowerChar(t[i])
  }

  /** The text trimmed, or another one if it is blank. */
  predicate ReadsText(raw: string, otherwise: string, text: string) {
    text == if Trim(raw) != "" then Trim(raw) else otherwise
  }

  predicate RuleValid(raw: Rule) {
    && Trim(raw.ruleId) != "" && (GivesHost(raw.hostExact) <==> !GivesHost(raw.hostWildcard))
    && (raw.port == 0 || 1 <= raw.port <= 65535)
  }

  /** The rule of a set as it was written, read field by field. */
  predicate ReadsRule(setId: string, raw: Rule, r: Rule) {
    && r.ruleId == Trim(raw.ruleId) && ReadsText(raw.destinationId, setId + "." + Trim(raw.ruleId), r.destinationId)
    && ReadsText(raw.displayName, Trim(raw.ruleId), r.displayName)
    && ReadsHost(raw.hostExact, r.hostExact) && ReadsHost(raw.hostWildcard, r.hostWildcard)
    && r.port == (if raw.port == 0 then 443 else raw.port)
    && r.protocol == Trim(raw.protocol) && r.resolution == Trim(raw.resolution) && r.proxyEndpointId == Trim(raw.proxyEndpointId)
    && r.accounts == StringList(raw.accounts)
  }

  lemma HostReads(raw: string)
    ensures ReadsHost(raw, Host(raw)) && (Host(raw) != "" <==> GivesHost(raw))
  {
    hide Trim, LowerChar;
  }

  lemma RuleReads(setId: string, raw: Rule)
    ensures NormalizeRule(setId, raw).Ok? <==> RuleValid(raw)
    ensures NormalizeRule(setId, raw).Ok? ==> ReadsRule(setId, raw, NormalizeRule(setId, raw).value)
  {
    hide Trim, Host, StringList, ReadsHost, GivesHost;
    HostReads(raw.hostExact);
    HostReads(raw.hostWildcard);
  }

  /** Why a rule is refused. */
  predicate RuleRefused(raw: Rule, e: Refusal) {
    e == if Trim(raw.ruleId) == "" then MissingField
         else if GivesHost(raw.hostExact) == GivesHost(raw.hostWildcard) then NotOneHost else PortOutOfRange
  }

  lemma RefusalReads(setId: string, raw: Rule)
    ensures NormalizeRule(setId, raw).Err? ==> RuleRefused(raw, NormalizeRule(setId, raw).error)
  {
    hide Trim, Host, StringList, ReadsHost, GivesHost;
    HostReads(raw.hostExact);
    HostReads(raw.hostWildcard);
  }

  /** out holds, with trimmed names and in order, the headers that have a name. */
  ghost predicate ReadsHeadersAt(positions: seq<nat>, raw: seq<HeaderValue>, out: seq<HeaderValue>) {
    && |positions| == |out|
    && (forall j :: 0 <= j < |out| ==> positions[j] < |raw| && out[j] == HeaderValue(Trim(raw[positions[j]].name), raw[positions[j]].value))
    && (forall j, k :: 0 <= j < k < |out| ==> positions[j] < positions[k])
    && (forall i :: 0 <= i < |raw| ==> (i in positions <==> Trim(raw[i].name) != ""))
  }

  ghost predicate ReadsHeaders(raw: seq<HeaderValue>, out: seq<HeaderValue>) {
    exists positions :: ReadsHeadersAt(positions, raw, out)
  }

  lemma {:induction false} HeadersRead(raw: seq<HeaderValue>) returns (positions: seq<nat>)
    ensures ReadsHeadersAt(positions, raw, NormalizeHeaders(raw))
  {
    hide Trim, ReadsHeadersAt;
    if raw == [] {
      positions := [];
      NoHeaders();
    } else {
      var n := |raw| - 1;
      positions := HeadersRead(raw[..n]);
      HeadersNext(positions, raw[..n], NormalizeHeaders(raw[..n]), raw[n]);
      assert raw[..n] + [raw[n]] == raw && NormalizeHeaders(raw[..n]) + [] == NormalizeHeaders(raw[..n]);
      if Trim(raw[n].name) != "" {
        positions := positions + [n];
      }
    }
  }

  lemma NoHeaders()
    ensures ReadsHeadersAt([], [], [])
  {
  }

  lemma HeadersNext(positions: seq<nat>, raw: seq<HeaderValue>, out: seq<HeaderValue>, h: HeaderValue)
    requires ReadsHeadersAt(positions, raw, out)
    ensures if Trim(h.name) != "" then ReadsHeadersAt(positions + [|raw|], raw + [h], out + [HeaderValue(Trim(h.name), h.value)])
            else ReadsHeadersAt(positions, raw + [h], out)
  {
    hide Trim;
    var n, all := |raw|, raw + [h];
    assert n !in positions;
    assert all[n] == h && forall k :: 0 <= k < n ==> all[k] == raw[k];
    if Trim(h.name) != "" {
      var next := positions + [n];
      assert next[|positions|] == n;
      forall k | 0 <= k < |all| ensures k in next <==> Trim(all[k].name) != "" {
        assert k in next <==> k in positions || k == n;
      }
    }
  }

  ghost predicate ReadsPolicy(raw: HeaderPolicy, p: HeaderPolicy) {
    ReadsHeaders(raw.add, p.add) && ReadsHeaders(raw.set_, p.set_) && p.remove == StringList(raw.remove)
  }

  lemma PolicyReads(raw: HeaderPolicy)
    ensures ReadsPolicy(raw, NormalizePolicy(raw))
  {
    hide StringList, NormalizeHeaders, ReadsHeadersAt;
    var add := HeadersRead(raw.add);
    var put := HeadersRead(raw.set_);
  }

  predicate InspectionValid(known: set<string>, raw: Inspection) {
    Trim(raw.inspectionRuleId) != "" && Trim(raw.destinationId) != "" && Trim(raw.destinationId) in known
  }

  /** The inspection rule as it was written, read field by field. */
  ghost predicate ReadsInspection(raw: Inspection, r: Inspection) {
    && r.inspectionRuleId == Trim(raw.inspectionRuleId) && ReadsText(raw.displayName, Trim(raw.inspectionRuleId), r.displayName)
    && r.destinationId == Trim(raw.destinationId) && |r.matches| == |raw.matches|
    && (forall i :: 0 <= i < |raw.matches| ==> r.matches[i].pathPrefixes == StringList(raw.matches[i].pathPrefixes)
                                               && r.matches[i].methods == StringList(raw.matches[i].methods))
    && ReadsPolicy(raw.requestHeaders, r.requestHeaders) && ReadsPolicy(raw.responseHeaders, r.responseHeaders)
    && r.authPolicyId == Trim(raw.authPolicyId) && r.dynamicHeaderAuthz == raw.dynamicHeaderAuthz
  }

  lemma InspectionReads(known: set<string>, raw: Inspection)
    ensures NormalizeInspection(known, raw).Ok? <==> InspectionValid(known, raw)
    ensures NormalizeInspection(known, raw).Ok? ==> ReadsInspection(raw, NormalizeInspection(known, raw).value)
  {
    hide Trim, StringList, NormalizePolicy, ReadsPolicy;
    PolicyReads(raw.requestHeaders);
    PolicyReads(raw.responseHeaders);
  }

  predicate RulesValid(rules: seq<Rule>) {
    && (forall i :: 0 <= i < |rules| ==> RuleValid(rules[i]))
    && (forall i, j :: 0 <= i < j < |rules| ==> Trim(rules[i].ruleId) != Trim(rules[j].ruleId))
  }

  ghost predicate FromRule(setId: string, raw: seq<Rule>, r: Rule) {
    exists i :: 0 <= i < |raw| && ReadsRule(setId, raw[i], r)
  }

  ghost predicate RuleIn(setId: string, raw: Rule, rules: seq<Rule>) {
    exists k :: 0 <= k < |rules| && ReadsRule(setId, raw, rules[k])
  }

  /** One rule for each as it was written, by increasing id. */
  ghost predicate ReadsRules(setId: string, raw: seq<Rule>, rules: seq<Rule>) {
    && |rules| == |raw| && StrictlySortedBy(RULE_ID, rules)
    && (forall r :: r in rules ==> FromRule(setId, raw, r)) && forall r :: r in raw ==> RuleIn(setId, r, rules)
  }

  lemma RulesCollect(setId: string, rules: seq<Rule>)
    ensures CollectRules(setId, rules).Ok? <==> RulesValid(rules)
  {
    hide Trim, Collect, NormalizeRule, RuleValid, ReadsRule, HasKey;
    var f := RuleNormalizer(setId);
    forall i | 0 <= i < |rules|
      ensures f(rules[i]).Ok? <==> RuleValid(rules[i])
      ensures f(rules[i]).Ok? ==> f(rules[i]).value.ruleId == Trim(rules[i].ruleId)
    {
      RuleReads(setId, rules[i]);
      NormalizedRuleId(setId, rules[i]);
    }
    CollectExactly(f, RULE_ID, Repeated, rules);
  }

  /** The first rule that is refused, or repeats an id. */
  ghost predicate RulesRefused(rules: seq<Rule>, e: Refusal) {
    exists n :: 0 <= n < |rules| && RulesValid(rules[..n])
                && if RuleValid(rules[n]) then e == Repeated && exists m :: 0 <= m < n && Trim(rules[m].ruleId) == Trim(rules[n].ruleId)
                   else RuleRefused(rules[n], e)
  }

  lemma RulesFail(setId: string, rules: seq<Rule>)
    requires CollectRules(setId, rules).Err?
    ensures RulesRefused(rules, CollectRules(setId, rules).error)
  {
    hide Trim, Collect, NormalizeRule, RuleValid, RuleRefused, RulesValid, AllOk;
    var f := RuleNormalizer(setId);
    var n := CollectFails(f, RULE_ID, Repeated, rules);
    RulesCollect(setId, rules[..n]);
    RuleReads(setId, rules[n]);
    RefusalReads(setId, rules[n]);
    if f(rules[n]).Ok? {
      NormalizedRuleId(setId, rules[n]);
      CollectExactly(f, RULE_ID, Repeated, rules[..n]);
      var vs := Values(f, rules[..n]);
      var m :| 0 <= m < |vs| && RULE_ID(vs[m]) == RULE_ID(f(rules[n]).value);
      AllOkAt(f, rules[..n], m);
      NormalizedRuleId(setId, rules[..n][m]);
      assert Trim(rules[m].ruleId) == Trim(rules[n].ruleId);
    }
  }

  lemma CollectedRulesRead(setId: string, rules: seq<Rule>)
    requires CollectRules(setId, rules).Ok?
    ensures ReadsRules(setId, rules, SortBy(RULE_ID, CollectRules(setId, rules).value))
  {
    hide Trim, SortBy, Collect, NormalizeRule, RuleValid, ReadsRule, StrictlySortedBy, HasKey;
    var f := RuleNormalizer(setId);
    var out := SortBy(RULE_ID, CollectRules(setId, rules).value);
    CollectedSorted(f, RULE_ID, Repeated, rules);
    forall r | r in out ensures FromRule(setId, rules, r) {
      var i :| 0 <= i < |rules| && f(rules[i]) == Ok(r);
      RuleReads(setId, rules[i]);
    }
    forall r | r in rules ensures RuleIn(setId, r, out) {
      var k := CollectedHolds(f, RULE_ID, Repeated, rules, r);
      RuleReads(setId, r);
    }
  }

  lemma NormalizedRuleId(setId: string, raw: Rule)
    ensures NormalizeRule(setId, raw).Ok? ==> NormalizeRule(setId, raw).value.ruleId == Trim(raw.ruleId)
  {
    hide Trim, Host, StringList, OrElse;
  }

  predicate InspectionsValid(known: set<string>, rules: seq<Inspection>) {
    && (forall i :: 0 <= i < |rules| ==> InspectionValid(known, rules[i]))
    && (forall i, j :: 0 <= i < j < |rules| ==> Trim(rules[i].inspectionRuleId) != Trim(rules[j].inspectionRuleId))
  }

  ghost predicate FromInspection(raw: seq<Inspection>, r: Inspection) {
    exists i :: 0 <= i < |raw| && ReadsInspection(raw[i], r)
  }

  ghost predicate InspectionIn(raw: Inspection, rules: seq<Inspection>) {
    exists k :: 0 <= k < |rules| && ReadsInspection(raw, rules[k])
  }

  ghost predicate ReadsInspections(raw: seq<Inspection>, rules: seq<Inspection>) {
    && |rules| == |raw| && StrictlySortedBy(INSPECTION_ID, rules)
    && (forall r :: r in rules ==> FromInspection(raw, r)) && forall r :: r in raw ==> InspectionIn(r, rules)
  }

  lemma InspectionsCollect(known: set<string>, rules: seq<Inspection>)
    ensures CollectInspections(known, rules).Ok? <==> InspectionsValid(known, rules)
  {
    hide Trim, Collect, NormalizeInspection, InspectionValid, ReadsInspection, HasKey;
    var f := InspectionNormalizer(known);
    forall i | 0 <= i < |rules|
      ensures f(rules[i]).Ok? <==> InspectionValid(known, rules[i])
      ensures f(rules[i]).Ok? ==> f(rules[i]).value.inspectionRuleId == Trim(rules[i].inspectionRuleId)
    {
      InspectionReads(known, rules[i]);
      NormalizedInspectionId(known, rules[i]);
    }
    CollectExactly(f, INSPECTION_ID, Repeated, rules);
  }

  ghost predicate InspectionsRefused(known: set<string>, rules: seq<Inspection>, e: Refusal) {
    exists n :: 0 <= n < |rules| && InspectionsValid(known, rules[..n])
                && if InspectionValid(known, rules[n])
                   then e == Repeated && exists m :: 0 <= m < n && Trim(rules[m].inspectionRuleId) == Trim(rules[n].inspectionRuleId)
                   else e == if Trim(rules[n].inspectionRuleId) == "" || Trim(rules[n].destinationId) == "" then MissingField
                             else UnknownDestination
  }

  lemma InspectionsFail(known: set<string>, rules: seq<Inspection>)
    requires CollectInspections(known, rules).Err?
    ensures InspectionsRefused(known, rules, CollectInspections(known, rules).error)
  {
    hide Trim, Collect, NormalizeInspection, InspectionValid, InspectionsValid, AllOk;
    var f := InspectionNormalizer(known);
    var n := CollectFails(f, INSPECTION_ID, Repeated, rules);
    InspectionsCollect(known, rules[..n]);
    InspectionReads(known, rules[n]);
    InspectionRefusal(known, rules[n]);
    if f(rules[n]).Ok? {
      NormalizedInspectionId(known, rules[n]);
      CollectExactly(f, INSPECTION_ID, Repeated, rules[..n]);
      var vs := Values(f, rules[..n]);
      var m :| 0 <= m < |vs| && INSPECTION_ID(vs[m]) == INSPECTION_ID(f(rules[n]).value);
      AllOkAt(f, rules[..n], m);
      NormalizedInspectionId(known, rules[..n][m]);
      assert Trim(rules[m].inspectionRuleId) == Trim(rules[n].inspectionRuleId);
    }
  }

  lemma InspectionRefusal(known: set<string>, raw: Inspection)
    ensures NormalizeInspection(known, raw).Err? ==>
              NormalizeInspection(known, raw).error
              == if Trim(raw.inspectionRuleId) == "" || Trim(raw.destinationId) == "" then MissingField else UnknownDestination
  {
    hide Trim, StringList, OrElse, NormalizePolicy, NormalizeMatches;
  }

  lemma CollectedInspectionsRead(known: set<string>, rules: seq<Inspection>)
    requires CollectInspections(known, rules).Ok?
    ensures ReadsInspections(rules, SortBy(INSPECTION_ID, CollectInspections(known, rules).value))
  {
    hide Trim, SortBy, Collect, NormalizeInspection, InspectionValid, ReadsInspection, StrictlySortedBy, HasKey;
    var f := InspectionNormalizer(known);
    var out := SortBy(INSPECTION_ID, CollectInspections(known, rules).value);
    CollectedSorted(f, INSPECTION_ID, Repeated, rules);
    forall r | r in out ensures FromInspection(rules, r) {
      var i :| 0 <= i < |rules| && f(rules[i]) == Ok(r);
      InspectionReads(known, rules[i]);
    }
    forall r | r in rules ensures InspectionIn(r, out) {
      var k := CollectedHolds(f, INSPECTION_ID, Repeated, rules, r);
      InspectionReads(known, r);
    }
  }

  lemma NormalizedInspectionId(known: set<string>, raw: Inspection)
    ensures NormalizeInspection(known, raw).Ok? ==> NormalizeInspection(known, raw).value.inspectionRuleId == Trim(raw.inspectionRuleId)
  {
    hide Trim, StringList, OrElse, NormalizePolicy, NormalizeMatches;
  }

  /** The destinations that the rules of a set get. */
  function Targets(s: RuleSet): set<string> {
    set i | 0 <= i < |s.rules| :: DestinationOf(s, s.rules[i])
  }

  predicate SetValid(s: RuleSet) {
    && Trim(s.ruleSetId) != "" && Trim(s.ownerService) != "" && (exists i :: 0 <= i < |s.accounts| && Trim(s.accounts[i]) != "")
    && s.rules != [] && RulesValid(s.rules) && InspectionsValid(Targets(s), s.inspections)
  }

  /** The set as it was written, read field by field. */
  ghost predicate ReadsSet(raw: RuleSet, s: RuleSet) {
    && s.ruleSetId == Trim(raw.ruleSetId) && ReadsText(raw.displayName, Trim(raw.ruleSetId), s.displayName)
    && s.ownerService == Trim(raw.ownerService) && s.policyId == Trim(raw.policyId)
    && s.startupSync == Some(raw.startupSync.Some? ==> raw.startupSync.value) && s.accounts == StringList(raw.accounts)
    && ReadsRules(Trim(raw.ruleSetId), raw.rules, s.rules) && ReadsInspections(raw.inspections, s.inspections)
  }

  lemma SetReads(s: RuleSet)
    ensures NormalizeSet(s).Ok? <==> SetValid(s)
    ensures NormalizeSet(s).Ok? ==> ReadsSet(s, NormalizeSet(s).value)
  {
    hide Trim, SortBy, StringList, CollectRules, CollectInspections, RulesValid, InspectionsValid, ReadsRules, ReadsInspections, Targets,
         Destinations;
    var id := Trim(s.ruleSetId);
    AccountsGiven(s.accounts);
    RulesCollect(id, s.rules);
    if CollectRules(id, s.rules).Ok? {
      var known := Destinations(SortBy(RULE_ID, CollectRules(id, s.rules).value));
      TargetsAreDestinations(s);
      InspectionsCollect(known, s.inspections);
      if NormalizeSet(s).Ok? {
        CollectedRulesRead(id, s.rules);
        CollectedInspectionsRead(known, s.inspections);
        var n := NormalizeSet(s).value;
        assert n == Header(s).(rules := n.rules, inspections := n.inspections);
        assert ReadsInspections(s.inspections, n.inspections);
        assert ReadsRules(id, s.rules, n.rules);
      }
    }
  }

  /** Why a set is refused: for what it lacks itself, or its first refused rule, or inspection rule. */
  ghost predicate SetRefused(s: RuleSet, e: Refusal) {
    if Trim(s.ruleSetId) == "" || Trim(s.ownerService) == "" || s.rules == []
       || (forall i :: 0 <= i < |s.accounts| ==> Trim(s.accounts[i]) == "") then e == MissingField
    else if !RulesValid(s.rules) then RulesRefused(s.rules, e)
    else InspectionsRefused(Targets(s), s.inspections, e)
  }

  lemma SetFails(s: RuleSet)
    requires NormalizeSet(s).Err?
    ensures SetRefused(s, NormalizeSet(s).error)
  {
    hide Trim, SortBy, StringList, CollectRules, CollectInspections, RulesValid, InspectionsValid, RulesRefused, InspectionsRefused, Targets,
         Destinations;
    var id := Trim(s.ruleSetId);
    AccountsGiven(s.accounts);
    RulesCollect(id, s.rules);
    if CollectRules(id, s.rules).Err? {
      RulesFail(id, s.rules);
    } else {
      var known := Destinations(SortBy(RULE_ID, CollectRules(id, s.rules).value));
      TargetsAreDestinations(s);
      if CollectInspections(known, s.inspections).Err? {
        InspectionsFail(known, s.inspections);
      }
    }
  }

  lemma AccountsGiven(values: seq<string>)
    ensures StringList(values) != [] <==> exists i :: 0 <= i < |values| && Trim(values[i]) != ""
  {
    hide Trim, StringList;
    StringListCanonical(values, values);
    var list := StringList(values);
    if list != [] {
      assert list[0] in list;
      var v :| v in values && Trim(v) == list[0];
      var i :| 0 <= i < |values| && values[i] == v;
    }
    if i :| 0 <= i < |values| && Trim(values[i]) != "" {
      assert values[i] in values;
      assert Trim(values[i]) in list;
    }
  }

  lemma TargetsAreDestinations(s: RuleSet)
    requires CollectRules(Trim(s.ruleSetId), s.rules).Ok?
    ensures Destinations(SortBy(RULE_ID, CollectRules(Trim(s.ruleSetId), s.rules).value)) == Targets(s)
  {
    hide Trim, SortBy, Collect, NormalizeRule, DestinationOf, HasKey, AllOk;
    var f := RuleNormalizer(Trim(s.ruleSetId));
    CollectExactly(f, RULE_ID, Repeated, s.rules);
    var vs := Values(f, s.rules);
    var sorted := SortBy(RULE_ID, vs);
    SortBySorts(RULE_ID, vs);
    SameMultisetSameMembers(sorted, vs);
    forall i | 0 <= i < |s.rules| ensures vs[i].destinationId == DestinationOf(s, s.rules[i]) {
      AllOkAt(f, s.rules, i);
      NormalizedDestination(s, s.rules[i]);
    }
    forall d ensures d in Destinations(sorted) <==> d in Targets(s) {
      if r :| r in sorted && r.destinationId == d {
        assert r in multiset(sorted) && r in multiset(vs);
        var i :| 0 <= i < |vs| && vs[i] == r;
      }
      if i :| 0 <= i < |s.rules| && DestinationOf(s, s.rules[i]) == d {
        assert vs[i] in vs;
        assert vs[i] in multiset(vs) && vs[i] in multiset(sorted);
      }
    }
  }

  predicate SetsValid(sets: seq<RuleSet>) {
    && (forall i :: 0 <= i < |sets| ==> SetValid(sets[i]))
    && (forall i, j :: 0 <= i < j < |sets| ==> Trim(sets[i].ruleSetId) != Trim(sets[j].ruleSetId))
  }

  ghost predicate FromSet(raw: seq<RuleSet>, s: RuleSet) {
    exists i :: 0 <= i < |raw| && ReadsSet(raw[i], s)
  }

  ghost predicate SetIn(raw: RuleSet, sets: seq<RuleSet>) {
    exists k :: 0 <= k < |sets| && ReadsSet(raw, sets[k])
  }

  /** One set for each as it was written, by increasing id. */
  ghost predicate ReadsSets(raw: seq<RuleSet>, sets: seq<RuleSet>) {
    && |sets| == |raw| && StrictlySortedBy(SET_ID, sets)
    && (forall s :: s in sets ==> FromSet(raw, s)) && forall s :: s in raw ==> SetIn(s, sets)
  }

  lemma SetsCollect(sets: seq<RuleSet>)
    ensures NormalizeFile(sets).Ok? <==> SetsValid(sets)
  {
    hide Trim, SortBy, Collect, CollectSets, NormalizeSet, SetValid, ReadsSet, HasKey;
    var f := SET_NORMALIZER;
    forall i | 0 <= i < |sets|
      ensures f(sets[i]).Ok? <==> SetValid(sets[i])
      ensures f(sets[i]).Ok? ==> f(sets[i]).value.ruleSetId == Trim(sets[i].ruleSetId)
    {
      SetReads(sets[i]);
      NormalizedSetId(sets[i]);
    }
    CollectSetsCollects(sets);
    CollectExactly(f, SET_ID, Repeated, sets);
  }

  lemma FileReads(sets: seq<RuleSet>)
    requires NormalizeFile(sets).Ok?
    ensures ReadsSets(sets, NormalizeFile(sets).value)
  {
    hide Trim, SortBy, Collect, CollectSets, NormalizeSet, SetValid, ReadsSet, StrictlySortedBy, HasKey;
    var f := SET_NORMALIZER;
    var out := NormalizeFile(sets).value;
    CollectSetsCollects(sets);
    CollectedSorted(f, SET_ID, Repeated, sets);
    forall s | s in out ensures FromSet(sets, s) {
      var i :| 0 <= i < |sets| && f(sets[i]) == Ok(s);
      SetReads(sets[i]);
    }
    forall s | s in sets ensures SetIn(s, out) {
      var k := CollectedHolds(f, SET_ID, Repeated, sets, s);
      SetReads(s);
    }
  }

  /** The first set that is refused; a repeated id is refused before the set's other fields. */
  ghost predicate SetsRefused(sets: seq<RuleSet>, e: Refusal) {
    exists n :: 0 <= n < |sets| && SetsValid(sets[..n]) && RefusedAt(sets, n, e)
  }

  ghost predicate RefusedAt(sets: seq<RuleSet>, n: nat, e: Refusal)
    requires n < |sets|
  {
    if Trim(sets[n].ruleSetId) == "" then e == MissingField
    else if exists m :: 0 <= m < n && Trim(sets[m].ruleSetId) == Trim(sets[n].ruleSetId) then e == Repeated
    else SetRefused(sets[n], e)
  }

  lemma {:induction false} SetsFail(sets: seq<RuleSet>)
    requires CollectSets(sets).Err?
    ensures SetsRefused(sets, CollectSets(sets).error)
  {
    hide Trim, NormalizeSet, SetsValid, SetRefused, HasKey, RefusedAt;
    var k := |sets| - 1;
    var prior := sets[..k];
    if CollectSets(prior).Err? {
      SetsFail(prior);
      var n :| 0 <= n < |prior| && SetsValid(prior[..n]) && RefusedAt(prior, n, CollectSets(sets).error);
      assert prior[..n] == sets[..n];
      RefusedWithin(prior, sets, n, CollectSets(sets).error);
    } else {
      SetsCollect(prior);
      LastRefused(sets);
    }
  }

  lemma RefusedWithin(prior: seq<RuleSet>, sets: seq<RuleSet>, n: nat, e: Refusal)
    requires n < |prior| <= |sets| && prior == sets[..|prior|] && RefusedAt(prior, n, e)
    ensures RefusedAt(sets, n, e)
  {
    hide Trim, SetRefused;
    assert forall m :: 0 <= m <= n ==> prior[m] == sets[m];
  }

  lemma LastRefused(sets: seq<RuleSet>)
    requires sets != [] && CollectSets(sets[..|sets| - 1]).Ok? && CollectSets(sets).Err?
    ensures RefusedAt(sets, |sets| - 1, CollectSets(sets).error)
  {
    hide Trim, NormalizeSet, SetRefused, HasKey;
    var k := |sets| - 1;
    KeysAreIds(sets[..k], Trim(sets[k].ruleSetId));
    assert forall m :: 0 <= m < k ==> sets[..k][m] == sets[m];
    if NormalizeSet(sets[k]).Err? {
      SetFails(sets[k]);
    }
  }

  lemma KeysAreIds(sets: seq<RuleSet>, id: string)
    requires CollectSets(sets).Ok?
    ensures HasKey(SET_ID, CollectSets(sets).value, id) <==> exists m :: 0 <= m < |sets| && Trim(sets[m].ruleSetId) == id
  {
    hide Trim, NormalizeSet, AllOk, Collect, CollectSets;
    var f := SET_NORMALIZER;
    CollectSetsCollects(sets);
    CollectExactly(f, SET_ID, Repeated, sets);
    var vs := Values(f, sets);
    forall m | 0 <= m < |sets| ensures SET_ID(vs[m]) == Trim(sets[m].ruleSetId) {
      AllOkAt(f, sets, m);
      NormalizedSetId(sets[m]);
    }
  }

  // ----- the loops

  method NormalizeRules(setId: string, rules: seq<Rule>) returns (r: Result<seq<Rule>, Refusal>)
    ensures var c := CollectRules(setId, rules); r == if c.Ok? then Ok(SortBy(RULE_ID, c.value)) else c
    ensures r.Ok? <==> RulesValid(rules)
    ensures if r.Ok? then ReadsRules(setId, rules, r.value) else RulesRefused(rules, r.error)
  {
    hide NormalizeRule, SortBy, SeenKeys, Collect, RulesValid, ReadsRules, RulesRefused;
    RulesCollect(setId, rules);
    if CollectRules(setId, rules).Ok? {
      CollectedRulesRead(setId, rules);
    } else {
      RulesFail(setId, rules);
    }
    ghost var f := RuleNormalizer(setId);
    var seen: set<string>, out: seq<Rule> := {}, [];
    NothingCollected(f, RULE_ID, Repeated, rules);
    for i := 0 to |rules|
      invariant Collect(f, RULE_ID, Repeated, rules[..i]) == Ok(out) && SeenKeys(RULE_ID, seen, out)
    {
      CollectTurn(f, RULE_ID, Repeated, rules, i, seen, out);
      var next := NormalizeRule(setId, rules[i]);
      if next.Err? {
        return Err(next.error);
      }
      if next.value.ruleId in seen {
        return Err(Repeated);
      }
      seen, out := seen + {next.value.ruleId}, out + [next.value];
    }
    assert rules[..|rules|] == rules;
    r := Ok(SortBy(RULE_ID, out));
  }

  method NormalizeInspections(known: set<string>, rules: seq<Inspection>) returns (r: Result<seq<Inspection>, Refusal>)
    ensures var c := CollectInspections(known, rules); r == if c.Ok? then Ok(SortBy(INSPECTION_ID, c.value)) else c
    ensures r.Ok? <==> InspectionsValid(known, rules)
    ensures if r.Ok? then ReadsInspections(rules, r.value) else InspectionsRefused(known, rules, r.error)
  {
    hide NormalizeInspection, SortBy, SeenKeys, Collect, InspectionsValid, ReadsInspections, InspectionsRefused;
    InspectionsCollect(known, rules);
    if CollectInspections(known, rules).Ok? {
      CollectedInspectionsRead(known, rules);
    } else {
      InspectionsFail(known, rules);
    }
    ghost var f := InspectionNormalizer(known);
    var seen: set<string>, out: seq<Inspection> := {}, [];
    NothingCollected(f, INSPECTION_ID, Repeated, rules);
    for i := 0 to |rules|
      invariant Collect(f, INSPECTION_ID, Repeated, rules[..i]) == Ok(out) && SeenKeys(INSPECTION_ID, seen, out)
    {
      CollectTurn(f, INSPECTION_ID, Repeated, rules, i, seen, out);
      var next := NormalizeInspection(known, rules[i]);
      if next.Err? {
        return Err(next.error);
      }
      if next.value.inspectionRuleId in seen {
        return Err(Repeated);
      }
      seen, out := seen + {next.value.inspectionRuleId}, out + [next.value];
    }
    assert rules[..|rules|] == rules;
    r := Ok(SortBy(INSPECTION_ID, out));
  }

  /** One turn of the file loop. */
  lemma SetsTurn(sets: seq<RuleSet>, n: nat, seen: set<string>, out: seq<RuleSet>)
    requires n < |sets| && CollectSets(sets[..n]) == Ok(out) && SeenKeys(SET_ID, seen, out)
    ensures var s := sets[n];
            if Blank(s.ruleSetId) then CollectSets(sets) == Err(MissingField)
            else if Trim(s.ruleSetId) in seen then CollectSets(sets) == Err(Repeated)
            else if NormalizeSet(s).Err? then CollectSets(sets) == Err(NormalizeSet(s).error)
            else CollectSets(sets[..n + 1]) == Ok(out + [NormalizeSet(s).value])
                 && SeenKeys(SET_ID, seen + {Trim(s.ruleSetId)}, out + [NormalizeSet(s).value])
  {
    hide Trim, NormalizeSet, HasKey;
    assert sets[..n + 1][..n] == sets[..n];
    NormalizedSetId(sets[n]);
    if CollectSets(sets[..n + 1]).Err? {
      SetsKeepError(sets, n + 1);
    } else {
      SeesNext(SET_ID, seen, out, NormalizeSet(sets[n]).value);
    }
  }

  lemma {:induction false} SetsKeepError(sets: seq<RuleSet>, n: nat)
    requires n <= |sets| && CollectSets(sets[..n]).Err?
    ensures CollectSets(sets) == CollectSets(sets[..n])
  {
    hide Trim, NormalizeSet, HasKey;
    if n == |sets| {
      assert sets[..n] == sets;
    } else {
      var m := |sets| - 1;
      assert sets[..m][..n] == sets[..n];
      SetsKeepError(sets[..m], n);
    }
  }

  /** The file loop: the sorted sets, or the first refusal it meets. */
  method NormalizeSets(sets: seq<RuleSet>) returns (r: Result<seq<RuleSet>, Refusal>)
    ensures r == NormalizeFile(sets)
    ensures r.Ok? <==> SetsValid(sets)
    ensures if r.Ok? then ReadsSets(sets, r.value) else SetsRefused(sets, r.error)
  {
    hide SortBy, SeenKeys, CollectSets, Trim, StringList, OrElse, CollectRules, CollectInspections, SetsValid, ReadsSets, SetsRefused;
    SetsCollect(sets);
    if NormalizeFile(sets).Ok? {
      FileReads(sets);
    } else {
      SetsFail(sets);
    }
    var seen: set<string>, out: seq<RuleSet> := {}, [];
    NoSets();
    for i := 0 to |sets|
      invariant CollectSets(sets[..i]) == Ok(out) && SeenKeys(SET_ID, seen, out)
    {
      SetsTurn(sets, i, seen, out);
      var normalized := Header(sets[i]);
      if normalized.ruleSetId == "" {
        return Err(MissingField);
      }
      if normalized.ruleSetId in seen {
        return Err(Repeated);
      }
      seen := seen + {normalized.ruleSetId};
      if normalized.ownerService == "" || normalized.accounts == [] || sets[i].rules == [] {
        return Err(MissingField);
      }
      var rules := NormalizeRules(normalized.ruleSetId, sets[i].rules);
      if rules.Err? {
        return Err(rules.error);
      }
      normalized := normalized.(rules := rules.value);
      var inspections := NormalizeInspections(Destinations(normalized.rules), sets[i].inspections);
      if inspections.Err? {
        return Err(inspections.error);
      }
      normalized := normalized.(inspections := inspections.value);
      out := out + [normalized];
    }
    assert sets[..|sets|] == sets;
    r := Ok(SortBy(SET_ID, out));
  }

  lemma NoSets()
    ensures CollectSets([]) == Ok([]) && SeenKeys(SET_ID, {}, [])
  {
  }

  // ----- the access set of a rule set

  datatype HostMatch = HostExact(host: string) | HostWildcard(host: string)

  datatype Protocol = Tls | Http | Https | Tcp

  datatype Resolution = Dns | DynamicDns | Unresolved

  datatype ExternalRule = ExternalRule(id: string, destinationId: string, displayName: string, hostMatch: HostMatch,
                                       port: int, protocol: Protocol, resolution: Resolution, proxy: Option<string>)

  datatype ServiceRule = ServiceRule(id: string, destinationId: string, accounts: seq<string>)

  datatype InspectionRule = InspectionRule(id: string, displayName: string, destinationId: string, matches: seq<RouteMatch>,
                                           requestHeaders: Option<HeaderPolicy>, responseHeaders: Option<HeaderPolicy>,
                                           authPolicyId: string, dynamicHeaderAuthz: bool)

  datatype AccessSet = AccessSet(id: string, displayName: string, ownerService: string, policyId: string,
                                 externals: seq<ExternalRule>, services: seq<ServiceRule>, inspections: seq<InspectionRule>)

  function HostMatchOf(r: Rule): HostMatch {
    if r.hostWildcard != "" then HostWildcard(r.hostWildcard) else HostExact(r.hostExact)
  }

  function EgressProtocol(value: string): Protocol {
    match Lower(value)
    case "http" => Http
    case "https" => Https
    case "tcp" => Tcp
    case _ => Tls
  }

  function EgressResolution(value: string): Resolution {
    match Lower(value)
    case "dynamic-dns" => DynamicDns
    case "none" => Unresolved
    case _ => Dns
  }

  /** An empty policy is left out. */
  function PolicyOf(p: HeaderPolicy): Option<HeaderPolicy> {
    if p == HeaderPolicy([], [], []) then None else Some(p)
  }

  function InspectionRuleOf(i: Inspection): InspectionRule {
    InspectionRule(i.inspectionRuleId, i.displayName, i.destinationId, i.matches, PolicyOf(i.requestHeaders), PolicyOf(i.responseHeaders),
                   i.authPolicyId, i.dynamicHeaderAuthz)
  }

  function EgressPath(proxyEndpointId: string): Option<string> {
    if Trim(proxyEndpointId) == "" then None else Some(Trim(proxyEndpointId))
  }

  function SourceServiceAccounts(defaults: seq<string>, overrides: seq<string>): seq<string> {
    if |overrides| > 0 then overrides else defaults
  }

  /** The external rule and the service rule of one rule of the set. */
  ghost predicate Projects(s: RuleSet, r: Rule, e: ExternalRule, v: ServiceRule) {
    && e.id == s.ruleSetId + "." + r.ruleId && e.destinationId == v.destinationId == r.destinationId
    && e.displayName == r.displayName && e.hostMatch == HostMatchOf(r) && e.port == r.port && e.proxy == EgressPath(r.proxyEndpointId)
    && e.protocol == EgressProtocol(r.protocol) && e.resolution == EgressResolution(r.resolution)
    && v.id == r.destinationId + ".services" && v.accounts == SourceServiceAccounts(s.accounts, r.accounts)
  }

  ghost predicate ProjectionOf(s: RuleSet, a: AccessSet) {
    && a == AccessSet(s.ruleSetId, s.displayName, s.ownerService, s.policyId, a.externals, a.services, a.inspections)
    && |a.externals| == |a.services| == |s.rules| && |a.inspections| == |s.inspections|
    && (forall i :: 0 <= i < |s.inspections| ==> a.inspections[i] == InspectionRuleOf(s.inspections[i]))
    && forall i :: 0 <= i < |s.rules| ==> Projects(s, s.rules[i], a.externals[i], a.services[i])
  }

  method AccessSetOf(s: RuleSet) returns (a: AccessSet)
    ensures ProjectionOf(s, a)
  {
    hide Trim;
    var externals: seq<ExternalRule>, services: seq<ServiceRule> := [], [];
    for i := 0 to |s.rules|
      invariant |externals| == |services| == i
      invariant forall j :: 0 <= j < i ==> Projects(s, s.rules[j], externals[j], services[j])
    {
      var rule := s.rules[i];
      externals := externals + [ExternalRule(s.ruleSetId + "." + rule.ruleId, rule.destinationId, rule.displayName,
                                             HostMatchOf(rule), rule.port, EgressProtocol(rule.protocol),
                                             EgressResolution(rule.resolution), EgressPath(rule.proxyEndpointId))];
      services := services + [ServiceRule(rule.destinationId + ".services", rule.destinationId,
                                          SourceServiceAccounts(s.accounts, rule.accounts))];
    }
    var inspections: seq<InspectionRule> := [];
    for i := 0 to |s.inspections|
      invariant |inspections| == i && forall j :: 0 <= j < i ==> inspections[j] == InspectionRuleOf(s.inspections[j])
    {
      inspections := inspections + [InspectionRuleOf(s.inspections[i])];
    }
    a := AccessSet(s.ruleSetId, s.displayName, s.ownerService, s.policyId, externals, services, inspections);
  }

  /** The external rule and the service rule that a rule of a set is granted as it was written. */
  ghost predicate Grants(raw: RuleSet, r: Rule, e: ExternalRule, v: ServiceRule) {
    && e.id == Trim(raw.ruleSetId) + "." + Trim(r.ruleId)
    && ReadsText(r.destinationId, Trim(raw.ruleSetId) + "." + Trim(r.ruleId), e.destinationId)
    && ReadsText(r.displayName, Trim(r.ruleId), e.displayName)
    && (if GivesHost(r.hostExact) then e.hostMatch.HostExact? && ReadsHost(r.hostExact, e.hostMatch.host)
        else GivesHost(r.hostWildcard) && e.hostMatch.HostWildcard? && ReadsHost(r.hostWildcard, e.hostMatch.host))
    && e.port == (if r.port == 0 then 443 else r.port)
    && (e.protocol.Http? <==> Lower(Trim(r.protocol)) == "http") && (e.protocol.Https? <==> Lower(Trim(r.protocol)) == "https")
    && (e.protocol.Tcp? <==> Lower(Trim(r.protocol)) == "tcp")
    && (e.resolution.DynamicDns? <==> Lower(Trim(r.resolution)) == "dynamic-dns")
    && (e.resolution.Unresolved? <==> Lower(Trim(r.resolution)) == "none")
    && (e.proxy == if Trim(r.proxyEndpointId) != "" then Some(Trim(r.proxyEndpointId)) else None)
    && v.id == v.destinationId + ".services" && v.destinationId == e.destinationId
    && v.accounts == StringList(if exists i :: 0 <= i < |r.accounts| && Trim(r.accounts[i]) != "" then r.accounts else raw.accounts)
  }

  /** The header policy as it was written, left out when it says nothing. */
  ghost predicate GrantsPolicy(raw: HeaderPolicy, p: Option<HeaderPolicy>) {
    if p.Some? then ReadsPolicy(raw, p.value) && (p.value.add != [] || p.value.set_ != [] || p.value.remove != [])
    else ReadsPolicy(raw, HeaderPolicy([], [], []))
  }

  ghost predicate GrantsInspection(raw: Inspection, r: InspectionRule) {
    && r.id == Trim(raw.inspectionRuleId) && ReadsText(raw.displayName, Trim(raw.inspectionRuleId), r.displayName)
    && r.destinationId == Trim(raw.destinationId) && |r.matches| == |raw.matches|
    && (forall i :: 0 <= i < |raw.matches| ==> r.matches[i].pathPrefixes == StringList(raw.matches[i].pathPrefixes)
                                               && r.matches[i].methods == StringList(raw.matches[i].methods))
    && GrantsPolicy(raw.requestHeaders, r.requestHeaders) && GrantsPolicy(raw.responseHeaders, r.responseHeaders)
    && r.authPolicyId == Trim(raw.authPolicyId) && r.dynamicHeaderAuthz == raw.dynamicHeaderAuthz
  }

  lemma RuleGrants(raw: RuleSet, s: RuleSet, written: Rule, r: Rule, e: ExternalRule, v: ServiceRule)
    requires s.ruleSetId == Trim(raw.ruleSetId) && s.accounts == StringList(raw.accounts)
    requires RuleValid(written) && ReadsRule(s.ruleSetId, written, r) && Projects(s, r, e, v)
    ensures Grants(raw, written, e, v)
  {
    hide Trim, StringList, Lower, LowerChar;
    AccountsGiven(written.accounts);
    TrimTwice(written.proxyEndpointId);
    HostGiven(written.hostExact, r.hostExact);
    HostGiven(written.hostWildcard, r.hostWildcard);
  }

  lemma HostGiven(raw: string, host: string)
    requires ReadsHost(raw, host)
    ensures host != "" <==> GivesHost(raw)
  {
    hide Trim;
  }

  ghost predicate GrantsSome(raw: RuleSet, e: ExternalRule, v: ServiceRule) {
    exists i :: 0 <= i < |raw.rules| && Grants(raw, raw.rules[i], e, v)
  }

  ghost predicate GrantedIn(raw: RuleSet, r: Rule, externals: seq<ExternalRule>, services: seq<ServiceRule>) {
    exists k :: 0 <= k < |externals| && k < |services| && Grants(raw, r, externals[k], services[k])
  }

  /** One external rule with its service rule for each rule as it was written. */
  ghost predicate GrantsRules(raw: RuleSet, externals: seq<ExternalRule>, services: seq<ServiceRule>) {
    && |externals| == |services| == |raw.rules|
    && (forall k :: 0 <= k < |externals| ==> GrantsSome(raw, externals[k], services[k]))
    && forall r :: r in raw.rules ==> GrantedIn(raw, r, externals, services)
  }

  ghost predicate GrantsSomeInspection(raw: seq<Inspection>, r: InspectionRule) {
    exists i :: 0 <= i < |raw| && GrantsInspection(raw[i], r)
  }

  ghost predicate InspectionGrantedIn(raw: Inspection, rules: seq<InspectionRule>) {
    exists k :: 0 <= k < |rules| && GrantsInspection(raw, rules[k])
  }

  ghost predicate GrantsInspections(raw: seq<Inspection>, rules: seq<InspectionRule>) {
    && |rules| == |raw|
    && (forall k :: 0 <= k < |rules| ==> GrantsSomeInspection(raw, rules[k]))
    && forall r :: r in raw ==> InspectionGrantedIn(r, rules)
  }

  /** The access set of a rule set as it was written. */
  ghost predicate GrantsSet(raw: RuleSet, a: AccessSet) {
    && a.id == Trim(raw.ruleSetId) && ReadsText(raw.displayName, Trim(raw.ruleSetId), a.displayName)
    && a.ownerService == Trim(raw.ownerService) && a.policyId == Trim(raw.policyId)
    && GrantsRules(raw, a.externals, a.services) && GrantsInspections(raw.inspections, a.inspections)
  }

  lemma RulesGrant(raw: RuleSet, s: RuleSet, a: AccessSet)
    requires ReadsSet(raw, s) && RulesValid(raw.rules) && ProjectionOf(s, a)
    ensures GrantsRules(raw, a.externals, a.services)
  {
    hide Trim, StringList, StrictlySortedBy, ReadsRule, RuleValid, Grants, Projects, ReadsText, ReadsInspections, InspectionRuleOf;
    forall k | 0 <= k < |a.externals| ensures GrantsSome(raw, a.externals[k], a.services[k]) {
      assert s.rules[k] in s.rules;
      var i :| 0 <= i < |raw.rules| && ReadsRule(s.ruleSetId, raw.rules[i], s.rules[k]);
      RuleGrants(raw, s, raw.rules[i], s.rules[k], a.externals[k], a.services[k]);
    }
    forall r | r in raw.rules ensures GrantedIn(raw, r, a.externals, a.services) {
      assert RuleIn(s.ruleSetId, r, s.rules);
      var k :| 0 <= k < |s.rules| && ReadsRule(s.ruleSetId, r, s.rules[k]);
      RuleGrants(raw, s, r, s.rules[k], a.externals[k], a.services[k]);
    }
  }

  lemma InspectionsGrant(raw: seq<Inspection>, rules: seq<Inspection>, out: seq<InspectionRule>)
    requires ReadsInspections(raw, rules)
    requires |out| == |rules| && forall k :: 0 <= k < |rules| ==> out[k] == InspectionRuleOf(rules[k])
    ensures GrantsInspections(raw, out)
  {
    hide StrictlySortedBy, ReadsInspection, GrantsInspection, InspectionRuleOf;
    forall k | 0 <= k < |out| ensures GrantsSomeInspection(raw, out[k]) {
      assert rules[k] in rules;
      var i :| 0 <= i < |raw| && ReadsInspection(raw[i], rules[k]);
      InspectionGrants(raw[i], rules[k]);
    }
    forall r | r in raw ensures InspectionGrantedIn(r, out) {
      assert InspectionIn(r, rules);
      var k :| 0 <= k < |rules| && ReadsInspection(r, rules[k]);
      InspectionGrants(r, rules[k]);
    }
  }

  /** From the file to the access set: each rule is granted as it was written, each inspection
      rule is carried over, and there is nothing else. */
  lemma AccessSetReads(raw: RuleSet, a: AccessSet)
    requires NormalizeSet(raw).Ok? && ProjectionOf(NormalizeSet(raw).value, a)
    ensures GrantsSet(raw, a)
  {
    hide Trim, StringList, NormalizeSet, ReadsRules, ReadsInspections, RulesValid, Projects, InspectionsValid, InspectionRuleOf, ReadsText,
         GrantsRules, GrantsInspections;
    SetReads(raw);
    var s := NormalizeSet(raw).value;
    RulesGrant(raw, s, a);
    InspectionsGrant(raw.inspections, s.inspections, a.inspections);
  }

  lemma InspectionGrants(raw: Inspection, r: Inspection)
    requires ReadsInspection(raw, r)
    ensures GrantsInspection(raw, InspectionRuleOf(r))
  {
    hide Trim, StringList, ReadsHeaders, ReadsText;
  }

  const EXTERNAL_ID: ExternalRule -> string := (e: ExternalRule) => e.id
  const SERVICE_ID: ServiceRule -> string := (v: ServiceRule) => v.id
  const DESTINATION: Rule -> string := (r: Rule) => r.destinationId

  /** What the i-th rule of a normalised set becomes. */
  ghost predicate RuleGranted(e: ExternalRule, v: ServiceRule) {
    && e.hostMatch.host != "" && 1 <= e.port <= 65535
    && v.destinationId == e.destinationId && v.accounts != [] && StrictlySortedBy(SELF, v.accounts)
  }

  lemma RuleIsGranted(s: RuleSet, a: AccessSet, i: nat)
    requires SetOk(s) && ProjectionOf(s, a) && i < |s.rules|
    ensures RuleGranted(a.externals[i], a.services[i])
  {
    hide Trim, Less, StrictlySortedBy;
    assert Projects(s, s.rules[i], a.externals[i], a.services[i]);
    assert RuleOk(s.rules[i]);
  }

  lemma ExternalIdsDiffer(s: RuleSet, a: AccessSet, i: nat, j: nat)
    requires StrictlySortedBy(RULE_ID, s.rules) && ProjectionOf(s, a) && i < j < |s.rules|
    ensures a.externals[i].id != a.externals[j].id
  {
    hide Trim, Less;
    var prefix := s.ruleSetId + ".";
    assert Projects(s, s.rules[i], a.externals[i], a.services[i]) && Projects(s, s.rules[j], a.externals[j], a.services[j]);
    assert Less(RULE_ID(s.rules[i]), RULE_ID(s.rules[j]));
    LessIrreflexive(s.rules[i].ruleId);
    assert a.externals[i].id[|prefix|..] == s.rules[i].ruleId && a.externals[j].id[|prefix|..] == s.rules[j].ruleId;
  }

  lemma InspectionIsTargeted(s: RuleSet, a: AccessSet, inspection: Inspection)
    requires inspection.destinationId in Destinations(s.rules) && ProjectionOf(s, a)
    ensures exists e :: e in a.externals && e.destinationId == inspection.destinationId
  {
    hide Trim;
    var r :| r in s.rules && r.destinationId == inspection.destinationId;
    var i :| 0 <= i < |s.rules| && s.rules[i] == r;
    assert Projects(s, r, a.externals[i], a.services[i]) && a.externals[i] in a.externals;
  }

  /** What the access set of any normalised rule set promises: distinct external rules, each
      naming one host and granted to some accounts by the service rule beside it, and
      inspection rules that all target one of them. */
  lemma AccessSetIsSound(s: RuleSet, a: AccessSet)
    requires SetOk(s) && ProjectionOf(s, a)
    ensures DistinctKeys(EXTERNAL_ID, a.externals)
    ensures forall i :: 0 <= i < |a.externals| ==> RuleGranted(a.externals[i], a.services[i])
    ensures forall x :: x in a.inspections ==> exists e :: e in a.externals && e.destinationId == x.destinationId
  {
    hide Trim, Less, StrictlySortedBy, RuleGranted, Projects, RuleOk;
    forall i, j | 0 <= i < j < |a.externals| ensures a.externals[i].id != a.externals[j].id {
      ExternalIdsDiffer(s, a, i, j);
    }
    forall i | 0 <= i < |a.externals| ensures RuleGranted(a.externals[i], a.services[i]) {
      RuleIsGranted(s, a, i);
    }
    forall x | x in a.inspections ensures exists e :: e in a.externals && e.destinationId == x.destinationId {
      var i :| 0 <= i < |a.inspections| && a.inspections[i] == x;
      assert s.inspections[i] in s.inspections;
      InspectionIsTargeted(s, a, s.inspections[i]);
    }
  }

  /** Service rule ids, unlike external ones, repeat whenever two rules share a destination. */
  lemma ServiceIdsDistinctExactly(s: RuleSet, a: AccessSet)
    requires ProjectionOf(s, a)
    ensures DistinctKeys(SERVICE_ID, a.services) <==> DistinctKeys(DESTINATION, s.rules)
  {
    forall i, j | 0 <= i < j < |s.rules|
      ensures a.services[i].id == a.services[j].id <==> s.rules[i].destinationId == s.rules[j].destinationId
    {
      assert Projects(s, s.rules[i], a.externals[i], a.services[i]) && Projects(s, s.rules[j], a.externals[j], a.services[j]);
      var x, y := s.rules[i].destinationId, s.rules[j].destinationId;
      if x + ".services" == y + ".services" {
        assert |x| == |y| && x == (x + ".services")[..|x|] && y == (y + ".services")[..|y|];
      }
    }
  }

  /** The destination a rule of the set gets. */
  function DestinationOf(s: RuleSet, r: Rule): string {
    OrElse(r.destinationId, Trim(s.ruleSetId) + "." + Trim(r.ruleId))
  }

  /** On the input: the service rule ids of a normalised set are distinct exactly when no two of
      its rules, as they were written, get the same destination. */
  lemma ServiceIdsDistinctOnInput(s: RuleSet, a: AccessSet)
    requires NormalizeSet(s).Ok? && ProjectionOf(NormalizeSet(s).value, a)
    ensures DistinctKeys(SERVICE_ID, a.services)
            <==> forall i, j :: 0 <= i < j < |s.rules| ==> DestinationOf(s, s.rules[i]) != DestinationOf(s, s.rules[j])
  {
    hide SortBy, Collect, StringList, Trim, OrElse, NormalizeRule, CollectInspections, ProjectionOf, DestinationOf, HasKey, AllOk;
    var n := NormalizeSet(s).value;
    ServiceIdsDistinctExactly(n, a);
    var f := RuleNormalizer(Trim(s.ruleSetId));
    CollectExactly(f, RULE_ID, Repeated, s.rules);
    var vs := Values(f, s.rules);
    SortBySorts(RULE_ID, vs);
    if DistinctKeys(DESTINATION, n.rules) {
      DistinctKeysPermute(DESTINATION, n.rules, vs);
    }
    if DistinctKeys(DESTINATION, vs) {
      DistinctKeysPermute(DESTINATION, vs, n.rules);
    }
    forall i | 0 <= i < |s.rules| ensures DESTINATION(vs[i]) == DestinationOf(s, s.rules[i]) {
      AllOkAt(f, s.rules, i);
      NormalizedDestination(s, s.rules[i]);
    }
  }

  lemma AllOkAt<T, U, E>(f: T -> Result<U, E>, items: seq<T>, i: nat)
    requires AllOk(f, items) && i < |items|
    ensures f(items[i]).Ok?
  {
  }

  lemma NormalizedDestination(s: RuleSet, r: Rule)
    requires NormalizeRule(Trim(s.ruleSetId), r).Ok?
    ensures NormalizeRule(Trim(s.ruleSetId), r).value.destinationId == DestinationOf(s, r)
  {
    hide Trim, OrElse, StringList, Host;
  }

  /** Two rules for one destination: the set normalises, and its service rule ids repeat. */
  lemma SharedDestinationRepeatsServiceId(s: RuleSet, a: AccessSet)
    requires s == RuleSet("set", "", "owner", "", None, ["account"],
                          [Rule("one", "there", "", "host", "", 0, "", "", [], ""), Rule("two", "there", "", "host", "", 0, "", "", [], "")], [])
    ensures NormalizeSet(s).Ok?
    ensures ProjectionOf(NormalizeSet(s).value, a) ==> |a.services| == 2 && a.services[0].id == a.services[1].id
  {
    hide Trim, OrElse, Host, SortBy, Collect, StringList, Deduped, ProjectionOf, NormalizeRule, Header, IsSpace, NormalizeInspection;
    SmallSetHeader(s);
    var f := RuleNormalizer("set");
    SmallRule("set", s.rules[0]);
    SmallRule("set", s.rules[1]);
    CollectExactly(f, RULE_ID, Repeated, s.rules);
    var vs := Values(f, s.rules);
    assert DistinctKeys(RULE_ID, vs);
    SortBySorts(RULE_ID, vs);
    SetHasNoInspections(s, SortBy(RULE_ID, vs));
    var n := NormalizeSet(s).value;
    assert |n.rules| == 2;
    if ProjectionOf(n, a) {
      ServiceIdsDistinctOnInput(s, a);
      GivenDestination(s, s.rules[0]);
      GivenDestination(s, s.rules[1]);
      TwoServices(n, a);
    }
  }

  lemma GivenDestination(s: RuleSet, r: Rule)
    requires r.destinationId == "there"
    ensures DestinationOf(s, r) == "there"
  {
    hide Trim;
    TrimOfNoSpace("there");
  }

  lemma TwoServices(n: RuleSet, a: AccessSet)
    requires |n.rules| == 2 && ProjectionOf(n, a) && !DistinctKeys(SERVICE_ID, a.services)
    ensures |a.services| == 2 && a.services[0].id == a.services[1].id
  {
    hide Projects;
  }

  lemma SmallRule(setId: string, r: Rule)
    requires r.ruleId in {"one", "two"} && r.hostExact == "host" && r.hostWildcard == "" && r.port == 0
    ensures NormalizeRule(setId, r).Ok? && NormalizeRule(setId, r).value.ruleId == r.ruleId
  {
    hide Trim, OrElse, StringList;
    TrimOfNoSpace(r.ruleId);
    TrimOfNoSpace("host");
    TrimOfNoSpace("");
  }

  lemma SmallSetHeader(s: RuleSet)
    requires s.ruleSetId == "set" && s.ownerService == "owner" && s.accounts == ["account"]
    ensures Header(s).ruleSetId == "set" && Header(s).ownerService == "owner" && Header(s).accounts != []
  {
    hide Trim, OrElse, SortBy;
    TrimOfNoSpace("set");
    TrimOfNoSpace("owner");
    TrimOfNoSpace("account");
    SortBySorts(SELF, Deduped(s.accounts));
    assert s.accounts[..0] == [] && Deduped([]) == [];
  }

  lemma SetHasNoInspections(s: RuleSet, rules: seq<Rule>)
    requires s.inspections == []
    ensures CollectInspections(Destinations(rules), s.inspections) == Ok([])
  {
  }
}
