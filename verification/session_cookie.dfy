/** Cookie headers: the Cookie syntax of section 4.2.1 of RFC 6265 and the
    name-value pair of Set-Cookie of section 5.2 of RFC 6265 (session_cookie.go). */
module SessionCookie {
  import opened Text

  type Cookies = map<string, string>

  /** The pair gives the cookie named before its first '=' the value after it. */
  ghost predicate Gives(pair: string, key: string, value: string) {
    exists i :: 0 <= i < |pair| && pair[i] == '=' && Lacks(pair[..i], '=')
                && key == Trim(pair[..i]) && key != "" && value == Trim(pair[i + 1..])
  }

  /** What one pair does to the cookies: set, delete, or nothing. */
  function Applied(m: Cookies, pair: string): Cookies {
    var p := Trim(pair);
    var i := IndexOf(p, '=');
    if i == |p| then m
    else
      var key, value := Trim(p[..i]), Trim(p[i + 1..]);
      if key == "" then m
      else if value == "" then m - {key}
      else m[key := value]
  }

  function AppliedAll(m: Cookies, pairs: seq<string>): Cookies {
    if pairs == [] then m else Applied(AppliedAll(m, pairs[..|pairs| - 1]), pairs[|pairs| - 1])
  }

  function Parse(header: string): Cookies { AppliedAll(map[], Split(header, ';')) }

  function Pair(key: string, value: string): string { Trim(key) + "=" + Trim(value) }

  /** The printed pairs of the keys, in this order; blank values are dropped. */
  function Parts(keys: seq<string>, m: Cookies): seq<string> {
    if keys == [] then []
    else
      var key := keys[|keys| - 1];
      Parts(keys[..|keys| - 1], m) + if key in m && !Blank(m[key]) then [Pair(key, m[key])] else []
  }

  /** strings.Join(parts, "; "). */
  function Join(parts: seq<string>): string {
    if parts == [] then "" else if |parts| == 1 then parts[0] else parts[0] + "; " + Join(parts[1..])
  }

  function NotBlank(keys: seq<string>): (r: seq<string>)
    ensures forall k :: k in r <==> k in keys && !Blank(k)
    ensures (forall i, j :: 0 <= i < j < |keys| ==> keys[i] != keys[j]) ==> forall i, j :: 0 <= i < j < |r| ==> r[i] != r[j]
  {
    if keys == [] then []
    else
      var n := |keys| - 1;
      var rest := NotBlank(keys[..n]);
      assert keys == keys[..n] + [keys[n]];
      if Blank(keys[n]) then rest else rest + [keys[n]]
  }

  /** Map iteration may visit the keys in any order. */
  ghost predicate Enumerates(order: seq<string>, m: Cookies) {
    && (forall i, j :: 0 <= i < j < |order| ==> order[i] != order[j])
    && (forall k :: k in order <==> k in m)
  }

  function HeaderIn(order: seq<string>, m: Cookies): string {
    Join(Parts(SortBy(SELF, NotBlank(order)), m))
  }

  /** Cookies mutated in place. */
  class Jar {
    var cookies: Cookies

    constructor ()
      ensures cookies == map[]
    {
      cookies := map[];
    }

    method ApplyPair(pair: string)
      modifies this
      ensures cookies == Applied(old(cookies), pair)
      ensures forall key, value :: Gives(pair, key, value) ==> cookies == if value == "" then old(cookies) - {key} else old(cookies)[key := value]
      ensures (forall key, value :: !Gives(pair, key, value)) ==> cookies == old(cookies)
    {
      hide Trim, IndexOf, Gives;
      forall key, value ensures Gives(pair, key, value) <==> Named(pair) == Some((key, value)) {
        NamedReads(pair, key, value);
      }
      var p := Trim(pair);
      var i := IndexOf(p, '=');
      if i == |p| {
        return;
      }
      var key, value := Trim(p[..i]), Trim(p[i + 1..]);
      if key == "" {
        return;
      }
      if value == "" {
        cookies := cookies - {key};
        return;
      }
      cookies := cookies[key := value];
    }

    method ApplyAll(pairs: seq<string>)
      modifies this
      ensures cookies == AppliedAll(old(cookies), pairs)
    {
      for i := 0 to |pairs|
        invariant cookies == AppliedAll(old(cookies), pairs[..i])
      {
        assert pairs[..i + 1][..i] == pairs[..i];
        ApplyPair(pairs[i]);
      }
      assert pairs[..|pairs|] == pairs;
    }

    /** The keys, in whatever order the map is visited. */
    method Keys() returns (order: seq<string>)
      ensures Enumerates(order, cookies)
    {
      var left := cookies.Keys;
      order := [];
      while left != {}
        invariant left <= cookies.Keys
        invariant forall i, j :: 0 <= i < j < |order| ==> order[i] != order[j]
        invariant forall k :: k in order <==> k in cookies && k !in left
        decreases |left|
      {
        var k :| k in left;
        order, left := order + [k], left - {k};
      }
    }

    /** Prints the cookies in key order. */
    method Header() returns (header: string)
      ensures exists order :: Enumerates(order, cookies) && header == HeaderIn(order, cookies)
    {
      hide Trim, Blank, Pair, SortBy, Join, NotBlank, Enumerates;
      var order := Keys();
      var keys := SortBy(SELF, NotBlank(order));
      var parts := [];
      for i := 0 to |keys|
        invariant parts == Parts(keys[..i], cookies)
      {
        assert keys[..i + 1][..i] == keys[..i];
        if keys[i] in cookies && !Blank(cookies[keys[i]]) {
          parts := parts + [Pair(keys[i], cookies[keys[i]])];
        }
      }
      assert keys[..|keys|] == keys;
      header := Join(parts);
      assert header == HeaderIn(order, cookies);
    }
  }

  // ----- what parsing leaves

  predicate CleanKey(k: string) { k != "" && Trimmed(k) && Lacks(k, '=') && Lacks(k, ';') }

  predicate CleanValue(v: string) { v != "" && Trimmed(v) && Lacks(v, ';') }

  predicate Clean(m: Cookies) {
    forall k :: k in m ==> CleanKey(k) && CleanValue(m[k])
  }

  lemma LacksTrim(s: string, c: char)
    requires Lacks(s, c)
    ensures Lacks(Trim(s), c)
  {
    hide Trim;
    TrimIsTrimmed(s);
    forall i | 0 <= i < |Trim(s)| ensures Trim(s)[i] != c {
      assert Trim(s)[i] in s;
    }
  }

  lemma PieceLacks(p: string, c: char, i: nat)
    requires Lacks(p, c) && i < |p|
    ensures Lacks(Trim(p[..i]), c) && Lacks(Trim(p[i + 1..]), c)
  {
    hide Trim;
    assert p[..i] == p[0..i] && p[i + 1..] == p[i + 1..|p|];
    LacksSlice(p, c, 0, i);
    LacksSlice(p, c, i + 1, |p|);
    LacksTrim(p[..i], c);
    LacksTrim(p[i + 1..], c);
  }

  lemma AppliedClean(m: Cookies, pair: string)
    requires Clean(m) && Lacks(pair, ';')
    ensures Clean(Applied(m, pair))
  {
    hide Trim, IndexOf, Lacks;
    var p := Trim(pair);
    var i := IndexOf(p, '=');
    LacksTrim(pair, ';');
    if i < |p| {
      PieceLacks(p, ';', i);
      LacksTrim(p[..i], '=');
      TrimIsTrimmed(p[..i]);
      TrimIsTrimmed(p[i + 1..]);
    }
  }

  lemma {:induction false} AppliedAllClean(m: Cookies, pairs: seq<string>)
    requires Clean(m) && forall i :: 0 <= i < |pairs| ==> Lacks(pairs[i], ';')
    ensures Clean(AppliedAll(m, pairs))
  {
    if pairs != [] {
      AppliedAllClean(m, pairs[..|pairs| - 1]);
      AppliedClean(AppliedAll(m, pairs[..|pairs| - 1]), pairs[|pairs| - 1]);
    }
  }

  lemma ParseClean(header: string)
    ensures Clean(Parse(header))
  {
    SplitLacks(header, ';');
    AppliedAllClean(map[], Split(header, ';'));
  }

  // ----- printing and parsing back

  /** A blank in front of a pair changes nothing. */
  lemma AppliedSkipsBlank(m: Cookies, pair: string)
    ensures Applied(m, " " + pair) == Applied(m, pair)
  {
    hide Trim, IndexOf;
    TrimSkips(' ', pair);
  }

  lemma {:induction false} AppliedAllAppend(m: Cookies, a: seq<string>, b: seq<string>)
    ensures AppliedAll(m, a + b) == AppliedAll(AppliedAll(m, a), b)
  {
    if b == [] {
      assert a + b == a;
    } else {
      assert (a + b)[..|a + b| - 1] == a + b[..|b| - 1];
      AppliedAllAppend(m, a, b[..|b| - 1]);
    }
  }

  /** Splitting what Join printed gives the parts back, up to leading blanks. */
  lemma {:induction false} JoinParses(m: Cookies, parts: seq<string>, lead: string)
    requires parts != [] && lead in {"", " "}
    requires forall i :: 0 <= i < |parts| ==> Lacks(parts[i], ';')
    ensures AppliedAll(m, Split(lead + Join(parts), ';')) == AppliedAll(m, parts)
    decreases |parts|
  {
    hide Trim, Applied, Split, Lacks, AppliedAll;
    var first := lead + parts[0];
    var m1 := Applied(m, parts[0]);
    LedLacks(lead, parts[0]);
    assert Applied(m, first) == m1 by {
      if lead == "" { assert first == parts[0]; } else { AppliedSkipsBlank(m, parts[0]); }
    }
    if |parts| == 1 {
      assert lead + Join(parts) == first;
      SplitWhole(first, ';');
      AppliedAllOne(m, first);
      AppliedAllOne(m, parts[0]);
      assert parts == [parts[0]];
    } else {
      var rest := " " + Join(parts[1..]);
      assert lead + Join(parts) == first + [';'] + rest;
      SplitJoin(first, ';', rest);
      AppliedAllAppend(m, [first], Split(rest, ';'));
      AppliedAllOne(m, first);
      JoinParses(m1, parts[1..], " ");
      AppliedAllAppend(m, [parts[0]], parts[1..]);
      AppliedAllOne(m, parts[0]);
      assert parts == [parts[0]] + parts[1..];
    }
  }

  lemma LedLacks(lead: string, part: string)
    requires lead in {"", " "} && Lacks(part, ';')
    ensures Lacks(lead + part, ';')
  {
  }

  lemma AppliedAllOne(m: Cookies, pair: string)
    ensures AppliedAll(m, [pair]) == Applied(m, pair)
  {
    hide Applied;
    assert [pair][..0] == [];
    assert AppliedAll(m, []) == m;
  }

  lemma AppliedPair(m: Cookies, key: string, value: string)
    requires CleanKey(key) && CleanValue(value)
    ensures Lacks(Pair(key, value), ';') && Applied(m, Pair(key, value)) == m[key := value]
  {
    hide Trim, IndexOf;
    var p := Pair(key, value);
    TrimOfTrimmed(key);
    TrimOfTrimmed(value);
    assert p == key + "=" + value;
    assert p[0] == key[0] && p[|p| - 1] == value[|value| - 1];
    TrimOfTrimmed(p);
    IndexOfFirst(p, '=', |key|);
    assert p[..|key|] == key && p[|key| + 1..] == value;
  }

  /** Only the cookies under the given keys. */
  function Restricted(m: Cookies, keys: seq<string>): Cookies {
    map k | k in m && k in keys :: m[k]
  }

  /** What the printed pairs of some keys read back as. */
  ghost predicate ReadsBack(keys: seq<string>, m: Cookies) {
    && (forall i :: 0 <= i < |Parts(keys, m)| ==> Lacks(Parts(keys, m)[i], ';'))
    && AppliedAll(map[], Parts(keys, m)) == Restricted(m, keys)
    && (keys != [] ==> Parts(keys, m) != [])
  }

  lemma ReadsBackNext(keys: seq<string>, key: string, m: Cookies)
    requires ReadsBack(keys, m) && key in m && CleanKey(key) && CleanValue(m[key])
    ensures ReadsBack(keys + [key], m)
  {
    hide Trim, Applied, AppliedAll, Parts, Lacks, Pair, CleanKey, CleanValue;
    var parts, pair := Parts(keys, m), Pair(key, m[key]);
    PartsNext(keys, key, m);
    AppliedPair(AppliedAll(map[], parts), key, m[key]);
    AppliedAllAppend(map[], parts, [pair]);
    AppliedAllOne(AppliedAll(map[], parts), pair);
    assert Restricted(m, keys + [key]) == Restricted(m, keys)[key := m[key]];
  }

  lemma PartsNext(keys: seq<string>, key: string, m: Cookies)
    requires key in m && CleanValue(m[key])
    ensures Parts(keys + [key], m) == Parts(keys, m) + [Pair(key, m[key])]
  {
    hide Trim, Pair, CleanValue;
    CleanIsNotBlank(m[key]);
    assert (keys + [key])[..|keys|] == keys;
  }

  lemma CleanIsNotBlank(v: string)
    ensures CleanValue(v) ==> !Blank(v)
    ensures CleanKey(v) ==> !Blank(v)
  {
    hide Trim;
    if Trimmed(v) {
      TrimOfTrimmed(v);
    }
  }

  /** Reading back the printed pairs of some keys gives exactly those keys. */
  lemma {:induction false} PartsRead(keys: seq<string>, m: Cookies)
    requires Clean(m) && forall k :: k in keys ==> k in m
    ensures ReadsBack(keys, m)
  {
    hide CleanKey, CleanValue, ReadsBack;
    if keys == [] {
      NothingReadsBack(m);
    } else {
      var n := |keys| - 1;
      assert keys == keys[..n] + [keys[n]];
      assert keys[n] in m;
      PartsRead(keys[..n], m);
      ReadsBackNext(keys[..n], keys[n], m);
    }
  }

  lemma NothingReadsBack(m: Cookies)
    ensures ReadsBack([], m)
  {
    assert Restricted(m, []) == map[];
  }

  lemma ParseOfHeader(order: seq<string>, m: Cookies)
    requires Clean(m) && Enumerates(order, m)
    ensures Parse(HeaderIn(order, m)) == m
  {
    hide Trim, Applied, CleanKey, CleanValue, Split, Join, Parts, NotBlank, AppliedAll, Lacks, SortBy;
    var keys := SortBy(SELF, NotBlank(order));
    SortBySorts(SELF, NotBlank(order));
    SameMultisetSameMembers(keys, NotBlank(order));
    forall k | k in m ensures k in keys {
      CleanIsNotBlank(k);
    }
    PartsRead(keys, m);
    var parts := Parts(keys, m);
    assert Restricted(m, keys) == m;
    if parts == [] {
      NoParts();
    } else {
      JoinParses(map[], parts, "");
      assert "" + Join(parts) == Join(parts);
    }
  }

  lemma NoParts()
    ensures Parse(Join([])) == map[] == AppliedAll(map[], [])
  {
    hide Split, Applied;
    ParseOfNothing();
  }

  lemma ParseOfNothing()
    ensures Parse("") == map[]
  {
    SplitWhole("", ';');
    AppliedAllOne(map[], "");
  }

  /** Cookie round trip, for every string. */
  lemma CookieRoundTrip(s: string, order: seq<string>)
    requires Enumerates(order, Parse(s))
    ensures Parse(HeaderIn(order, Parse(s))) == Parse(s)
  {
    ParseClean(s);
    ParseOfHeader(order, Parse(s));
  }

  /** Equal maps print the same, in strictly increasing key order, however iterated. */
  lemma HeaderIgnoresOrder(o1: seq<string>, o2: seq<string>, m: Cookies)
    requires Enumerates(o1, m) && Enumerates(o2, m)
    ensures HeaderIn(o1, m) == HeaderIn(o2, m)
    ensures StrictlySortedBy(SELF, SortBy(SELF, NotBlank(o1)))
  {
    hide Blank, Parts, Join;
    var k1, k2 := NotBlank(o1), NotBlank(o2);
    assert DistinctKeys(SELF, k1) && DistinctKeys(SELF, k2);
    SortByForgetsOrder(SELF, k1, k1);
    SortByForgetsOrder(SELF, k2, k2);
    SameMultisetSameMembers(SortBy(SELF, k1), k1);
    SameMultisetSameMembers(SortBy(SELF, k2), k2);
    StrictlySortedUnique(SELF, SortBy(SELF, k1), SortBy(SELF, k2));
  }

  // ----- merging a response into a request

  const PREFIX: string := "set-cookie:"

  /** The name-value pair of one Set-Cookie line, with or without the header name. */
  function SetCookiePair(line: string): string {
    var h := Trim(line);
    var value := if PREFIX <= Lower(h) then Trim(h[|PREFIX|..]) else h;
    value[..IndexOf(value, ';')]
  }

  function PairsOf(lines: seq<string>): seq<string> {
    seq(|lines|, i requires 0 <= i < |lines| => SetCookiePair(lines[i]))
  }

  function Merged(request: string, response: string): Cookies {
    AppliedAll(Parse(request), PairsOf(Split(response, '\n')))
  }

  method Merge(request: string, response: string) returns (header: string)
    ensures exists order :: Enumerates(order, Merged(request, response)) && header == HeaderIn(order, Merged(request, response))
    ensures forall key, value :: MergedTo(request, response, header, key, value)
  {
    hide Applied, SetCookiePair, Enumerates, HeaderIn, MergedTo;
    var jar := new Jar();
    jar.ApplyAll(Split(request, ';'));
    var lines := Split(response, '\n');
    for i := 0 to |lines|
      invariant jar.cookies == AppliedAll(Parse(request), PairsOf(lines[..i]))
    {
      assert PairsOf(lines[..i + 1])[..i] == PairsOf(lines[..i]);
      jar.ApplyPair(SetCookiePair(lines[i]));
    }
    assert lines[..|lines|] == lines;
    assert jar.cookies == Merged(request, response);
    header := jar.Header();
    ghost var order :| Enumerates(order, Merged(request, response)) && header == HeaderIn(order, Merged(request, response));
    forall key, value ensures MergedTo(request, response, header, key, value) {
      MergeByLines(request, response, order, key, value);
    }
  }

  /** The cookie a pair names and the value it gives, possibly empty. */
  function Named(pair: string): Option<(string, string)> {
    var p := Trim(pair);
    var i := IndexOf(p, '=');
    if i == |p| || Trim(p[..i]) == "" then None else Some((Trim(p[..i]), Trim(p[i + 1..])))
  }

  /** Trimming a pair first makes no difference. */
  lemma NamedReads(pair: string, key: string, value: string)
    ensures Named(pair) == Some((key, value)) <==> Gives(pair, key, value)
  {
    hide Trim, IndexOf, IsSpace;
    var p := Trim(pair);
    var a, b := TrimExactly(pair);
    if Named(pair) == Some((key, value)) {
      var k := IndexOf(p, '=');
      SplitAround(a, p, b, k);
      assert pair[|a| + k] == '=' && Lacks(pair[..|a| + k], '=');
    }
    if i :| 0 <= i < |pair| && pair[i] == '=' && Lacks(pair[..i], '=') && key == Trim(pair[..i]) && key != "" && value == Trim(pair[i + 1..]) {
      assert i >= |a| by {
        if i < |a| {
          assert IsSpace(a[i]);
          EqualsIsNoSpace();
        }
      }
      assert i < |a| + |p| by {
        if i >= |a| + |p| {
          assert IsSpace(b[i - |a| - |p|]);
          EqualsIsNoSpace();
        }
      }
      forall k | 0 <= k < i - |a| ensures p[k] != '=' {
        assert pair[..i][|a| + k] == p[k];
      }
      IndexOfFirst(p, '=', i - |a|);
      SplitAround(a, p, b, i - |a|);
    }
  }

  lemma EqualsIsNoSpace()
    ensures !IsSpace('=')
  {
  }

  lemma SplitAround(a: string, p: string, b: string, k: nat)
    requires AllSpace(a) && AllSpace(b) && k < |p| && p[k] == '='
    ensures var pair := a + p + b; Trim(pair[..|a| + k]) == Trim(p[..k]) && Trim(pair[|a| + k + 1..]) == Trim(p[k + 1..])
    ensures var pair := a + p + b; Lacks(p[..k], '=') ==> Lacks(pair[..|a| + k], '=')
  {
    hide Trim, IsSpace;
    var pair := a + p + b;
    assert pair[..|a| + k] == a + p[..k] + [] && pair[|a| + k + 1..] == [] + p[k + 1..] + b;
    TrimAround(a, p[..k], []);
    TrimAround([], p[k + 1..], b);
    if Lacks(p[..k], '=') {
      var front := pair[..|a| + k];
      forall i | 0 <= i < |front| ensures front[i] != '=' {
        EqualsIsNoSpace();
        assert i < |a| ==> IsSpace(a[i]);
        assert i >= |a| ==> pair[i] == p[..k][i - |a|];
      }
    }
  }

  /** The value given by the last pair that names the key. */
  function LastValue(pairs: seq<string>, key: string): Option<string> {
    if pairs == [] then None
    else
      var named := Named(pairs[|pairs| - 1]);
      if named.Some? && named.value.0 == key then Some(named.value.1) else LastValue(pairs[..|pairs| - 1], key)
  }

  function Lookup(m: Cookies, key: string): Option<string> {
    if key in m then Some(m[key]) else None
  }

  lemma AppliedNamed(m: Cookies, pair: string, key: string)
    ensures Lookup(Applied(m, pair), key) ==
            if Named(pair).Some? && Named(pair).value.0 == key then
              if Named(pair).value.1 == "" then None else Some(Named(pair).value.1)
            else Lookup(m, key)
  {
    hide Trim, IndexOf;
  }

  /** Applying pairs is a last-writer override with deletion. */
  lemma {:induction false} LastWriterWins(m: Cookies, pairs: seq<string>, key: string)
    ensures Lookup(AppliedAll(m, pairs), key) ==
            match LastValue(pairs, key)
            case Some(v) => if v == "" then None else Some(v)
            case None => Lookup(m, key)
  {
    hide Applied, Named, Lookup;
    if pairs != [] {
      var prior := pairs[..|pairs| - 1];
      LastWriterWins(m, prior, key);
      AppliedNamed(AppliedAll(m, prior), pairs[|pairs| - 1], key);
    }
  }

  /** The last pair that names the cookie gives it this value. */
  ghost predicate LastGives(pairs: seq<string>, key: string, value: string) {
    exists i :: 0 <= i < |pairs| && Gives(pairs[i], key, value) && forall j, w :: i < j < |pairs| ==> !Gives(pairs[j], key, w)
  }

  ghost predicate NoneGives(pairs: seq<string>, key: string) {
    forall j, w :: 0 <= j < |pairs| ==> !Gives(pairs[j], key, w)
  }

  lemma {:induction false} LastValueReads(pairs: seq<string>, key: string)
    ensures forall v :: LastValue(pairs, key) == Some(v) <==> LastGives(pairs, key, v)
    ensures LastValue(pairs, key).None? <==> NoneGives(pairs, key)
  {
    hide Named, Gives;
    if pairs != [] {
      var n := |pairs| - 1;
      var last := Named(pairs[n]);
      forall v ensures last == Some((key, v)) <==> Gives(pairs[n], key, v) {
        NamedReads(pairs[n], key, v);
      }
      var prior := pairs[..n];
      assert pairs == prior + [pairs[n]];
      if last.Some? && last.value.0 == key {
        assert last == Some((key, last.value.1));
        LastIsLast(prior, pairs[n], key, last.value.1);
      } else {
        LastValueReads(prior, key);
        LastIsEarlier(prior, pairs[n], key);
      }
    }
  }

  lemma LastIsLast(prior: seq<string>, last: string, key: string, value: string)
    requires Gives(last, key, value) && forall v :: Gives(last, key, v) ==> v == value
    ensures forall v :: LastGives(prior + [last], key, v) <==> v == value
    ensures !NoneGives(prior + [last], key)
  {
    hide Gives;
    assert (prior + [last])[|prior|] == last;
  }

  lemma LastIsEarlier(prior: seq<string>, last: string, key: string)
    requires forall v :: !Gives(last, key, v)
    ensures forall v :: LastGives(prior + [last], key, v) <==> LastGives(prior, key, v)
    ensures NoneGives(prior + [last], key) <==> NoneGives(prior, key)
  {
    hide Gives;
    var n, pairs := |prior|, prior + [last];
    assert pairs[n] == last && forall i :: 0 <= i < n ==> prior[i] == pairs[i];
    forall v ensures LastGives(pairs, key, v) <==> LastGives(prior, key, v) {
      if i :| 0 <= i < |pairs| && Gives(pairs[i], key, v) && forall j, w :: i < j < |pairs| ==> !Gives(pairs[j], key, w) {
        assert Gives(prior[i], key, v);
      }
      if i :| 0 <= i < n && Gives(prior[i], key, v) && forall j, w :: i < j < n ==> !Gives(prior[j], key, w) {
        assert Gives(pairs[i], key, v);
      }
    }
  }

  lemma SameCookies(a: Cookies, b: Cookies)
    requires forall k :: Lookup(a, k) == Lookup(b, k)
    ensures a == b
  {
    forall k ensures k in a <==> k in b {
      assert Lookup(a, k) == Lookup(b, k);
    }
    forall k | k in a ensures a[k] == b[k] {
      assert Lookup(a, k) == Lookup(b, k);
    }
  }

  lemma SetCookiePairLacks(line: string)
    ensures Lacks(SetCookiePair(line), ';')
  {
    hide Trim;
  }

  lemma MergedClean(request: string, response: string)
    ensures Clean(Merged(request, response))
  {
    ParseClean(request);
    var lines := Split(response, '\n');
    forall i | 0 <= i < |lines| ensures Lacks(PairsOf(lines)[i], ';') {
      SetCookiePairLacks(lines[i]);
    }
    AppliedAllClean(Parse(request), PairsOf(lines));
  }

  /** After a merge each cookie has the value of the last Set-Cookie line that names it,
      is absent if that value is empty, and else keeps its request value. */
  lemma MergeIsLastWriter(request: string, response: string, order: seq<string>, key: string)
    requires Enumerates(order, Merged(request, response))
    ensures Lookup(Parse(HeaderIn(order, Merged(request, response))), key) ==
            match LastValue(PairsOf(Split(response, '\n')), key)
            case Some(v) => if v == "" then None else Some(v)
            case None => Lookup(Parse(request), key)
  {
    hide Applied, LastValue, Split, HeaderIn;
    MergedClean(request, response);
    ParseOfHeader(order, Merged(request, response));
    LastWriterWins(Parse(request), PairsOf(Split(response, '\n')), key);
  }

  /** Merging the same response twice is merging it once. */
  lemma MergeTwice(request: string, response: string, order: seq<string>, order2: seq<string>)
    requires Enumerates(order, Merged(request, response))
    requires var again := Merged(HeaderIn(order, Merged(request, response)), response); Enumerates(order2, again)
    ensures var again := Merged(HeaderIn(order, Merged(request, response)), response);
            HeaderIn(order2, again) == HeaderIn(order, Merged(request, response))
  {
    hide Applied, LastValue, Split, HeaderIn, Enumerates, Parse, Lookup;
    var once, pairs := Merged(request, response), PairsOf(Split(response, '\n'));
    MergedClean(request, response);
    ParseOfHeader(order, once);
    forall key ensures Lookup(AppliedAll(once, pairs), key) == Lookup(once, key) {
      LastWriterWins(once, pairs, key);
      LastWriterWins(Parse(request), pairs, key);
    }
    SameCookies(AppliedAll(once, pairs), once);
    HeaderIgnoresOrder(order2, order, once);
  }

  // ----- a merge by the lines of its texts

  /** The text starts with the header name, in any case. */
  predicate Prefixed(h: string) {
    |h| >= 11 && forall i :: 0 <= i < 11 ==> LowerChar(h[i]) == "set-cookie:"[i]
  }

  /** The pair of a line: what stands before the first ';', after the header name if there is one. */
  predicate LineReads(line: string, pair: string) {
    var h := Trim(line);
    var value := if Prefixed(h) then Trim(h[11..]) else h;
    pair <= value && Lacks(pair, ';') && (|pair| < |value| ==> value[|pair|] == ';')
  }

  lemma LinePair(line: string)
    ensures LineReads(line, SetCookiePair(line))
    ensures forall pair :: LineReads(line, pair) ==> pair == SetCookiePair(line)
  {
    hide Trim, LowerChar;
    var h := Trim(line);
    assert PREFIX <= Lower(h) <==> Prefixed(h);
    var value := if Prefixed(h) then Trim(h[11..]) else h;
    forall pair | LineReads(line, pair) ensures |pair| == IndexOf(value, ';') {
      if |pair| < |value| {
        IndexOfFirst(value, ';', |pair|);
      }
    }
  }

  /** A pair that begins and ends without blanks keeps its place when the line is trimmed. */
  lemma TrimKeeps(front: string, rest: string) returns (kept: string)
    requires front != "" && Trimmed(front) && (rest == "" || rest[0] == ';')
    ensures Trim(front + rest) == front + kept && (kept == "" || kept[0] == ';') && Trimmed(front + kept)
  {
    hide TrimLeft, TrimRight, IsSpace;
    var line := front + rest;
    var h := Trim(line);
    assert line[0] == front[0] && line[|front| - 1] == front[|front| - 1];
    TrimLeftDrops(line);
    assert !IsSpace(line[0]);
    assert TrimLeft(line) == line;
    TrimRightDrops(line);
    assert !IsSpace(line[|front| - 1]);
    TrimIsTrimmed(line);
    kept := h[|front|..];
    assert h == line[..|h|];
    assert line[..|h|][..|front|] == front;
    assert h == front + kept;
    assert kept != "" ==> kept[0] == line[|front|] == rest[0];
  }

  lemma CleanPair(key: string, value: string)
    requires CleanKey(key) && CleanValue(value)
    ensures var pair := key + "=" + value; Trimmed(pair) && Lacks(pair, ';') && Named(pair) == Some((key, value))
  {
    hide Trim, IsSpace, Named;
    var pair := key + "=" + value;
    assert pair[..|key|] == key && pair[|key| + 1..] == value && pair[|key|] == '=';
    assert pair[0] == key[0] && pair[|pair| - 1] == value[|value| - 1];
    TrimOfTrimmed(key);
    TrimOfTrimmed(value);
    assert Gives(pair, key, value);
    NamedReads(pair, key, value);
  }

  lemma PrefixNeedsName(key: string, rest: string)
    requires Lacks(key, '=') && Prefixed(key + "=" + rest)
    ensures Prefixed(key)
  {
    var h := key + "=" + rest;
    assert h[|key|] == '=';
    assert forall i :: 0 <= i < 11 && i < |key| ==> h[i] == key[i];
  }

  lemma PairBefore(pair: string, kept: string, line: string)
    requires Lacks(pair, ';') && (kept == "" || kept[0] == ';')
    requires var h := Trim(line); pair + kept == if Prefixed(h) then Trim(h[11..]) else h
    ensures SetCookiePair(line) == pair
  {
    hide Trim, Prefixed;
    LinePair(line);
    assert (pair + kept)[..|pair|] == pair;
    assert kept != "" ==> (pair + kept)[|pair|] == kept[0];
    assert LineReads(line, pair);
  }

  /** A line that sets a clean cookie, behind a header name in any case or none, and before attributes. */
  lemma SetCookieLine(name: string, key: string, value: string, attributes: string)
    requires CleanKey(key) && CleanValue(value) && (attributes == "" || attributes[0] == ';')
    requires (|name| == 11 && Prefixed(name)) || (name == "" && !Prefixed(key))
    ensures Named(SetCookiePair(name + key + "=" + value + attributes)) == Some((key, value))
  {
    hide Trim, IsSpace, Prefixed, Named, SetCookiePair;
    var pair := key + "=" + value;
    var line := name + key + "=" + value + attributes;
    CleanPair(key, value);
    NamedLine(name, pair);
    var kept := TrimKeeps(name + pair, attributes);
    assert line == name + pair + attributes;
    var h := Trim(line);
    assert h == name + (pair + kept);
    if name == "" {
      BareBody(key, value, kept, h);
    } else {
      PrefixedBody(name, pair, kept);
    }
    PairBefore(pair, kept, line);
  }

  lemma BareBody(key: string, value: string, kept: string, h: string)
    requires Lacks(key, '=') && !Prefixed(key) && h == "" + (key + "=" + value + kept)
    ensures !Prefixed(h) && h == key + "=" + value + kept
  {
    hide Prefixed, Lacks;
    assert h == key + "=" + (value + kept);
    if Prefixed(h) {
      PrefixNeedsName(key, value + kept);
    }
  }

  lemma PrefixedBody(name: string, pair: string, kept: string)
    requires |name| == 11 && Prefixed(name) && pair != "" && Trimmed(pair) && Trimmed(name + pair + kept)
    ensures var h := name + (pair + kept); Prefixed(h) && Trim(h[11..]) == pair + kept
  {
    hide Trim, IsSpace, Prefixed;
    var h := name + (pair + kept);
    assert h == name + pair + kept && h[11..] == pair + kept;
    PrefixedLonger(name, pair + kept);
    assert (pair + kept)[0] == pair[0] && (pair + kept)[|pair + kept| - 1] == h[|h| - 1];
    TrimOfTrimmed(pair + kept);
  }

  lemma PrefixedLonger(name: string, rest: string)
    requires |name| == 11 && Prefixed(name)
    ensures Prefixed(name + rest)
  {
    hide LowerChar;
  }

  lemma NamedLine(name: string, pair: string)
    requires pair != "" && Trimmed(pair) && (name == "" || (|name| == 11 && Prefixed(name)))
    ensures Trimmed(name + pair)
  {
    var line := name + pair;
    assert line[|line| - 1] == pair[|pair| - 1];
    if name == "" {
      assert line == pair;
    } else {
      assert LowerChar(line[0]) == 's';
    }
  }

  /** The last line whose pair names the cookie gives it this value. */
  ghost predicate LastLine(lines: seq<string>, key: string, value: string) {
    exists pairs :: LinesRead(lines, pairs) && LastGives(pairs, key, value)
  }

  ghost predicate LinesRead(lines: seq<string>, pairs: seq<string>) {
    |pairs| == |lines| && forall i :: 0 <= i < |lines| ==> LineReads(lines[i], pairs[i])
  }

  lemma PairsRead(lines: seq<string>)
    ensures LinesRead(lines, PairsOf(lines))
    ensures forall pairs :: LinesRead(lines, pairs) ==> pairs == PairsOf(lines)
  {
    hide LineReads, SetCookiePair;
    forall i | 0 <= i < |lines| ensures LineReads(lines[i], PairsOf(lines)[i]) {
      LinePair(lines[i]);
    }
    forall pairs | LinesRead(lines, pairs) ensures pairs == PairsOf(lines) {
      forall i | 0 <= i < |lines| ensures pairs[i] == PairsOf(lines)[i] {
        LinePair(lines[i]);
      }
    }
  }

  /** What a cookie header holds: the value of the last pair that names the cookie, unless it is empty. */
  lemma ParseReads(header: string, key: string, value: string)
    ensures key in Parse(header) && Parse(header)[key] == value <==> value != "" && LastGives(Split(header, ';'), key, value)
  {
    hide Split, Applied, LastGives;
    LastWriterWins(map[], Split(header, ';'), key);
    LastValueReads(Split(header, ';'), key);
  }

  /** A merged header holds the value of the last line that names the cookie, or, if no line
      does, of the last pair of the request; unless that value is empty. */
  ghost predicate MergedTo(request: string, response: string, header: string, key: string, value: string) {
    var m, lines := Parse(header), Split(response, '\n');
    key in m && m[key] == value
    <==> value != "" && (LastLine(lines, key, value) || (NoLine(lines, key) && LastGives(Split(request, ';'), key, value)))
  }

  lemma MergeByLines(request: string, response: string, order: seq<string>, key: string, value: string)
    requires Enumerates(order, Merged(request, response))
    ensures MergedTo(request, response, HeaderIn(order, Merged(request, response)), key, value)
  {
    hide Split, LastGives, NoneGives, HeaderIn, Parse, LastValue, Merged, LinesRead;
    var lines := Split(response, '\n');
    MergeIsLastWriter(request, response, order, key);
    PairsRead(lines);
    LastValueReads(PairsOf(lines), key);
    ParseReads(request, key, value);
  }

  ghost predicate NoLine(lines: seq<string>, key: string) {
    exists pairs :: LinesRead(lines, pairs) && NoneGives(pairs, key)
  }

  // ----- the header as a text

  lemma {:induction false} PartsFirst(key: string, keys: seq<string>, m: Cookies)
    requires key in m && CleanValue(m[key]) && key !in keys
    ensures Parts([key] + keys, m) == [Pair(key, m[key])] + Parts(keys, m - {key})
  {
    hide Trim, Pair, CleanValue, Blank;
    if keys == [] {
      CleanIsNotBlank(m[key]);
      assert [key] + keys == [key] && [key][..0] == [];
    } else {
      var n := |keys| - 1;
      assert ([key] + keys)[..|keys|] == [key] + keys[..n];
      PartsFirst(key, keys[..n], m);
    }
  }

  /** Every key of clean cookies is printed. */
  lemma CleanKeysPrinted(order: seq<string>, m: Cookies) returns (keys: seq<string>)
    requires Clean(m) && Enumerates(order, m)
    ensures keys == SortBy(SELF, NotBlank(order)) && StrictlySortedBy(SELF, keys) && forall k :: k in keys <==> k in m
  {
    hide Trim, Less, SortBy, CleanKey, CleanValue, Blank;
    keys := SortBy(SELF, NotBlank(order));
    HeaderIgnoresOrder(order, order, m);
    SortBySorts(SELF, NotBlank(order));
    SameMultisetSameMembers(keys, NotBlank(order));
    forall k | k in m ensures k in keys {
      CleanIsNotBlank(k);
    }
  }

  lemma LeastFirst(order: seq<string>, rest: seq<string>, m: Cookies, key: string)
    requires Clean(m) && key in m && (forall k :: k in m && k != key ==> Less(key, k))
    requires Enumerates(order, m) && Enumerates(rest, m - {key})
    ensures SortBy(SELF, NotBlank(order)) == [key] + SortBy(SELF, NotBlank(rest))
    ensures forall k :: k in SortBy(SELF, NotBlank(rest)) <==> k in m && k != key
  {
    hide Trim, Less, SortBy, CleanKey, CleanValue, NotBlank, Enumerates;
    var keys := CleanKeysPrinted(order, m);
    var others := CleanKeysPrinted(rest, m - {key});
    var all := [key] + others;
    forall i, j | 0 <= i < j < |all| ensures Less(all[i], all[j]) {
      if i == 0 {
        assert all[j] == others[j - 1] && others[j - 1] in others;
      } else {
        assert Less(SELF(others[i - 1]), SELF(others[j - 1]));
      }
    }
    StrictlySortedUnique(SELF, keys, all);
  }

  lemma JoinFirst(first: string, parts: seq<string>)
    ensures Join([first] + parts) == first + if parts == [] then "" else "; " + Join(parts)
  {
    assert ([first] + parts)[1..] == parts;
  }

  /** The header starts with the cookie of the least key; the others follow after "; ". */
  lemma HeaderLeast(order: seq<string>, rest: seq<string>, m: Cookies, key: string)
    requires Clean(m) && key in m && (forall k :: k in m && k != key ==> Less(key, k))
    requires Enumerates(order, m) && Enumerates(rest, m - {key})
    ensures HeaderIn(order, m) == key + "=" + m[key] + if rest == [] then "" else "; " + HeaderIn(rest, m - {key})
  {
    hide Trim, Less, SortBy, NotBlank, Parts, Join;
    var others := SortBy(SELF, NotBlank(rest));
    LeastFirst(order, rest, m, key);
    PartsFirst(key, others, m);
    PartsRead(others, m - {key});
    var parts := Parts(others, m - {key});
    TrimOfTrimmed(key);
    TrimOfTrimmed(m[key]);
    if rest == [] {
      assert forall k :: k in m - {key} <==> k in rest;
      NoMembers(others);
      NoPartsOf(m - {key});
    } else {
      assert rest[0] in rest && rest[0] in others;
    }
    JoinFirst(Pair(key, m[key]), parts);
    assert HeaderIn(order, m) == Pair(key, m[key]) + if parts == [] then "" else "; " + Join(parts);
  }

  lemma NoMembers(s: seq<string>)
    ensures (forall k :: k !in s) ==> s == []
  {
    if s != [] {
      assert s[0] in s;
    }
  }

  lemma NoPartsOf(m: Cookies)
    ensures Parts([], m) == []
  {
  }
}
