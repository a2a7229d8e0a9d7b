/** Base-URL templates of API-key surfaces (surface_api_key_base_url.go). */
module BaseUrlTemplate {
  import opened Text

  // ----- the tokeniser

  predicate Word(c: char) {
    'a' <= c <= 'z' || 'A' <= c <= 'Z' || '0' <= c <= '9' || c == '_'
  }

  function WordRun(s: string, i: nat): (n: nat)
    requires i <= |s|
    ensures i + n <= |s|
    ensures forall k :: i <= k < i + n ==> Word(s[k])
    ensures i + n < |s| ==> !Word(s[i + n])
    decreases |s| - i
  {
    if i == |s| || !Word(s[i]) then 0 else 1 + WordRun(s, i + 1)
  }

  /** One match of the token pattern: text[start..end] is a name in braces. */
  datatype Token = Token(start: nat, end: nat)

  /** The end of a token that starts at i: an opening brace, a name, a closing brace. */
  function TokenEnd(s: string, i: nat): (end: Option<nat>)
    requires i < |s|
    ensures end.Some? ==> i + 3 <= end.value <= |s| && s[i] == '{' && s[end.value - 1] == '}'
                          && forall k :: i < k < end.value - 1 ==> Word(s[k])
  {
    var n := if s[i] == '{' then WordRun(s, i + 1) else 0;
    if n > 0 && i + 1 + n < |s| && s[i + 1 + n] == '}' then Some(i + n + 2) else None
  }

  /** FindAll: leftmost tokens, one after the other. */
  function Tokens(s: string, i: nat): (ts: seq<Token>)
    requires i <= |s|
    ensures InOrder(ts, i, |s|)
    decreases |s| - i
  {
    if i == |s| then []
    else match TokenEnd(s, i)
         case Some(end) => [Token(i, end)] + Tokens(s, end)
         case None => Tokens(s, i + 1)
  }

  predicate InOrder(ts: seq<Token>, from: nat, to: nat) {
    if ts == [] then from <= to
    else from <= ts[0].start < ts[0].end <= to && InOrder(ts[1..], ts[0].end, to)
  }

  /** A letter, digit or underscore of ASCII, by its code. */
  predicate NameCode(n: int) { 97 <= n <= 122 || 65 <= n <= 90 || 48 <= n <= 57 || n == 95 }

  /** s[i..end] is a name in braces. */
  predicate TokenAt(s: string, i: nat, end: nat) {
    i + 3 <= end <= |s| && s[i] == '{' && s[end - 1] == '}' && forall k :: i < k < end - 1 ==> NameCode(s[k] as int)
  }

  lemma TokenEndReads(s: string, i: nat, end: nat)
    requires i < |s|
    ensures TokenEnd(s, i) == Some(end) <==> TokenAt(s, i, end)
  {
    if TokenAt(s, i, end) {
      var n := WordRun(s, i + 1);
      assert !Word(s[end - 1]) && i + 1 + n <= end - 1;
    }
  }

  /** The tokens are all the names in braces, in order; no two of them overlap. */
  lemma {:induction false} TokensExactly(s: string, i: nat)
    requires i <= |s|
    ensures forall start: nat, end: nat :: Token(start, end) in Tokens(s, i) <==> i <= start && TokenAt(s, start, end)
    decreases |s| - i
  {
    hide TokenEnd, TokenAt;
    if i == |s| {
      NoTokenAtEnd(s);
    } else {
      forall end: nat ensures TokenEnd(s, i) == Some(end) <==> TokenAt(s, i, end) {
        TokenEndReads(s, i, end);
      }
      match TokenEnd(s, i)
      case Some(end) =>
        TokensExactly(s, end);
        forall start: nat, e: nat | i < start < end ensures !TokenAt(s, start, e) {
          NoTokenInside(s, i, end, start, e);
        }
      case None =>
        TokensExactly(s, i + 1);
    }
  }

  lemma NoTokenAtEnd(s: string)
    ensures forall start: nat, end: nat :: TokenAt(s, start, end) ==> start < |s|
  {
  }

  lemma NoTokenInside(s: string, i: nat, end: nat, start: nat, e: nat)
    requires TokenAt(s, i, end) && i < start < end
    ensures !TokenAt(s, start, e)
  {
  }

  function Name(s: string, t: Token): string {
    if t.start + 1 <= t.end - 1 <= |s| then s[t.start + 1..t.end - 1] else ""
  }

  function Names(s: string, ts: seq<Token>): (names: seq<string>)
    ensures |names| == |ts|
  {
    if ts == [] then [] else [Name(s, ts[0])] + Names(s, ts[1..])
  }

  function Distinct(names: seq<string>): seq<string> {
    if names == [] then []
    else
      var rest := Distinct(names[..|names| - 1]);
      if names[|names| - 1] in rest then rest else rest + [names[|names| - 1]]
  }

  /** surfaceAPIKeyBaseURLTemplateFields: each field once, in order. */
  method TemplateFields(s: string) returns (out: seq<string>)
    ensures out == Distinct(Names(s, Tokens(s, 0)))
  {
    var names := Names(s, Tokens(s, 0));
    var seen: set<string> := {};
    out := [];
    for i := 0 to |names|
      invariant out == Distinct(names[..i])
      invariant forall x :: x in seen <==> x in out
    {
      assert names[..i + 1][..i] == names[..i];
      if names[i] !in seen {
        seen := seen + {names[i]};
        out := out + [names[i]];
      }
    }
    assert names[..|names|] == names;
  }

  /** Names that do not repeat are all kept as they stand. */
  lemma {:induction false} DistinctKeeps(names: seq<string>)
    requires forall i, j :: 0 <= i < j < |names| ==> names[i] != names[j]
    ensures Distinct(names) == names
  {
    if names != [] {
      var n := |names| - 1;
      assert names == names[..n] + [names[n]];
      DistinctKeeps(names[..n]);
    }
  }

  lemma {:induction false} DistinctLength(names: seq<string>)
    ensures |Distinct(names)| <= |names|
    ensures forall x :: x in Distinct(names) <==> x in names
    ensures |Distinct(names)| == |names| <==> forall i, j :: 0 <= i < j < |names| ==> names[i] != names[j]
  {
    if names != [] {
      var n := |names| - 1;
      DistinctLength(names[..n]);
      assert names == names[..n] + [names[n]];
      if names[n] in names[..n] {
        var k :| 0 <= k < n && names[..n][k] == names[n];
        assert names[k] == names[n];
      } else {
        assert forall i :: 0 <= i < n ==> names[..n][i] == names[i];
      }
    }
  }

  // ----- the pattern: literals around one group for every token

  /** The text between the tokens. */
  function Literals(s: string, ts: seq<Token>, last: nat): (lits: seq<string>)
    requires InOrder(ts, last, |s|)
    ensures |lits| == |ts| + 1
    decreases |ts|
  {
    if ts == [] then [s[last..]]
    else [s[last..ts[0].start]] + Literals(s, ts[1..], ts[0].end)
  }

  /** Tokens one after the other between two positions. */
  predicate Ordered(ts: seq<Token>, from: nat, to: nat) {
    && (forall j :: 0 <= j < |ts| ==> from <= ts[j].start < ts[j].end <= to)
    && forall j, k :: 0 <= j < k < |ts| ==> ts[j].end <= ts[k].start
  }

  lemma {:induction false} InOrderIsOrdered(ts: seq<Token>, from: nat, to: nat)
    requires InOrder(ts, from, to)
    ensures Ordered(ts, from, to)
  {
    if ts != [] {
      InOrderIsOrdered(ts[1..], ts[0].end, to);
      assert forall j :: 0 < j < |ts| ==> ts[j] == ts[1..][j - 1];
    }
  }

  /** Literal j stands between token j - 1, or the start, and token j, or the end. */
  predicate LiteralAt(s: string, ts: seq<Token>, last: nat, j: nat, lit: string)
    requires j <= |ts| && last <= |s| && Ordered(ts, last, |s|)
  {
    lit == s[(if j == 0 then last else ts[j - 1].end)..(if j == |ts| then |s| else ts[j].start)]
  }

  lemma {:induction false} LiteralsStandBetween(s: string, ts: seq<Token>, last: nat)
    requires last <= |s| && InOrder(ts, last, |s|) && Ordered(ts, last, |s|)
    ensures forall j: nat :: j <= |ts| ==> LiteralAt(s, ts, last, j, Literals(s, ts, last)[j])
    decreases |ts|
  {
    if ts != [] {
      InOrderIsOrdered(ts[1..], ts[0].end, |s|);
      LiteralsStandBetween(s, ts[1..], ts[0].end);
      forall j: nat | 0 < j <= |ts| ensures LiteralAt(s, ts, last, j, Literals(s, ts, last)[j]) {
        assert LiteralAt(s, ts[1..], ts[0].end, j - 1, Literals(s, ts[1..], ts[0].end)[j - 1]);
      }
    }
  }

  /** surfaceAPIKeyBaseURLTemplateValuePattern: a group is "any characters but / ? #". */
  method ValuePattern(s: string) returns (pattern: seq<string>)
    ensures pattern == Literals(s, Tokens(s, 0), 0)
  {
    var ts := Tokens(s, 0);
    pattern := [];
    var last: nat := 0;
    for i := 0 to |ts|
      invariant last <= |s| && InOrder(ts[i..], last, |s|)
      invariant pattern + Literals(s, ts[i..], last) == Literals(s, ts, 0)
    {
      assert ts[i..][1..] == ts[i + 1..];
      pattern := pattern + [s[last..ts[i].start]];
      last := ts[i].end;
    }
    pattern := pattern + [s[last..]];
  }

  /** The literals with the values in the gaps. */
  function Fill(lits: seq<string>, values: seq<string>): string
    requires |lits| == |values| + 1
  {
    if values == [] then lits[0] else lits[0] + values[0] + Fill(lits[1..], values[1..])
  }

  /** The names as they stand in the template. */
  function Braced(names: seq<string>): (r: seq<string>)
    ensures |r| == |names|
  {
    if names == [] then [] else ["{" + names[0] + "}"] + Braced(names[1..])
  }

  /** The tokens and literals concatenate back to the template. */
  lemma {:induction false} SegmentsConcatenate(s: string, i: nat, last: nat)
    requires last <= i <= |s|
    ensures InOrder(Tokens(s, i), last, |s|)
    ensures Fill(Literals(s, Tokens(s, i), last), Braced(Names(s, Tokens(s, i)))) == s[last..]
    decreases |s| - i
  {
    hide TokenEnd, InOrder, Literals, Names, Braced, Fill;
    InOrderFrom(Tokens(s, i), i, last, |s|);
    if i == |s| {
      NoTokens(s, last);
    } else {
      match TokenEnd(s, i)
      case Some(end) =>
        SegmentsConcatenate(s, end, end);
        FillFirst(s, Token(i, end), Tokens(s, end), last);
      case None => SegmentsConcatenate(s, i + 1, last);
    }
  }

  lemma NoTokens(s: string, last: nat)
    requires last <= |s|
    ensures InOrder([], last, |s|) && Fill(Literals(s, [], last), Braced(Names(s, []))) == s[last..]
  {
  }

  lemma LiteralsCons(s: string, t: Token, rest: seq<Token>, last: nat)
    requires last <= t.start < t.end <= |s| && InOrder(rest, t.end, |s|)
    ensures InOrder([t] + rest, last, |s|)
    ensures Literals(s, [t] + rest, last) == [s[last..t.start]] + Literals(s, rest, t.end)
  {
    assert ([t] + rest)[1..] == rest;
  }

  lemma NamesCons(s: string, t: Token, rest: seq<Token>)
    ensures Braced(Names(s, [t] + rest)) == ["{" + Name(s, t) + "}"] + Braced(Names(s, rest))
  {
    hide Name;
    assert ([t] + rest)[1..] == rest;
    assert Names(s, [t] + rest) == [Name(s, t)] + Names(s, rest);
    assert ([Name(s, t)] + Names(s, rest))[1..] == Names(s, rest);
  }

  lemma FillCons(lit: string, lits: seq<string>, v: string, values: seq<string>)
    requires |lits| == |values| + 1
    ensures Fill([lit] + lits, [v] + values) == lit + v + Fill(lits, values)
  {
    assert ([lit] + lits)[1..] == lits && ([v] + values)[1..] == values;
  }

  lemma FillFirst(s: string, t: Token, rest: seq<Token>, last: nat)
    requires last <= t.start && t.start + 3 <= t.end <= |s| && InOrder(rest, t.end, |s|)
    requires s[t.start] == '{' && s[t.end - 1] == '}'
    ensures InOrder([t] + rest, last, |s|)
    ensures Fill(Literals(s, [t] + rest, last), Braced(Names(s, [t] + rest)))
         == s[last..t.start] + s[t.start..t.end] + Fill(Literals(s, rest, t.end), Braced(Names(s, rest)))
    ensures s[last..] == s[last..t.start] + s[t.start..t.end] + s[t.end..]
  {
    hide TokenEnd, InOrder, Literals, Names, Braced, Fill;
    LiteralsCons(s, t, rest, last);
    NamesCons(s, t, rest);
    assert "{" + Name(s, t) + "}" == s[t.start..t.end];
    FillCons(s[last..t.start], Literals(s, rest, t.end), s[t.start..t.end], Braced(Names(s, rest)));
  }

  lemma InOrderFrom(ts: seq<Token>, from: nat, lower: nat, to: nat)
    requires InOrder(ts, from, to) && lower <= from
    ensures InOrder(ts, lower, to)
  {
  }

  // ----- the matcher

  predicate GroupChar(c: char) { c != '/' && c != '?' && c != '#' }

  function GroupRun(s: string): (n: nat)
    ensures n <= |s|
    ensures forall i :: 0 <= i < n ==> GroupChar(s[i])
    ensures n < |s| ==> !GroupChar(s[n])
  {
    if s == "" || !GroupChar(s[0]) then 0 else 1 + GroupRun(s[1..])
  }

  /** The anchored match: a literal, then the longest group that lets the rest match. */
  function Match(lits: seq<string>, s: string): Option<seq<string>>
    requires lits != []
    decreases |lits|, |s| + 1
  {
    if !(lits[0] <= s) then None
    else if |lits| == 1 then (if lits[0] == s then Some([]) else None)
    else
      var rest := s[|lits[0]|..];
      TryGroup(lits[1..], rest, GroupRun(rest))
  }

  function TryGroup(lits: seq<string>, s: string, n: nat): Option<seq<string>>
    requires lits != [] && n <= |s|
    decreases |lits| + 1, n
  {
    if n == 0 then None
    else match Match(lits, s[n..])
         case Some(groups) => Some([s[..n]] + groups)
         case None => TryGroup(lits, s, n - 1)
  }

  predicate Group(v: string) {
    v != "" && forall i :: 0 <= i < |v| ==> GroupChar(v[i])
  }

  predicate Groups(vs: seq<string>) {
    forall i :: 0 <= i < |vs| ==> Group(vs[i])
  }

  /** A match is an instance of the pattern. */
  lemma {:induction false} MatchIsFill(lits: seq<string>, s: string)
    requires lits != [] && Match(lits, s).Some?
    ensures |Match(lits, s).value| == |lits| - 1 && Groups(Match(lits, s).value)
    ensures Fill(lits, Match(lits, s).value) == s
    decreases |lits|, |s| + 1
  {
    hide TryGroup, GroupRun, Group;
    if |lits| > 1 {
      var rest := s[|lits[0]|..];
      TryGroupIsFill(lits[1..], rest, GroupRun(rest));
      assert s == lits[0] + rest;
    }
  }

  lemma {:induction false} TryGroupIsFill(lits: seq<string>, s: string, n: nat)
    requires lits != [] && n <= GroupRun(s) && TryGroup(lits, s, n).Some?
    ensures var vs := TryGroup(lits, s, n).value;
            |vs| == |lits| && Groups(vs) && vs[0] + Fill(lits, vs[1..]) == s
    decreases |lits| + 1, n
  {
    match Match(lits, s[n..])
    case Some(groups) =>
      MatchIsFill(lits, s[n..]);
      assert ([s[..n]] + groups)[1..] == groups;
      assert s == s[..n] + s[n..];
    case None => TryGroupIsFill(lits, s, n - 1);
  }

  /** Every instance of the pattern has a match. */
  lemma {:induction false} FillMatches(lits: seq<string>, vs: seq<string>)
    requires |lits| == |vs| + 1 && Groups(vs)
    ensures Match(lits, Fill(lits, vs)).Some?
    decreases |lits|, 0
  {
    var s := Fill(lits, vs);
    if vs != [] {
      var rest := s[|lits[0]|..];
      assert rest == vs[0] + Fill(lits[1..], vs[1..]);
      var n := |vs[0]|;
      GroupRunAtLeast(rest, n);
      FillMatches(lits[1..], vs[1..]);
      assert rest[n..] == Fill(lits[1..], vs[1..]);
      TryGroupFinds(lits[1..], rest, GroupRun(rest), n);
    }
  }

  lemma GroupRunAtLeast(s: string, n: nat)
    requires n <= |s| && forall i :: 0 <= i < n ==> GroupChar(s[i])
    ensures GroupRun(s) >= n
  {
  }

  lemma {:induction false} TryGroupFinds(lits: seq<string>, s: string, max: nat, n: nat)
    requires lits != [] && 0 < n <= max <= |s| && Match(lits, s[n..]).Some?
    ensures TryGroup(lits, s, max).Some?
    decreases max
  {
    if max > n && Match(lits, s[max..]).None? {
      TryGroupFinds(lits, s, max - 1, n);
    }
  }

  /** At the first group that differs, gs has the longer one. */
  predicate Longer(gs: seq<string>, vs: seq<string>)
    requires |gs| == |vs|
  {
    gs != [] && (|gs[0]| > |vs[0]| || (gs[0] == vs[0] && Longer(gs[1..], vs[1..])))
  }

  /** The match is greedy: at the first difference it has a longer group than any other instance. */
  lemma {:induction false} MatchIsGreedy(lits: seq<string>, vs: seq<string>)
    requires |lits| == |vs| + 1 && Groups(vs)
    ensures var r := Match(lits, Fill(lits, vs)); r.Some? && |r.value| == |vs| && (r.value == vs || Longer(r.value, vs))
    decreases |lits|
  {
    hide GroupRun, Group;
    var s := Fill(lits, vs);
    FillMatches(lits, vs);
    MatchIsFill(lits, s);
    if vs != [] {
      var rest, others := s[|lits[0]|..], Fill(lits[1..], vs[1..]);
      assert rest == vs[0] + others;
      assert Group(vs[0]);
      GroupRunOf(vs[0], others);
      assert rest[|vs[0]|..] == others;
      MatchIsGreedy(lits[1..], vs[1..]);
      TryGroupIsGreedy(lits[1..], rest, GroupRun(rest), |vs[0]|);
      var gs := Match(lits, s).value;
      if |gs[0]| == |vs[0]| {
        assert gs[0] == rest[..|vs[0]|] == vs[0];
        assert gs == [vs[0]] + gs[1..] && vs == [vs[0]] + vs[1..];
      }
    }
  }

  lemma GroupRunOf(v: string, rest: string)
    requires Group(v)
    ensures v != "" && GroupRun(v + rest) >= |v|
  {
    GroupRunAtLeast(v + rest, |v|);
  }

  lemma {:induction false} TryGroupIsGreedy(lits: seq<string>, s: string, max: nat, n: nat)
    requires lits != [] && 0 < n <= max <= |s| && Match(lits, s[n..]).Some?
    ensures var r := TryGroup(lits, s, max);
            && r.Some? && |r.value| > 0 && n <= |r.value[0]| <= |s| && r.value[0] == s[..|r.value[0]|]
            && Match(lits, s[|r.value[0]|..]) == Some(r.value[1..])
    decreases max
  {
    match Match(lits, s[max..])
    case Some(groups) => assert ([s[..max]] + groups)[1..] == groups;
    case None => TryGroupIsGreedy(lits, s, max - 1, n);
  }

  // ----- resolving an override

  datatype Rejection = EmptyTemplate | NoOverride | FieldsRequired | NoMatch | EmptyField(name: string) | Unresolved(name: string)

  datatype Resolved = Resolved(baseUrl: string, overridden: bool)

  predicate HasBrace(s: string) {
    exists i :: 0 <= i < |s| && (s[i] == '{' || s[i] == '}')
  }

  /** The first field whose value is blank or still carries a brace. */
  function FirstBad(fields: seq<string>, groups: seq<string>): Option<Rejection>
    requires |fields| == |groups|
  {
    if fields == [] then None
    else
      var v := Trim(groups[0]);
      if v == "" then Some(EmptyField(fields[0]))
      else if HasBrace(v) then Some(Unresolved(fields[0]))
      else FirstBad(fields[1..], groups[1..])
  }

  function Resolve(template: string, provided: string): Result<Resolved, Rejection> {
    var t, p := Trim(template), Trim(provided);
    var fields, groups := Fields(t), Match(Pattern(t), p);
    if t == "" then Err(EmptyTemplate)
    else if fields == [] then
      if p != "" && p != t then Err(NoOverride) else Ok(Resolved(t, false))
    else if p == "" then Err(FieldsRequired)
    else if groups.None? || |groups.value| != |fields| then Err(NoMatch)
    else match FirstBad(fields, groups.value)
         case Some(bad) => Err(bad)
         case None => Ok(Resolved(p, true))
  }

  function Pattern(t: string): (lits: seq<string>)
    ensures lits != []
  {
    Literals(t, Tokens(t, 0), 0)
  }

  function Fields(t: string): seq<string> { Distinct(Names(t, Tokens(t, 0))) }

  /** What may stand for a token: not blank, and none of / ? # { }. */
  predicate Value(v: string) {
    !Blank(v) && Group(v) && !HasBrace(v)
  }

  predicate Values(vs: seq<string>) {
    forall i :: 0 <= i < |vs| ==> Value(vs[i])
  }

  predicate DistinctTokens(t: string) {
    var names := Names(t, Tokens(t, 0));
    forall i, j :: 0 <= i < j < |names| ==> names[i] != names[j]
  }

  /** p is the template with every token replaced by a value. */
  ghost predicate Instance(t: string, p: string) {
    exists vs: seq<string> :: |vs| + 1 == |Pattern(t)| && Values(vs) && Fill(Pattern(t), vs) == p
  }

  /** The value by its characters. */
  predicate ValueText(v: string) {
    (exists i :: 0 <= i < |v| && !IsSpace(v[i])) && forall i :: 0 <= i < |v| ==> v[i] !in {'/', '?', '#', '{', '}'}
  }

  lemma ValueExactly(v: string)
    ensures Value(v) <==> ValueText(v)
  {
    hide Trim, IsSpace;
    var a, b := TrimExactly(v);
    if Trim(v) == "" {
      assert v == a + b;
    } else {
      assert v[|a|] == Trim(v)[0];
    }
  }

  lemma {:induction false} FirstBadExactly(fields: seq<string>, groups: seq<string>)
    requires |fields| == |groups| && Groups(groups)
    ensures FirstBad(fields, groups).None? <==> Values(groups)
  {
    hide TrimLeft, TrimRight;
    if fields != [] {
      FirstBadExactly(fields[1..], groups[1..]);
      assert Group(groups[0]);
      TrimKeepsBraces(groups[0]);
      assert Values(groups) <==> Value(groups[0]) && Values(groups[1..]) by {
        assert forall i :: 0 < i < |groups| ==> groups[i] == groups[1..][i - 1];
      }
    }
  }

  lemma BraceIsNoSpace()
    ensures !IsSpace('{') && !IsSpace('}')
  {
  }

  lemma TrimLeftKeepsBraces(s: string)
    ensures HasBrace(TrimLeft(s)) <==> HasBrace(s)
  {
    hide TrimLeft, IsSpace;
    BraceIsNoSpace();
    TrimLeftDrops(s);
    var l := TrimLeft(s);
    var gap := |s| - |l|;
    forall i | 0 <= i < |s| && (s[i] == '{' || s[i] == '}') ensures HasBrace(l) {
      assert l[i - gap] == s[i];
    }
    forall i | 0 <= i < |l| && (l[i] == '{' || l[i] == '}') ensures HasBrace(s) {
      assert s[i + gap] == l[i];
    }
  }

  lemma TrimRightKeepsBraces(s: string)
    ensures HasBrace(TrimRight(s)) <==> HasBrace(s)
  {
    hide TrimRight, IsSpace;
    BraceIsNoSpace();
    TrimRightDrops(s);
    var r := TrimRight(s);
    forall i | 0 <= i < |s| && (s[i] == '{' || s[i] == '}') ensures HasBrace(r) {
      assert r[i] == s[i];
    }
    forall i | 0 <= i < |r| && (r[i] == '{' || r[i] == '}') ensures HasBrace(s) {
      assert s[i] == r[i];
    }
  }

  lemma TrimKeepsBraces(s: string)
    ensures HasBrace(Trim(s)) <==> HasBrace(s)
  {
    hide TrimLeft, TrimRight, HasBrace;
    TrimLeftKeepsBraces(s);
    TrimRightKeepsBraces(TrimLeft(s));
  }

  /** An override is returned as it was given, and only if the template's tokens are
      distinct and it is the template with each token replaced by a value. */
  lemma AcceptedIsInstance(template: string, provided: string)
    requires var r := Resolve(template, provided); r.Ok? && r.value.overridden
    ensures Resolve(template, provided).value.baseUrl == Trim(provided)
    ensures DistinctTokens(Trim(template)) && Instance(Trim(template), Trim(provided))
  {
    hide Trim, Tokens, Literals, Distinct, Names, Match, FirstBad;
    var t, p := Trim(template), Trim(provided);
    var groups := Match(Pattern(t), p).value;
    MatchIsFill(Pattern(t), p);
    FirstBadExactly(Fields(t), groups);
    PatternLength(t);
    DistinctLength(Names(t, Tokens(t, 0)));
  }

  lemma PatternLength(t: string)
    ensures |Pattern(t)| == |Tokens(t, 0)| + 1 == |Names(t, Tokens(t, 0))| + 1
  {
  }

  function Braces(s: string): nat {
    if s == "" then 0 else (if s[0] == '{' || s[0] == '}' then 1 else 0) + Braces(s[1..])
  }

  lemma {:induction false} BracesAdd(a: string, b: string)
    ensures Braces(a + b) == Braces(a) + Braces(b)
  {
    if a == "" {
      assert a + b == b;
    } else {
      assert (a + b)[1..] == a[1..] + b;
      BracesAdd(a[1..], b);
    }
  }

  lemma {:induction false} NoBraces(s: string)
    ensures Braces(s) == 0 <==> !HasBrace(s)
  {
    if s != "" {
      NoBraces(s[1..]);
      assert forall i :: 0 < i < |s| ==> s[i] == s[1..][i - 1];
      if HasBrace(s) && !(s[0] == '{' || s[0] == '}') {
        var i :| 0 <= i < |s| && (s[i] == '{' || s[i] == '}');
        assert s[1..][i - 1] == s[i];
      }
      if HasBrace(s[1..]) {
        var i :| 0 <= i < |s[1..]| && (s[1..][i] == '{' || s[1..][i] == '}');
        assert s[i + 1] == s[1..][i];
      }
    }
  }

  function TotalBraces(parts: seq<string>): nat {
    if parts == [] then 0 else Braces(parts[0]) + TotalBraces(parts[1..])
  }

  lemma {:induction false} FillBraces(lits: seq<string>, vs: seq<string>)
    requires |lits| == |vs| + 1
    ensures Braces(Fill(lits, vs)) == TotalBraces(lits) + TotalBraces(vs)
  {
    if vs == [] {
      assert lits == [lits[0]] && lits[1..] == [];
    } else {
      FillBraces(lits[1..], vs[1..]);
      BracesAdd(lits[0] + vs[0], Fill(lits[1..], vs[1..]));
      BracesAdd(lits[0], vs[0]);
    }
  }

  lemma {:induction false} TotalBracesZero(parts: seq<string>)
    ensures TotalBraces(parts) == 0 <==> forall i :: 0 <= i < |parts| ==> !HasBrace(parts[i])
  {
    if parts != [] {
      TotalBracesZero(parts[1..]);
      NoBraces(parts[0]);
      assert forall i :: 0 < i < |parts| ==> parts[i] == parts[1..][i - 1];
    }
  }

  lemma {:induction false} FillNoSpace(lits: seq<string>, vs: seq<string>)
    requires |lits| == |vs| + 1 && NoSpace(Fill(lits, vs))
    ensures forall i :: 0 <= i < |vs| ==> NoSpace(vs[i])
  {
    if vs != [] {
      var f := Fill(lits, vs);
      var rest := Fill(lits[1..], vs[1..]);
      assert forall k :: 0 <= k < |vs[0]| ==> vs[0][k] == f[|lits[0]| + k];
      assert forall k :: 0 <= k < |rest| ==> rest[k] == f[|lits[0]| + |vs[0]| + k];
      FillNoSpace(lits[1..], vs[1..]);
      assert forall i :: 0 < i < |vs| ==> vs[i] == vs[1..][i - 1];
    }
  }

  /** The groups of any match of a whitespace-free instance are values: the literals
      already account for every brace. */
  lemma MatchGroupsAreValues(t: string, p: string)
    requires NoSpace(p) && Instance(t, p)
    ensures Match(Pattern(t), p).Some? && Values(Match(Pattern(t), p).value)
  {
    hide Trim, Tokens, Literals, Distinct, Names, Match;
    var lits := Pattern(t);
    var vs: seq<string> :| |vs| + 1 == |lits| && Values(vs) && Fill(lits, vs) == p;
    assert Groups(vs) by { assert forall i :: 0 <= i < |vs| ==> Value(vs[i]); }
    FillMatches(lits, vs);
    MatchIsFill(lits, p);
    var groups := Match(lits, p).value;
    FillBraces(lits, vs);
    FillBraces(lits, groups);
    TotalBracesZero(vs);
    TotalBracesZero(groups);
    FillNoSpace(lits, groups);
    forall i | 0 <= i < |groups| ensures Value(groups[i]) {
      TrimOfNoSpace(groups[i]);
      assert Group(groups[i]);
    }
  }

  /** The matcher decides exactly the instances: for every template with tokens, a
      whitespace-free override is accepted if and only if the tokens are distinct and
      it replaces each of them by a value. */
  lemma AcceptsExactlyInstances(template: string, provided: string)
    requires Fields(Trim(template)) != [] && NoSpace(provided) && provided != ""
    ensures Resolve(template, provided) == Ok(Resolved(provided, true))
            <==> DistinctTokens(Trim(template)) && Instance(Trim(template), provided)
  {
    TrimOfNoSpace(provided);
    hide Trim, Tokens, Literals, Distinct, Names, Match, FirstBad, NoSpace, Instance;
    var t := Trim(template);
    if Resolve(template, provided) == Ok(Resolved(provided, true)) {
      AcceptedIsInstance(template, provided);
    }
    if DistinctTokens(t) && Instance(t, provided) {
      MatchGroupsAreValues(t, provided);
      MatchIsFill(Pattern(t), provided);
      PatternLength(t);
      DistinctLength(Names(t, Tokens(t, 0)));
      FirstBadExactly(Fields(t), Match(Pattern(t), provided).value);
      assert t != "" by { NoTokensInEmpty(t); }
    }
  }

  lemma NoTokensInEmpty(t: string)
    ensures Fields(t) != [] ==> t != ""
  {
  }

  /** A template that repeats a token accepts no override at all. */
  lemma RepeatedTokenAcceptsNothing(template: string, provided: string)
    requires !DistinctTokens(Trim(template))
    ensures Resolve(template, provided).Err?
  {
    hide Trim, Tokens, Literals, Match, FirstBad;
    var t := Trim(template);
    if Match(Pattern(t), Trim(provided)).Some? {
      MatchIsFill(Pattern(t), Trim(provided));
    }
    PatternLength(t);
    DistinctLength(Names(t, Tokens(t, 0)));
  }

  // ----- the decision by the template's text

  /** The override is the template's literals around one text for each token, none with / ? #. */
  ghost predicate Fits(t: string, p: string) {
    exists gs: seq<string> :: |gs| + 1 == |Pattern(t)| && Fill(Pattern(t), gs) == p && GroupTexts(gs)
  }

  predicate GroupTexts(gs: seq<string>) {
    forall i :: 0 <= i < |gs| ==> gs[i] != "" && forall k :: 0 <= k < |gs[i]| ==> gs[i][k] !in {'/', '?', '#'}
  }

  /** As Fits, and the texts are not blank and have no braces. */
  ghost predicate Made(t: string, p: string) {
    exists vs: seq<string> :: |vs| + 1 == |Pattern(t)| && Fill(Pattern(t), vs) == p && forall i :: 0 <= i < |vs| ==> ValueText(vs[i])
  }

  /** The first text that is refused, and why. */
  predicate RefusedFor(fields: seq<string>, gs: seq<string>, e: Rejection) {
    |gs| == |fields|
    && exists k :: 0 <= k < |gs| && (forall i :: 0 <= i < k ==> !AllSpace(gs[i]) && !HasBrace(gs[i]))
                   && if AllSpace(gs[k]) then e == EmptyField(fields[k]) else HasBrace(gs[k]) && e == Unresolved(fields[k])
  }

  ghost predicate Tokenless(t: string) {
    forall start: nat, end: nat :: !TokenAt(t, start, end)
  }

  /** What becomes of an override of a template, both trimmed. */
  ghost predicate Decided(t: string, p: string, r: Result<Resolved, Rejection>) {
    if t == "" then r == Err(EmptyTemplate)
    else if Tokenless(t) then r == if p == "" || p == t then Ok(Resolved(t, false)) else Err(NoOverride)
    else if p == "" then r == Err(FieldsRequired)
    else if !DistinctTokens(t) || !Fits(t, p) then r == Err(NoMatch)
    else
      && (r.Ok? ==> r.value == Resolved(p, true) && Made(t, p)) && (NoSpace(p) && Made(t, p) ==> r.Ok?)
      && (r.Err? ==> RefusedFor(Names(t, Tokens(t, 0)), Match(Pattern(t), p).GetOr([]), r.error))
  }

  lemma {:induction false} FirstBadRefuses(fields: seq<string>, gs: seq<string>)
    requires |fields| == |gs|
    ensures FirstBad(fields, gs).Some? ==> RefusedFor(fields, gs, FirstBad(fields, gs).value)
  {
    hide Trim, HasBrace, AllSpace;
    if fields != [] {
      BlankIsSpace(gs[0]);
      TrimKeepsBraces(gs[0]);
      FirstBadRefuses(fields[1..], gs[1..]);
      if FirstBad(fields, gs).Some? && !AllSpace(gs[0]) && !HasBrace(gs[0]) {
        RefusedLater(fields, gs, FirstBad(fields, gs).value);
      }
    }
  }

  lemma RefusedLater(fields: seq<string>, gs: seq<string>, e: Rejection)
    requires |fields| == |gs| > 0 && !AllSpace(gs[0]) && !HasBrace(gs[0]) && RefusedFor(fields[1..], gs[1..], e)
    ensures RefusedFor(fields, gs, e)
  {
    hide HasBrace, AllSpace;
    var k :| 0 <= k < |gs| - 1 && (forall i :: 0 <= i < k ==> !AllSpace(gs[1..][i]) && !HasBrace(gs[1..][i]))
             && if AllSpace(gs[1..][k]) then e == EmptyField(fields[1..][k]) else HasBrace(gs[1..][k]) && e == Unresolved(fields[1..][k]);
    assert forall i :: 0 < i < |gs| ==> gs[i] == gs[1..][i - 1];
    assert gs[k + 1] == gs[1..][k] && fields[k + 1] == fields[1..][k];
  }

  lemma BlankIsSpace(v: string)
    ensures Trim(v) == "" <==> AllSpace(v)
  {
    hide Trim, IsSpace;
    var a, b := TrimExactly(v);
    if Trim(v) != "" {
      assert v[|a|] == Trim(v)[0];
    }
  }

  lemma FieldsAreTokens(t: string)
    ensures Fields(t) == [] <==> Tokenless(t)
    ensures DistinctTokens(t) ==> Fields(t) == Names(t, Tokens(t, 0))
    ensures |Fields(t)| <= |Pattern(t)| - 1 && (|Fields(t)| == |Pattern(t)| - 1 <==> DistinctTokens(t))
  {
    hide Tokens, TokenAt, Literals, Distinct, Names;
    var ts := Tokens(t, 0);
    TokensExactly(t, 0);
    PatternLength(t);
    DistinctLength(Names(t, ts));
    if DistinctTokens(t) {
      DistinctKeeps(Names(t, ts));
    }
    if ts != [] {
      assert ts[0] in ts && Token(ts[0].start, ts[0].end) in ts;
      assert Names(t, ts)[0] in Names(t, ts);
    }
    if Fields(t) != [] {
      assert Fields(t)[0] in Names(t, ts);
    }
  }

  lemma FitsExactly(t: string, p: string)
    ensures Fits(t, p) <==> Match(Pattern(t), p).Some?
    ensures Fits(t, p) ==> |Match(Pattern(t), p).value| == |Pattern(t)| - 1 && Groups(Match(Pattern(t), p).value)
  {
    hide Pattern, Fill, Match;
    if Match(Pattern(t), p).Some? {
      MatchIsFill(Pattern(t), p);
      assert forall i :: 0 <= i < |Match(Pattern(t), p).value| ==> Group(Match(Pattern(t), p).value[i]);
    }
    if gs: seq<string> :| |gs| + 1 == |Pattern(t)| && Fill(Pattern(t), gs) == p && GroupTexts(gs) {
      FillMatches(Pattern(t), gs);
    }
  }

  lemma MadeIsInstance(t: string, p: string)
    ensures Made(t, p) <==> Instance(t, p)
  {
    hide Pattern, Fill, Value, ValueText;
    forall v ensures Value(v) <==> ValueText(v) {
      ValueExactly(v);
    }
  }

  lemma ResolveDecides(template: string, provided: string)
    ensures Decided(Trim(template), Trim(provided), Resolve(template, provided))
  {
    hide Trim, Tokens, Literals, Distinct, Names, Match, FirstBad, Fits, Made, Tokenless, RefusedFor, DistinctTokens, Pattern, Fields;
    var t, p := Trim(template), Trim(provided);
    FieldsAreTokens(t);
    FitsExactly(t, p);
    MadeIsInstance(t, p);
    var r := Resolve(template, provided);
    if t != "" && Fields(t) != [] && p != "" && DistinctTokens(t) && Fits(t, p) {
      FirstBadRefuses(Fields(t), Match(Pattern(t), p).value);
      if r.Ok? {
        AcceptedIsInstance(template, provided);
      } else if NoSpace(p) && Made(t, p) {
        MatchGroupsAreValues(t, p);
        FirstBadExactly(Fields(t), Match(Pattern(t), p).value);
      }
    }
  }

  method ResolveBaseUrl(template: string, provided: string) returns (r: Result<Resolved, Rejection>)
    ensures r == Resolve(template, provided)
    ensures Decided(Trim(template), Trim(provided), r)
  {
    hide Trim, Tokens, Literals, Distinct, Names, Match, Decided;
    ResolveDecides(template, provided);
    var t, p := Trim(template), Trim(provided);
    if t == "" {
      return Err(EmptyTemplate);
    }
    var fields := TemplateFields(t);
    if fields == [] {
      if p != "" && p != t {
        return Err(NoOverride);
      }
      return Ok(Resolved(t, false));
    }
    if p == "" {
      return Err(FieldsRequired);
    }
    var pattern := ValuePattern(t);
    var groups := Match(pattern, p);
    if groups.None? || |groups.value| != |fields| {
      return Err(NoMatch);
    }
    for i := 0 to |fields|
      invariant FirstBad(fields, groups.value) == FirstBad(fields[i..], groups.value[i..])
    {
      var v := Trim(groups.value[i]);
      if v == "" {
        return Err(EmptyField(fields[i]));
      }
      if HasBrace(v) {
        return Err(Unresolved(fields[i]));
      }
      assert fields[i..][1..] == fields[i + 1..] && groups.value[i..][1..] == groups.value[i + 1..];
    }
    r := Ok(Resolved(p, true));
  }
}
