/** Slugs: lower-case, hyphen-separated identifiers (identity.go). */
module Slugs {
  import opened Text

  predicate NoDouble(s: string) {
    forall i :: 0 <= i < |s| - 1 ==> s[i] != '-' || s[i + 1] != '-'
  }

  predicate NoEdge(s: string) {
    s != "" ==> s[0] != '-' && s[|s| - 1] != '-'
  }

  /** One pass: keeps the last hyphen of every run. */
  function Collapse(s: string): (r: string)
    ensures |r| <= |s| && NoDouble(r)
    ensures r == "" <==> s == ""
    ensures s != "" ==> r[0] == s[0] && r[|r| - 1] == s[|s| - 1]
    ensures NoDouble(s) ==> r == s
    ensures forall c :: c in r ==> c in s
  {
    if s == "" then ""
    else if |s| >= 2 && s[0] == '-' && s[1] == '-' then Collapse(s[1..])
    else
      var rest := Collapse(s[1..]);
      assert NoDouble(s) ==> NoDouble(s[1..]);
      assert NoDouble(s) ==> s == [s[0]] + s[1..];
      [s[0]] + rest
  }

  /** strings.ReplaceAll(s, "--", "-"). */
  function ReplaceDouble(s: string): (r: string)
    ensures |r| <= |s|
    ensures r == "" <==> s == ""
    ensures s != "" ==> r[0] == s[0]
  {
    if s == "" then ""
    else if |s| >= 2 && s[0] == '-' && s[1] == '-' then "-" + ReplaceDouble(s[2..])
    else [s[0]] + ReplaceDouble(s[1..])
  }

  lemma {:induction false} ReplaceDoubleShrinks(s: string)
    requires !NoDouble(s)
    ensures |ReplaceDouble(s)| < |s|
  {
    if !(s[0] == '-' && s[1] == '-') {
      var i :| 0 <= i < |s| - 1 && s[i] == '-' && s[i + 1] == '-';
      assert s[1..][i - 1] == '-' && s[1..][i] == '-';
      ReplaceDoubleShrinks(s[1..]);
    }
  }

  lemma {:induction false} ReplaceDoubleCollapses(s: string)
    ensures Collapse(ReplaceDouble(s)) == Collapse(s)
  {
    hide NoDouble, Collapse;
    if s == "" {
    } else if |s| >= 2 && s[0] == '-' && s[1] == '-' {
      var t := s[2..];
      ReplaceDoubleCollapses(t);
      CollapseCons('-', ReplaceDouble(t));
      CollapseCons('-', t);
      CollapseCons('-', ['-'] + t);
      assert s == ['-'] + (['-'] + t);
    } else {
      var t := s[1..];
      ReplaceDoubleCollapses(t);
      CollapseCons(s[0], ReplaceDouble(t));
      CollapseCons(s[0], t);
      assert s == [s[0]] + t;
    }
  }

  lemma CollapseCons(c: char, t: string)
    ensures Collapse([c] + t) == if c == '-' && t != "" && t[0] == '-' then Collapse(t) else [c] + Collapse(t)
  {
    hide NoDouble;
    assert ([c] + t)[1..] == t;
  }

  /** strings.Trim(s, "-"). */
  function TrimHyphens(s: string): (r: string)
    ensures NoEdge(r) && |r| <= |s|
    ensures NoEdge(s) ==> r == s
    ensures NoDouble(s) ==> NoDouble(r)
    ensures forall c :: c in r ==> c in s
  {
    if s == "" then ""
    else if s[0] == '-' then TrimHyphens(s[1..])
    else if s[|s| - 1] == '-' then TrimHyphens(s[..|s| - 1])
    else s
  }

  /** strings.NewReplacer on single characters. */
  function Hyphenate(separators: set<char>, s: string): (r: string)
    ensures |r| == |s|
    ensures forall i :: 0 <= i < |s| ==> r[i] == if s[i] in separators then '-' else s[i]
  {
    seq(|s|, i requires 0 <= i < |s| => if s[i] in separators then '-' else s[i])
  }

  const VENDOR_SEPARATORS: set<char> := {'_', ' ', '.', '/'}
  const MODEL_SEPARATORS: set<char> := {'_', ' ', '/'}

  function VendorSlug(raw: string): string {
    Collapse(TrimHyphens(Hyphenate(VENDOR_SEPARATORS, Trim(Lower(raw)))))
  }

  /** "qwen-3-" and "qwen-3." name the same family as "qwen3-" and "qwen3.". */
  function Qwen(s: string): string {
    if "qwen-3-" <= s then "qwen3-" + s[7..]
    else if "qwen-3." <= s then "qwen3." + s[7..]
    else s
  }

  function ModelSlug(raw: string): string {
    Qwen(TrimHyphens(Collapse(Hyphenate(MODEL_SEPARATORS, Trim(Lower(raw))))))
  }

  /** The loop of NormalizedVendorSlug computes the one-pass collapse. */
  method NormalizedVendorSlug(input: string) returns (raw: string)
    ensures raw == VendorSlug(input)
    ensures NoDouble(raw) && NoEdge(raw)
  {
    raw := TrimHyphens(Hyphenate(VENDOR_SEPARATORS, Trim(Lower(input))));
    ghost var start := raw;
    while !NoDouble(raw)
      invariant Collapse(raw) == Collapse(start)
      invariant NoEdge(Collapse(start))
      decreases |raw|
    {
      ReplaceDoubleShrinks(raw);
      ReplaceDoubleCollapses(raw);
      raw := ReplaceDouble(raw);
    }
  }

  method NormalizeExternalModelSlug(input: string) returns (raw: string)
    ensures raw == ModelSlug(input)
    ensures NoDouble(raw) && NoEdge(raw)
  {
    raw := Hyphenate(MODEL_SEPARATORS, Trim(Lower(input)));
    ghost var start := raw;
    while !NoDouble(raw)
      invariant Collapse(raw) == Collapse(start)
      decreases |raw|
    {
      ReplaceDoubleShrinks(raw);
      ReplaceDoubleCollapses(raw);
      raw := ReplaceDouble(raw);
    }
    raw := TrimHyphens(raw);
    QwenKeepsShape(raw);
    raw := Qwen(raw);
  }

  lemma QwenKeepsShape(s: string)
    requires NoDouble(s) && NoEdge(s)
    ensures NoDouble(Qwen(s)) && NoEdge(Qwen(s)) && |Qwen(s)| <= |s|
    ensures Qwen(Qwen(s)) == Qwen(s)
  {
    var r := Qwen(s);
    if "qwen-3-" <= s {
      assert s[6] == '-';
      assert |s| > 7;
      forall i | 0 <= i < |r| - 1 ensures r[i] != '-' || r[i + 1] != '-' {
        if i >= 5 { assert r[i] == s[i + 1] && r[i + 1] == s[i + 2]; }
      }
    } else if "qwen-3." <= s {
      forall i | 0 <= i < |r| - 1 ensures r[i] != '-' || r[i + 1] != '-' {
        if i >= 5 { assert r[i] == s[i + 1] && r[i + 1] == s[i + 2]; }
      }
      assert r[|r| - 1] == s[|s| - 1];
    }
    if r != s {
      assert r[4] == '3';
    }
  }

  /** Characters no normaliser changes: not upper case and not a separator. */
  predicate Settled(separators: set<char>, s: string) {
    forall c :: c in s ==> LowerChar(c) == c && c !in separators
  }

  lemma SettledIsFixed(separators: set<char>, s: string)
    requires Settled(separators, s)
    ensures Lower(s) == s && Hyphenate(separators, s) == s
  {
    forall i | 0 <= i < |s| ensures Lower(s)[i] == s[i] && Hyphenate(separators, s)[i] == s[i] {
      assert s[i] in s;
    }
  }

  /** Lowering and hyphenating settle every character, and leave no whitespace
      beyond what is neither the space nor at an end. */
  lemma HyphenateSettles(separators: set<char>, raw: string)
    requires '-' !in separators && ' ' in separators
    ensures Settled(separators, Hyphenate(separators, Trim(Lower(raw))))
    ensures (forall c :: c in raw && IsSpace(c) ==> c == ' ') ==> NoSpace(Hyphenate(separators, Trim(Lower(raw))))
  {
    hide Trim;
    var low := Trim(Lower(raw));
    TrimIsTrimmed(Lower(raw));
    var r := Hyphenate(separators, low);
    forall i | 0 <= i < |r|
      ensures LowerChar(r[i]) == r[i] && r[i] !in separators
      ensures (forall c :: c in raw && IsSpace(c) ==> c == ' ') ==> !IsSpace(r[i])
    {
      assert low[i] in Lower(raw);
      var k :| 0 <= k < |raw| && Lower(raw)[k] == low[i];
      assert raw[k] in raw;
    }
  }

  lemma SettledSubset(separators: set<char>, r: string, s: string)
    requires Settled(separators, s) && forall c :: c in r ==> c in s
    ensures Settled(separators, r)
    ensures NoSpace(s) ==> NoSpace(r)
  {
    forall i | 0 <= i < |r| && NoSpace(s) ensures !IsSpace(r[i]) {
      assert r[i] in s;
    }
  }

  /** s without hyphens and separators at its ends. */
  function Strip(separators: set<char>, s: string): (r: string)
    ensures r != "" ==> r[0] !in separators + {'-'} && r[|r| - 1] !in separators + {'-'}
  {
    if s == "" then ""
    else if s[0] in separators + {'-'} then Strip(separators, s[1..])
    else if s[|s| - 1] in separators + {'-'} then Strip(separators, s[..|s| - 1])
    else s
  }

  /** Trimming hyphens after replacing the separators is stripping before it. */
  lemma {:induction false} StripHyphenates(separators: set<char>, s: string)
    ensures TrimHyphens(Hyphenate(separators, s)) == Hyphenate(separators, Strip(separators, s))
  {
    var h := Hyphenate(separators, s);
    if s == "" {
    } else if s[0] in separators + {'-'} {
      StripHyphenates(separators, s[1..]);
      assert h[1..] == Hyphenate(separators, s[1..]);
    } else if s[|s| - 1] in separators + {'-'} {
      StripHyphenates(separators, s[..|s| - 1]);
      assert h[..|s| - 1] == Hyphenate(separators, s[..|s| - 1]);
    }
  }

  lemma {:induction false} CollapseSnoc(t: string)
    ensures Collapse(t + ['-']) == if t != "" && t[|t| - 1] == '-' then Collapse(t) else Collapse(t) + ['-']
  {
    hide NoDouble, Collapse;
    if t == "" {
      CollapseCons('-', "");
      assert t + ['-'] == ['-'] + "";
    } else {
      var u := t[1..];
      CollapseSnoc(u);
      assert t == [t[0]] + u && t + ['-'] == [t[0]] + (u + ['-']);
      CollapseCons(t[0], u);
      CollapseCons(t[0], u + ['-']);
    }
  }

  /** Collapsing runs and trimming the ends can be done in either order. */
  lemma {:induction false} CollapseTrims(h: string)
    ensures TrimHyphens(Collapse(h)) == Collapse(TrimHyphens(h))
  {
    hide Collapse, NoDouble, NoEdge;
    if h != "" {
      if h[0] == '-' {
        var t := h[1..];
        CollapseTrims(t);
        CollapseCons('-', t);
        assert h == ['-'] + t;
        assert (['-'] + Collapse(t))[1..] == Collapse(t);
      } else if h[|h| - 1] == '-' {
        var t := h[..|h| - 1];
        CollapseTrims(t);
        CollapseSnoc(t);
        assert h == t + ['-'];
        assert (Collapse(t) + ['-'])[..|Collapse(t)|] == Collapse(t);
      } else {
        assert NoEdge(Collapse(h)) && NoEdge(h) by { EndsKept(h, Collapse(h)); }
      }
    }
  }

  lemma EndsKept(s: string, r: string)
    requires s != "" && r != "" && r[0] == s[0] && r[|r| - 1] == s[|s| - 1]
    ensures (s[0] != '-' && s[|s| - 1] != '-') ==> NoEdge(s) && NoEdge(r)
    ensures Trimmed(r) <==> Trimmed(s)
  {
  }

  /** Whether a slug has whitespace at an end can be read off the input. */
  lemma SlugEnds(separators: set<char>, s: string)
    ensures Trimmed(Collapse(TrimHyphens(Hyphenate(separators, s)))) <==> Trimmed(Strip(separators, s))
  {
    hide Collapse, NoDouble, Strip, TrimHyphens, NoEdge, IsSpace;
    StripHyphenates(separators, s);
    var r := Strip(separators, s);
    var h := Hyphenate(separators, r);
    if r != "" {
      EndsKept(r, h);
      EndsKept(h, Collapse(h));
    }
  }

  lemma QwenEnds(s: string)
    ensures Trimmed(Qwen(s)) <==> Trimmed(s)
  {
    var r := Qwen(s);
    if r != s {
      assert r[|r| - 1] == s[|s| - 1];
    }
  }

  // ----- slugs as words joined by single hyphens

  /** Two slugs as one: joined by a hyphen, or the other one if one is empty. */
  function Linked(a: string, b: string): string {
    if a == "" then b else if b == "" then a else a + "-" + b
  }

  /** A slug without the hyphen at its end, if there is one. */
  lemma HyphenAtEnd(c: char, w: string)
    requires c != '-' && NoDouble(w)
    ensures TrimHyphens([c] + w) == [c] + if w != "" && w[|w| - 1] == '-' then w[..|w| - 1] else w
    ensures w != "" && w[0] != '-' ==> TrimHyphens(w) == if w[|w| - 1] == '-' then w[..|w| - 1] else w
    ensures w != "" && w[0] == '-' ==> TrimHyphens(w) == if |w| > 1 && w[|w| - 1] == '-' then w[1..|w| - 1] else w[1..]
  {
    var s := [c] + w;
    if w != "" && w[|w| - 1] == '-' {
      assert s[..|s| - 1] == [c] + w[..|w| - 1];
      assert w[..|w| - 1] != "" ==> w[|w| - 2] != '-';
      assert NoEdge(s[..|s| - 1]);
    }
    if w != "" && w[0] == '-' && |w| > 1 {
      assert w[1] != '-';
      if w[|w| - 1] == '-' {
        assert |w| > 2 && w[|w| - 2] != '-';
        assert w[1..][..|w| - 2] == w[1..|w| - 1];
        assert NoEdge(w[1..|w| - 1]);
      }
    }
    if w != "" && w[0] != '-' && w[|w| - 1] == '-' {
      assert w[|w| - 2] != '-';
      assert NoEdge(w[..|w| - 1]);
    }
  }

  /** Text without separators at its ends and with one hyphen for every run of them inside. */
  function Hyphened(h: string): string { Collapse(TrimHyphens(h)) }

  lemma HyphenedStarts(c: char, z: string)
    requires c != '-'
    ensures Hyphened([c] + z) == [c] + if z != "" && z[0] == '-' && Hyphened(z) != "" then ['-'] + Hyphened(z) else Hyphened(z)
  {
    hide Collapse, TrimHyphens, NoEdge;
    CollapseTrims([c] + z);
    CollapseTrims(z);
    CollapseCons(c, z);
    var w := Collapse(z);
    HyphenAtEnd(c, w);
    if w == "" {
      HyphenedSkips(w);
    } else if w[0] == '-' {
      assert w == ['-'] + w[1..];
      if |w| == 1 {
        assert w[..0] == w[1..] == "";
      } else {
        assert w[1] != '-';
        assert w[..|w| - 1] == ['-'] + w[1..|w| - 1];
      }
    }
  }

  lemma HyphenedSkips(y: string)
    ensures Hyphened(['-'] + y) == Hyphened(y) && Hyphened("") == TrimHyphens("") == ""
  {
    hide Collapse, NoDouble, NoEdge;
    assert (['-'] + y)[1..] == y;
  }

  /** A hyphen links what stands on its two sides, if there is something on both. */
  lemma {:induction false} HyphenLinks(x: string, y: string)
    ensures Hyphened(x + ['-'] + y) == Linked(Hyphened(x), Hyphened(y))
  {
    hide Hyphened;
    HyphenedSkips(y);
    if x == "" {
      assert x + ['-'] + y == ['-'] + y;
    } else {
      var c, t := x[0], x[1..];
      var z := t + ['-'] + y;
      assert x == [c] + t && x + ['-'] + y == [c] + z;
      HyphenLinks(t, y);
      if c == '-' {
        HyphenedSkips(t);
        HyphenedSkips(z);
      } else {
        HyphenedStarts(c, t);
        HyphenedStarts(c, z);
        LinkStarts(c, t, y);
      }
    }
  }

  lemma LinkStarts(c: char, t: string, y: string)
    requires c != '-'
    ensures var z := t + ['-'] + y; var link := Linked(Hyphened(t), Hyphened(y));
            [c] + (if z[0] == '-' && link != "" then ['-'] + link else link)
            == Linked([c] + (if t != "" && t[0] == '-' && Hyphened(t) != "" then ['-'] + Hyphened(t) else Hyphened(t)), Hyphened(y))
  {
    hide Hyphened;
    var z, a, b := t + ['-'] + y, Hyphened(t), Hyphened(y);
    HyphenedSkips("");
    if t == "" {
      assert z[0] == '-' && a == "";
      assert b == "" ==> Linked([c], b) == [c];
    } else {
      assert z[0] == t[0];
      if t[0] != '-' {
        HyphenedStarts(t[0], t[1..]);
        assert t == [t[0]] + t[1..];
      }
      LinkedAfter(c, a, b, t[0] == '-');
    }
  }

  lemma LinkedAfter(c: char, a: string, b: string, hyphen: bool)
    requires hyphen || a != ""
    ensures var link := Linked(a, b);
            [c] + (if hyphen && link != "" then ['-'] + link else link)
            == Linked([c] + (if hyphen && a != "" then ['-'] + a else a), b)
  {
    if a != "" {
      var front := [c] + if hyphen then ['-'] + a else a;
      assert b != "" ==> front + "-" + b == [c] + if hyphen then ['-'] + (a + "-" + b) else a + "-" + b;
    } else {
      assert [c] + "-" + b == [c] + (['-'] + b);
    }
  }

  /** The characters that separate the words of a vendor, and of a model. */
  const VENDOR_MARKS: set<char> := {'-', '_', ' ', '.', '/'}
  const MODEL_MARKS: set<char> := {'-', '_', ' ', '/'}

  /** slug maps texts to their words joined by single hyphens: it leaves a text without marks
      alone, and links what stands on the two sides of any mark. */
  ghost predicate JoinsWords(marks: set<char>, slug: string -> string) {
    && (forall s: string :: (forall c :: c in s ==> c !in marks) ==> slug(s) == s)
    && (forall x: string, y, c :: c in marks ==> slug(x + [c] + y) == Linked(slug(x), slug(y)))
  }

  lemma HyphenatedSplits(separators: set<char>, x: string, c: char, y: string)
    requires c == '-' || c in separators
    ensures Hyphenate(separators, x + [c] + y) == Hyphenate(separators, x) + ['-'] + Hyphenate(separators, y)
  {
  }

  lemma CoreLinks(separators: set<char>, x: string, c: char, y: string)
    requires c == '-' || c in separators
    ensures Hyphened(Hyphenate(separators, x + [c] + y))
            == Linked(Hyphened(Hyphenate(separators, x)), Hyphened(Hyphenate(separators, y)))
  {
    hide Hyphened;
    HyphenatedSplits(separators, x, c, y);
    HyphenLinks(Hyphenate(separators, x), Hyphenate(separators, y));
  }

  lemma {:induction false} WordStays(s: string)
    requires forall c :: c in s ==> c != '-'
    ensures Hyphened(s) == s
  {
    hide Hyphened;
    HyphenedSkips("");
    if s != "" {
      assert s[0] in s && forall c :: c in s[1..] ==> c in s;
      assert s[1..] != "" ==> s[1..][0] in s[1..];
      WordStays(s[1..]);
      HyphenedStarts(s[0], s[1..]);
      assert s == [s[0]] + s[1..];
    }
  }

  lemma CoreStays(separators: set<char>, s: string)
    requires forall c :: c in s ==> c != '-' && c !in separators
    ensures Hyphened(Hyphenate(separators, s)) == s
  {
    hide Hyphened;
    assert Hyphenate(separators, s) == s;
    WordStays(s);
  }

  /** A vendor slug is the words of the trimmed, lower-case text joined by single hyphens. */
  lemma VendorSlugJoinsWords(raw: string) returns (slug: string -> string)
    ensures JoinsWords(VENDOR_MARKS, slug) && VendorSlug(raw) == slug(Trim(Lower(raw)))
  {
    hide Trim, Lower, Hyphened, Hyphenate;
    slug := (s: string) => Hyphened(Hyphenate(VENDOR_SEPARATORS, s));
    forall s: string | forall c :: c in s ==> c !in VENDOR_MARKS ensures slug(s) == s {
      CoreStays(VENDOR_SEPARATORS, s);
    }
    forall x: string, y, c | c in VENDOR_MARKS ensures slug(x + [c] + y) == Linked(slug(x), slug(y)) {
      CoreLinks(VENDOR_SEPARATORS, x, c, y);
    }
    VendorSlugIs(raw);
  }

  lemma VendorSlugIs(raw: string)
    ensures VendorSlug(raw) == Hyphened(Hyphenate(VENDOR_SEPARATORS, Trim(Lower(raw))))
  {
    hide Trim, Lower, Hyphenate, Collapse, TrimHyphens;
  }

  /** The leading "qwen-3-" or "qwen-3." is written without its first hyphen. */
  predicate QwenReads(s: string, r: string) {
    if |s| >= 7 && s[..6] == "qwen-3" && s[6] in {'-', '.'} then |r| == |s| - 1 && r[..5] == "qwen3" && r[5..] == s[6..] else r == s
  }

  lemma QwenIs(s: string)
    ensures QwenReads(s, Qwen(s))
  {
    assert "qwen-3-" <= s ==> s[..7] == "qwen-3-" && s[..7][..6] == "qwen-3" && s[..7][6] == '-';
    assert "qwen-3." <= s ==> s[..7] == "qwen-3." && s[..7][..6] == "qwen-3" && s[..7][6] == '.';
    if |s| >= 7 && s[..6] == "qwen-3" {
      assert s[..7] == s[..6] + [s[6]];
      assert "qwen-3-" == "qwen-3" + ['-'] && "qwen-3." == "qwen-3" + ['.'];
    }
  }

  /** A model slug is that with its own marks, and with the qwen spelling changed. */
  lemma ModelSlugJoinsWords(raw: string) returns (slug: string -> string)
    ensures JoinsWords(MODEL_MARKS, slug) && QwenReads(slug(Trim(Lower(raw))), ModelSlug(raw))
  {
    hide Trim, Lower, Hyphened, Hyphenate, Qwen;
    slug := (s: string) => Hyphened(Hyphenate(MODEL_SEPARATORS, s));
    forall s: string | forall c :: c in s ==> c !in MODEL_MARKS ensures slug(s) == s {
      CoreStays(MODEL_SEPARATORS, s);
    }
    forall x: string, y, c | c in MODEL_MARKS ensures slug(x + [c] + y) == Linked(slug(x), slug(y)) {
      CoreLinks(MODEL_SEPARATORS, x, c, y);
    }
    ModelSlugIs(raw);
    QwenIs(slug(Trim(Lower(raw))));
  }

  lemma ModelSlugIs(raw: string)
    ensures ModelSlug(raw) == Qwen(Hyphened(Hyphenate(MODEL_SEPARATORS, Trim(Lower(raw)))))
  {
    hide Trim, Lower, Hyphenate, Collapse, TrimHyphens;
    CollapseTrims(Hyphenate(MODEL_SEPARATORS, Trim(Lower(raw))));
  }

  /** Normalising a vendor twice is normalising once exactly when the input, without
      whitespace and then hyphens and separators at its ends, has no whitespace there again. */
  lemma VendorSlugIdempotentExactly(raw: string)
    ensures VendorSlug(VendorSlug(raw)) == VendorSlug(raw) <==> Trimmed(Strip(VENDOR_SEPARATORS, Trim(Lower(raw))))
  {
    hide Collapse, TrimHyphens, Hyphenate, Trim, Lower, Strip, Trimmed;
    VendorSlugFixedExactly(raw);
    SlugEnds(VENDOR_SEPARATORS, Trim(Lower(raw)));
  }

  lemma ModelSlugIdempotentExactly(raw: string)
    ensures ModelSlug(ModelSlug(raw)) == ModelSlug(raw) <==> Trimmed(Strip(MODEL_SEPARATORS, Trim(Lower(raw))))
  {
    hide Collapse, TrimHyphens, Hyphenate, Trim, Lower, Strip, Trimmed, Qwen;
    ModelSlugFixedExactly(raw);
    var h := Hyphenate(MODEL_SEPARATORS, Trim(Lower(raw)));
    CollapseTrims(h);
    QwenEnds(TrimHyphens(Collapse(h)));
    SlugEnds(MODEL_SEPARATORS, Trim(Lower(raw)));
  }

  /** A slug is a fixed point exactly when it has no whitespace at an end. */
  lemma VendorSlugFixedExactly(raw: string)
    ensures VendorSlug(VendorSlug(raw)) == VendorSlug(raw) <==> Trimmed(VendorSlug(raw))
  {
    hide Collapse, TrimHyphens, NoDouble, Trim, Settled;
    var h := Hyphenate(VENDOR_SEPARATORS, Trim(Lower(raw)));
    var r := VendorSlug(raw);
    HyphenateSettles(VENDOR_SEPARATORS, raw);
    SettledSubset(VENDOR_SEPARATORS, TrimHyphens(h), h);
    SettledSubset(VENDOR_SEPARATORS, r, TrimHyphens(h));
    SettledIsFixed(VENDOR_SEPARATORS, r);
    if Trimmed(r) {
      TrimOfTrimmed(r);
      assert TrimHyphens(r) == r;
      assert Collapse(r) == r;
    } else {
      TrimShortens(r);
    }
  }

  lemma TrimShortens(s: string)
    requires !Trimmed(s)
    ensures |Trim(s)| < |s|
  {
    hide IsSpace, TrimLeft, TrimRight;
    TrimLeftDrops(s);
    TrimRightDrops(TrimLeft(s));
    assert |TrimLeft(s)| == |s| ==> TrimLeft(s) == s;
  }

  lemma ModelSlugFixedExactly(raw: string)
    ensures ModelSlug(ModelSlug(raw)) == ModelSlug(raw) <==> Trimmed(ModelSlug(raw))
  {
    hide Collapse, TrimHyphens, NoDouble, NoEdge, Trim, Qwen, Settled, Lower, Hyphenate;
    var h := Hyphenate(MODEL_SEPARATORS, Trim(Lower(raw)));
    var t := TrimHyphens(Collapse(h));
    var r := ModelSlug(raw);
    HyphenateSettles(MODEL_SEPARATORS, raw);
    SettledSubset(MODEL_SEPARATORS, Collapse(h), h);
    SettledSubset(MODEL_SEPARATORS, t, Collapse(h));
    QwenSettled(t);
    QwenKeepsShape(t);
    SettledIsFixed(MODEL_SEPARATORS, r);
    if Trimmed(r) {
      TrimOfTrimmed(r);
      assert TrimHyphens(r) == r;
      assert Collapse(r) == r;
    } else {
      TrimShortens(r);
      QwenKeepsShape(TrimHyphens(Collapse(Hyphenate(MODEL_SEPARATORS, Trim(r)))));
    }
  }

  lemma QwenSettled(s: string)
    requires Settled(MODEL_SEPARATORS, s)
    ensures Settled(MODEL_SEPARATORS, Qwen(s))
    ensures NoSpace(s) ==> NoSpace(Qwen(s))
  {
    var r := Qwen(s);
    forall i | 0 <= i < |r|
      ensures LowerChar(r[i]) == r[i] && r[i] !in MODEL_SEPARATORS && (NoSpace(s) ==> !IsSpace(r[i]))
    {
      if r != s && i >= 6 {
        assert r[i] == s[i + 1] && s[i + 1] in s;
      } else if r == s {
        assert s[i] in s;
      }
    }
  }

  /** When the space is the only whitespace both normalisers are idempotent and the
      slug has no whitespace at all. */
  lemma SlugsIdempotentOnSpaces(raw: string)
    requires forall c :: c in raw && IsSpace(c) ==> c == ' '
    ensures NoSpace(VendorSlug(raw)) && VendorSlug(VendorSlug(raw)) == VendorSlug(raw)
    ensures NoSpace(ModelSlug(raw)) && ModelSlug(ModelSlug(raw)) == ModelSlug(raw)
  {
    hide Collapse, TrimHyphens, NoDouble, NoEdge, Trim, Qwen, Settled, Lower, Hyphenate;
    var v, m := Hyphenate(VENDOR_SEPARATORS, Trim(Lower(raw))), Hyphenate(MODEL_SEPARATORS, Trim(Lower(raw)));
    HyphenateSettles(VENDOR_SEPARATORS, raw);
    HyphenateSettles(MODEL_SEPARATORS, raw);
    SettledSubset(VENDOR_SEPARATORS, TrimHyphens(v), v);
    SettledSubset(VENDOR_SEPARATORS, VendorSlug(raw), TrimHyphens(v));
    SettledSubset(MODEL_SEPARATORS, Collapse(m), m);
    SettledSubset(MODEL_SEPARATORS, TrimHyphens(Collapse(m)), Collapse(m));
    QwenSettled(TrimHyphens(Collapse(m)));
    VendorSlugFixedExactly(raw);
    ModelSlugFixedExactly(raw);
  }

  /** A tab between a hyphen and the name shows the condition is needed. */
  lemma SlugNotIdempotentOnTabs()
    ensures VendorSlug(VendorSlug("-\ta")) != VendorSlug("-\ta")
    ensures ModelSlug(ModelSlug("-\ta")) != ModelSlug("-\ta")
  {
    hide Collapse, TrimHyphens, Trim, Lower, Hyphenate, VendorSlug, ModelSlug;
    TabVendorSlug("-\ta");
    TabModelSlug("-\ta");
    VendorSlugFixedExactly("-\ta");
    ModelSlugFixedExactly("-\ta");
  }

  lemma TabHyphenated(s: string, t: string)
    requires s == "-\ta" && t == "\ta"
    ensures Trim(Lower(s)) == s && Hyphenate(VENDOR_SEPARATORS, s) == s && Hyphenate(MODEL_SEPARATORS, s) == s
    ensures NoDouble(s) && NoDouble(t)
  {
    hide Collapse, TrimHyphens, Trim, Qwen;
    TrimOfTrimmed(s);
    assert Lower(s) == s;
  }

  lemma TabTrimmed(s: string, t: string)
    requires s == "-\ta" && t == "\ta"
    ensures TrimHyphens(s) == t
  {
    assert s[1..] == t;
    assert NoEdge(t);
  }

  lemma TabVendorSlug(s: string)
    requires s == "-\ta"
    ensures VendorSlug(s) == "\ta"
  {
    hide Collapse, TrimHyphens, Trim, Lower, Hyphenate, NoDouble;
    TabHyphenated(s, "\ta");
    TabTrimmed(s, "\ta");
  }

  lemma TabModelSlug(s: string)
    requires s == "-\ta"
    ensures ModelSlug(s) == "\ta"
  {
    hide Collapse, TrimHyphens, Trim, Lower, Hyphenate, NoDouble;
    TabHyphenated(s, "\ta");
    TabTrimmed(s, "\ta");
  }
}

/** Date and release suffixes of model ids (identity.go). */
module ModelSuffix {
  import opened Text

  datatype Cut = Cut(base: string, suffix: string)

  predicate AllDigits(s: string) {
    s != "" && forall i :: 0 <= i < |s| ==> '0' <= s[i] <= '9'
  }

  /** Go's month >= "01" && month <= "12" on strings. */
  predicate InRange(s: string, low: string, high: string) {
    !Less(s, low) && !Less(high, s)
  }

  predicate ValidMonth(year: string, month: string) {
    |year| == 4 && |month| == 2 && AllDigits(year) && AllDigits(month) && InRange(month, "01", "12")
  }

  predicate ValidDate(year: string, month: string, day: string) {
    && |year| == 4 && |month| == 2 && |day| == 2 && AllDigits(year) && AllDigits(month) && AllDigits(day)
    && InRange(month, "01", "12") && InRange(day, "01", "31")
  }

  /** YYYY-MM-DD. */
  predicate DashedDate(s: string) {
    |s| == 10 && s[4] == '-' && s[7] == '-' && ValidDate(s[..4], s[5..7], s[8..10])
  }

  /** YYYYMMDD. */
  predicate PlainDate(s: string) {
    |s| == 8 && ValidDate(s[..4], s[4..6], s[6..8])
  }

  predicate MonthYear(s: string) {
    |s| == 7 && s[2] == '-' && ValidMonth(s[3..], s[..2])
  }

  predicate YearMonth(s: string) {
    |s| == 7 && s[4] == '-' && ValidMonth(s[..4], s[5..])
  }

  predicate Release(s: string) {
    |s| == 4 && AllDigits(s)
  }

  /** The last n characters, if there is something and a hyphen in front of them. */
  predicate HasTail(id: string, n: nat) {
    |id| > n + 1 && id[|id| - n - 1] == '-'
  }

  function Tail(id: string, n: nat): string
    requires n <= |id|
  {
    id[|id| - n..]
  }

  function CutTail(id: string, n: nat): Cut
    requires HasTail(id, n)
  {
    Cut(Trim(id[..|id| - n - 1]), Tail(id, n))
  }

  function CutPreciseDate(raw: string): Option<Cut> {
    var id := Trim(raw);
    if HasTail(id, 10) && DashedDate(Tail(id, 10)) then Some(CutTail(id, 10))
    else if HasTail(id, 8) && PlainDate(Tail(id, 8)) then Some(CutTail(id, 8))
    else None
  }

  function CutCalendarRelease(raw: string): Option<Cut> {
    var id := Trim(raw);
    if HasTail(id, 7) && MonthYear(Tail(id, 7)) then Some(CutTail(id, 7))
    else if HasTail(id, 7) && YearMonth(Tail(id, 7)) then Some(CutTail(id, 7))
    else None
  }

  /** strings.LastIndex(s, "-"). */
  function LastHyphen(s: string): (i: int)
    ensures -1 <= i < |s|
    ensures i >= 0 ==> s[i] == '-'
    ensures forall k :: i < k < |s| ==> s[k] != '-'
  {
    if s == "" then -1
    else if s[|s| - 1] == '-' then |s| - 1
    else LastHyphen(s[..|s| - 1])
  }

  function CutRelease(raw: string): Option<Cut> {
    var id := Trim(raw);
    var dash := LastHyphen(id);
    if |id| <= 5 || dash <= 0 || dash == |id| - 1 then None
    else if !Release(id[dash + 1..]) then None
    else Some(Cut(Trim(id[..dash]), id[dash + 1..]))
  }

  function Joined(cut: Cut): string { cut.base + "-" + cut.suffix }

  predicate DateSuffix(s: string) { DashedDate(s) || PlainDate(s) }

  predicate CalendarSuffix(s: string) { MonthYear(s) || YearMonth(s) }

  // ----- suffixes by their digits

  predicate DigitAt(s: string, i: nat) { i < |s| && '0' <= s[i] <= '9' }

  /** The number that the two digits at i write. */
  function TwoAt(s: string, i: nat): int
    requires i + 1 < |s|
  {
    10 * (s[i] as int - '0' as int) + (s[i + 1] as int - '0' as int)
  }

  lemma LessOfTwo(a: string, b: string)
    requires |a| == |b| == 2
    ensures Less(a, b) <==> a[0] < b[0] || (a[0] == b[0] && a[1] < b[1])
  {
    assert a[1..][1..] == "" && b[1..][1..] == "";
    assert Less(a[1..], b[1..]) <==> a[1] < b[1];
  }

  lemma RangeReads(s: string, i: nat, low: string, high: string)
    requires i + 1 < |s| && |low| == |high| == 2 && AllDigits(s[i..i + 2]) && AllDigits(low) && AllDigits(high)
    ensures InRange(s[i..i + 2], low, high) <==> TwoAt(low, 0) <= TwoAt(s, i) <= TwoAt(high, 0)
  {
    hide Less;
    var t := s[i..i + 2];
    LessOfTwo(t, low);
    LessOfTwo(high, t);
    assert t[0] == s[i] && t[1] == s[i + 1];
  }

  lemma DigitsRead(s: string, i: nat, j: nat)
    requires i < j <= |s|
    ensures AllDigits(s[i..j]) <==> forall k :: i <= k < j ==> DigitAt(s, k)
  {
    var t := s[i..j];
    assert forall k :: 0 <= k < |t| ==> t[k] == s[i + k];
    if AllDigits(t) {
      forall k | i <= k < j ensures DigitAt(s, k) {
        assert t[k - i] == s[k];
      }
    }
    if forall k :: i <= k < j ==> DigitAt(s, k) {
      forall k | 0 <= k < |t| ensures '0' <= t[k] <= '9' {
        assert DigitAt(s, i + k);
      }
    }
  }

  /** Four digits of a year, two of a month from 1 to 12, two of a day from 1 to 31, at the given places. */
  predicate DateAt(s: string, year: nat, month: nat, day: nat) {
    && (forall k :: year <= k < year + 4 ==> DigitAt(s, k)) && DigitAt(s, month) && DigitAt(s, month + 1)
    && DigitAt(s, day) && DigitAt(s, day + 1) && 1 <= TwoAt(s, month) <= 12 && 1 <= TwoAt(s, day) <= 31
  }

  predicate MonthAt(s: string, year: nat, month: nat) {
    && (forall k :: year <= k < year + 4 ==> DigitAt(s, k)) && DigitAt(s, month) && DigitAt(s, month + 1) && 1 <= TwoAt(s, month) <= 12
  }

  lemma ValidMonthReads(s: string, year: nat, month: nat)
    requires year + 4 <= |s| && month + 2 <= |s|
    ensures ValidMonth(s[year..year + 4], s[month..month + 2]) <==> MonthAt(s, year, month)
  {
    hide AllDigits, InRange, DigitAt;
    DigitsRead(s, year, year + 4);
    DigitsRead(s, month, month + 2);
    Bounds();
    if AllDigits(s[month..month + 2]) {
      RangeReads(s, month, "01", "12");
    }
  }

  lemma ValidDateReads(s: string, year: nat, month: nat, day: nat)
    requires year + 4 <= |s| && month + 2 <= |s| && day + 2 <= |s|
    ensures ValidDate(s[year..year + 4], s[month..month + 2], s[day..day + 2]) <==> DateAt(s, year, month, day)
  {
    hide AllDigits, InRange, DigitAt;
    DigitsRead(s, year, year + 4);
    DigitsRead(s, month, month + 2);
    DigitsRead(s, day, day + 2);
    Bounds();
    if AllDigits(s[month..month + 2]) {
      RangeReads(s, month, "01", "12");
    }
    if AllDigits(s[day..day + 2]) {
      RangeReads(s, day, "01", "31");
    }
  }

  lemma Bounds()
    ensures AllDigits("01") && AllDigits("12") && AllDigits("31")
    ensures TwoAt("01", 0) == 1 && TwoAt("12", 0) == 12 && TwoAt("31", 0) == 31
  {
  }

  /** Which suffixes are precise dates: YYYY-MM-DD and YYYYMMDD. */
  lemma DateReads(s: string)
    ensures DateSuffix(s) <==> || (|s| == 10 && s[4] == '-' && s[7] == '-' && DateAt(s, 0, 5, 8))
                               || (|s| == 8 && DateAt(s, 0, 4, 6))
  {
    hide ValidDate, DateAt;
    if |s| == 10 {
      ValidDateReads(s, 0, 5, 8);
      assert s[0..4] == s[..4];
    } else if |s| == 8 {
      ValidDateReads(s, 0, 4, 6);
      assert s[0..4] == s[..4];
    }
  }

  /** Which suffixes are calendar releases: MM-YYYY and YYYY-MM. */
  lemma CalendarReads(s: string)
    ensures CalendarSuffix(s) <==> |s| == 7 && ((s[2] == '-' && MonthAt(s, 3, 0)) || (s[4] == '-' && MonthAt(s, 0, 5)))
  {
    hide ValidMonth, MonthAt;
    if |s| == 7 {
      ValidMonthReads(s, 3, 0);
      ValidMonthReads(s, 0, 5);
      assert s[3..7] == s[3..] && s[0..2] == s[..2] && s[0..4] == s[..4] && s[5..7] == s[5..];
    }
  }

  lemma ReleaseReads(s: string)
    ensures Release(s) <==> |s| == 4 && forall k :: 0 <= k < 4 ==> DigitAt(s, k)
  {
    if |s| == 4 {
      DigitsRead(s, 0, 4);
      assert s[0..4] == s;
    }
  }

  // ----- cuts by the text

  /** The trimmed text is something, a hyphen and the suffix; the base is what is in front, trimmed. */
  ghost predicate Suffixed(raw: string, base: string, suffix: string) {
    exists front: string :: front != "" && Trim(raw) == front + "-" + suffix && base == Trim(front)
  }

  lemma TailSuffixed(raw: string, suffix: string, base: string)
    ensures Suffixed(raw, base, suffix)
            <==> HasTail(Trim(raw), |suffix|) && Tail(Trim(raw), |suffix|) == suffix && CutTail(Trim(raw), |suffix|) == Cut(base, suffix)
  {
    hide Trim;
    var id, n := Trim(raw), |suffix|;
    if front: string :| front != "" && id == front + "-" + suffix && base == Trim(front) {
      assert id[|front|] == '-' && id[..|front|] == front && id[|front| + 1..] == suffix;
    }
    if HasTail(id, n) && Tail(id, n) == suffix {
      var front := id[..|id| - n - 1];
      assert id == front + "-" + suffix;
    }
  }

  /** A precise date is cut exactly where the text ends in a hyphen and such a date. */
  lemma DateCutExactly(raw: string, base: string, suffix: string)
    ensures CutPreciseDate(raw) == Some(Cut(base, suffix)) <==> DateSuffix(suffix) && Suffixed(raw, base, suffix)
  {
    hide Trim, ValidDate, CutTail, Suffixed;
    var id := Trim(raw);
    TailSuffixed(raw, suffix, base);
    if HasTail(id, 10) && HasTail(id, 8) {
      TwoDateTails(id);
    }
    if HasTail(id, 10) && DashedDate(Tail(id, 10)) {
      CutTailIs(id, 10);
    }
    if HasTail(id, 8) && PlainDate(Tail(id, 8)) {
      CutTailIs(id, 8);
    }
  }

  lemma CutTailIs(id: string, n: nat)
    requires HasTail(id, n)
    ensures CutTail(id, n).suffix == Tail(id, n) && |Tail(id, n)| == n
  {
  }

  /** No text ends in both kinds of date. */
  lemma TwoDateTails(id: string)
    requires HasTail(id, 10) && HasTail(id, 8)
    ensures !(DashedDate(Tail(id, 10)) && PlainDate(Tail(id, 8)))
  {
    hide ValidDate;
    if PlainDate(Tail(id, 8)) {
      PlainDateDigits(Tail(id, 8));
      assert Tail(id, 10)[7] == Tail(id, 8)[5];
    }
  }

  lemma CalendarCutExactly(raw: string, base: string, suffix: string)
    ensures CutCalendarRelease(raw) == Some(Cut(base, suffix)) <==> CalendarSuffix(suffix) && Suffixed(raw, base, suffix)
  {
    hide Trim, ValidMonth, CutTail, Suffixed;
    var id := Trim(raw);
    TailSuffixed(raw, suffix, base);
    if HasTail(id, 7) {
      CutTailIs(id, 7);
    }
  }

  lemma ReleaseCutExactly(raw: string, base: string, suffix: string)
    ensures CutRelease(raw) == Some(Cut(base, suffix)) <==> Release(suffix) && Suffixed(raw, base, suffix)
  {
    hide Trim, Suffixed;
    var id := Trim(raw);
    TailSuffixed(raw, suffix, base);
    var dash := LastHyphen(id);
    if HasTail(id, 4) && Release(Tail(id, 4)) {
      var tail := Tail(id, 4);
      assert forall k :: 0 <= k < 4 ==> tail[k] == id[|id| - 4 + k];
      assert dash == |id| - 5;
    }
  }

  lemma NoSpaceSlices(id: string, i: nat)
    requires NoSpace(id) && i <= |id|
    ensures NoSpace(id[..i]) && Trim(id[..i]) == id[..i] && Trim(id) == id
  {
    TrimOfNoSpace(id);
    TrimOfNoSpace(id[..i]);
  }

  lemma CutTailJoins(id: string, n: nat)
    requires NoSpace(id) && HasTail(id, n)
    ensures Joined(CutTail(id, n)) == id && CutTail(id, n).base != ""
  {
    hide Trim;
    var k := |id| - n - 1;
    NoSpaceSlices(id, k);
    assert id == id[..k] + "-" + id[k + 1..];
  }

  /** A cut puts back together to the id, and its suffix is of the right kind. */
  lemma PreciseCutJoins(id: string)
    requires NoSpace(id) && CutPreciseDate(id).Some?
    ensures var c := CutPreciseDate(id).value; Joined(c) == id && c.base != "" && DateSuffix(c.suffix)
  {
    hide Trim, DashedDate, PlainDate, Joined;
    TrimOfNoSpace(id);
    if HasTail(id, 10) { CutTailJoins(id, 10); }
    if HasTail(id, 8) { CutTailJoins(id, 8); }
  }

  lemma CalendarCutJoins(id: string)
    requires NoSpace(id) && CutCalendarRelease(id).Some?
    ensures var c := CutCalendarRelease(id).value; Joined(c) == id && c.base != "" && CalendarSuffix(c.suffix)
  {
    hide Trim, MonthYear, YearMonth, Joined;
    TrimOfNoSpace(id);
    if HasTail(id, 7) { CutTailJoins(id, 7); }
  }

  lemma ReleaseCutJoins(id: string)
    requires NoSpace(id) && CutRelease(id).Some?
    ensures var c := CutRelease(id).value; Joined(c) == id && c.base != "" && Release(c.suffix)
  {
    hide Trim, Release;
    TrimOfNoSpace(id);
    var dash := LastHyphen(id);
    NoSpaceSlices(id, dash);
    assert id == id[..dash] + "-" + id[dash + 1..];
  }

  /** id is base, a hyphen and suffix, and cutting the tail off gives them back. */
  predicate JoinOf(id: string, base: string, suffix: string) {
    && Trim(id) == id && |id| == |base| + 1 + |suffix| && id[|base|] == '-'
    && (forall k :: |base| < k < |id| ==> id[k] == suffix[k - |base| - 1])
    && HasTail(id, |suffix|) && CutTail(id, |suffix|) == Cut(base, suffix)
  }

  lemma JoinIsJoinOf(base: string, suffix: string)
    requires base != "" && Trim(base) == base && Trim(base + "-" + suffix) == base + "-" + suffix
    ensures JoinOf(Joined(Cut(base, suffix)), base, suffix)
  {
    hide Trim;
    var id := Joined(Cut(base, suffix));
    assert id[..|id| - |suffix| - 1] == base;
    assert Tail(id, |suffix|) == suffix;
  }

  lemma NoSpaceJoin(base: string, suffix: string)
    requires NoSpace(base) && forall i :: 0 <= i < |suffix| ==> suffix[i] == '-' || '0' <= suffix[i] <= '9'
    ensures NoSpace(base + "-" + suffix)
  {
    hide Trim;
  }

  lemma SuffixChars(s: string)
    requires DateSuffix(s) || CalendarSuffix(s) || Release(s)
    ensures forall i :: 0 <= i < |s| ==> s[i] == '-' || '0' <= s[i] <= '9'
  {
    hide InRange;
    forall i | 0 <= i < |s| ensures s[i] == '-' || '0' <= s[i] <= '9' {
      if DashedDate(s) {
        assert i < 4 ==> s[..4][i] == s[i];
        assert 5 <= i < 7 ==> s[5..7][i - 5] == s[i];
        assert 8 <= i < 10 ==> s[8..10][i - 8] == s[i];
      } else if PlainDate(s) {
        assert i < 4 ==> s[..4][i] == s[i];
        assert 4 <= i < 6 ==> s[4..6][i - 4] == s[i];
        assert 6 <= i < 8 ==> s[6..8][i - 6] == s[i];
      } else if MonthYear(s) {
        assert i < 2 ==> s[..2][i] == s[i];
        assert 3 <= i < 7 ==> s[3..][i - 3] == s[i];
      } else if YearMonth(s) {
        assert i < 4 ==> s[..4][i] == s[i];
        assert 5 <= i < 7 ==> s[5..][i - 5] == s[i];
      }
    }
  }

  /** A plain date is all digits, so no dashed date can end at the same place. */
  lemma PlainDateDigits(s: string)
    requires PlainDate(s)
    ensures forall i :: 0 <= i < 8 ==> s[i] != '-'
  {
    hide InRange;
    forall i | 0 <= i < 8 ensures s[i] != '-' {
      assert i < 4 ==> s[..4][i] == s[i];
      assert 4 <= i < 6 ==> s[4..6][i - 4] == s[i];
      assert 6 <= i < 8 ==> s[6..8][i - 6] == s[i];
    }
  }

  /** What every cutter sees of a base joined with a suffix. */
  lemma JoinShape(base: string, suffix: string)
    requires base != "" && NoSpace(base) && (DateSuffix(suffix) || CalendarSuffix(suffix) || Release(suffix))
    ensures JoinOf(Joined(Cut(base, suffix)), base, suffix)
  {
    hide *;
    SuffixChars(suffix);
    NoSpaceJoin(base, suffix);
    TrimOfNoSpace(base);
    TrimOfNoSpace(base + "-" + suffix);
    JoinIsJoinOf(base, suffix);
  }

  /** Any base joined with a suffix is cut back into exactly the two. */
  lemma JoinedDateIsCut(base: string, suffix: string)
    requires base != "" && NoSpace(base) && DateSuffix(suffix)
    ensures CutPreciseDate(Joined(Cut(base, suffix))) == Some(Cut(base, suffix))
  {
    hide Trim, ValidDate, Joined;
    var id := Joined(Cut(base, suffix));
    JoinShape(base, suffix);
    if PlainDate(suffix) {
      PlainDateDigits(suffix);
      assert id[|id| - 6] == suffix[2];
      if HasTail(id, 10) { assert Tail(id, 10)[4] == id[|id| - 6]; }
    }
  }

  lemma JoinedCalendarIsCut(base: string, suffix: string)
    requires base != "" && NoSpace(base) && CalendarSuffix(suffix)
    ensures CutCalendarRelease(Joined(Cut(base, suffix))) == Some(Cut(base, suffix))
  {
    hide Trim, ValidMonth, Joined;
    JoinShape(base, suffix);
  }

  lemma JoinedReleaseIsCut(base: string, suffix: string)
    requires base != "" && NoSpace(base) && Release(suffix)
    ensures CutRelease(Joined(Cut(base, suffix))) == Some(Cut(base, suffix))
  {
    hide Trim;
    var id := Joined(Cut(base, suffix));
    JoinShape(base, suffix);
    assert forall k :: |base| < k < |id| ==> id[k] == suffix[k - |base| - 1];
    assert LastHyphen(id) == |base|;
  }

  /** An id with a precise date is neither a calendar nor a four-digit release. */
  lemma PreciseDateIsNotARelease(raw: string)
    requires CutPreciseDate(raw).Some?
    ensures CutCalendarRelease(raw).None? && CutRelease(raw).None?
  {
    var id := Trim(raw);
    hide Trim;
    if HasTail(id, 10) && DashedDate(Tail(id, 10)) {
      var s := Tail(id, 10);
      SuffixChars(s);
      assert s[..4][2] == s[2];
      assert id[|id| - 8] == s[2];
      assert id[|id| - 3] == s[7] == '-';
      assert s[8..10][0] == s[8] && s[8..10][1] == s[9];
      assert id[|id| - 2] == s[8] && id[|id| - 1] == s[9];
      assert LastHyphen(id) == |id| - 3;
    } else {
      var s := Tail(id, 8);
      PlainDateDigits(s);
      assert s == id[|id| - 8..];
      assert id[|id| - 8] == s[0];
      assert forall k :: |id| - 8 <= k < |id| ==> id[k] == s[k - |id| + 8];
      assert id[|id| - 9] == '-';
      assert LastHyphen(id) == |id| - 9;
    }
  }
}

/** Canonical ids for external models (identity.go and resolveModelRef). */
module ModelIdentity {
  import opened Text
  import opened Slugs
  import opened ModelSuffix

  // ----- channel tokens

  predicate Separator(c: char) {
    c in {'-', '_', '.', '/', ':', ' ', '(', ')'}
  }

  /** The length of the first token. */
  function Run(s: string): (n: nat)
    ensures n <= |s|
    ensures forall i :: 0 <= i < n ==> !Separator(s[i])
    ensures n < |s| ==> Separator(s[n])
  {
    if s == "" || Separator(s[0]) then 0 else 1 + Run(s[1..])
  }

  /** strings.FieldsFunc. */
  function Fields(s: string): seq<string>
    decreases |s|
  {
    if s == "" then []
    else if Separator(s[0]) then Fields(s[1..])
    else [s[..Run(s)]] + Fields(s[Run(s)..])
  }

  predicate Channel(token: string) {
    token == "preview" || token == "latest" || token == "experimental"
  }

  predicate HasChannelToken(value: string) {
    exists t :: t in Fields(Lower(Trim(value))) && Channel(t)
  }

  /** Tokens on the two sides of a separator do not interact. */
  lemma {:induction false} FieldsSplit(a: string, c: char, b: string)
    requires Separator(c)
    ensures Fields(a + [c] + b) == Fields(a) + Fields(b)
    decreases |a|
  {
    hide Separator, Run, Fields;
    var s := a + [c] + b;
    FieldsStep(a);
    FieldsStep(s);
    if a == "" {
      assert s[1..] == b;
    } else if Separator(a[0]) {
      assert s[1..] == a[1..] + [c] + b;
      FieldsSplit(a[1..], c, b);
    } else {
      var n := Run(a);
      RunSplit(a, c, b);
      RunStarts(a);
      assert s[..n] == a[..n] && s[n..] == a[n..] + [c] + b;
      FieldsSplit(a[n..], c, b);
    }
  }

  lemma FieldsStep(s: string)
    ensures Fields(s) == if s == "" then [] else if Separator(s[0]) then Fields(s[1..]) else [s[..Run(s)]] + Fields(s[Run(s)..])
  {
    hide Separator, Run;
  }

  lemma RunStarts(s: string)
    requires s != "" && !Separator(s[0])
    ensures Run(s) > 0
  {
    hide Separator;
  }

  lemma {:induction false} RunSplit(a: string, c: char, b: string)
    requires Separator(c)
    ensures Run(a + [c] + b) == Run(a)
  {
    var s := a + [c] + b;
    if a != "" && !Separator(a[0]) {
      assert s[1..] == a[1..] + [c] + b;
      RunSplit(a[1..], c, b);
    }
  }

  /** s[i..j] stands between separators, or the ends, and has none inside. */
  predicate Between(s: string, i: nat, j: nat) {
    && i < j <= |s| && (i > 0 ==> s[i - 1] in {'-', '_', '.', '/', ':', ' ', '(', ')'})
    && (j < |s| ==> s[j] in {'-', '_', '.', '/', ':', ' ', '(', ')'})
    && forall k :: i <= k < j ==> s[k] !in {'-', '_', '.', '/', ':', ' ', '(', ')'}
  }

  /** The word stands between separators somewhere in the text. */
  ghost predicate Stands(s: string, t: string) {
    exists i: nat, j: nat :: Between(s, i, j) && s[i..j] == t
  }

  /** The fields of a text are the words that stand in it. */
  lemma {:induction false} FieldsExactly(s: string, t: string)
    ensures t in Fields(s) <==> Stands(s, t)
    decreases |s|
  {
    hide Stands, Separator, Run;
    FieldsStep(s);
    if s == "" {
      NothingStands(s, t);
    } else if Separator(s[0]) {
      FieldsExactly(s[1..], t);
      StandsLater(s, t);
    } else {
      RunStarts(s);
      FieldsExactly(s[Run(s)..], t);
      StandsAfter(s, t);
    }
  }

  lemma NothingStands(s: string, t: string)
    requires s == ""
    ensures !Stands(s, t)
  {
  }

  lemma StandsLater(s: string, t: string)
    requires s != "" && Separator(s[0])
    ensures Stands(s, t) <==> Stands(s[1..], t)
  {
    if i: nat, j: nat :| Between(s, i, j) && s[i..j] == t {
      assert i > 0;
      assert s[1..][i - 1..j - 1] == s[i..j];
      assert Between(s[1..], i - 1, j - 1);
    }
    if i: nat, j: nat :| Between(s[1..], i, j) && s[1..][i..j] == t {
      assert s[i + 1..j + 1] == s[1..][i..j];
      assert Between(s, i + 1, j + 1);
    }
  }

  lemma HeadBetween(s: string, i: nat, j: nat)
    requires s != "" && !Separator(s[0]) && i < Run(s)
    ensures Between(s, i, j) <==> i == 0 && j == Run(s)
  {
    hide Run;
    RunStarts(s);
    var n := Run(s);
    assert i > 0 ==> !Separator(s[i - 1]);
    assert n < |s| ==> Separator(s[n]);
  }

  lemma RestBetween(s: string, n: nat, i: nat, j: nat)
    requires 0 < n <= |s| && !Separator(s[n - 1]) && (n < |s| ==> Separator(s[n]))
    ensures Between(s, n + i, n + j) <==> Between(s[n..], i, j)
    ensures Between(s[n..], i, j) ==> s[n + i..n + j] == s[n..][i..j]
  {
  }

  lemma StandsAt(s: string, i: nat, j: nat, t: string)
    requires i <= j <= |s| && Between(s, i, j) && s[i..j] == t
    ensures Stands(s, t)
  {
    hide Between;
  }

  lemma StandingAt(s: string, t: string) returns (i: nat, j: nat)
    requires Stands(s, t)
    ensures i < j <= |s| && Between(s, i, j) && s[i..j] == t
  {
    i, j :| Between(s, i, j) && s[i..j] == t;
  }

  lemma RestStands(s: string, n: nat, t: string)
    requires 0 < n <= |s| && !Separator(s[n - 1]) && (n < |s| ==> Separator(s[n])) && Stands(s[n..], t)
    ensures Stands(s, t)
  {
    hide Separator, Stands, Between;
    var i, j := StandingAt(s[n..], t);
    RestBetween(s, n, i, j);
    StandsAt(s, n + i, n + j, t);
  }

  lemma StandsAfter(s: string, t: string)
    requires s != "" && !Separator(s[0])
    ensures Stands(s, t) <==> s[..Run(s)] == t || Stands(s[Run(s)..], t)
  {
    hide Run, Separator, Stands, Between;
    var n := Run(s);
    RunStarts(s);
    HeadBetween(s, 0, n);
    if s[..n] == t {
      assert s[0..n] == s[..n];
      StandsAt(s, 0, n, t);
    }
    if Stands(s[n..], t) {
      RestStands(s, n, t);
    }
    if Stands(s, t) {
      var i, j := StandingAt(s, t);
      if i < n {
        HeadBetween(s, i, j);
        assert s[0..n] == s[..n];
      } else {
        RestBetween(s, n, i - n, j - n);
        StandsAt(s[n..], i - n, j - n, t);
      }
    }
  }

  /** One of the three words stands in the text. */
  ghost predicate NamesChannel(s: string) {
    Stands(s, "preview") || Stands(s, "latest") || Stands(s, "experimental")
  }

  /** Whether a model id names a channel can be read off its trimmed, lower-case text. */
  lemma ChannelExactly(value: string)
    ensures HasChannelToken(value) <==> NamesChannel(Lower(Trim(value)))
  {
    hide Trim, Lower, Fields, Stands;
    var s := Lower(Trim(value));
    FieldsExactly(s, "preview");
    FieldsExactly(s, "latest");
    FieldsExactly(s, "experimental");
  }

  // ----- candidates

  /** appendCandidate: blanks and repetitions are dropped. */
  function Append(out: seq<string>, candidate: string): seq<string> {
    var c := Trim(candidate);
    if c == "" || c in out then out else out + [c]
  }

  function TrimSuffix(s: string, suffix: string): string {
    if |suffix| <= |s| && s[|s| - |suffix|..] == suffix then s[..|s| - |suffix|] else s
  }

  function Candidates(raw: string): seq<string> {
    var date, calendar, release := CutPreciseDate(raw), CutCalendarRelease(raw), CutRelease(raw);
    var c1 := if date.Some? then Append([], date.value.base) else [];
    var c2 := if calendar.Some? then AppendBoth(c1, calendar.value.base) else c1;
    var c3 := if release.Some? then AppendBoth(c2, release.value.base) else c2;
    Append(c3, raw)
  }

  function AppendBoth(out: seq<string>, base: string): seq<string> {
    Append(Append(out, base), TrimSuffix(base, "-instruct"))
  }

  method ExternalModelCandidates(raw: string) returns (out: seq<string>)
    ensures out == Candidates(raw)
  {
    hide Trim, Append;
    out := [];
    var date := CutPreciseDate(raw);
    if date.Some? {
      out := Append(out, date.value.base);
    }
    var calendar := CutCalendarRelease(raw);
    if calendar.Some? {
      out := Append(out, calendar.value.base);
      out := Append(out, TrimSuffix(calendar.value.base, "-instruct"));
    }
    var release := CutRelease(raw);
    if release.Some? {
      out := Append(out, release.value.base);
      out := Append(out, TrimSuffix(release.value.base, "-instruct"));
    }
    out := Append(out, raw);
  }

  /** Distinct, non-empty and all shorter than n. */
  predicate Shorter(out: seq<string>, n: nat) {
    && (forall i :: 0 <= i < |out| ==> out[i] != "" && |out[i]| < n)
    && (forall i, j :: 0 <= i < j < |out| ==> out[i] != out[j])
  }

  lemma AppendShorter(out: seq<string>, candidate: string, n: nat)
    requires Shorter(out, n) && |candidate| < n
    ensures Shorter(Append(out, candidate), n)
  {
    hide Trim;
    TrimIsTrimmed(candidate);
  }

  lemma CutsAreShorter(raw: string)
    ensures CutPreciseDate(raw).Some? ==> |CutPreciseDate(raw).value.base| < |Trim(raw)|
    ensures CutCalendarRelease(raw).Some? ==> |CutCalendarRelease(raw).value.base| < |Trim(raw)|
    ensures CutRelease(raw).Some? ==> |CutRelease(raw).value.base| < |Trim(raw)|
  {
    hide Trim, DashedDate, PlainDate, MonthYear, YearMonth, Release;
    forall k | 0 <= k <= |Trim(raw)| ensures |Trim(Trim(raw)[..k])| <= k {
      TrimIsTrimmed(Trim(raw)[..k]);
    }
  }

  /** For any id at all: the trimmed id comes last, unless blank, and everything before
      it is distinct, not empty and strictly shorter. */
  lemma CandidatesShape(raw: string)
    ensures var out := Candidates(raw);
            if Trim(raw) == "" then out == []
            else |out| > 0 && out[|out| - 1] == Trim(raw) && Shorter(out[..|out| - 1], |Trim(raw)|)
  {
    hide Trim, CutPreciseDate, CutCalendarRelease, CutRelease, TrimSuffix, Append;
    var n := |Trim(raw)|;
    CutsAreShorter(raw);
    var date, calendar, release := CutPreciseDate(raw), CutCalendarRelease(raw), CutRelease(raw);
    var c1 := if date.Some? then Append([], date.value.base) else [];
    if date.Some? { AppendShorter([], date.value.base, n); }
    var c2 := if calendar.Some? then AppendBoth(c1, calendar.value.base) else c1;
    if calendar.Some? { AppendBothShorter(c1, calendar.value.base, n); }
    var c3 := if release.Some? then AppendBoth(c2, release.value.base) else c2;
    if release.Some? { AppendBothShorter(c2, release.value.base, n); }
    AppendLast(c3, raw);
  }

  lemma AppendBothShorter(out: seq<string>, base: string, n: nat)
    requires Shorter(out, n) && |base| < n
    ensures Shorter(AppendBoth(out, base), n)
  {
    hide Trim, Append;
    AppendShorter(out, base, n);
    AppendShorter(Append(out, base), TrimSuffix(base, "-instruct"), n);
  }

  lemma AppendLast(out: seq<string>, raw: string)
    requires Shorter(out, |Trim(raw)|)
    ensures Append(out, raw) == if Trim(raw) == "" then [] else out + [Trim(raw)]
    ensures Trim(raw) != "" ==> (out + [Trim(raw)])[..|out|] == out
  {
    hide Trim;
    assert out == [] || |out[0]| < |Trim(raw)|;
  }

  /** c is id, or id up to one of its hyphens. */
  predicate Boundary(c: string, id: string) {
    c == id || (c != "" && |c| < |id| && id[..|c|] == c && id[|c|] == '-')
  }

  predicate AllBoundaries(out: seq<string>, id: string) {
    forall i :: 0 <= i < |out| ==> Boundary(out[i], id)
  }

  lemma AppendBoundary(out: seq<string>, candidate: string, id: string)
    requires AllBoundaries(out, id) && NoSpace(candidate)
    requires candidate != "" ==> Boundary(candidate, id)
    ensures AllBoundaries(Append(out, candidate), id)
  {
    TrimOfNoSpace(candidate);
    hide Trim, Boundary;
  }

  lemma AppendBothBoundary(out: seq<string>, cut: Cut, id: string)
    requires AllBoundaries(out, id) && NoSpace(id) && Joined(cut) == id && cut.base != ""
    ensures AllBoundaries(AppendBoth(out, cut.base), id)
  {
    hide Trim, Append;
    var base := cut.base;
    assert id[..|base|] == base && id[|base|] == '-';
    assert forall i :: 0 <= i < |base| ==> base[i] == id[i];
    AppendBoundary(out, base, id);
    var short := TrimSuffix(base, "-instruct");
    if short != base {
      assert base[|short|..] == "-instruct";
      assert base[|short|] == base[|short|..][0];
      assert id[..|short|] == short;
    }
    AppendBoundary(Append(out, base), short, id);
  }

  /** Every candidate of a whitespace-free id is that id up to a hyphen, or all of it. */
  lemma CandidatesAreBoundaries(id: string)
    requires NoSpace(id) && id != ""
    ensures AllBoundaries(Candidates(id), id)
  {
    hide Trim, CutPreciseDate, CutCalendarRelease, CutRelease, Append, AppendBoth, NoSpace;
    var date, calendar, release := CutPreciseDate(id), CutCalendarRelease(id), CutRelease(id);
    var c1 := if date.Some? then Append([], date.value.base) else [];
    if date.Some? {
      PreciseCutJoins(id);
      AppendBase([], date.value, id);
    }
    var c2 := if calendar.Some? then AppendBoth(c1, calendar.value.base) else c1;
    if calendar.Some? {
      CalendarCutJoins(id);
      AppendBothBoundary(c1, calendar.value, id);
    }
    var c3 := if release.Some? then AppendBoth(c2, release.value.base) else c2;
    if release.Some? {
      ReleaseCutJoins(id);
      AppendBothBoundary(c2, release.value, id);
    }
    AppendBoundary(c3, id, id);
  }

  lemma AppendBase(out: seq<string>, cut: Cut, id: string)
    requires AllBoundaries(out, id) && NoSpace(id) && Joined(cut) == id && cut.base != ""
    ensures AllBoundaries(Append(out, cut.base), id)
  {
    hide Trim, Append;
    var base := cut.base;
    assert id[..|base|] == base && id[|base|] == '-';
    assert forall i :: 0 <= i < |base| ==> base[i] == id[i];
    AppendBoundary(out, base, id);
  }

  /** No candidate gains a channel token that the id lacks. */
  lemma CandidatesGainNoChannel(id: string, c: string)
    requires NoSpace(id) && Boundary(c, id) && HasChannelToken(c)
    ensures HasChannelToken(id)
  {
    hide Trim, Fields, Lower;
    if c != id {
      var rest := id[|c| + 1..];
      assert id == c + ['-'] + rest;
      assert NoSpace(c) by { assert forall i :: 0 <= i < |c| ==> c[i] == id[i]; }
      TrimOfNoSpace(id);
      TrimOfNoSpace(c);
      LowerSplit(c, rest);
      FieldsSplit(Lower(c), '-', Lower(rest));
      var t :| t in Fields(Lower(c)) && Channel(t);
      assert t in Fields(Lower(id));
    }
  }

  lemma LowerSplit(a: string, b: string)
    ensures Lower(a + ['-'] + b) == Lower(a) + ['-'] + Lower(b)
  {
  }

  // ----- choosing the canonical id

  datatype AliasKind = Stable | Snapshot

  datatype Alias = Alias(kind: AliasKind, value: string)

  datatype Identity = Identity(modelId: string, aliases: seq<Alias>)

  predicate HasBase(cut: Option<Cut>) { cut.Some? && !Blank(cut.value.base) }

  predicate HasSnapshotSuffix(id: string) {
    HasBase(CutPreciseDate(id)) || HasBase(CutCalendarRelease(id)) || HasBase(CutRelease(id))
  }

  function Aliases(modelId: string, raw: string): seq<Alias> {
    var id, source := Trim(modelId), Trim(raw);
    if id == "" || source == "" || id == source then []
    else [Alias(if HasSnapshotSuffix(source) then Snapshot else Stable, source)]
  }

  function FirstOther(candidates: seq<string>, raw: string): Option<string> {
    if candidates == [] then None
    else if candidates[0] != raw then Some(candidates[0])
    else FirstOther(candidates[1..], raw)
  }

  function IdentityOf(input: string): Option<Identity> {
    var slug := ModelSlug(input);
    if slug == "" || HasChannelToken(slug) then None
    else match FirstOther(Candidates(slug), slug)
         case Some(c) => Some(Identity(c, Aliases(c, slug)))
         case None => Some(Identity(slug, []))
  }

  // ----- the canonical id by the text

  ghost predicate Dated(raw: string, base: string) {
    exists suffix :: DateSuffix(suffix) && Suffixed(raw, base, suffix)
  }

  ghost predicate Calendared(raw: string, base: string) {
    exists suffix :: CalendarSuffix(suffix) && Suffixed(raw, base, suffix)
  }

  ghost predicate Released(raw: string, base: string) {
    exists suffix :: Release(suffix) && Suffixed(raw, base, suffix)
  }

  /** The base in front of a precise date, or else of a calendar release, or else of four
      digits; and without any of them the trimmed text. */
  ghost predicate Canonical(raw: string, id: string) {
    if exists base :: Dated(raw, base) then Dated(raw, id)
    else if exists base :: Calendared(raw, base) then Calendared(raw, id)
    else if exists base :: Released(raw, base) then Released(raw, id)
    else id == if Trim(raw) != "" then Trim(raw) else raw
  }

  lemma DatedIs(raw: string, base: string)
    ensures Dated(raw, base) <==> CutPreciseDate(raw).Some? && CutPreciseDate(raw).value.base == base
  {
    hide Trim, CutPreciseDate, Suffixed, DateSuffix;
    var cut := CutPreciseDate(raw);
    if cut.Some? {
      DateCutExactly(raw, cut.value.base, cut.value.suffix);
    }
    if suffix :| DateSuffix(suffix) && Suffixed(raw, base, suffix) {
      DateCutExactly(raw, base, suffix);
    }
  }

  lemma CalendaredIs(raw: string, base: string)
    ensures Calendared(raw, base) <==> CutCalendarRelease(raw).Some? && CutCalendarRelease(raw).value.base == base
  {
    hide Trim, CutCalendarRelease, Suffixed, CalendarSuffix;
    var cut := CutCalendarRelease(raw);
    if cut.Some? {
      CalendarCutExactly(raw, cut.value.base, cut.value.suffix);
    }
    if suffix :| CalendarSuffix(suffix) && Suffixed(raw, base, suffix) {
      CalendarCutExactly(raw, base, suffix);
    }
  }

  lemma ReleasedIs(raw: string, base: string)
    ensures Released(raw, base) <==> CutRelease(raw).Some? && CutRelease(raw).value.base == base
  {
    hide Trim, CutRelease, Suffixed, Release;
    var cut := CutRelease(raw);
    if cut.Some? {
      ReleaseCutExactly(raw, cut.value.base, cut.value.suffix);
    }
    if suffix :| Release(suffix) && Suffixed(raw, base, suffix) {
      ReleaseCutExactly(raw, base, suffix);
    }
  }

  lemma CanonicalIs(raw: string, id: string)
    ensures Canonical(raw, id)
            <==> id == if CutPreciseDate(raw).Some? then CutPreciseDate(raw).value.base
                       else if CutCalendarRelease(raw).Some? then CutCalendarRelease(raw).value.base
                       else if CutRelease(raw).Some? then CutRelease(raw).value.base
                       else if Trim(raw) != "" then Trim(raw) else raw
  {
    hide Trim, CutPreciseDate, CutCalendarRelease, CutRelease, Dated, Calendared, Released;
    forall base ensures Dated(raw, base) <==> CutPreciseDate(raw).Some? && CutPreciseDate(raw).value.base == base {
      DatedIs(raw, base);
    }
    forall base ensures Calendared(raw, base) <==> CutCalendarRelease(raw).Some? && CutCalendarRelease(raw).value.base == base {
      CalendaredIs(raw, base);
    }
    forall base ensures Released(raw, base) <==> CutRelease(raw).Some? && CutRelease(raw).value.base == base {
      ReleasedIs(raw, base);
    }
    if CutPreciseDate(raw).Some? {
      assert Dated(raw, CutPreciseDate(raw).value.base);
    }
    if CutCalendarRelease(raw).Some? {
      assert Calendared(raw, CutCalendarRelease(raw).value.base);
    }
    if CutRelease(raw).Some? {
      assert Released(raw, CutRelease(raw).value.base);
    }
  }

  /** Which texts are candidates: the trimmed text, the base in front of a suffix, and for
      releases also that base without "-instruct". */
  ghost predicate IsCandidate(raw: string, c: string) {
    || (c != "" && c == Trim(raw)) || Dated(raw, c) || Calendared(raw, c) || Released(raw, c)
    || exists family: string :: (Calendared(raw, family + "-instruct") || Released(raw, family + "-instruct")) && c == Trim(family) != ""
  }

  lemma AppendMembers(out: seq<string>, x: string, c: string)
    ensures c in Append(out, x) <==> c in out || (c == Trim(x) && c != "")
  {
    hide Trim;
  }

  /** What appending a release's base adds. */
  ghost predicate FromBase(base: string, c: string) {
    (c == Trim(base) && c != "") || exists family: string :: base == family + "-instruct" && c == Trim(family) != ""
  }

  lemma AppendBothMembers(out: seq<string>, base: string, c: string)
    ensures c in AppendBoth(out, base) <==> c in out || FromBase(base, c)
  {
    hide Trim, Append;
    var short := TrimSuffix(base, "-instruct");
    AppendMembers(out, base, c);
    AppendMembers(Append(out, base), short, c);
    if short != base {
      assert base == short + "-instruct";
    }
    if family: string :| base == family + "-instruct" && c == Trim(family) != "" {
      assert base[|base| - 9..] == "-instruct" && base[..|base| - 9] == family;
    }
  }

  lemma CandidatesExactly(raw: string, c: string)
    ensures c in Candidates(raw) <==> IsCandidate(raw, c)
  {
    hide Trim, CutPreciseDate, CutCalendarRelease, CutRelease, Append, AppendBoth, Dated, Calendared, Released;
    var date, calendar, release := CutPreciseDate(raw), CutCalendarRelease(raw), CutRelease(raw);
    var c1 := if date.Some? then Append([], date.value.base) else [];
    var c2 := if calendar.Some? then AppendBoth(c1, calendar.value.base) else c1;
    var c3 := if release.Some? then AppendBoth(c2, release.value.base) else c2;
    CutsHaveBase(raw);
    BasesAreTrimmed(raw);
    if date.Some? { AppendMembers([], date.value.base, c); }
    if calendar.Some? { AppendBothMembers(c1, calendar.value.base, c); }
    if release.Some? { AppendBothMembers(c2, release.value.base, c); }
    AppendMembers(c3, raw, c);
    forall base ensures Dated(raw, base) <==> date.Some? && date.value.base == base {
      DatedIs(raw, base);
    }
    forall base ensures Calendared(raw, base) <==> calendar.Some? && calendar.value.base == base {
      CalendaredIs(raw, base);
    }
    forall base ensures Released(raw, base) <==> release.Some? && release.value.base == base {
      ReleasedIs(raw, base);
    }
  }

  lemma BasesAreTrimmed(raw: string)
    ensures CutPreciseDate(raw).Some? ==> Trim(CutPreciseDate(raw).value.base) == CutPreciseDate(raw).value.base
    ensures CutCalendarRelease(raw).Some? ==> Trim(CutCalendarRelease(raw).value.base) == CutCalendarRelease(raw).value.base
    ensures CutRelease(raw).Some? ==> Trim(CutRelease(raw).value.base) == CutRelease(raw).value.base
  {
    hide Trim, DashedDate, PlainDate, MonthYear, YearMonth, Release;
    forall s ensures Trim(Trim(s)) == Trim(s) {
      TrimTwice(s);
    }
  }

  lemma FirstCandidate(raw: string)
    ensures Candidates(raw) != [] ==> Canonical(raw, Candidates(raw)[0])
    ensures Candidates(raw) == [] ==> Canonical(raw, raw)
  {
    hide Trim, CutPreciseDate, CutCalendarRelease, CutRelease, Append, AppendBoth, Canonical;
    var date, calendar, release := CutPreciseDate(raw), CutCalendarRelease(raw), CutRelease(raw);
    CutsHaveBase(raw);
    BasesAreTrimmed(raw);
    CanonicalIs(raw, if Candidates(raw) != [] then Candidates(raw)[0] else raw);
    var c1 := if date.Some? then Append([], date.value.base) else [];
    if date.Some? { AppendHead([], date.value.base); }
    var c2 := if calendar.Some? then AppendBoth(c1, calendar.value.base) else c1;
    if calendar.Some? { AppendBothHead(c1, calendar.value.base); }
    var c3 := if release.Some? then AppendBoth(c2, release.value.base) else c2;
    if release.Some? { AppendBothHead(c2, release.value.base); }
    AppendHead(c3, raw);
  }

  lemma AppendHead(out: seq<string>, x: string)
    ensures out != [] ==> Append(out, x) != [] && Append(out, x)[0] == out[0]
    ensures out == [] ==> Append(out, x) == if Trim(x) == "" then [] else [Trim(x)]
  {
    hide Trim;
  }

  lemma AppendBothHead(out: seq<string>, base: string)
    requires Trim(base) == base && base != ""
    ensures AppendBoth(out, base) != [] && AppendBoth(out, base)[0] == if out != [] then out[0] else base
  {
    hide Trim, Append;
    AppendHead(out, base);
    AppendHead(Append(out, base), TrimSuffix(base, "-instruct"));
  }

  /** What a model slug is identified as: nothing if it is empty or names a channel, else its
      canonical id, with the trimmed slug as a snapshot alias unless that is the slug's own id. */
  ghost predicate Identified(slug: string, r: Option<Identity>) {
    if slug == "" || NamesChannel(Lower(Trim(slug))) then r.None?
    else
      && r.Some? && Canonical(slug, r.value.modelId)
      && r.value.aliases == if r.value.modelId in {slug, Trim(slug)} then [] else [Alias(Snapshot, Trim(slug))]
  }

  lemma IdentityReads(input: string)
    ensures Identified(ModelSlug(input), IdentityOf(input))
  {
    hide Trim, ModelSlug, Candidates, Aliases, HasChannelToken, NamesChannel, Canonical, Lower;
    var slug := ModelSlug(input);
    ChannelExactly(slug);
    if IdentityOf(input).Some? {
      RewrittenIdentityIsSnapshot(input);
      FirstCandidate(slug);
      CandidatesShape(slug);
      TrimIsTrimmed(slug);
      var candidates := Candidates(slug);
      if candidates == [] || |candidates| == 1 {
        assert |candidates| == 1 ==> candidates[1..] == [];
        if |candidates| == 1 && candidates[0] == slug {
          NoOther(slug);
        }
      } else {
        var n := |candidates| - 1;
        assert candidates[..n][0] == candidates[0];
      }
    }
  }

  lemma NoOther(raw: string)
    ensures FirstOther([], raw) == None
  {
  }

  /** The loop returns at the first candidate other than the slug. */
  method NormalizeExternalModelIdentity(input: string) returns (r: Option<Identity>)
    ensures r == IdentityOf(input)
    ensures Identified(ModelSlug(input), r)
  {
    hide Trim, HasChannelToken, Aliases, Candidates, ModelSlug, Identified;
    IdentityReads(input);
    var slug := NormalizeExternalModelSlug(input);
    if slug == "" || HasChannelToken(slug) {
      return None;
    }
    var candidates := ExternalModelCandidates(slug);
    for i := 0 to |candidates|
      invariant FirstOther(candidates, slug) == FirstOther(candidates[i..], slug)
    {
      if candidates[i] != slug {
        return Some(Identity(candidates[i], Aliases(candidates[i], slug)));
      }
      assert candidates[i..][1..] == candidates[i + 1..];
    }
    r := Some(Identity(slug, []));
  }

  /** resolveModelRef: the canonical id of a catalog entry, if a vendor is known. */
  function ResolveModelRef(vendorId: string, providerModelId: string): Option<string> {
    if Blank(vendorId) then None
    else
      var slug := ModelSlug(providerModelId);
      if slug == "" || HasChannelToken(slug) || Candidates(slug) == [] then None
      else Some(Candidates(slug)[0])
  }

  /** The catalog and the model service choose the same canonical id for every input
      whose slug is not made of whitespace alone, and only for those. */
  lemma SameCanonicalIdExactly(vendorId: string, input: string)
    requires !Blank(vendorId)
    ensures (match IdentityOf(input) case Some(identity) => Some(identity.modelId) case None => None) == ResolveModelRef(vendorId, input)
            <==> ModelSlug(input) == "" || !Blank(ModelSlug(input))
  {
    hide Trim, ModelSlug, Candidates, Aliases, Fields, Lower;
    var slug := ModelSlug(input);
    TrimIsTrimmed(slug);
    var candidates := Candidates(slug);
    CandidatesShape(slug);
    if Blank(slug) {
      FieldsOfBlank(slug);
    } else {
      var n := |candidates| - 1;
      if n > 0 {
        assert candidates[0] == candidates[..n][0] && |candidates[0]| < |Trim(slug)| <= |slug|;
      } else {
        assert candidates == [candidates[0]] && candidates[1..] == [];
        assert FirstOther([], slug) == None;
      }
    }
  }

  lemma FieldsOfBlank(s: string)
    requires Blank(s)
    ensures !HasChannelToken(s)
  {
    assert Lower("") == "";
    assert Fields("") == [];
  }

  /** A slug of whitespace alone tells the two choices apart. */
  lemma ChoicesDifferOnTab(vendorId: string)
    requires !Blank(vendorId)
    ensures ModelSlug("-\t-") == "\t" && ResolveModelRef(vendorId, "-\t-") == None
    ensures IdentityOf("-\t-") == Some(Identity("\t", []))
  {
    hide Trim, ModelSlug, Candidates, HasChannelToken, Collapse, TrimHyphens;
    TabAlone("-\t-", "\t");
    TabIsBlank("\t");
    FieldsOfBlank("\t");
    CandidatesShape("\t");
  }

  lemma TabIsBlank(t: string)
    requires t == "\t"
    ensures Blank(t)
  {
    hide Trim;
    TrimSkips('\t', "");
    TrimOfNoSpace("");
    assert ['\t'] + "" == t;
  }

  lemma TabAlone(s: string, t: string)
    requires s == "-\t-" && t == "\t"
    ensures ModelSlug(s) == t
  {
    hide Trim, Collapse, TrimHyphens;
    TrimOfTrimmed(s);
    assert Lower(s) == s && Hyphenate(MODEL_SEPARATORS, s) == s;
    assert Collapse(s) == s;
    HyphensAround(s, t);
  }

  lemma HyphensAround(s: string, t: string)
    requires s == "-\t-" && t == "\t"
    ensures TrimHyphens(s) == t
  {
    assert s[1..] == "\t-" && s[1..][..1] == t;
    assert NoEdge(t);
  }

  /** An identity carries the trimmed slug as its one alias, a snapshot, unless that slug is
      the id itself. */
  lemma RewrittenIdentityIsSnapshot(input: string)
    requires IdentityOf(input).Some?
    ensures var slug, identity := ModelSlug(input), IdentityOf(input).value;
            identity.aliases == if identity.modelId in {slug, Trim(slug)} then [] else [Alias(Snapshot, Trim(slug))]
  {
    hide Trim, ModelSlug, Fields, HasChannelToken, Candidates, HasSnapshotSuffix;
    var slug := ModelSlug(input);
    if FirstOther(Candidates(slug), slug).Some? {
      var k := FirstOtherIsMember(Candidates(slug), slug);
      var c := Candidates(slug)[k];
      CandidatesTrimmed(slug);
      CandidatesShape(slug);
      if c != Trim(slug) {
        SomeCut(slug, k);
      }
    }
  }

  predicate AllTrimmed(out: seq<string>) {
    forall i :: 0 <= i < |out| ==> out[i] != "" && Trim(out[i]) == out[i]
  }

  lemma AppendTrimmed(out: seq<string>, candidate: string)
    requires AllTrimmed(out)
    ensures AllTrimmed(Append(out, candidate))
  {
    hide Trim;
    TrimTwice(candidate);
  }

  lemma AppendBothTrimmed(out: seq<string>, base: string)
    requires AllTrimmed(out)
    ensures AllTrimmed(AppendBoth(out, base))
  {
    hide Trim, Append, TrimSuffix;
    AppendTrimmed(out, base);
    AppendTrimmed(Append(out, base), TrimSuffix(base, "-instruct"));
  }

  lemma CandidatesTrimmed(raw: string)
    ensures AllTrimmed(Candidates(raw))
  {
    hide Trim, CutPreciseDate, CutCalendarRelease, CutRelease, Append, AppendBoth;
    var date, calendar, release := CutPreciseDate(raw), CutCalendarRelease(raw), CutRelease(raw);
    var c1 := if date.Some? then Append([], date.value.base) else [];
    if date.Some? { AppendTrimmed([], date.value.base); }
    var c2 := if calendar.Some? then AppendBoth(c1, calendar.value.base) else c1;
    if calendar.Some? { AppendBothTrimmed(c1, calendar.value.base); }
    var c3 := if release.Some? then AppendBoth(c2, release.value.base) else c2;
    if release.Some? { AppendBothTrimmed(c2, release.value.base); }
    AppendTrimmed(c3, raw);
  }

  /** A candidate other than the trimmed slug comes from a suffix that was cut. */
  lemma SomeCut(slug: string, k: nat)
    requires k < |Candidates(slug)| && Candidates(slug)[k] != Trim(slug)
    ensures HasSnapshotSuffix(Trim(slug))
  {
    hide Trim, CutPreciseDate, CutCalendarRelease, CutRelease, Append, AppendBoth;
    CutsTrim(slug);
    CutsHaveBase(slug);
    if CutPreciseDate(slug).None? && CutCalendarRelease(slug).None? && CutRelease(slug).None? {
      AppendLast([], slug);
    }
  }

  lemma CutsTrim(raw: string)
    ensures CutPreciseDate(Trim(raw)) == CutPreciseDate(raw) && CutCalendarRelease(Trim(raw)) == CutCalendarRelease(raw)
    ensures CutRelease(Trim(raw)) == CutRelease(raw)
  {
    hide Trim, DashedDate, PlainDate, MonthYear, YearMonth, Release;
    TrimTwice(raw);
  }

  /** What is in front of a cut suffix is never blank. */
  lemma CutsHaveBase(raw: string)
    ensures CutPreciseDate(raw).Some? ==> HasBase(CutPreciseDate(raw))
    ensures CutCalendarRelease(raw).Some? ==> HasBase(CutCalendarRelease(raw))
    ensures CutRelease(raw).Some? ==> HasBase(CutRelease(raw))
  {
    hide Trim, DashedDate, PlainDate, MonthYear, YearMonth, Release;
    TrimIsTrimmed(raw);
    forall k | 0 < k <= |Trim(raw)| ensures !Blank(Trim(Trim(raw)[..k])) {
      HeadStays(Trim(raw)[..k]);
    }
  }

  lemma HeadStays(s: string)
    requires s != "" && !IsSpace(s[0])
    ensures Trim(s) != "" && !Blank(Trim(s))
  {
    hide TrimRight, IsSpace;
    TrimRightDrops(s);
    TrimTwice(s);
  }

  // ----- shortest candidates

  /** No candidate is shorter. */
  predicate Shortest(c: string, candidates: seq<string>) {
    forall i :: 0 <= i < |candidates| ==> |c| <= |candidates[i]|
  }

  /** A non-empty name, "-instruct-", and n more characters. */
  predicate InstructTail(id: string, n: nat) {
    |id| > n + 10 && id[|id| - n - 10..|id| - n] == "-instruct-"
  }

  /** An instruct model with a calendar or four-digit release. */
  predicate InstructRelease(id: string) {
    || (InstructTail(id, 7) && CalendarSuffix(Tail(id, 7)))
    || (InstructTail(id, 4) && Release(Tail(id, 4)))
  }

  const INSTRUCT := "-instruct"

  predicate EndsInInstruct(base: string) {
    |base| > 9 && base[|base| - 9..] == INSTRUCT
  }

  lemma AppendShortest(c: string, out: seq<string>, x: string)
    requires NoSpace(x)
    ensures Shortest(c, Append(out, x)) <==> Shortest(c, out) && (x == "" || |c| <= |x|)
    ensures out != [] ==> Append(out, x) != [] && Append(out, x)[0] == out[0]
  {
    hide Trim;
    TrimOfNoSpace(x);
    var next := out + [x];
    if Shortest(c, next) {
      assert next[|out|] == x;
      forall i | 0 <= i < |out| ensures |c| <= |out[i]| {
        assert next[i] == out[i];
      }
    }
  }

  /** Appending a base and its family leaves c shortest exactly if neither is shorter. */
  lemma AppendBothShortest(c: string, out: seq<string>, base: string)
    requires NoSpace(base) && base != "" && |c| <= |base|
    ensures Shortest(c, AppendBoth(out, base)) <==> Shortest(c, out) && (EndsInInstruct(base) ==> |c| <= |base| - 9)
    ensures AppendBoth(out, base) != [] && AppendBoth(out, base)[0] == if out != [] then out[0] else base
  {
    hide Trim, Append, Shortest;
    var family := TrimSuffix(base, INSTRUCT);
    assert NoSpace(family) by { assert forall i :: 0 <= i < |family| ==> family[i] == base[i]; }
    AppendShortest(c, out, base);
    AppendFirst(out, base);
    AppendShortest(c, Append(out, base), family);
    if |base| == 9 && base == INSTRUCT {
      assert base[0..] == base;
    }
  }

  lemma AppendFirst(out: seq<string>, x: string)
    requires NoSpace(x) && x != ""
    ensures Append(out, x) != [] && (out == [] ==> Append(out, x) == [x])
  {
    hide Trim;
    TrimOfNoSpace(x);
  }

  lemma InstructEnds(id: string, n: nat)
    requires HasTail(id, n)
    ensures EndsInInstruct(id[..|id| - n - 1]) <==> InstructTail(id, n)
  {
    var base := id[..|id| - n - 1];
    if |id| > n + 10 {
      var part := id[|id| - n - 10..|id| - n];
      assert part == base[|base| - 9..] + [id[|id| - n - 1]];
      assert part[..9] == base[|base| - 9..];
      assert "-instruct-" == INSTRUCT + ['-'];
    }
  }

  /** An instruct release has no date, so what it has is what its tail says. */
  lemma InstructHasNoDate(id: string, n: nat)
    requires NoSpace(id) && InstructTail(id, n) && n in {4, 7} && (n == 4 ==> Release(Tail(id, 4))) && (n == 7 ==> CalendarSuffix(Tail(id, 7)))
    ensures CutPreciseDate(id).None? && HasTail(id, n)
    ensures n == 4 ==> CutCalendarRelease(id).None?
  {
    hide Trim, ValidDate, InRange;
    TrimOfNoSpace(id);
    var part := id[|id| - n - 10..|id| - n];
    assert id[|id| - n - 1] == part[9] == '-';
    assert id[|id| - n - 2] == part[8] == 't';
    assert id[|id| - n - 3] == part[7] == 'c';
    assert id[|id| - n - 5] == part[5] == 'r';
  }

  lemma {:induction false} ShortestWithCalendar(id: string)
    requires NoSpace(id) && CutPreciseDate(id).None? && CutCalendarRelease(id).Some?
    ensures Candidates(id) != [] && (Shortest(Candidates(id)[0], Candidates(id)) <==> !InstructTail(id, 7))
  {
    hide Trim, Append, AppendBoth, Shortest, CutPreciseDate, EndsInInstruct, InstructTail;
    TrimOfNoSpace(id);
    var base := CutCalendarRelease(id).value.base;
    NoSpaceSlices(id, |id| - 8);
    InstructEnds(id, 7);
    AppendBothShortest(base, [], base);
    var out := AppendBoth([], base);
    NothingIsShorter(base);
    if CutRelease(id).Some? {
      ReleaseInCalendar(id);
      var longer := CutRelease(id).value.base;
      AppendBothShortest(base, out, longer);
      out := AppendBoth(out, longer);
    }
    AppendShortest(base, out, id);
    LongTailsAreNotInstruct(id, base);
  }

  lemma NothingIsShorter(c: string)
    ensures Shortest(c, [])
  {
  }

  lemma LongTailsAreNotInstruct(id: string, base: string)
    ensures EndsInInstruct(base) ==> |base| - 9 < |base|
  {
  }

  /** The release base of a calendar id ends in a digit. */
  lemma ReleaseInCalendar(id: string)
    requires NoSpace(id) && CutCalendarRelease(id).Some? && CutRelease(id).Some?
    ensures var longer := CutRelease(id).value.base;
            NoSpace(longer) && !EndsInInstruct(longer) && |CutCalendarRelease(id).value.base| <= |longer|
  {
    hide Trim, InRange;
    TrimOfNoSpace(id);
    var dash := LastHyphen(id);
    NoSpaceSlices(id, dash);
    NoSpaceSlices(id, |id| - 8);
    var tail := Tail(id, 7);
    assert forall k :: 0 <= k < 7 ==> tail[k] == id[|id| - 7 + k];
    assert dash == |id| - 5;
    assert id[|id| - 5] == tail[2];
    assert tail[..2][1] == tail[1] == id[|id| - 6] == id[..dash][dash - 1];
    assert dash > 9 ==> id[..dash][dash - 9..][8] == id[..dash][dash - 1];
  }

  lemma ShortestWithRelease(id: string)
    requires NoSpace(id) && CutPreciseDate(id).None? && CutCalendarRelease(id).None? && CutRelease(id).Some?
    ensures Candidates(id) != [] && (Shortest(Candidates(id)[0], Candidates(id)) <==> !InstructTail(id, 4))
  {
    hide Trim, Append, AppendBoth, Shortest, CutPreciseDate, CutCalendarRelease, EndsInInstruct, InstructTail;
    TrimOfNoSpace(id);
    var dash := LastHyphen(id);
    NoSpaceSlices(id, dash);
    var base := CutRelease(id).value.base;
    InstructEnds(id, 4);
    AppendBothShortest(base, [], base);
    NothingIsShorter(base);
    AppendShortest(base, AppendBoth([], base), id);
    LongTailsAreNotInstruct(id, base);
  }

  /** Without a calendar or release suffix the first candidate is a shortest one. */
  lemma ShortestOtherwise(id: string)
    requires NoSpace(id) && id != "" && (CutPreciseDate(id).Some? || (CutCalendarRelease(id).None? && CutRelease(id).None?))
    ensures Candidates(id) != [] && Shortest(Candidates(id)[0], Candidates(id))
  {
    hide Trim, Append, Shortest, CutPreciseDate, CutCalendarRelease, CutRelease;
    if CutPreciseDate(id).Some? {
      PreciseDateIsNotARelease(id);
      PreciseCutJoins(id);
      var base := CutPreciseDate(id).value.base;
      NoSpaceSlices(id, |base|);
      assert id[..|base|] == base;
      AppendFirst([], base);
      NothingIsShorter(base);
      AppendShortest(base, [], base);
      AppendShortest(base, [base], id);
    } else {
      AppendFirst([], id);
      NothingIsShorter(id);
      AppendShortest(id, [], id);
    }
  }

  /** The first candidate is a shortest one except for instruct models with a release. */
  lemma FirstIsShortestExactly(id: string)
    requires NoSpace(id) && id != ""
    ensures Candidates(id) != [] && (Shortest(Candidates(id)[0], Candidates(id)) <==> !InstructRelease(id))
  {
    hide Trim, Candidates, Shortest, CutPreciseDate, InstructTail, Release, CalendarSuffix;
    var four := InstructTail(id, 4) && |id| >= 4 && Release(Tail(id, 4));
    var seven := InstructTail(id, 7) && |id| >= 7 && CalendarSuffix(Tail(id, 7));
    InstructLength(id);
    if four {
      InstructHasNoDate(id, 4);
    }
    if seven {
      InstructHasNoDate(id, 7);
    }
    TailsCut(id);
    if CutPreciseDate(id).Some? {
      ShortestOtherwise(id);
    } else if CutCalendarRelease(id).Some? {
      ShortestWithCalendar(id);
    } else if CutRelease(id).Some? {
      ShortestWithRelease(id);
    } else {
      ShortestOtherwise(id);
    }
  }

  lemma InstructLength(id: string)
    ensures InstructTail(id, 4) ==> |id| > 14
    ensures InstructTail(id, 7) ==> |id| > 17
  {
  }

  /** Which tails the two release cutters look at. */
  lemma TailsCut(id: string)
    requires NoSpace(id)
    ensures CutCalendarRelease(id).Some? <==> HasTail(id, 7) && CalendarSuffix(Tail(id, 7))
    ensures CutRelease(id).Some? ==> HasTail(id, 4) && Release(Tail(id, 4))
    ensures HasTail(id, 4) && Release(Tail(id, 4)) ==> CutRelease(id).Some?
  {
    hide Trim, ValidMonth;
    TrimOfNoSpace(id);
    if HasTail(id, 4) && Release(Tail(id, 4)) {
      var tail := Tail(id, 4);
      assert forall k :: 0 <= k < 4 ==> tail[k] == id[|id| - 4 + k];
      assert LastHyphen(id) == |id| - 5;
    }
  }

  /** The canonical id of a whitespace-free slug is a shortest candidate, as documented, except
      for instruct models with a release: exactly those keep a suffix that could be dropped. */
  lemma ShortestExactly(input: string)
    requires NoSpace(ModelSlug(input)) && IdentityOf(input).Some?
    ensures Shortest(IdentityOf(input).value.modelId, Candidates(ModelSlug(input))) <==> !InstructRelease(ModelSlug(input))
  {
    hide Trim, ModelSlug, Candidates, Shortest, InstructRelease, HasChannelToken, IdentityOf;
    var slug := ModelSlug(input);
    TrimOfNoSpace(slug);
    TrimOfNoSpace("v");
    SameCanonicalIdExactly("v", input);
    IdentityHasSlug(input);
    FirstIsShortestExactly(slug);
  }

  lemma IdentityHasSlug(input: string)
    requires IdentityOf(input).Some?
    ensures ModelSlug(input) != "" && !HasChannelToken(ModelSlug(input))
  {
    hide ModelSlug, HasChannelToken, Candidates;
  }

  /** Every instruct model with a four-digit release has its family as a later, shorter candidate. */
  lemma InstructHidesFamily(family: string, release: string)
    requires family != "" && NoSpace(family) && Release(release)
    ensures var id := family + "-instruct-" + release;
            Candidates(id) == [family + INSTRUCT, family, id] && InstructRelease(id)
  {
    hide Trim, CutPreciseDate, CutCalendarRelease, CutRelease, InstructTail, Release;
    var id := family + "-instruct-" + release;
    var base := family + INSTRUCT;
    InstructIsRelease(family, release);
    JoinedReleaseIsCut(base, release);
    assert id == Joined(Cut(base, release));
    InstructHasNoDate(id, 4);
    TrimOfNoSpace(family);
    TrimOfNoSpace(base);
    TrimOfNoSpace(id);
    assert base[|family|..] == INSTRUCT && base[..|family|] == family;
  }

  lemma InstructIsRelease(family: string, release: string)
    requires family != "" && NoSpace(family) && Release(release)
    ensures var id := family + "-instruct-" + release;
            NoSpace(id) && NoSpace(family + INSTRUCT) && InstructTail(id, 4) && Tail(id, 4) == release
  {
    hide IsSpace;
    LettersAreNoSpace("-instruct-");
    SuffixChars(release);
    NoSpaceJoin("", release);
    assert "" + "-" + release == ['-'] + release;
    assert forall i :: 0 <= i < 4 ==> (['-'] + release)[i + 1] == release[i];
    var id := family + "-instruct-" + release;
    assert id[|id| - 14..|id| - 4] == "-instruct-";
    assert INSTRUCT == "-instruct-"[..9];
  }

  lemma LettersAreNoSpace(s: string)
    requires forall i :: 0 <= i < |s| ==> s[i] == '-' || 'a' <= s[i] <= 'z'
    ensures NoSpace(s)
  {
  }

  lemma {:induction false} FirstOtherIsMember(candidates: seq<string>, raw: string) returns (k: nat)
    requires FirstOther(candidates, raw).Some?
    ensures k < |candidates| && candidates[k] == FirstOther(candidates, raw).value != raw
  {
    if candidates[0] != raw {
      k := 0;
    } else {
      k := FirstOtherIsMember(candidates[1..], raw);
      k := k + 1;
    }
  }
}
