/** Sums of reals over finite sets of keys. */
module RealSums {

  ghost function SumOver(keys: set<string>, f: string -> real): real {
    if keys == {} then 0.0
    else
      var k :| k in keys;
      f(k) + SumOver(keys - {k}, f)
  }

  /** Any key may be taken out first: the sum does not depend on the order. */
  lemma {:induction false} SumOverTake(keys: set<string>, f: string -> real, k: string)
    requires k in keys
    ensures SumOver(keys, f) == f(k) + SumOver(keys - {k}, f)
    decreases |keys|
  {
    var j :| j in keys && SumOver(keys, f) == f(j) + SumOver(keys - {j}, f);
    if j != k {
      SumOverTake(keys - {j}, f, k);
      SumOverTake(keys - {k}, f, j);
      assert keys - {j} - {k} == keys - {k} - {j};
    }
  }

  lemma {:induction false} SumOverSame(keys: set<string>, f: string -> real, g: string -> real)
    requires forall k :: k in keys ==> f(k) == g(k)
    ensures SumOver(keys, f) == SumOver(keys, g)
    decreases |keys|
  {
    if keys != {} {
      var k :| k in keys;
      SumOverTake(keys, f, k);
      SumOverTake(keys, g, k);
      SumOverSame(keys - {k}, f, g);
    }
  }
}

/** Cost rows of a billing report (vendor_observability_collector_mistral_parse.go), over the
    reals. Text prices are read by a function given as a parameter. */
module MistralBilling {
  import opened Text
  import opened RealSums

  datatype Price = Price(metric: string, group: string, price: string)

  datatype Entry = Entry(metric: string, displayName: string, group: string, value: Option<real>, paid: Option<real>)

  datatype Usage = Usage(input: seq<Entry>, output: seq<Entry>, cached: seq<Entry>)

  datatype Libraries = Libraries(pages: Option<map<string, Usage>>, tokens: Option<map<string, Usage>>)

  datatype FineTuning = FineTuning(training: map<string, Usage>, storage: map<string, Usage>)

  datatype Response = Response(completion: Option<map<string, Usage>>, ocr: Option<map<string, Usage>>,
                               connectors: Option<map<string, Usage>>, audio: Option<map<string, Usage>>,
                               libraries: Option<Libraries>, fineTuning: Option<FineTuning>,
                               vibeUsage: Option<real>, currency: string, currencySymbol: string, prices: seq<Price>)

  datatype Scope = ModelScope | TotalScope

  datatype CostRow = CostRow(value: real, scope: Scope, category: string, modelId: string, displayId: string, modelLabel: string)

  // ----- prices

  function PriceKey(metric: string, group: string): string { Trim(metric) + "::" + Trim(group) }

  predicate Quotes(parse: string -> Option<real>, p: Price) {
    !Blank(p.metric) && !Blank(p.group) && !Blank(p.price) && parse(Trim(p.price)).GetOr(0.0) > 0.0
  }

  function PriceIndex(parse: string -> Option<real>, prices: seq<Price>): map<string, real> {
    if prices == [] then map[]
    else
      var prior, p := PriceIndex(parse, prices[..|prices| - 1]), prices[|prices| - 1];
      if Quotes(parse, p) then prior[PriceKey(p.metric, p.group) := parse(Trim(p.price)).value] else prior
  }

  method IndexPrices(parse: string -> Option<real>, prices: seq<Price>) returns (index: map<string, real>)
    ensures index == PriceIndex(parse, prices)
  {
    hide Trim;
    index := map[];
    for i := 0 to |prices|
      invariant index == PriceIndex(parse, prices[..i])
    {
      assert prices[..i + 1][..i] == prices[..i];
      var metric, group, raw := Trim(prices[i].metric), Trim(prices[i].group), Trim(prices[i].price);
      if metric == "" || group == "" || raw == "" {
        continue;
      }
      var value := parse(raw);
      if value.None? || value.value <= 0.0 {
        continue;
      }
      TrimTwice(prices[i].metric);
      TrimTwice(prices[i].group);
      index := index[PriceKey(metric, group) := value.value];
    }
    assert prices[..|prices|] == prices;
  }

  /** The i-th price is the last valid one quoted under its key. */
  ghost predicate LastQuote(parse: string -> Option<real>, prices: seq<Price>, i: int) {
    && 0 <= i < |prices| && Quotes(parse, prices[i])
    && forall j :: i < j < |prices| && Quotes(parse, prices[j]) ==>
         PriceKey(prices[j].metric, prices[j].group) != PriceKey(prices[i].metric, prices[i].group)
  }

  ghost predicate QuotedAt(parse: string -> Option<real>, prices: seq<Price>, key: string, value: real, i: int) {
    LastQuote(parse, prices, i) && key == PriceKey(prices[i].metric, prices[i].group) && parse(Trim(prices[i].price)) == Some(value)
  }

  lemma IndexStep(parse: string -> Option<real>, prices: seq<Price>, p: Price)
    ensures var index := PriceIndex(parse, prices);
            PriceIndex(parse, prices + [p])
            == if Quotes(parse, p) then index[PriceKey(p.metric, p.group) := parse(Trim(p.price)).value] else index
  {
    hide Quotes, PriceKey, Trim;
    assert (prices + [p])[..|prices|] == prices;
  }

  /** A quote of another key, or no quote, does not change which quote is last. */
  lemma QuotedBefore(parse: string -> Option<real>, prices: seq<Price>, p: Price, key: string, value: real)
    requires Quotes(parse, p) ==> PriceKey(p.metric, p.group) != key
    ensures (exists i :: QuotedAt(parse, prices + [p], key, value, i)) <==> (exists i :: QuotedAt(parse, prices, key, value, i))
  {
    hide Quotes, PriceKey, Trim;
    var next := prices + [p];
    if i :| QuotedAt(parse, next, key, value, i) {
      assert i < |prices| && prices[i] == next[i];
      forall j | i < j < |prices| ensures next[j] == prices[j] {
      }
      assert QuotedAt(parse, prices, key, value, i);
    }
    if i :| QuotedAt(parse, prices, key, value, i) {
      assert next[i] == prices[i];
      assert QuotedAt(parse, next, key, value, i);
    }
  }

  /** The last price, when valid, is the last quote of its key. */
  lemma QuotedLast(parse: string -> Option<real>, prices: seq<Price>, p: Price, value: real)
    requires Quotes(parse, p)
    ensures (exists i :: QuotedAt(parse, prices + [p], PriceKey(p.metric, p.group), value, i)) <==> parse(Trim(p.price)) == Some(value)
  {
    hide Quotes, PriceKey, Trim;
    var next, key := prices + [p], PriceKey(p.metric, p.group);
    assert next[|prices|] == p;
    if i :| QuotedAt(parse, next, key, value, i) {
      assert i == |prices|;
    }
    if parse(Trim(p.price)) == Some(value) {
      assert QuotedAt(parse, next, key, value, |prices|);
    }
  }

  lemma QuoteIsPositive(parse: string -> Option<real>, p: Price)
    requires Quotes(parse, p)
    ensures parse(Trim(p.price)).Some? && parse(Trim(p.price)).value > 0.0
  {
    hide Trim;
  }

  /** The index holds exactly the last valid quote of each key, and only positive prices. */
  lemma {:induction false} LastQuoteWins(parse: string -> Option<real>, prices: seq<Price>, key: string, value: real)
    ensures key in PriceIndex(parse, prices) && PriceIndex(parse, prices)[key] == value
            <==> exists i :: QuotedAt(parse, prices, key, value, i)
    ensures key in PriceIndex(parse, prices) ==> PriceIndex(parse, prices)[key] > 0.0
  {
    if prices != [] {
      hide Trim, Quotes, PriceKey, PriceIndex, QuotedAt;
      var init, p := prices[..|prices| - 1], prices[|prices| - 1];
      assert prices == init + [p];
      LastQuoteWins(parse, init, key, value);
      IndexStep(parse, init, p);
      if Quotes(parse, p) && PriceKey(p.metric, p.group) == key {
        QuotedLast(parse, init, p, value);
        QuoteIsPositive(parse, p);
      } else {
        QuotedBefore(parse, init, p, key, value);
      }
    }
  }

  /** x starts with a and a part of the separator that b, the rest of a's key, takes up again. */
  predicate Absorbs(a: string, b: string, x: string, y: string) {
    || (x == a + ":" && b == ":" + y)
    || (a + "::" <= x && b == x[|a| + 2..] + "::" + y)
  }

  lemma AbsorbedKeysAgree(a: string, b: string, x: string, y: string)
    requires Absorbs(a, b, x, y)
    ensures a + "::" + b == x + "::" + y
  {
    if a + "::" <= x {
      assert x == a + "::" + x[|a| + 2..];
    }
  }

  lemma AgreeingKeysAbsorb(a: string, b: string, x: string, y: string)
    requires |a| < |x| && a + "::" + b == x + "::" + y
    ensures Absorbs(a, b, x, y)
  {
    var k := a + "::" + b;
    assert k == x + "::" + y;
    assert x == k[..|x|] && b == k[|a| + 2..] && k[|a|] == k[|a| + 1] == ':';
    if |x| == |a| + 1 {
      assert x == a + ":";
      assert b == ":" + y;
    } else {
      assert a + "::" == k[..|a| + 2] == x[..|a| + 2];
      assert b == x[|a| + 2..] + "::" + y;
    }
  }

  /** Price keys agree for the same metric and group, and otherwise exactly when one metric
      continues the other by a colon or by the separator, which the shorter one's group repeats. */
  lemma PriceKeysAgreeExactly(metric: string, group: string, otherMetric: string, otherGroup: string)
    ensures var a, b, x, y := Trim(metric), Trim(group), Trim(otherMetric), Trim(otherGroup);
            PriceKey(metric, group) == PriceKey(otherMetric, otherGroup)
            <==> (a == x && b == y) || Absorbs(a, b, x, y) || Absorbs(x, y, a, b)
  {
    hide Trim, Absorbs;
    var a, b, x, y := Trim(metric), Trim(group), Trim(otherMetric), Trim(otherGroup);
    if Absorbs(a, b, x, y) {
      AbsorbedKeysAgree(a, b, x, y);
    }
    if Absorbs(x, y, a, b) {
      AbsorbedKeysAgree(x, y, a, b);
    }
    if a + "::" + b == x + "::" + y {
      if |a| < |x| {
        AgreeingKeysAbsorb(a, b, x, y);
      } else if |x| < |a| {
        AgreeingKeysAbsorb(x, y, a, b);
      } else {
        var k := a + "::" + b;
        assert a == k[..|a|] && x == k[..|a|] && b == k[|a| + 2..] && y == k[|a| + 2..];
      }
    }
  }

  /** No two groups give the metrics one price key. */
  ghost predicate Separate(metric: string, otherMetric: string) {
    forall group, otherGroup :: PriceKey(metric, group) != PriceKey(otherMetric, otherGroup)
  }

  /** x is a with a colon, or with the separator and then nothing or something that no
      trimming removes. */
  predicate Continues(a: string, x: string) {
    x == a + ":" || (a + "::" <= x && (|x| == |a| + 2 || !IsSpace(x[|a| + 2])))
  }

  lemma ContinuesCollides(metric: string, otherMetric: string)
    requires Continues(Trim(metric), Trim(otherMetric))
    ensures !Separate(metric, otherMetric)
  {
    hide Trim, IsSpace;
    var a, x := Trim(metric), Trim(otherMetric);
    var group := if x == a + ":" then ":g" else x[|a| + 2..] + "::g";
    LetterIsNoSpace();
    assert group[|group| - 1] == 'g';
    TrimOfTrimmed("g");
    TrimOfTrimmed(group);
    assert x == a + ":" ==> ":g" == ":" + "g";
    assert x != a + ":" ==> group == x[|a| + 2..] + "::" + "g";
    AbsorbedKeysAgree(a, group, x, "g");
    assert PriceKey(metric, group) == PriceKey(otherMetric, "g");
  }

  lemma LetterIsNoSpace()
    ensures !IsSpace('g') && !IsSpace(':')
  {
  }

  /** Two different metrics are told apart whatever their groups exactly when neither
      continues the other. */
  lemma MetricsSeparateExactly(metric: string, otherMetric: string)
    requires Trim(metric) != Trim(otherMetric)
    ensures Separate(metric, otherMetric)
            <==> !Continues(Trim(metric), Trim(otherMetric)) && !Continues(Trim(otherMetric), Trim(metric))
  {
    hide Trim, IsSpace, Absorbs, Continues, PriceKey;
    var a, x := Trim(metric), Trim(otherMetric);
    if Continues(a, x) {
      ContinuesCollides(metric, otherMetric);
    } else if Continues(x, a) {
      ContinuesCollides(otherMetric, metric);
      SeparateIsSymmetric(metric, otherMetric);
    } else {
      forall group, otherGroup ensures PriceKey(metric, group) != PriceKey(otherMetric, otherGroup) {
        PriceKeysAgreeExactly(metric, group, otherMetric, otherGroup);
        AbsorbingContinues(a, Trim(group), x, Trim(otherGroup));
        AbsorbingContinues(x, Trim(otherGroup), a, Trim(group));
        TrimIsTrimmed(group);
        TrimIsTrimmed(otherGroup);
      }
    }
  }

  lemma SeparateIsSymmetric(metric: string, otherMetric: string)
    ensures Separate(metric, otherMetric) ==> Separate(otherMetric, metric)
  {
    hide PriceKey;
    if Separate(metric, otherMetric) {
      forall g, h ensures PriceKey(otherMetric, g) != PriceKey(metric, h) {
        assert PriceKey(metric, h) != PriceKey(otherMetric, g);
      }
    }
  }

  lemma AbsorbingContinues(a: string, b: string, x: string, y: string)
    ensures Absorbs(a, b, x, y) && Trimmed(b) ==> Continues(a, x)
  {
    hide IsSpace;
    if Absorbs(a, b, x, y) && x != a + ":" && |x| > |a| + 2 {
      assert b[0] == x[|a| + 2];
    }
  }

  /** A metric that holds the separator can share the key of a shorter metric. */
  lemma PriceKeysCollide()
    ensures PriceKey("a::b", "c") == PriceKey("a", "b::c")
  {
    hide Trim;
    TrimOfNoSpace("a::b");
    TrimOfNoSpace("b::c");
    TrimOfNoSpace("a");
    TrimOfNoSpace("c");
    assert "a::b" + "::" + "c" == "a" + "::" + "b::c";
  }

  // ----- entries

  /** The positive paid value, else the positive value, else nothing. */
  function BillableValue(e: Entry): real {
    if e.paid.GetOr(0.0) > 0.0 then e.paid.value else if e.value.GetOr(0.0) > 0.0 then e.value.value else 0.0
  }

  function EntryCost(e: Entry, prices: map<string, real>): real {
    var metric, group := Trim(e.metric), Trim(e.group);
    if metric == "" || group == "" then 0.0
    else
      var key := PriceKey(metric, group);
      if key !in prices || prices[key] <= 0.0 || BillableValue(e) <= 0.0 then 0.0 else BillableValue(e) * prices[key]
  }

  /** What every entry is charged: billable value times the last valid price under its key. */
  lemma EntryCostIsQuoted(parse: string -> Option<real>, prices: seq<Price>, e: Entry, i: int, price: real)
    requires !Blank(e.metric) && !Blank(e.group)
    requires QuotedAt(parse, prices, PriceKey(e.metric, e.group), price, i)
    ensures EntryCost(e, PriceIndex(parse, prices)) == BillableValue(e) * price
  {
    hide Trim, PriceIndex;
    LastQuoteWins(parse, prices, PriceKey(e.metric, e.group), price);
    TrimTwice(e.metric);
    TrimTwice(e.group);
  }

  /** Nothing is charged but for a valid price quoted under the entry's key. */
  lemma ChargedIsQuoted(parse: string -> Option<real>, prices: seq<Price>, e: Entry)
    requires EntryCost(e, PriceIndex(parse, prices)) > 0.0
    ensures exists i, price :: QuotedAt(parse, prices, PriceKey(e.metric, e.group), price, i)
  {
    hide Trim, PriceIndex;
    var key, index := PriceKey(e.metric, e.group), PriceIndex(parse, prices);
    TrimTwice(e.metric);
    TrimTwice(e.group);
    LastQuoteWins(parse, prices, key, index[key]);
  }

  /** What an entry counts: its paid value when that is positive, else its value when positive. */
  predicate Counts(e: Entry, x: real) {
    x > 0.0 && if e.paid.Some? && e.paid.value > 0.0 then x == e.paid.value else e.value == Some(x)
  }

  predicate QuoteReads(parse: string -> Option<real>, p: Price, price: real) {
    Trim(p.metric) != "" && Trim(p.group) != "" && Trim(p.price) != "" && parse(Trim(p.price)) == Some(price) && price > 0.0
  }

  predicate SameKey(p: Price, e: Entry) { PriceKey(p.metric, p.group) == PriceKey(e.metric, e.group) }

  /** The last price that is valid and has the entry's key. */
  ghost predicate Priced(parse: string -> Option<real>, prices: seq<Price>, e: Entry, price: real) {
    exists i :: 0 <= i < |prices| && QuoteReads(parse, prices[i], price) && SameKey(prices[i], e)
                && forall j, other :: i < j < |prices| && QuoteReads(parse, prices[j], other) ==> !SameKey(prices[j], e)
  }

  /** The entry is charged x units at the price. */
  ghost predicate Charged(parse: string -> Option<real>, prices: seq<Price>, e: Entry, x: real, price: real) {
    Trim(e.metric) != "" && Trim(e.group) != "" && Counts(e, x) && Priced(parse, prices, e, price)
  }

  lemma QuoteIs(parse: string -> Option<real>, p: Price, price: real)
    ensures Quotes(parse, p) && parse(Trim(p.price)) == Some(price) <==> QuoteReads(parse, p, price)
  {
    hide Trim;
  }

  lemma PricedIsQuoted(parse: string -> Option<real>, prices: seq<Price>, e: Entry, price: real)
    ensures Priced(parse, prices, e, price) <==> exists i :: QuotedAt(parse, prices, PriceKey(e.metric, e.group), price, i)
  {
    hide Trim, PriceKey, Quotes, QuoteReads;
    forall p, x ensures Quotes(parse, p) && parse(Trim(p.price)) == Some(x) <==> QuoteReads(parse, p, x) {
      QuoteIs(parse, p, x);
    }
    if i :| 0 <= i < |prices| && QuoteReads(parse, prices[i], price) && SameKey(prices[i], e)
            && forall j, other :: i < j < |prices| && QuoteReads(parse, prices[j], other) ==> !SameKey(prices[j], e) {
      forall j | i < j < |prices| && Quotes(parse, prices[j]) ensures !SameKey(prices[j], e) {
        QuoteIsPositive(parse, prices[j]);
        assert QuoteReads(parse, prices[j], parse(Trim(prices[j].price)).value);
      }
      assert QuotedAt(parse, prices, PriceKey(e.metric, e.group), price, i);
    }
    if i :| QuotedAt(parse, prices, PriceKey(e.metric, e.group), price, i) {
      assert QuoteReads(parse, prices[i], price) && SameKey(prices[i], e);
    }
  }

  /** What every entry costs: units times price when it is charged, else nothing. */
  lemma EntryCostExactly(parse: string -> Option<real>, prices: seq<Price>, e: Entry)
    ensures var cost := EntryCost(e, PriceIndex(parse, prices));
            && (forall x, price :: Charged(parse, prices, e, x, price) ==> cost == x * price > 0.0)
            && (cost != 0.0 ==> exists x, price :: Charged(parse, prices, e, x, price))
  {
    hide Trim, PriceIndex, Priced, QuotedAt, PriceKey, QuoteReads, LastQuote;
    var index, key := PriceIndex(parse, prices), PriceKey(e.metric, e.group);
    KeyOfTrimmed(e.metric, e.group);
    forall x, price | Charged(parse, prices, e, x, price) ensures EntryCost(e, index) == x * price > 0.0 {
      PricedIsQuoted(parse, prices, e, price);
      LastQuoteWins(parse, prices, key, price);
      Product(x, price);
    }
    if EntryCost(e, index) != 0.0 {
      LastQuoteWins(parse, prices, key, index[key]);
      PricedIsQuoted(parse, prices, e, index[key]);
      assert Charged(parse, prices, e, BillableValue(e), index[key]);
    }
  }

  lemma KeyOfTrimmed(metric: string, group: string)
    ensures PriceKey(Trim(metric), Trim(group)) == PriceKey(metric, group)
  {
    hide Trim;
    TrimTwice(metric);
    TrimTwice(group);
  }

  lemma Product(x: real, y: real)
    requires x > 0.0 && y > 0.0
    ensures x * y > 0.0
  {
  }

  lemma EntryCostSign(e: Entry, prices: map<string, real>)
    ensures EntryCost(e, prices) >= 0.0
    ensures EntryCost(e, prices) > 0.0 ==> Trim(e.metric) != ""
  {
    hide Trim, PriceKey;
  }

  // ----- groups

  function BeforeSeparator(s: string): Option<string> {
    if s == "" then None
    else if s[0] == ':' && |s| > 1 && s[1] == ':' then Some("")
    else
      var rest := BeforeSeparator(s[1..]);
      if rest.None? then None else Some([s[0]] + rest.value)
  }

  function DisplayModelId(modelId: string): string {
    var id := Trim(modelId);
    var left := BeforeSeparator(id);
    if left.Some? && !Blank(left.value) then Trim(left.value) else id
  }

  function EntryModelId(modelId: string, e: Entry): string {
    if !Blank(e.metric) then Trim(e.metric) else if DisplayModelId(modelId) != "" then DisplayModelId(modelId) else Trim(modelId)
  }

  function EntryLabel(modelId: string, e: Entry): string {
    if !Blank(e.displayName) then Trim(e.displayName) else DisplayModelId(modelId)
  }

  datatype Aggregate = Aggregate(value: real, displayId: string, modelLabel: string)

  function ValueIn(groups: map<string, Aggregate>, id: string): real {
    if id in groups then groups[id].value else 0.0
  }

  function Values(groups: map<string, Aggregate>): string -> real {
    (id: string) => ValueIn(groups, id)
  }

  /** The entry added to the group it is billed to; a free entry is left out. */
  function AddEntry(modelId: string, e: Entry, prices: map<string, real>, groups: map<string, Aggregate>): map<string, Aggregate> {
    var cost, id := EntryCost(e, prices), EntryModelId(modelId, e);
    if cost <= 0.0 then groups
    else groups[id := Aggregate(ValueIn(groups, id) + cost, DisplayModelId(modelId), EntryLabel(modelId, e))]
  }

  function GroupsOf(modelId: string, entries: seq<Entry>, prices: map<string, real>): map<string, Aggregate> {
    if entries == [] then map[]
    else AddEntry(modelId, entries[|entries| - 1], prices, GroupsOf(modelId, entries[..|entries| - 1], prices))
  }

  function Costs(entries: seq<Entry>, prices: map<string, real>): (r: real)
    ensures r >= 0.0
  {
    if entries == [] then 0.0
    else
      EntryCostSign(entries[|entries| - 1], prices);
      Costs(entries[..|entries| - 1], prices) + EntryCost(entries[|entries| - 1], prices)
  }

  /** What the entries with the given billing metric cost together. */
  function CostsOf(metric: string, entries: seq<Entry>, prices: map<string, real>): (r: real)
    ensures r >= 0.0
  {
    if entries == [] then 0.0
    else
      var e := entries[|entries| - 1];
      EntryCostSign(e, prices);
      CostsOf(metric, entries[..|entries| - 1], prices) + if Trim(e.metric) == metric then EntryCost(e, prices) else 0.0
  }

  lemma GroupsStep(modelId: string, entries: seq<Entry>, e: Entry, prices: map<string, real>)
    ensures GroupsOf(modelId, [], prices) == map[]
    ensures GroupsOf(modelId, entries + [e], prices) == AddEntry(modelId, e, prices, GroupsOf(modelId, entries, prices))
  {
    hide AddEntry;
    assert (entries + [e])[..|entries|] == entries;
  }

  lemma CostsStep(entries: seq<Entry>, e: Entry, prices: map<string, real>)
    ensures Costs(entries + [e], prices) == Costs(entries, prices) + EntryCost(e, prices)
    ensures forall metric :: CostsOf(metric, entries + [e], prices)
                             == CostsOf(metric, entries, prices) + if Trim(e.metric) == metric then EntryCost(e, prices) else 0.0
  {
    hide Trim, EntryCost;
    assert (entries + [e])[..|entries|] == entries;
  }

  lemma {:induction false} CostsAdd(a: seq<Entry>, b: seq<Entry>, prices: map<string, real>, metric: string)
    ensures Costs(a + b, prices) == Costs(a, prices) + Costs(b, prices)
    ensures CostsOf(metric, a + b, prices) == CostsOf(metric, a, prices) + CostsOf(metric, b, prices)
  {
    hide Trim, EntryCost;
    if b == [] {
      assert a + b == a;
    } else {
      assert (a + b)[..|a + b| - 1] == a + b[..|b| - 1];
      CostsAdd(a, b[..|b| - 1], prices, metric);
    }
  }

  /** A usage costs what its entries cost, input, output and cached together, and each metric
      what its own entries cost. */
  lemma UsageCosts(u: Usage, prices: map<string, real>, metric: string, e: Entry)
    ensures Costs(AllEntries(u), prices) == Costs(u.input, prices) + Costs(u.output, prices) + Costs(u.cached, prices)
    ensures CostsOf(metric, AllEntries(u), prices)
            == CostsOf(metric, u.input, prices) + CostsOf(metric, u.output, prices) + CostsOf(metric, u.cached, prices)
    ensures Costs([], prices) == CostsOf(metric, [], prices) == 0.0 && Costs([e], prices) == EntryCost(e, prices)
    ensures CostsOf(metric, [e], prices) == if Trim(e.metric) == metric then EntryCost(e, prices) else 0.0
  {
    hide Trim, EntryCost;
    CostsAdd(u.input + u.output, u.cached, prices, metric);
    CostsAdd(u.input, u.output, prices, metric);
    assert [e][..0] == [];
  }

  /** The first "::" of s stands at k. */
  predicate SeparatorAt(s: string, k: nat) {
    k + 2 <= |s| && s[k] == ':' && s[k + 1] == ':' && forall j :: 0 <= j < k ==> !(s[j] == ':' && s[j + 1] == ':')
  }

  /** The text before the first "::" when it is not blank, else the whole id, trimmed. */
  ghost predicate DisplayReads(modelId: string, d: string) {
    var id := Trim(modelId);
    || (exists k: nat :: SeparatorAt(id, k) && Trim(id[..k]) != "" && d == Trim(id[..k]))
    || (d == id && forall k: nat :: SeparatorAt(id, k) ==> Trim(id[..k]) == "")
  }

  lemma {:induction false} BeforeSeparatorReads(s: string)
    ensures BeforeSeparator(s).Some? ==> SeparatorAt(s, |BeforeSeparator(s).value|) && BeforeSeparator(s).value <= s
    ensures forall k: nat :: SeparatorAt(s, k) ==> BeforeSeparator(s) == Some(s[..k])
  {
    if s != "" && !(s[0] == ':' && |s| > 1 && s[1] == ':') {
      var tail := s[1..];
      BeforeSeparatorReads(tail);
      var rest := BeforeSeparator(tail);
      if rest.Some? {
        assert SeparatorAt(tail, |rest.value|);
        assert forall j :: 0 < j <= |rest.value| ==> s[j] == tail[j - 1] && s[j + 1] == tail[j];
      }
      forall k: nat | SeparatorAt(s, k) ensures BeforeSeparator(s) == Some(s[..k]) {
        assert k > 0;
        assert forall i :: 0 <= i < |tail| ==> tail[i] == s[i + 1];
        assert SeparatorAt(tail, k - 1);
        assert s[..k] == [s[0]] + tail[..k - 1];
      }
    }
  }

  lemma DisplayIs(modelId: string, d: string)
    ensures DisplayReads(modelId, d) <==> d == DisplayModelId(modelId)
  {
    hide Trim, SeparatorAt, BeforeSeparator;
    var id := Trim(modelId);
    BeforeSeparatorReads(id);
    var left := BeforeSeparator(id);
    if left.Some? {
      assert SeparatorAt(id, |left.value|) && id[..|left.value|] == left.value;
    }
  }

  /** The label of an entry is its display name, or what is displayed for the model. */
  ghost predicate LabelReads(modelId: string, e: Entry, text: string) {
    if Trim(e.displayName) != "" then text == Trim(e.displayName) else DisplayReads(modelId, text)
  }

  /** The label is that of the last entry of the metric that costs something. */
  ghost predicate LastLabel(modelId: string, entries: seq<Entry>, prices: map<string, real>, metric: string, text: string) {
    exists i :: 0 <= i < |entries| && Costing(entries[i], prices, metric) && LabelReads(modelId, entries[i], text)
                && forall j :: i < j < |entries| ==> !Costing(entries[j], prices, metric)
  }

  predicate Costing(e: Entry, prices: map<string, real>, metric: string) {
    Trim(e.metric) == metric && EntryCost(e, prices) > 0.0
  }

  lemma LabelStep(modelId: string, entries: seq<Entry>, e: Entry, prices: map<string, real>, metric: string, text: string)
    ensures Costing(e, prices, metric) ==> LastLabel(modelId, entries + [e], prices, metric, EntryLabel(modelId, e))
    ensures !Costing(e, prices, metric) && LastLabel(modelId, entries, prices, metric, text)
            ==> LastLabel(modelId, entries + [e], prices, metric, text)
  {
    hide Trim, Costing, DisplayReads, DisplayModelId;
    var next := entries + [e];
    assert next[|entries|] == e;
    DisplayIs(modelId, DisplayModelId(modelId));
    if !Costing(e, prices, metric) && LastLabel(modelId, entries, prices, metric, text) {
      var i :| 0 <= i < |entries| && Costing(entries[i], prices, metric) && LabelReads(modelId, entries[i], text)
               && forall j :: i < j < |entries| ==> !Costing(entries[j], prices, metric);
      assert next[i] == entries[i];
      forall j | i < j < |next| ensures !Costing(next[j], prices, metric) {
        assert j < |entries| ==> next[j] == entries[j];
      }
    }
  }

  ghost predicate Conserved(modelId: string, entries: seq<Entry>, prices: map<string, real>, groups: map<string, Aggregate>) {
    && (forall metric :: ValueIn(groups, metric) == CostsOf(metric, entries, prices))
    && (forall metric :: metric in groups <==> CostsOf(metric, entries, prices) > 0.0)
    && (forall metric :: metric in groups ==> groups[metric].displayId == DisplayModelId(modelId))
    && (forall metric :: metric in groups ==> LastLabel(modelId, entries, prices, metric, groups[metric].modelLabel))
    && SumOver(groups.Keys, Values(groups)) == Costs(entries, prices)
  }

  /** A group holds the whole cost of its billing metric, the groups are the metrics that cost
      something, and together they hold the whole cost. */
  lemma {:induction false} GroupsConserveCost(modelId: string, entries: seq<Entry>, prices: map<string, real>)
    ensures Conserved(modelId, entries, prices, GroupsOf(modelId, entries, prices))
  {
    hide *;
    if entries == [] {
      NoGroups(modelId, prices);
    } else {
      var n := |entries| - 1;
      var e := entries[n];
      assert entries == entries[..n] + [e];
      GroupsConserveCost(modelId, entries[..n], prices);
      GroupsStep(modelId, entries[..n], e, prices);
      AddEntryConserves(modelId, entries[..n], e, prices, GroupsOf(modelId, entries[..n], prices));
    }
  }

  lemma NoGroups(modelId: string, prices: map<string, real>)
    ensures GroupsOf(modelId, [], prices) == map[] && Conserved(modelId, [], prices, map[])
  {
    assert GroupsOf(modelId, [], prices).Keys == {};
  }

  lemma AddEntryConserves(modelId: string, entries: seq<Entry>, e: Entry, prices: map<string, real>, groups: map<string, Aggregate>)
    requires Conserved(modelId, entries, prices, groups)
    ensures Conserved(modelId, entries + [e], prices, AddEntry(modelId, e, prices, groups))
  {
    hide Trim, DisplayModelId, EntryLabel, SumOver, EntryCost, CostsOf, Costs, PriceKey, BillableValue, LastLabel;
    EntryCostSign(e, prices);
    CostsStep(entries, e, prices);
    forall metric | metric in AddEntry(modelId, e, prices, groups)
      ensures LastLabel(modelId, entries + [e], prices, metric, AddEntry(modelId, e, prices, groups)[metric].modelLabel)
    {
      LabelStep(modelId, entries, e, prices, metric, if metric in groups then groups[metric].modelLabel else "");
    }
    var added, id := AddEntry(modelId, e, prices, groups), EntryModelId(modelId, e);
    if EntryCost(e, prices) > 0.0 {
      var others := groups.Keys - {id};
      assert added.Keys - {id} == others;
      SumOverTake(added.Keys, Values(added), id);
      SumOverSame(others, Values(added), Values(groups));
      if id in groups {
        SumOverTake(groups.Keys, Values(groups), id);
      } else {
        assert others == groups.Keys;
      }
    }
  }

  method AppendEntries(modelId: string, ghost before: seq<Entry>, entries: seq<Entry>, prices: map<string, real>,
                       prior: map<string, Aggregate>)
    returns (groups: map<string, Aggregate>)
    requires prior == GroupsOf(modelId, before, prices)
    ensures groups == GroupsOf(modelId, before + entries, prices)
  {
    hide EntryCost, EntryModelId, EntryLabel, DisplayModelId, GroupsOf;
    groups := prior;
    assert before + entries[..0] == before;
    for i := 0 to |entries|
      invariant groups == GroupsOf(modelId, before + entries[..i], prices)
    {
      assert before + entries[..i + 1] == before + entries[..i] + [entries[i]];
      GroupsStep(modelId, before + entries[..i], entries[i], prices);
      var value := EntryCost(entries[i], prices);
      if value <= 0.0 {
        continue;
      }
      var id := EntryModelId(modelId, entries[i]);
      var sum := if id in groups then groups[id].value else 0.0;
      groups := groups[id := Aggregate(sum + value, DisplayModelId(modelId), EntryLabel(modelId, entries[i]))];
    }
    assert entries[..|entries|] == entries;
  }

  // ----- rows

  function AllEntries(u: Usage): seq<Entry> { u.input + u.output + u.cached }

  function RowSum(rows: seq<CostRow>): real {
    if rows == [] then 0.0 else RowSum(rows[..|rows| - 1]) + rows[|rows| - 1].value
  }

  lemma {:induction false} RowSumAppend(a: seq<CostRow>, b: seq<CostRow>)
    ensures RowSum(a + b) == RowSum(a) + RowSum(b)
  {
    if b == [] {
      assert a + b == a;
    } else {
      assert (a + b)[..|a + b| - 1] == a + b[..|b| - 1];
      RowSumAppend(a, b[..|b| - 1]);
    }
  }

  /** A row of the category that holds the whole cost of its billing metric. */
  ghost predicate BillsMetric(row: CostRow, category: string, modelId: string, u: Usage, prices: map<string, real>) {
    && row.scope == ModelScope && row.category == category && DisplayReads(modelId, row.displayId)
    && row.value == CostsOf(row.modelId, AllEntries(u), prices) > 0.0
    && LastLabel(modelId, AllEntries(u), prices, row.modelId, row.modelLabel)
  }

  ghost predicate HasRow(rows: seq<CostRow>, metric: string) {
    exists i :: 0 <= i < |rows| && rows[i].modelId == metric
  }

  /** The groups of a model's input, output and cached entries. */
  method GroupUsage(modelId: string, u: Usage, prices: map<string, real>) returns (groups: map<string, Aggregate>)
    ensures Conserved(modelId, AllEntries(u), prices, groups)
  {
    hide DisplayModelId, GroupsOf, Conserved;
    NoGroups(modelId, prices);
    groups := AppendEntries(modelId, [], u.input, prices, map[]);
    groups := AppendEntries(modelId, [] + u.input, u.output, prices, groups);
    groups := AppendEntries(modelId, [] + u.input + u.output, u.cached, prices, groups);
    assert [] + u.input + u.output + u.cached == AllEntries(u);
    GroupsConserveCost(modelId, AllEntries(u), prices);
  }

  function RowFor(category: string, metric: string, a: Aggregate): CostRow {
    CostRow(a.value, ModelScope, category, metric, a.displayId, a.modelLabel)
  }

  lemma GroupBills(category: string, modelId: string, u: Usage, prices: map<string, real>, groups: map<string, Aggregate>, metric: string)
    requires Conserved(modelId, AllEntries(u), prices, groups) && metric in groups
    ensures BillsMetric(RowFor(category, metric, groups[metric]), category, modelId, u, prices) && groups[metric].value > 0.0
  {
    hide DisplayModelId, DisplayReads, CostsOf, Costs, SumOver, AllEntries, LastLabel;
    DisplayIs(modelId, DisplayModelId(modelId));
    assert ValueIn(groups, metric) == CostsOf(metric, AllEntries(u), prices);
  }

  lemma ConservedTotal(modelId: string, entries: seq<Entry>, prices: map<string, real>, groups: map<string, Aggregate>)
    requires Conserved(modelId, entries, prices, groups)
    ensures SumOver(groups.Keys, Values(groups)) == Costs(entries, prices)
    ensures forall metric :: metric in groups <==> CostsOf(metric, entries, prices) > 0.0
  {
    hide DisplayModelId, CostsOf, Costs, SumOver;
  }

  /** Rows that bill each of some metrics once. */
  ghost predicate OncePerMetric(rows: seq<CostRow>, metrics: set<string>) {
    && (forall i, j :: 0 <= i < j < |rows| ==> rows[i].modelId != rows[j].modelId)
    && (forall metric :: HasRow(rows, metric) <==> metric in metrics)
  }

  lemma OnceMore(rows: seq<CostRow>, metrics: set<string>, row: CostRow)
    requires OncePerMetric(rows, metrics) && row.modelId !in metrics
    ensures OncePerMetric(rows + [row], metrics + {row.modelId})
  {
    RowsGrow(rows, row);
    forall i, j | 0 <= i < j < |rows| + 1 ensures (rows + [row])[i].modelId != (rows + [row])[j].modelId {
      if j == |rows| {
        assert HasRow(rows, rows[i].modelId);
      }
    }
  }

  /** One row for each billing metric that costs something, in whatever order the groups are
      visited; nothing of the cost is lost. */
  method ModelCostRows(modelId: string, category: string, u: Usage, prices: map<string, real>)
    returns (rows: seq<CostRow>, total: real)
    ensures total == RowSum(rows) == Costs(AllEntries(u), prices)
    ensures forall i :: 0 <= i < |rows| ==> BillsMetric(rows[i], category, modelId, u, prices)
    ensures forall i, j :: 0 <= i < j < |rows| ==> rows[i].modelId != rows[j].modelId
    ensures forall metric :: HasRow(rows, metric) <==> CostsOf(metric, AllEntries(u), prices) > 0.0
  {
    hide DisplayModelId, SumOver, CostsOf, Costs, Conserved, BillsMetric, OncePerMetric, RowSum, Values, AllEntries, HasRow;
    var groups := GroupUsage(modelId, u, prices);
    ConservedTotal(modelId, AllEntries(u), prices, groups);
    rows, total := [], 0.0;
    var remaining := groups.Keys;
    NoRows(groups.Keys - remaining);
    while remaining != {}
      invariant remaining <= groups.Keys
      invariant total == RowSum(rows) && total + SumOver(remaining, Values(groups)) == Costs(AllEntries(u), prices)
      invariant forall i :: 0 <= i < |rows| ==> BillsMetric(rows[i], category, modelId, u, prices)
      invariant OncePerMetric(rows, groups.Keys - remaining)
      decreases |remaining|
    {
      var id :| id in remaining;
      GroupBills(category, modelId, u, prices, groups, id);
      if groups[id].value <= 0.0 {
        assert false;
      }
      SumOverTake(remaining, Values(groups), id);
      ValueOf(groups, id);
      OnceMore(rows, groups.Keys - remaining, RowFor(category, id, groups[id]));
      RowsGrow(rows, RowFor(category, id, groups[id]));
      assert groups.Keys - (remaining - {id}) == groups.Keys - remaining + {id};
      remaining := remaining - {id};
      total := total + groups[id].value;
      rows := rows + [CostRow(groups[id].value, ModelScope, category, id, groups[id].displayId, groups[id].modelLabel)];
    }
    NothingToSum(Values(groups));
    OncePerMetricMeans(rows, groups.Keys - remaining);
  }

  lemma NoRows(none: set<string>)
    requires none == {}
    ensures RowSum([]) == 0.0 && OncePerMetric([], none)
  {
  }

  lemma OncePerMetricMeans(rows: seq<CostRow>, metrics: set<string>)
    requires OncePerMetric(rows, metrics)
    ensures forall i, j :: 0 <= i < j < |rows| ==> rows[i].modelId != rows[j].modelId
    ensures forall metric :: HasRow(rows, metric) <==> metric in metrics
  {
  }

  lemma ValueOf(groups: map<string, Aggregate>, id: string)
    requires id in groups
    ensures Values(groups)(id) == groups[id].value
  {
  }

  lemma NothingToSum(f: string -> real)
    ensures SumOver({}, f) == 0.0
  {
  }

  lemma RowsGrow(rows: seq<CostRow>, row: CostRow)
    ensures RowSum(rows + [row]) == RowSum(rows) + row.value
    ensures forall metric :: HasRow(rows + [row], metric) <==> HasRow(rows, metric) || metric == row.modelId
  {
    assert (rows + [row])[..|rows|] == rows;
    forall metric ensures HasRow(rows + [row], metric) <==> HasRow(rows, metric) || metric == row.modelId {
      if i :| 0 <= i < |rows| && rows[i].modelId == metric {
        assert (rows + [row])[i].modelId == metric;
      }
      assert (rows + [row])[|rows|] == row;
    }
  }

  // ----- categories

  datatype Category = Category(name: string, models: map<string, Usage>)

  function Present(name: string, models: Option<map<string, Usage>>): seq<Category> {
    if models.Some? then [Category(name, models.value)] else []
  }

  /** The categories of a report in the order they are read. */
  function Categories(r: Response): seq<Category> {
    Present("completion", r.completion) + Present("ocr", r.ocr) + Present("connectors", r.connectors) + Present("audio", r.audio)
    + LibraryCategories(r.libraries) + FineTuningCategories(r.fineTuning)
  }

  function LibraryCategories(l: Option<Libraries>): seq<Category> {
    if l.None? then [] else Present("libraries_api.pages", l.value.pages) + Present("libraries_api.tokens", l.value.tokens)
  }

  function FineTuningCategories(f: Option<FineTuning>): seq<Category> {
    if f.None? then []
    else [Category("fine_tuning.training", f.value.training), Category("fine_tuning.storage", f.value.storage)]
  }

  function ModelCost(models: map<string, Usage>, prices: map<string, real>, modelId: string): real {
    if modelId in models && !Blank(modelId) then Costs(AllEntries(models[modelId]), prices) else 0.0
  }

  function ModelCosts(models: map<string, Usage>, prices: map<string, real>): string -> real {
    (modelId: string) => ModelCost(models, prices, modelId)
  }

  /** The cost of every entry of every model of a category that has a name. */
  ghost function CategoryCost(c: Category, prices: map<string, real>): real {
    SumOver(c.models.Keys, ModelCosts(c.models, prices))
  }

  ghost function BilledTotal(cs: seq<Category>, prices: map<string, real>): real {
    if cs == [] then 0.0 else BilledTotal(cs[..|cs| - 1], prices) + CategoryCost(cs[|cs| - 1], prices)
  }

  ghost function OptionalCost(models: Option<map<string, Usage>>, prices: map<string, real>): real {
    if models.Some? then CategoryCost(Category("", models.value), prices) else 0.0
  }

  /** A named model costs what its entries cost, a blank one nothing. */
  lemma NamedModelCosts(models: map<string, Usage>, prices: map<string, real>, id: string)
    requires id in models
    ensures ModelCosts(models, prices)(id)
            == if Trim(id) == "" then 0.0
               else Costs(models[id].input, prices) + Costs(models[id].output, prices) + Costs(models[id].cached, prices)
  {
    hide Trim, Costs;
    CostsAdd(models[id].input + models[id].output, models[id].cached, prices, "");
    CostsAdd(models[id].input, models[id].output, prices, "");
  }

  lemma {:induction false} BilledAdd(a: seq<Category>, b: seq<Category>, prices: map<string, real>)
    ensures BilledTotal(a + b, prices) == BilledTotal(a, prices) + BilledTotal(b, prices)
  {
    hide CategoryCost;
    if b == [] {
      assert a + b == a;
    } else {
      assert (a + b)[..|a + b| - 1] == a + b[..|b| - 1];
      BilledAdd(a, b[..|b| - 1], prices);
    }
  }

  lemma PresentCost(name: string, models: Option<map<string, Usage>>, prices: map<string, real>)
    ensures BilledTotal(Present(name, models), prices) == OptionalCost(models, prices)
  {
    hide SumOver;
    if models.Some? {
      assert [Category(name, models.value)][..0] == [];
    }
  }

  /** The models in each of the eight parts of a report are billed once. */
  lemma BilledInAll(r: Response, prices: map<string, real>)
    ensures BilledTotal(Categories(r), prices)
            == OptionalCost(r.completion, prices) + OptionalCost(r.ocr, prices) + OptionalCost(r.connectors, prices) + OptionalCost(r.audio, prices)
               + (if r.libraries.None? then 0.0
                  else OptionalCost(r.libraries.value.pages, prices) + OptionalCost(r.libraries.value.tokens, prices))
               + (if r.fineTuning.None? then 0.0
                  else OptionalCost(Some(r.fineTuning.value.training), prices) + OptionalCost(Some(r.fineTuning.value.storage), prices))
  {
    hide CategoryCost, BilledTotal, Present, OptionalCost;
    var c, o, n, a := Present("completion", r.completion), Present("ocr", r.ocr), Present("connectors", r.connectors), Present("audio", r.audio);
    PresentCost("completion", r.completion, prices);
    PresentCost("ocr", r.ocr, prices);
    PresentCost("connectors", r.connectors, prices);
    PresentCost("audio", r.audio, prices);
    BilledAdd(c, o, prices);
    BilledAdd(c + o, n, prices);
    BilledAdd(c + o + n, a, prices);
    BilledLibraries(r.libraries, prices);
    BilledFineTuning(r.fineTuning, prices);
    BilledAdd(c + o + n + a, LibraryCategories(r.libraries), prices);
    BilledAdd(c + o + n + a + LibraryCategories(r.libraries), FineTuningCategories(r.fineTuning), prices);
  }

  lemma BilledLibraries(l: Option<Libraries>, prices: map<string, real>)
    ensures BilledTotal(LibraryCategories(l), prices)
            == if l.None? then 0.0 else OptionalCost(l.value.pages, prices) + OptionalCost(l.value.tokens, prices)
  {
    hide CategoryCost, Present, OptionalCost;
    if l.Some? {
      PresentCost("libraries_api.pages", l.value.pages, prices);
      PresentCost("libraries_api.tokens", l.value.tokens, prices);
      BilledAdd(Present("libraries_api.pages", l.value.pages), Present("libraries_api.tokens", l.value.tokens), prices);
    }
  }

  lemma BilledFineTuning(f: Option<FineTuning>, prices: map<string, real>)
    ensures BilledTotal(FineTuningCategories(f), prices)
            == if f.None? then 0.0 else OptionalCost(Some(f.value.training), prices) + OptionalCost(Some(f.value.storage), prices)
  {
    hide CategoryCost, OptionalCost;
    if f.Some? {
      var t, s := Present("fine_tuning.training", Some(f.value.training)), Present("fine_tuning.storage", Some(f.value.storage));
      PresentCost("fine_tuning.training", Some(f.value.training), prices);
      PresentCost("fine_tuning.storage", Some(f.value.storage), prices);
      BilledAdd(t, s, prices);
      assert FineTuningCategories(f) == t + s;
    }
  }

  /** The category names the part of the report that its models stand in. */
  lemma CategoryReads(r: Response, c: Category)
    ensures c in Categories(r)
            <==> || (c.name == "completion" && r.completion == Some(c.models)) || (c.name == "ocr" && r.ocr == Some(c.models))
                 || (c.name == "connectors" && r.connectors == Some(c.models)) || (c.name == "audio" && r.audio == Some(c.models))
                 || (c.name == "libraries_api.pages" && r.libraries.Some? && r.libraries.value.pages == Some(c.models))
                 || (c.name == "libraries_api.tokens" && r.libraries.Some? && r.libraries.value.tokens == Some(c.models))
                 || (c.name == "fine_tuning.training" && r.fineTuning.Some? && r.fineTuning.value.training == c.models)
                 || (c.name == "fine_tuning.storage" && r.fineTuning.Some? && r.fineTuning.value.storage == c.models)
  {
    PresentHolds("completion", r.completion, c);
    PresentHolds("ocr", r.ocr, c);
    PresentHolds("connectors", r.connectors, c);
    PresentHolds("audio", r.audio, c);
    if r.libraries.Some? {
      PresentHolds("libraries_api.pages", r.libraries.value.pages, c);
      PresentHolds("libraries_api.tokens", r.libraries.value.tokens, c);
    }
    hide Present;
  }

  lemma PresentHolds(name: string, models: Option<map<string, Usage>>, c: Category)
    ensures c in Present(name, models) <==> c.name == name && models == Some(c.models)
  {
  }

  /** The row bills one metric of one named model of the category. */
  ghost predicate RowOf(row: CostRow, c: Category, prices: map<string, real>) {
    exists id :: id in c.models && !Blank(id) && BillsMetric(row, c.name, Trim(id), c.models[id], prices)
  }

  /** A row bills the metric of the model. */
  ghost predicate Billed(rows: seq<CostRow>, c: Category, id: string, metric: string, prices: map<string, real>)
    requires id in c.models
  {
    exists i :: 0 <= i < |rows| && rows[i].modelId == metric && BillsMetric(rows[i], c.name, Trim(id), c.models[id], prices)
  }

  /** Every metric of the model that costs something is billed. */
  ghost predicate BillsModel(rows: seq<CostRow>, c: Category, id: string, prices: map<string, real>)
    requires id in c.models
  {
    !Blank(id) ==> forall metric :: CostsOf(metric, AllEntries(c.models[id]), prices) > 0.0 ==> Billed(rows, c, id, metric, prices)
  }

  lemma BillsModelGrows(rows: seq<CostRow>, more: seq<CostRow>, c: Category, id: string, prices: map<string, real>)
    requires id in c.models && BillsModel(rows, c, id, prices)
    ensures BillsModel(rows + more, c, id, prices)
  {
    hide Blank, CostsOf, BillsMetric, Trim;
    if !Blank(id) {
      forall metric | CostsOf(metric, AllEntries(c.models[id]), prices) > 0.0 ensures Billed(rows + more, c, id, metric, prices) {
        assert Billed(rows, c, id, metric, prices);
        var i :| 0 <= i < |rows| && rows[i].modelId == metric && BillsMetric(rows[i], c.name, Trim(id), c.models[id], prices);
        assert (rows + more)[i] == rows[i];
      }
    }
  }

  lemma NewRowsBill(rows: seq<CostRow>, more: seq<CostRow>, c: Category, id: string, prices: map<string, real>)
    requires id in c.models
    requires forall i :: 0 <= i < |more| ==> BillsMetric(more[i], c.name, Trim(id), c.models[id], prices)
    requires forall metric :: HasRow(more, metric) <==> CostsOf(metric, AllEntries(c.models[id]), prices) > 0.0
    ensures BillsModel(rows + more, c, id, prices)
  {
    hide Blank, CostsOf, BillsMetric, Trim;
    forall metric | CostsOf(metric, AllEntries(c.models[id]), prices) > 0.0 ensures Billed(rows + more, c, id, metric, prices) {
      assert HasRow(more, metric);
      var i :| 0 <= i < |more| && more[i].modelId == metric;
      assert (rows + more)[|rows| + i] == more[i];
    }
  }

  /** The rows of one category, whatever order its models are visited in. */
  method CategoryRows(c: Category, prices: map<string, real>) returns (rows: seq<CostRow>, total: real)
    ensures total == RowSum(rows) == CategoryCost(c, prices)
    ensures forall i :: 0 <= i < |rows| ==> RowOf(rows[i], c, prices)
    ensures forall id :: id in c.models ==> BillsModel(rows, c, id, prices)
  {
    hide Trim, SumOver, CostsOf, Costs, BillsMetric, Billed, BillsModel, HasRow;
    rows, total := [], 0.0;
    var remaining := c.models.Keys;
    ghost var f := ModelCosts(c.models, prices);
    while remaining != {}
      invariant remaining <= c.models.Keys
      invariant total == RowSum(rows) && total + SumOver(remaining, f) == CategoryCost(c, prices)
      invariant forall i :: 0 <= i < |rows| ==> RowOf(rows[i], c, prices)
      invariant forall id :: id in c.models.Keys - remaining ==> BillsModel(rows, c, id, prices)
      decreases |remaining|
    {
      var id :| id in remaining;
      SumOverTake(remaining, f, id);
      ghost var visited := c.models.Keys - remaining;
      remaining := remaining - {id};
      var modelId := Trim(id);
      if modelId == "" {
        BlankBillsNothing(rows, c, id, prices);
        continue;
      }
      var modelRows, modelCost := ModelCostRows(modelId, c.name, c.models[id], prices);
      forall i | 0 <= i < |modelRows| ensures RowOf(modelRows[i], c, prices) {
        assert BillsMetric(modelRows[i], c.name, Trim(id), c.models[id], prices);
      }
      forall other | other in visited ensures BillsModel(rows + modelRows, c, other, prices) {
        BillsModelGrows(rows, modelRows, c, other, prices);
      }
      NewRowsBill(rows, modelRows, c, id, prices);
      RowSumAppend(rows, modelRows);
      total := total + modelCost;
      rows := rows + modelRows;
    }
    NothingToSum(f);
  }

  lemma BlankBillsNothing(rows: seq<CostRow>, c: Category, id: string, prices: map<string, real>)
    requires id in c.models && Blank(id)
    ensures BillsModel(rows, c, id, prices)
  {
  }

  // ----- the report

  predicate HasUsageShape(r: Response) {
    || r.completion.Some? || r.ocr.Some? || r.connectors.Some? || r.libraries.Some? || r.fineTuning.Some? || r.audio.Some?
    || r.vibeUsage.Some? || !Blank(r.currency) || !Blank(r.currencySymbol) || |r.prices| > 0
  }

  const TOTAL_CATEGORY := "all"

  ghost predicate BillsCategory(rows: seq<CostRow>, c: Category, prices: map<string, real>) {
    forall id :: id in c.models ==> BillsModel(rows, c, id, prices)
  }

  /** The model rows of some categories: each bills a metric of one of them, every metric that
      costs something is billed, and together they bill the whole cost. */
  ghost predicate BillsExactly(rows: seq<CostRow>, cs: seq<Category>, prices: map<string, real>) {
    && RowSum(rows) == BilledTotal(cs, prices)
    && (forall i :: 0 <= i < |rows| ==> exists k :: 0 <= k < |cs| && RowOf(rows[i], cs[k], prices))
    && (forall k :: 0 <= k < |cs| ==> BillsCategory(rows, cs[k], prices))
  }

  lemma {:induction false} BillsNext(rows: seq<CostRow>, cs: seq<Category>, more: seq<CostRow>, c: Category, prices: map<string, real>)
    requires BillsExactly(rows, cs, prices) && RowSum(more) == CategoryCost(c, prices)
    requires forall i :: 0 <= i < |more| ==> RowOf(more[i], c, prices)
    requires BillsCategory(more, c, prices)
    ensures BillsExactly(rows + more, cs + [c], prices)
  {
    hide CategoryCost, RowOf, BillsModel, Blank;
    var all, ds := rows + more, cs + [c];
    RowSumAppend(rows, more);
    assert ds[..|cs|] == cs;
    forall i | 0 <= i < |all| ensures exists k :: 0 <= k < |ds| && RowOf(all[i], ds[k], prices) {
      if i < |rows| {
        var k :| 0 <= k < |cs| && RowOf(rows[i], cs[k], prices);
        assert RowOf(all[i], ds[k], prices);
      } else {
        assert RowOf(all[i], ds[|cs|], prices);
      }
    }
    forall k, id | 0 <= k < |ds| && id in ds[k].models ensures BillsModel(all, ds[k], id, prices) {
      if k < |cs| {
        assert BillsCategory(rows, cs[k], prices);
        BillsModelGrows(rows, more, cs[k], id, prices);
      } else {
        BillsModelFollows(rows, more, c, id, prices);
      }
    }
  }

  lemma BillsModelFollows(rows: seq<CostRow>, more: seq<CostRow>, c: Category, id: string, prices: map<string, real>)
    requires id in c.models && BillsModel(more, c, id, prices)
    ensures BillsModel(rows + more, c, id, prices)
  {
    hide Blank, CostsOf, BillsMetric, Trim;
    if !Blank(id) {
      forall metric | CostsOf(metric, AllEntries(c.models[id]), prices) > 0.0 ensures Billed(rows + more, c, id, metric, prices) {
        assert Billed(more, c, id, metric, prices);
        var i :| 0 <= i < |more| && more[i].modelId == metric && BillsMetric(more[i], c.name, Trim(id), c.models[id], prices);
        assert (rows + more)[|rows| + i] == more[i];
      }
    }
  }

  /** The cost rows of a report: the model rows of its categories and last a total row equal to
      both their sum and the cost of every entry. */
  method CostRows(parse: string -> Option<real>, r: Response) returns (rows: seq<CostRow>)
    ensures rows == [] <==> && r.completion.None? && r.ocr.None? && r.connectors.None? && r.audio.None? && r.libraries.None?
                            && r.fineTuning.None? && r.vibeUsage.None? && r.prices == []
                            && Trim(r.currency) == "" && Trim(r.currencySymbol) == ""
    ensures rows != [] ==>
              && |rows| > 0 && BillsExactly(rows[..|rows| - 1], Categories(r), PriceIndex(parse, r.prices))
              && rows[|rows| - 1] == CostRow(RowSum(rows[..|rows| - 1]), TotalScope, "all", "", "", "")
  {
    hide Trim, CategoryCost, RowOf, BillsModel, BillsExactly, RowSum, PriceIndex;
    if !HasUsageShape(r) {
      return [];
    }
    var prices := IndexPrices(parse, r.prices);
    var categories := Categories(r);
    var totalCost := 0.0;
    rows := [];
    NothingBilled(prices);
    for k := 0 to |categories|
      invariant totalCost == RowSum(rows) && BillsExactly(rows, categories[..k], prices)
    {
      var categoryRows, cost := CategoryRows(categories[k], prices);
      BillsNext(rows, categories[..k], categoryRows, categories[k], prices);
      RowSumAppend(rows, categoryRows);
      assert categories[..k + 1] == categories[..k] + [categories[k]];
      totalCost := totalCost + cost;
      rows := rows + categoryRows;
    }
    assert categories[..|categories|] == categories;
    ghost var modelRows := rows;
    rows := rows + [CostRow(totalCost, TotalScope, TOTAL_CATEGORY, "", "", "")];
    assert rows[..|rows| - 1] == modelRows;
  }

  lemma NothingBilled(prices: map<string, real>)
    ensures RowSum([]) == 0.0 && BillsExactly([], [], prices)
  {
  }

  // ----- the spending cap

  datatype Limits = Limits(usageLimit: Option<real>, noMonthlyLimit: Option<bool>,
                           totalUsage: Option<real>, usage: Option<real>, vibeUsage: Option<real>)

  datatype Cap = Cap(limit: real, usage: real, remaining: real)

  function PositiveOrZero(x: Option<real>): real { if x.GetOr(0.0) > 0.0 then x.value else 0.0 }

  /** The reported total, else the sum of both usages. */
  function CapUsage(l: Limits): real {
    if PositiveOrZero(l.totalUsage) != 0.0 then PositiveOrZero(l.totalUsage) else PositiveOrZero(l.usage) + PositiveOrZero(l.vibeUsage)
  }

  function CapRows(l: Limits): (cap: Option<Cap>)
    ensures cap.Some? <==> !l.noMonthlyLimit.GetOr(false) && l.usageLimit.GetOr(0.0) > 0.0
    ensures cap.Some? ==> cap.value.limit == l.usageLimit.value && 0.0 <= cap.value.remaining <= cap.value.limit
    ensures cap.Some? && cap.value.usage <= cap.value.limit ==> cap.value.usage + cap.value.remaining == cap.value.limit
    ensures cap.Some? ==> (cap.value.remaining == 0.0 <==> cap.value.usage >= cap.value.limit)
    ensures cap.Some? && l.totalUsage.GetOr(0.0) > 0.0 ==> cap.value.usage == l.totalUsage.value
    ensures cap.Some? && l.totalUsage.GetOr(0.0) <= 0.0 ==>
              cap.value.usage == (if l.usage.Some? && l.usage.value > 0.0 then l.usage.value else 0.0)
                                 + (if l.vibeUsage.Some? && l.vibeUsage.value > 0.0 then l.vibeUsage.value else 0.0)
  {
    var limit, usage := PositiveOrZero(l.usageLimit), CapUsage(l);
    if l.noMonthlyLimit.GetOr(false) || limit <= 0.0 then None
    else Some(Cap(limit, usage, if limit - usage > 0.0 then limit - usage else 0.0))
  }
}
