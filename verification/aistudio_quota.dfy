/** Decoded RPC payloads: nested lists of texts and numbers
    (vendor_observability_collector_google_aistudio_decode.go, numberFromAny). */
module RpcPayload {
  import opened Text

  datatype Value = Null | Str(text: string) | Num(number: real) | List(items: seq<Value>)

  /** A Go conversion to int: toward zero. */
  function Truncate(x: real): int {
    if x >= 0.0 then x.Floor else -((-x).Floor)
  }

  /** A number, or a text that reads as one. */
  function NumberOf(parse: string -> Option<real>, v: Value): Option<real> {
    match v
    case Num(x) => Some(x)
    case Str(s) => parse(Trim(s))
    case _ => None
  }

  function StringAt(row: seq<Value>, i: nat): string {
    if i < |row| && row[i].Str? then Trim(row[i].text) else ""
  }

  function IntAt(parse: string -> Option<real>, row: seq<Value>, i: nat): Option<int> {
    if i >= |row| then None
    else
      var x := NumberOf(parse, row[i]);
      if x.None? then None else Some(Truncate(x.value))
  }

  function ListAt(row: seq<Value>, i: nat): seq<Value> {
    if i < |row| && row[i].List? then row[i].items else []
  }

  /** x is the number v holds, or the one its trimmed text reads as. */
  predicate Reads(parse: string -> Option<real>, v: Value, x: real) {
    v == Num(x) || (v.Str? && parse(Trim(v.text)) == Some(x))
  }

  /** n is x without its fraction. */
  predicate TowardZero(x: real, n: int) {
    if x >= 0.0 then n as real <= x < n as real + 1.0 else n as real - 1.0 < x <= n as real
  }

  ghost predicate ReadsInt(parse: string -> Option<real>, v: Value, n: int) {
    exists x :: Reads(parse, v, x) && TowardZero(x, n)
  }

  lemma NumberReads(parse: string -> Option<real>, v: Value, x: real)
    ensures NumberOf(parse, v) == Some(x) <==> Reads(parse, v, x)
  {
    hide Trim;
  }

  lemma TruncateReads(x: real, n: int)
    ensures Truncate(x) == n <==> TowardZero(x, n)
  {
  }

  lemma IntReads(parse: string -> Option<real>, row: seq<Value>, i: nat, n: int)
    ensures IntAt(parse, row, i) == Some(n) <==> i < |row| && ReadsInt(parse, row[i], n)
  {
    hide Truncate, TowardZero, NumberOf, Reads;
    if i < |row| {
      var x := NumberOf(parse, row[i]);
      if x.Some? {
        NumberReads(parse, row[i], x.value);
        TruncateReads(x.value, n);
      }
      if y :| Reads(parse, row[i], y) && TowardZero(y, n) {
        NumberReads(parse, row[i], y);
      }
    }
  }
}

/** Rate limits of a Google AI Studio project, grouped by model
    (vendor_observability_collector_google_aistudio_rate_limits.go). */
module AIStudioRateLimits {
  import opened Text
  import opened RpcPayload

  datatype Meta = Meta(categoryCode: int, preview: bool)

  datatype Entry = Entry(modelId: string, category: string, tier: int, resource: int, window: int, value: real)

  datatype Limit = Limit(resource: string, window: string, quotaType: string, value: real, remaining: Option<real>)

  datatype QuotaModel = QuotaModel(modelId: string, category: string, preview: bool, tier: int, limits: seq<Limit>)

  datatype Failure = NoPayload | NotRows | NoRows

  const TEXT_OUTPUT_CODE := 4
  const TEXT_OUTPUT := "text_output"
  const GEMMA := "gemma"

  // ----- reading rows

  function SupportedCategory(meta: Meta, modelId: string, code: Option<int>): Option<string> {
    if code.GetOr(meta.categoryCode) == TEXT_OUTPUT_CODE then Some(TEXT_OUTPUT)
    else if "gemma-" <= Lower(Trim(modelId)) then Some(GEMMA)
    else None
  }

  /** What a row contributes: a vote for its tier and, when its value is positive, an entry. */
  datatype Reading = Reading(tier: int, entry: Option<Entry>)

  function ReadEntry(row: seq<Value>, parse: string -> Option<real>, modelId: string, category: string,
                     tier: int, resource: int, window: int): Option<Entry> {
    var values := ListAt(row, 4);
    if values == [] then None
    else
      var value := NumberOf(parse, values[0]);
      if value.None? || value.value <= 0.0 then None else Some(Entry(modelId, category, tier, resource, window, value.value))
  }

  function ReadRow(parse: string -> Option<real>, metas: map<string, Meta>, item: Value): Option<Reading> {
    if !item.List? then None
    else
      var row := item.items;
      var modelId := StringAt(row, 0);
      var tier, resource, window := IntAt(parse, row, 1), IntAt(parse, row, 2), IntAt(parse, row, 3);
      if modelId == "" || modelId !in metas || tier.None? || resource.None? || window.None? then None
      else
        var category := SupportedCategory(metas[modelId], modelId, IntAt(parse, row, 5));
        if category.None? then None
        else Some(Reading(tier.value, ReadEntry(row, parse, modelId, category.value, tier.value, resource.value, window.value)))
  }

  /** The positive supported entries, in row order. */
  function Entries(parse: string -> Option<real>, metas: map<string, Meta>, rows: seq<Value>): seq<Entry> {
    if rows == [] then []
    else
      var prior, last := Entries(parse, metas, rows[..|rows| - 1]), ReadRow(parse, metas, rows[|rows| - 1]);
      if last.Some? && last.value.entry.Some? then prior + [last.value.entry.value] else prior
  }

  /** How many supported rows vote for the tier. */
  function Votes(parse: string -> Option<real>, metas: map<string, Meta>, rows: seq<Value>, tier: int): nat {
    if rows == [] then 0
    else
      var last := ReadRow(parse, metas, rows[|rows| - 1]);
      Votes(parse, metas, rows[..|rows| - 1], tier) + if last.Some? && last.value.tier == tier then 1 else 0
  }

  // ----- rows by their columns

  /** The category code is the number in column 5, or the model's own when there is none. */
  ghost predicate IsCode(parse: string -> Option<real>, meta: Meta, row: seq<Value>, code: int) {
    || (|row| > 5 && ReadsInt(parse, row[5], code))
    || (code == meta.categoryCode && (|row| > 5 ==> forall n :: !ReadsInt(parse, row[5], n)))
  }

  /** Code 4 is text output; of the others only Gemma models are supported. */
  ghost predicate IsCategory(parse: string -> Option<real>, meta: Meta, row: seq<Value>, id: string, category: string) {
    exists code :: IsCode(parse, meta, row, code) && if code == 4 then category == "text_output"
                                                     else category == "gemma" && |id| >= 6 && Lower(id)[..6] == "gemma-"
  }

  /** A supported row: the model in column 0, the codes of tier, resource and window in 1 to 3. */
  ghost predicate Supported(parse: string -> Option<real>, metas: map<string, Meta>, item: Value, id: string, category: string,
                            tier: int, resource: int, window: int) {
    && item.List? && |item.items| > 3 && item.items[0].Str? && id == Trim(item.items[0].text) && id != "" && id in metas
    && ReadsInt(parse, item.items[1], tier) && ReadsInt(parse, item.items[2], resource) && ReadsInt(parse, item.items[3], window)
    && IsCategory(parse, metas[id], item.items, id, category)
  }

  /** The row gives the entry: it is supported, and the list in column 4 starts with a positive number. */
  ghost predicate Gives(parse: string -> Option<real>, metas: map<string, Meta>, item: Value, e: Entry) {
    && Supported(parse, metas, item, e.modelId, e.category, e.tier, e.resource, e.window)
    && |item.items| > 4 && item.items[4].List? && item.items[4].items != []
    && Reads(parse, item.items[4].items[0], e.value) && e.value > 0.0
  }

  ghost predicate VotesFor(parse: string -> Option<real>, metas: map<string, Meta>, item: Value, tier: int) {
    exists id, category, resource, window :: Supported(parse, metas, item, id, category, tier, resource, window)
  }

  lemma CodeReads(parse: string -> Option<real>, meta: Meta, row: seq<Value>, code: int)
    ensures IntAt(parse, row, 5).GetOr(meta.categoryCode) == code <==> IsCode(parse, meta, row, code)
  {
    hide IntAt, ReadsInt;
    var read := IntAt(parse, row, 5);
    IntReads(parse, row, 5, code);
    if read.Some? {
      IntReads(parse, row, 5, read.value);
    } else if |row| > 5 {
      forall n ensures !ReadsInt(parse, row[5], n) {
        IntReads(parse, row, 5, n);
      }
    }
  }

  lemma CategoryReads(parse: string -> Option<real>, meta: Meta, row: seq<Value>, id: string, category: string)
    requires Trim(id) == id
    ensures SupportedCategory(meta, id, IntAt(parse, row, 5)) == Some(category) <==> IsCategory(parse, meta, row, id, category)
  {
    hide Trim, Lower, IntAt, IsCode;
    var read := IntAt(parse, row, 5).GetOr(meta.categoryCode);
    CodeReads(parse, meta, row, read);
    forall code | IsCode(parse, meta, row, code) ensures code == read {
      CodeReads(parse, meta, row, code);
    }
    assert "gemma-" <= Lower(id) <==> |id| >= 6 && Lower(id)[..6] == "gemma-";
  }

  lemma SupportReads(parse: string -> Option<real>, metas: map<string, Meta>, item: Value, id: string, category: string,
                     tier: int, resource: int, window: int)
    ensures Supported(parse, metas, item, id, category, tier, resource, window)
            <==> && item.List? && StringAt(item.items, 0) == id != "" && id in metas && IntAt(parse, item.items, 1) == Some(tier)
                 && IntAt(parse, item.items, 2) == Some(resource) && IntAt(parse, item.items, 3) == Some(window)
                 && SupportedCategory(metas[id], id, IntAt(parse, item.items, 5)) == Some(category)
  {
    hide Trim, Lower, IntAt, IsCategory, ReadsInt, SupportedCategory;
    if item.List? {
      var row := item.items;
      IntReads(parse, row, 1, tier);
      IntReads(parse, row, 2, resource);
      IntReads(parse, row, 3, window);
      if StringAt(row, 0) == id != "" && id in metas {
        TrimTwice(row[0].text);
        CategoryReads(parse, metas[id], row, id, category);
      }
    }
  }

  /** A row has an entry exactly when its columns give it. */
  lemma RowReads(parse: string -> Option<real>, metas: map<string, Meta>, item: Value, e: Entry)
    ensures var r := ReadRow(parse, metas, item); r.Some? && r.value.entry == Some(e) <==> Gives(parse, metas, item, e)
  {
    hide Trim, Lower, IntAt, SupportedCategory, Supported, NumberOf, Reads;
    SupportReads(parse, metas, item, e.modelId, e.category, e.tier, e.resource, e.window);
    if item.List? && |item.items| > 4 && item.items[4].List? && item.items[4].items != [] {
      NumberReads(parse, item.items[4].items[0], e.value);
    }
  }

  /** A row votes for a tier exactly when its columns do. */
  lemma RowVotes(parse: string -> Option<real>, metas: map<string, Meta>, item: Value, tier: int)
    ensures var r := ReadRow(parse, metas, item); r.Some? && r.value.tier == tier <==> VotesFor(parse, metas, item, tier)
  {
    hide Trim, Lower, IntAt, StringAt, SupportedCategory, Supported, ReadEntry;
    var r := ReadRow(parse, metas, item);
    if r.Some? {
      var row := item.items;
      var id, resource, window := StringAt(row, 0), IntAt(parse, row, 2).value, IntAt(parse, row, 3).value;
      SupportReads(parse, metas, item, id, SupportedCategory(metas[id], id, IntAt(parse, row, 5)).value, r.value.tier, resource, window);
    }
    if id, category, resource, window :| Supported(parse, metas, item, id, category, tier, resource, window) {
      SupportReads(parse, metas, item, id, category, tier, resource, window);
    }
  }

  lemma GrowsBy(before: set<nat>, after: set<nat>, n: nat, more: bool)
    requires n !in before && forall i: nat :: i in after <==> i in before || (i == n && more)
    ensures |after| == |before| + if more then 1 else 0
  {
    assert after == if more then before + {n} else before;
  }

  /** The rows that vote for the tier. */
  ghost function Voters(parse: string -> Option<real>, metas: map<string, Meta>, rows: seq<Value>, tier: int): set<nat> {
    set i: nat | i < |rows| && VotesFor(parse, metas, rows[i], tier)
  }

  lemma {:induction false} VotesCount(parse: string -> Option<real>, metas: map<string, Meta>, rows: seq<Value>, tier: int)
    ensures Votes(parse, metas, rows, tier) == |Voters(parse, metas, rows, tier)|
  {
    hide ReadRow, VotesFor;
    if rows != [] {
      var n: nat := |rows| - 1;
      var init := rows[..n];
      VotesCount(parse, metas, init, tier);
      RowVotes(parse, metas, rows[n], tier);
      var before, after := Voters(parse, metas, init, tier), Voters(parse, metas, rows, tier);
      forall i: nat ensures i in after <==> i in before || (i == n && VotesFor(parse, metas, rows[n], tier)) {
        assert i < n ==> init[i] == rows[i];
      }
      GrowsBy(before, after, n, VotesFor(parse, metas, rows[n], tier));
    }
  }

  /** The entries are what the rows at these positions give, and no other row gives any. */
  ghost predicate GivenAt(positions: seq<nat>, parse: string -> Option<real>, metas: map<string, Meta>, rows: seq<Value>, entries: seq<Entry>) {
    && |positions| == |entries|
    && (forall j :: 0 <= j < |entries| ==> positions[j] < |rows| && Gives(parse, metas, rows[positions[j]], entries[j]))
    && (forall j, k :: 0 <= j < k < |entries| ==> positions[j] < positions[k])
    && (forall i: nat, e :: i < |rows| && Gives(parse, metas, rows[i], e) ==> i in positions)
  }

  /** The entries are those given by rows, in row order, each row giving at most one. */
  lemma {:induction false} EntriesGiven(parse: string -> Option<real>, metas: map<string, Meta>, rows: seq<Value>) returns (positions: seq<nat>)
    ensures GivenAt(positions, parse, metas, rows, Entries(parse, metas, rows))
  {
    hide ReadRow, GivenAt, Gives;
    if rows == [] {
      positions := [];
      NothingGiven(parse, metas);
    } else {
      var n := |rows| - 1;
      positions := EntriesGiven(parse, metas, rows[..n]);
      var r := ReadRow(parse, metas, rows[n]);
      assert rows[..n] + [rows[n]] == rows;
      GivenNext(positions, parse, metas, rows[..n], Entries(parse, metas, rows[..n]), rows[n]);
      if r.Some? && r.value.entry.Some? {
        positions := positions + [n];
      }
    }
  }

  lemma NothingGiven(parse: string -> Option<real>, metas: map<string, Meta>)
    ensures GivenAt([], parse, metas, [], [])
  {
  }

  lemma GivenNext(positions: seq<nat>, parse: string -> Option<real>, metas: map<string, Meta>, rows: seq<Value>, entries: seq<Entry>, item: Value)
    requires GivenAt(positions, parse, metas, rows, entries)
    ensures var r := ReadRow(parse, metas, item);
            if r.Some? && r.value.entry.Some?
            then GivenAt(positions + [|rows|], parse, metas, rows + [item], entries + [r.value.entry.value])
            else GivenAt(positions, parse, metas, rows + [item], entries)
  {
    hide ReadRow, Gives;
    var n, all := |rows|, rows + [item];
    var r := ReadRow(parse, metas, item);
    assert all[n] == item && forall k :: 0 <= k < n ==> all[k] == rows[k];
    forall e ensures r.Some? && r.value.entry == Some(e) <==> Gives(parse, metas, item, e) {
      RowReads(parse, metas, item, e);
    }
    if r.Some? && r.value.entry.Some? {
      var next := positions + [n];
      assert next[|positions|] == n;
      assert forall i :: i in positions ==> i in next;
    }
  }

  /** Every entry has a positive value, a known model and a supported category. */
  lemma {:induction false} EntriesAreSupported(parse: string -> Option<real>, metas: map<string, Meta>, rows: seq<Value>)
    ensures forall e :: e in Entries(parse, metas, rows) ==>
              e.value > 0.0 && e.modelId in metas && e.category in {TEXT_OUTPUT, GEMMA} && Votes(parse, metas, rows, e.tier) > 0
  {
    hide Trim, Lower;
    if rows != [] {
      EntriesAreSupported(parse, metas, rows[..|rows| - 1]);
    }
  }

  ghost predicate CountsVotes(counts: map<int, nat>, parse: string -> Option<real>, metas: map<string, Meta>, rows: seq<Value>) {
    forall t :: (if t in counts then counts[t] else 0) == Votes(parse, metas, rows, t) && (t in counts ==> counts[t] > 0)
  }

  // ----- the tier

  /** The most frequent code, the smallest of them on ties. */
  ghost predicate MostFrequent(counts: map<int, nat>, tier: int) {
    && tier in counts
    && forall t :: t in counts ==> counts[t] < counts[tier] || (counts[t] == counts[tier] && tier <= t)
  }

  lemma MostFrequentUnique(counts: map<int, nat>, a: int, b: int)
    requires MostFrequent(counts, a) && MostFrequent(counts, b)
    ensures a == b
  {
  }

  lemma SomeMember(s: set<int>)
    ensures s == {} || exists t :: t in s
  {
    if forall t: int :: t !in s {
      assert s == {};
    }
  }

  /** The hint when it is positive, else the most frequent code, whatever order the counts
      are visited in; nothing is selected only without hint and counts. */
  method SelectTier(hint: int, counts: map<int, nat>) returns (tier: Option<int>)
    ensures hint > 0 ==> tier == Some(hint)
    ensures hint <= 0 ==> (tier.None? <==> counts == map[])
    ensures hint <= 0 && tier.Some? ==> MostFrequent(counts, tier.value)
  {
    if hint > 0 {
      return Some(hint);
    }
    var remaining: set<int> := counts.Keys;
    var selected, selectedTier, selectedCount := false, 0, 0;
    while remaining != {}
      invariant remaining <= counts.Keys
      invariant selected <==> counts.Keys - remaining != {}
      invariant selected ==> selectedTier in counts.Keys - remaining && selectedCount == counts[selectedTier]
      invariant forall t :: t in counts.Keys - remaining ==>
                  counts[t] < selectedCount || (counts[t] == selectedCount && selectedTier <= t)
      decreases |remaining|
    {
      SomeMember(remaining);
      var t :| t in remaining;
      ghost var visited := counts.Keys - remaining;
      remaining := remaining - {t};
      assert counts.Keys - remaining == visited + {t};
      if !selected || counts[t] > selectedCount || (counts[t] == selectedCount && t < selectedTier) {
        selected, selectedTier, selectedCount := true, t, counts[t];
      }
    }
    assert counts.Keys - remaining == counts.Keys;
    tier := if selected then Some(selectedTier) else None;
  }

  // ----- limits

  function Decimal(n: nat): string {
    if n < 10 then [('0' as int + n) as char] else Decimal(n / 10) + [('0' as int + n % 10) as char]
  }

  function Resource(code: int): string {
    if code == 1 || code == 9 then "requests"
    else if code == 2 || code == 8 then "tokens"
    else if code == 5 then "images"
    else if code == 6 then "videos"
    else "other"
  }

  function Window(code: int): string {
    if code == 1 then "minute"
    else if code == 2 then "day"
    else "code_" + if code < 0 then "-" + Decimal(-code) else Decimal(code)
  }

  function QuotaType(resource: string): string {
    if resource == "requests" then "Requests"
    else if resource == "tokens" then "Tokens"
    else if resource == "images" then "Images"
    else if resource == "videos" then "Videos"
    else "Limit"
  }

  function LimitOf(e: Entry): (l: Limit)
    ensures l.quotaType == QuotaType(l.resource)
  {
    Limit(Resource(e.resource), Window(e.window), QuotaType(Resource(e.resource)), e.value, None)
  }

  function ValueOf(digits: string): int {
    if digits == "" then 0 else 10 * ValueOf(digits[..|digits| - 1]) + (digits[|digits| - 1] as int - '0' as int)
  }

  /** s is n in decimal digits, without leading zeros. */
  predicate Digits(s: string, n: int) {
    s != "" && (forall i :: 0 <= i < |s| ==> '0' <= s[i] <= '9') && (|s| > 1 ==> s[0] != '0') && ValueOf(s) == n
  }

  lemma {:induction false} DecimalDigits(n: nat)
    ensures Digits(Decimal(n), n) && (n > 0 ==> Decimal(n)[0] != '0')
  {
    if n < 10 {
      assert Decimal(n)[..0] == "";
    } else {
      DecimalDigits(n / 10);
      var init := Decimal(n / 10);
      assert Decimal(n)[..|init|] == init;
    }
  }

  lemma {:induction false} DigitsAreDecimal(s: string, n: int)
    requires Digits(s, n)
    ensures n >= 0 && s == Decimal(n)
  {
    var k := |s| - 1;
    assert s == s[..k] + [s[k]];
    if k == 0 {
      assert s[..0] == "";
    } else {
      DigitsAreDecimal(s[..k], ValueOf(s[..k]));
      var d := s[k] as int - '0' as int;
      assert n == 10 * ValueOf(s[..k]) + d && 0 <= d < 10;
      assert n / 10 == ValueOf(s[..k]) && n % 10 == d;
    }
  }

  predicate ResourceReads(code: int, r: string) {
    && r in {"requests", "tokens", "images", "videos", "other"} && (r == "requests" <==> code in {1, 9})
    && (r == "tokens" <==> code in {2, 8}) && (r == "images" <==> code == 5) && (r == "videos" <==> code == 6)
  }

  /** Minute and day have codes 1 and 2; any other window is named by its code. */
  predicate WindowReads(code: int, w: string) {
    if code == 1 then w == "minute"
    else if code == 2 then w == "day"
    else |w| > 5 && w[..5] == "code_" && if code < 0 then w[5] == '-' && Digits(w[6..], -code) else Digits(w[5..], code)
  }

  predicate QuotaTypeReads(r: string, q: string) {
    && q in {"Requests", "Tokens", "Images", "Videos", "Limit"} && (q == "Requests" <==> r == "requests")
    && (q == "Tokens" <==> r == "tokens") && (q == "Images" <==> r == "images") && (q == "Videos" <==> r == "videos")
  }

  /** The limit that an entry stands for. */
  predicate LimitReads(e: Entry, l: Limit) {
    && ResourceReads(e.resource, l.resource) && WindowReads(e.window, l.window) && QuotaTypeReads(l.resource, l.quotaType)
    && l.value == e.value && l.remaining.None?
  }

  lemma ResourceIs(code: int, r: string)
    ensures Resource(code) == r <==> ResourceReads(code, r)
  {
  }

  lemma QuotaTypeIs(r: string, q: string)
    ensures QuotaType(r) == q <==> QuotaTypeReads(r, q)
  {
  }

  lemma WindowIs(code: int, w: string)
    ensures Window(code) == w <==> WindowReads(code, w)
  {
    hide Decimal, Digits;
    if code !in {1, 2} {
      var n := if code < 0 then -code else code;
      DecimalDigits(n);
      var sign := if code < 0 then "-" else "";
      assert Window(code) == "code_" + (sign + Decimal(n));
      assert ("code_" + (sign + Decimal(n)))[..5] == "code_" && ("code_" + (sign + Decimal(n)))[5..] == sign + Decimal(n);
      assert code < 0 ==> (sign + Decimal(n))[0] == '-' && (sign + Decimal(n))[1..] == Decimal(n);
      if WindowReads(code, w) {
        var digits := if code < 0 then w[6..] else w[5..];
        DigitsAreDecimal(digits, n);
        assert w == w[..5] + (sign + digits);
      }
    }
  }

  lemma LimitIs(e: Entry, l: Limit)
    ensures LimitOf(e) == l <==> LimitReads(e, l)
  {
    hide Resource, Window, QuotaType, ResourceReads, WindowReads, QuotaTypeReads;
    ResourceIs(e.resource, l.resource);
    WindowIs(e.window, l.window);
    QuotaTypeIs(l.resource, l.quotaType);
  }

  /** The limits of one model in one tier, in row order. */
  function LimitsOf(entries: seq<Entry>, tier: int, modelId: string): seq<Limit> {
    if entries == [] then []
    else
      var e := entries[|entries| - 1];
      LimitsOf(entries[..|entries| - 1], tier, modelId) + if e.tier == tier && e.modelId == modelId then [LimitOf(e)] else []
  }

  /** The category of the model's first entry in the tier. */
  function FirstCategory(entries: seq<Entry>, tier: int, modelId: string): string {
    if entries == [] then ""
    else if entries[0].tier == tier && entries[0].modelId == modelId then entries[0].category
    else FirstCategory(entries[1..], tier, modelId)
  }

  /** The order of a model's limits: by quota type, then by window. */
  predicate Before(a: Limit, b: Limit) {
    if a.quotaType == b.quotaType then Less(a.window, b.window) else Less(a.quotaType, b.quotaType)
  }

  ghost predicate InOrder(limits: seq<Limit>) {
    forall i, j :: 0 <= i < j < |limits| ==> !Before(limits[j], limits[i])
  }

  const ORDER_KEY: Limit -> string := (l: Limit) => l.quotaType + l.window

  lemma {:induction false} LessAfterPrefix(p: string, a: string, b: string)
    ensures Less(p + a, p + b) <==> Less(a, b)
  {
    if p == "" {
      assert p + a == a && p + b == b;
    } else {
      assert (p + a)[1..] == p[1..] + a && (p + b)[1..] == p[1..] + b;
      LessAfterPrefix(p[1..], a, b);
    }
  }

  /** Quota types start with different letters, so their order decides before the window's. */
  lemma KeyOrder(a: Limit, b: Limit)
    requires a.quotaType == QuotaType(a.resource) && b.quotaType == QuotaType(b.resource)
    ensures Before(a, b) <==> Less(ORDER_KEY(a), ORDER_KEY(b))
  {
    if a.quotaType == b.quotaType {
      LessAfterPrefix(a.quotaType, a.window, b.window);
    } else {
      assert ORDER_KEY(a)[0] == a.quotaType[0] && ORDER_KEY(b)[0] == b.quotaType[0];
    }
  }

  ghost predicate TableTypes(limits: seq<Limit>) {
    forall i :: 0 <= i < |limits| ==> limits[i].quotaType == QuotaType(limits[i].resource)
  }

  /** Limits without a quota type are dropped and the others sorted; every limit has a quota
      type, so the result rearranges all of them. */
  method FinishLimits(limits: seq<Limit>) returns (finished: seq<Limit>)
    requires TableTypes(limits)
    ensures multiset(finished) == multiset(limits) && |finished| == |limits| && InOrder(finished)
  {
    hide Less;
    var filtered: seq<Limit> := [];
    for i := 0 to |limits|
      invariant filtered == limits[..i]
    {
      if limits[i].quotaType == "" {
        continue;
      }
      filtered := filtered + [limits[i]];
    }
    assert limits[..|limits|] == limits;
    finished := SortBy(ORDER_KEY, filtered);
    SortBySorts(ORDER_KEY, filtered);
    SameMultisetSameMembers(finished, limits);
    forall i, j | 0 <= i < j < |finished| ensures !Before(finished[j], finished[i]) {
      assert finished[i] in finished && finished[j] in finished;
      assert finished[i] in limits && finished[j] in limits;
      KeyOrder(finished[j], finished[i]);
    }
  }

  // ----- grouping

  ghost predicate GroupedUnder(m: QuotaModel, id: string, entries: seq<Entry>, tier: int, metas: map<string, Meta>) {
    && m.modelId == id && id in metas && m.preview == metas[id].preview && m.tier == tier
    && m.category == FirstCategory(entries, tier, id) && m.limits == LimitsOf(entries, tier, id) != []
  }

  ghost predicate Groups(models: map<string, QuotaModel>, entries: seq<Entry>, tier: int, metas: map<string, Meta>) {
    forall id :: if id in models then GroupedUnder(models[id], id, entries, tier, metas) else LimitsOf(entries, tier, id) == []
  }

  lemma LimitsStep(entries: seq<Entry>, e: Entry, tier: int, id: string)
    ensures LimitsOf(entries + [e], tier, id) == LimitsOf(entries, tier, id) + if e.tier == tier && e.modelId == id then [LimitOf(e)] else []
  {
    hide LimitOf;
    assert (entries + [e])[..|entries|] == entries;
  }

  lemma {:induction false} CategoryStep(entries: seq<Entry>, e: Entry, tier: int, id: string)
    ensures LimitsOf(entries, tier, id) != [] ==> FirstCategory(entries + [e], tier, id) == FirstCategory(entries, tier, id)
    ensures LimitsOf(entries, tier, id) == [] && e.tier == tier && e.modelId == id ==> FirstCategory(entries + [e], tier, id) == e.category
  {
    hide LimitOf;
    if entries != [] {
      assert (entries + [e])[1..] == entries[1..] + [e];
      CategoryStep(entries[1..], e, tier, id);
      FirstLimit(entries, tier, id);
    }
  }

  lemma {:induction false} FirstLimit(entries: seq<Entry>, tier: int, id: string)
    requires entries != []
    ensures LimitsOf(entries, tier, id)
            == (if entries[0].tier == tier && entries[0].modelId == id then [LimitOf(entries[0])] else []) + LimitsOf(entries[1..], tier, id)
  {
    hide LimitOf;
    var n := |entries| - 1;
    if n > 0 {
      FirstLimit(entries[..n], tier, id);
      assert entries[..n][1..] == entries[1..][..n - 1];
    }
  }

  /** The entry put under its model, which the first such entry creates. */
  function AddEntry(models: map<string, QuotaModel>, e: Entry, tier: int, metas: map<string, Meta>): map<string, QuotaModel>
    requires e.modelId in metas
  {
    if e.tier != tier then models
    else
      var model := if e.modelId in models then models[e.modelId]
                   else QuotaModel(e.modelId, e.category, metas[e.modelId].preview, tier, []);
      models[e.modelId := model.(limits := model.limits + [LimitOf(e)])]
  }

  lemma AddEntryGroups(models: map<string, QuotaModel>, entries: seq<Entry>, e: Entry, tier: int, metas: map<string, Meta>)
    requires Groups(models, entries, tier, metas) && e.modelId in metas
    ensures Groups(AddEntry(models, e, tier, metas), entries + [e], tier, metas)
  {
    hide LimitOf, LimitsOf, FirstCategory;
    var added := AddEntry(models, e, tier, metas);
    forall id: string
      ensures if id in added then GroupedUnder(added[id], id, entries + [e], tier, metas) else LimitsOf(entries + [e], tier, id) == []
    {
      LimitsStep(entries, e, tier, id);
      CategoryStep(entries, e, tier, id);
    }
  }

  method GroupEntries(entries: seq<Entry>, tier: int, metas: map<string, Meta>) returns (models: map<string, QuotaModel>)
    requires forall e :: e in entries ==> e.modelId in metas
    ensures Groups(models, entries, tier, metas)
  {
    hide LimitOf, LimitsOf, FirstCategory;
    models := map[];
    NoLimits(tier);
    for i := 0 to |entries|
      invariant Groups(models, entries[..i], tier, metas)
    {
      var e := entries[i];
      assert entries[..i + 1] == entries[..i] + [e];
      AddEntryGroups(models, entries[..i], e, tier, metas);
      if e.tier != tier {
        continue;
      }
      var model := if e.modelId in models then models[e.modelId]
                   else QuotaModel(e.modelId, e.category, metas[e.modelId].preview, tier, []);
      models := models[e.modelId := model.(limits := model.limits + [LimitOf(e)])];
    }
    assert entries[..|entries|] == entries;
  }

  lemma NoLimits(tier: int)
    ensures forall id :: LimitsOf([], tier, id) == []
  {
  }

  /** The model ids in increasing order, whatever order the map is visited in. */
  method SortedIds(models: map<string, QuotaModel>) returns (ids: seq<string>)
    ensures StrictlySortedBy(SELF, ids) && forall id :: id in ids <==> id in models
  {
    hide Less;
    var remaining, unsorted: seq<string> := models.Keys, [];
    while remaining != {}
      invariant remaining <= models.Keys
      invariant forall id :: id in unsorted <==> id in models.Keys - remaining
      invariant DistinctKeys(SELF, unsorted)
      decreases |remaining|
    {
      var id :| id in remaining;
      assert id !in unsorted;
      remaining, unsorted := remaining - {id}, unsorted + [id];
    }
    ids := SortBy(SELF, unsorted);
    SortByForgetsOrder(SELF, unsorted, unsorted);
    SameMultisetSameMembers(ids, unsorted);
  }

  // ----- the result

  const MODEL_ID: QuotaModel -> string := (m: QuotaModel) => m.modelId

  /** A model of the result: its limits are those of its entries in the tier, rearranged. */
  ghost predicate Finished(m: QuotaModel, entries: seq<Entry>, tier: int, metas: map<string, Meta>) {
    && m.modelId in metas && m.preview == metas[m.modelId].preview && m.tier == tier
    && m.category == FirstCategory(entries, tier, m.modelId)
    && multiset(m.limits) == multiset(LimitsOf(entries, tier, m.modelId)) && m.limits != [] && InOrder(m.limits)
  }

  ghost predicate Lists(models: seq<QuotaModel>, id: string) {
    exists i :: 0 <= i < |models| && models[i].modelId == id
  }

  ghost predicate RateLimits(models: seq<QuotaModel>, entries: seq<Entry>, tier: int, metas: map<string, Meta>) {
    && StrictlySortedBy(MODEL_ID, models)
    && (forall i :: 0 <= i < |models| ==> Finished(models[i], entries, tier, metas))
    && (forall id :: Lists(models, id) <==> LimitsOf(entries, tier, id) != [])
  }

  method FinishModels(grouped: map<string, QuotaModel>, ghost entries: seq<Entry>, ghost tier: int, ghost metas: map<string, Meta>)
    returns (models: seq<QuotaModel>)
    requires Groups(grouped, entries, tier, metas)
    ensures RateLimits(models, entries, tier, metas)
  {
    hide LimitsOf, FirstCategory, Less, InOrder;
    var ids := SortedIds(grouped);
    models := [];
    for i := 0 to |ids|
      invariant |models| == i && forall j :: 0 <= j < i ==> models[j].modelId == ids[j] && Finished(models[j], entries, tier, metas)
    {
      assert ids[i] in ids;
      var model := grouped[ids[i]];
      assert GroupedUnder(model, ids[i], entries, tier, metas);
      LimitsHaveTypes(entries, tier, ids[i]);
      var limits := FinishLimits(model.limits);
      if |limits| == 0 {
        assert false;
      }
      models := models + [model.(limits := limits)];
    }
    forall id ensures Lists(models, id) <==> LimitsOf(entries, tier, id) != [] {
      if id in grouped {
        assert id in ids && GroupedUnder(grouped[id], id, entries, tier, metas);
        var i :| 0 <= i < |ids| && ids[i] == id;
        assert models[i].modelId == id;
      }
      if Lists(models, id) {
        var i :| 0 <= i < |models| && models[i].modelId == id;
        assert ids[i] in ids;
      }
    }
    forall i, j | 0 <= i < j < |models| ensures Less(MODEL_ID(models[i]), MODEL_ID(models[j])) {
      assert Less(SELF(ids[i]), SELF(ids[j]));
    }
  }

  lemma {:induction false} LimitsHaveTypes(entries: seq<Entry>, tier: int, id: string)
    ensures TableTypes(LimitsOf(entries, tier, id))
  {
    if entries != [] {
      LimitsHaveTypes(entries[..|entries| - 1], tier, id);
    }
  }

  /** The tier whose limits are reported: the positive hint, else the tier most supported rows
      vote for, the smallest on ties. */
  ghost predicate Selects(hint: int, parse: string -> Option<real>, metas: map<string, Meta>, rows: seq<Value>, tier: int) {
    if hint > 0 then tier == hint
    else
      && Votes(parse, metas, rows, tier) > 0
      && forall t :: Votes(parse, metas, rows, t) < Votes(parse, metas, rows, tier)
                     || (Votes(parse, metas, rows, t) == Votes(parse, metas, rows, tier) && tier <= t)
  }

  lemma SelectsOne(hint: int, parse: string -> Option<real>, metas: map<string, Meta>, rows: seq<Value>, a: int, b: int)
    requires Selects(hint, parse, metas, rows, a) && Selects(hint, parse, metas, rows, b)
    ensures a == b
  {
    hide Votes;
  }

  lemma CountsSelect(counts: map<int, nat>, hint: int, parse: string -> Option<real>, metas: map<string, Meta>, rows: seq<Value>, tier: int)
    requires CountsVotes(counts, parse, metas, rows) && hint <= 0
    ensures MostFrequent(counts, tier) <==> Selects(hint, parse, metas, rows, tier)
  {
    hide Votes;
    forall t: int ensures (if t in counts then counts[t] else 0) == Votes(parse, metas, rows, t) && (t in counts ==> counts[t] > 0) {
    }
    if MostFrequent(counts, tier) {
      forall t: int
        ensures Votes(parse, metas, rows, t) < Votes(parse, metas, rows, tier)
                || (Votes(parse, metas, rows, t) == Votes(parse, metas, rows, tier) && tier <= t)
      {
        assert t in counts ==> counts[t] < counts[tier] || (counts[t] == counts[tier] && tier <= t);
      }
    }
  }

  /** The rows read: entries collected and votes counted. */
  method ReadRows(parse: string -> Option<real>, metas: map<string, Meta>, rows: seq<Value>)
    returns (entries: seq<Entry>, counts: map<int, nat>)
    ensures entries == Entries(parse, metas, rows) && CountsVotes(counts, parse, metas, rows)
  {
    hide Trim, Lower, Truncate, NumberOf, SupportedCategory;
    entries, counts := [], map[];
    for i := 0 to |rows|
      invariant entries == Entries(parse, metas, rows[..i]) && CountsVotes(counts, parse, metas, rows[..i])
    {
      assert rows[..i + 1][..i] == rows[..i];
      if !rows[i].List? {
        continue;
      }
      var row := rows[i].items;
      var modelId := StringAt(row, 0);
      if modelId == "" || modelId !in metas {
        continue;
      }
      var tier, resource, window := IntAt(parse, row, 1), IntAt(parse, row, 2), IntAt(parse, row, 3);
      if tier.None? || resource.None? || window.None? {
        continue;
      }
      var category := SupportedCategory(metas[modelId], modelId, IntAt(parse, row, 5));
      if category.None? {
        continue;
      }
      counts := counts[tier.value := (if tier.value in counts then counts[tier.value] else 0) + 1];
      var values := ListAt(row, 4);
      if values == [] {
        continue;
      }
      var value := NumberOf(parse, values[0]);
      if value.None? || value.value <= 0.0 {
        continue;
      }
      entries := entries + [Entry(modelId, category.value, tier.value, resource.value, window.value, value.value)];
    }
    assert rows[..|rows|] == rows;
  }

  /** A reported result: the limits of the selected tier, of which there are some. */
  ghost predicate Reports(models: seq<QuotaModel>, hint: int, parse: string -> Option<real>, metas: map<string, Meta>, rows: seq<Value>) {
    exists tier :: Selects(hint, parse, metas, rows, tier) && RateLimits(models, Entries(parse, metas, rows), tier, metas) && models != []
  }

  ghost predicate NothingToReport(hint: int, parse: string -> Option<real>, metas: map<string, Meta>, rows: seq<Value>) {
    forall tier, e :: Selects(hint, parse, metas, rows, tier) && e in Entries(parse, metas, rows) ==> e.tier != tier
  }

  /** Fails exactly on a payload without rows or when the selected tier has no entry; otherwise
      reports the limits of the selected tier. */
  method ParseRateLimits(parse: string -> Option<real>, payload: seq<Value>, hint: int, metas: map<string, Meta>)
    returns (r: Result<seq<QuotaModel>, Failure>)
    ensures payload == [] ==> r == Err(NoPayload)
    ensures payload != [] && !payload[0].List? ==> r == Err(NotRows)
    ensures payload != [] && payload[0].List? ==>
              if r.Ok? then Reports(r.value, hint, parse, metas, payload[0].items)
              else r == Err(NoRows) && NothingToReport(hint, parse, metas, payload[0].items)
    ensures payload != [] && payload[0].List? ==>
              if r.Ok? then exists tier :: Chosen(hint, parse, metas, payload[0].items, tier)
                                           && ModelsRead(r.value, parse, metas, payload[0].items, tier)
              else NothingGives(hint, parse, metas, payload[0].items)
  {
    hide Entries, Votes, RateLimits, Selects, MostFrequent, Groups, CountsVotes, Chosen, ModelsRead, NothingToReport, NothingGives;
    if payload == [] {
      return Err(NoPayload);
    }
    if !payload[0].List? {
      return Err(NotRows);
    }
    var rows := payload[0].items;
    var entries, counts := ReadRows(parse, metas, rows);
    EntriesAreSupported(parse, metas, rows);
    var selected := SelectTier(hint, counts);
    SelectionIsRight(hint, parse, metas, rows, counts, selected);
    if selected.None? {
      NothingSelectable(hint, parse, metas, rows);
      NothingRead(hint, parse, metas, rows);
      return Err(NoRows);
    }
    var grouped := GroupEntries(entries, selected.value, metas);
    if grouped == map[] {
      NothingGrouped(entries, selected.value, metas);
      OnlySelected(hint, parse, metas, rows, selected.value);
      NothingRead(hint, parse, metas, rows);
      return Err(NoRows);
    }
    var models := FinishModels(grouped, entries, selected.value, metas);
    SomethingGrouped(grouped, models, entries, selected.value, metas);
    if |models| == 0 {
      assert false;
    }
    ReportsRead(models, hint, parse, metas, rows);
    r := Ok(models);
  }

  lemma NothingSelectable(hint: int, parse: string -> Option<real>, metas: map<string, Meta>, rows: seq<Value>)
    requires forall tier :: !Selects(hint, parse, metas, rows, tier)
    ensures NothingToReport(hint, parse, metas, rows)
  {
  }

  lemma SelectionIsRight(hint: int, parse: string -> Option<real>, metas: map<string, Meta>, rows: seq<Value>,
                         counts: map<int, nat>, selected: Option<int>)
    requires CountsVotes(counts, parse, metas, rows)
    requires hint > 0 ==> selected == Some(hint)
    requires hint <= 0 ==> (selected.None? <==> counts == map[])
    requires hint <= 0 && selected.Some? ==> MostFrequent(counts, selected.value)
    ensures selected.Some? ==> Selects(hint, parse, metas, rows, selected.value)
    ensures selected.None? ==> forall tier :: !Selects(hint, parse, metas, rows, tier)
  {
    hide Votes, CountsVotes;
    if hint <= 0 {
      forall tier: int ensures MostFrequent(counts, tier) <==> Selects(hint, parse, metas, rows, tier) {
        CountsSelect(counts, hint, parse, metas, rows, tier);
      }
    }
  }

  lemma OnlySelected(hint: int, parse: string -> Option<real>, metas: map<string, Meta>, rows: seq<Value>, tier: int)
    requires Selects(hint, parse, metas, rows, tier)
    requires forall e :: e in Entries(parse, metas, rows) ==> e.tier != tier
    ensures NothingToReport(hint, parse, metas, rows)
  {
    hide Entries, Selects;
    forall t, e | Selects(hint, parse, metas, rows, t) && e in Entries(parse, metas, rows) ensures e.tier != t {
      SelectsOne(hint, parse, metas, rows, tier, t);
    }
  }

  /** An entry of the tier is among the limits of its model. */
  lemma {:induction false} EntryIsListed(entries: seq<Entry>, tier: int, e: Entry)
    requires e in entries && e.tier == tier
    ensures LimitOf(e) in LimitsOf(entries, tier, e.modelId)
  {
    var n := |entries| - 1;
    if entries[n] != e {
      assert e in entries[..n];
      EntryIsListed(entries[..n], tier, e);
    }
  }

  lemma NothingGrouped(entries: seq<Entry>, tier: int, metas: map<string, Meta>)
    requires Groups(map[], entries, tier, metas)
    ensures forall e :: e in entries ==> e.tier != tier
  {
    hide LimitsOf;
    forall e | e in entries ensures e.tier != tier {
      if e.tier == tier {
        EntryIsListed(entries, tier, e);
      }
    }
  }

  lemma SomethingGrouped(grouped: map<string, QuotaModel>, models: seq<QuotaModel>, entries: seq<Entry>, tier: int, metas: map<string, Meta>)
    requires grouped != map[] && Groups(grouped, entries, tier, metas) && RateLimits(models, entries, tier, metas)
    ensures models != []
  {
    hide LimitsOf, Finished;
    assert grouped.Keys != {};
    var id :| id in grouped;
    assert GroupedUnder(grouped[id], id, entries, tier, metas);
    assert Lists(models, id);
  }

  // ----- the result by the rows' columns

  ghost predicate GivesLimit(parse: string -> Option<real>, metas: map<string, Meta>, item: Value, tier: int, id: string, l: Limit) {
    exists e :: Gives(parse, metas, item, e) && e.tier == tier && e.modelId == id && LimitReads(e, l)
  }

  /** The rows that give this limit of the model in the tier. */
  ghost function Givers(parse: string -> Option<real>, metas: map<string, Meta>, rows: seq<Value>, tier: int, id: string, l: Limit): set<nat> {
    set i: nat | i < |rows| && GivesLimit(parse, metas, rows[i], tier, id, l)
  }

  lemma LimitGiven(parse: string -> Option<real>, metas: map<string, Meta>, item: Value, tier: int, id: string, l: Limit)
    ensures var r := ReadRow(parse, metas, item);
            GivesLimit(parse, metas, item, tier, id, l)
            <==> r.Some? && r.value.entry.Some? && r.value.entry.value.tier == tier && r.value.entry.value.modelId == id
                 && LimitOf(r.value.entry.value) == l
  {
    hide ReadRow, Gives, LimitReads, LimitOf;
    var r := ReadRow(parse, metas, item);
    if r.Some? && r.value.entry.Some? {
      RowReads(parse, metas, item, r.value.entry.value);
      LimitIs(r.value.entry.value, l);
    }
    if e :| Gives(parse, metas, item, e) && e.tier == tier && e.modelId == id && LimitReads(e, l) {
      RowReads(parse, metas, item, e);
    }
  }

  lemma NoEntries(parse: string -> Option<real>, metas: map<string, Meta>)
    ensures Entries(parse, metas, []) == []
  {
  }

  lemma EntriesStep(parse: string -> Option<real>, metas: map<string, Meta>, rows: seq<Value>)
    requires rows != []
    ensures var prior, last := Entries(parse, metas, rows[..|rows| - 1]), ReadRow(parse, metas, rows[|rows| - 1]);
            Entries(parse, metas, rows) == if last.Some? && last.value.entry.Some? then prior + [last.value.entry.value] else prior
  {
    hide ReadRow;
  }

  /** A limit stands under its model as often as there are rows that give it. */
  lemma {:induction false} GivenCount(parse: string -> Option<real>, metas: map<string, Meta>, rows: seq<Value>, tier: int, id: string, l: Limit)
    ensures multiset(LimitsOf(Entries(parse, metas, rows), tier, id))[l] == |Givers(parse, metas, rows, tier, id, l)|
  {
    hide ReadRow, GivesLimit, LimitOf, LimitsOf, Entries;
    NoLimits(tier);
    if rows == [] {
      NoEntries(parse, metas);
    } else {
      var n: nat := |rows| - 1;
      var init := rows[..n];
      GivenCount(parse, metas, init, tier, id, l);
      EntriesStep(parse, metas, rows);
      LimitGiven(parse, metas, rows[n], tier, id, l);
      var r := ReadRow(parse, metas, rows[n]);
      if r.Some? && r.value.entry.Some? {
        LimitsStep(Entries(parse, metas, init), r.value.entry.value, tier, id);
      }
      var before, after := Givers(parse, metas, init, tier, id, l), Givers(parse, metas, rows, tier, id, l);
      forall i: nat ensures i in after <==> i in before || (i == n && GivesLimit(parse, metas, rows[n], tier, id, l)) {
        assert i < n ==> init[i] == rows[i];
      }
      GrowsBy(before, after, n, GivesLimit(parse, metas, rows[n], tier, id, l));
    }
  }

  /** The category is that of the first row that gives the model a limit in the tier. */
  ghost predicate FirstGives(parse: string -> Option<real>, metas: map<string, Meta>, rows: seq<Value>, tier: int, id: string, category: string) {
    exists i: nat, e :: i < |rows| && Gives(parse, metas, rows[i], e) && e.tier == tier && e.modelId == id && e.category == category
                        && forall j: nat, f :: j < i && Gives(parse, metas, rows[j], f) ==> !(f.tier == tier && f.modelId == id)
  }

  lemma GivenIsListed(parse: string -> Option<real>, metas: map<string, Meta>, rows: seq<Value>, i: nat, e: Entry)
    requires i < |rows| && Gives(parse, metas, rows[i], e)
    ensures LimitOf(e) in LimitsOf(Entries(parse, metas, rows), e.tier, e.modelId)
  {
    hide Gives, LimitsOf, LimitReads, Entries, LimitOf;
    var l := LimitOf(e);
    LimitIs(e, l);
    GivenCount(parse, metas, rows, e.tier, e.modelId, l);
    assert i in Givers(parse, metas, rows, e.tier, e.modelId, l);
    assert l in multiset(LimitsOf(Entries(parse, metas, rows), e.tier, e.modelId));
  }

  lemma {:induction false} CategoryGiven(parse: string -> Option<real>, metas: map<string, Meta>, rows: seq<Value>, tier: int, id: string)
    requires LimitsOf(Entries(parse, metas, rows), tier, id) != []
    ensures FirstGives(parse, metas, rows, tier, id, FirstCategory(Entries(parse, metas, rows), tier, id))
  {
    hide ReadRow, Gives, LimitOf, LimitsOf, FirstCategory, Entries;
    NoLimits(tier);
    NoEntries(parse, metas);
    if rows != [] {
      var n := |rows| - 1;
      var init, entries := rows[..n], Entries(parse, metas, rows[..n]);
      EntriesStep(parse, metas, rows);
      var r := ReadRow(parse, metas, rows[n]);
      if r.Some? && r.value.entry.Some? {
        LimitsStep(entries, r.value.entry.value, tier, id);
        CategoryStep(entries, r.value.entry.value, tier, id);
      }
      if LimitsOf(entries, tier, id) != [] {
        CategoryGiven(parse, metas, init, tier, id);
        var i: nat, e :| i < n && Gives(parse, metas, init[i], e) && e.tier == tier && e.modelId == id
                         && e.category == FirstCategory(entries, tier, id)
                         && forall j: nat, f :: j < i && Gives(parse, metas, init[j], f) ==> !(f.tier == tier && f.modelId == id);
        assert Gives(parse, metas, rows[i], e);
        forall j: nat, f | j < i && Gives(parse, metas, rows[j], f) ensures !(f.tier == tier && f.modelId == id) {
          assert Gives(parse, metas, init[j], f);
        }
      } else {
        var e := r.value.entry.value;
        RowReads(parse, metas, rows[n], e);
        forall j: nat, f | j < n && Gives(parse, metas, rows[j], f) ensures !(f.tier == tier && f.modelId == id) {
          assert Gives(parse, metas, init[j], f);
          GivenIsListed(parse, metas, init, j, f);
        }
      }
    }
  }

  /** The chosen tier: the positive hint, else the one most rows vote for, the smallest on ties. */
  ghost predicate Chosen(hint: int, parse: string -> Option<real>, metas: map<string, Meta>, rows: seq<Value>, tier: int) {
    if hint > 0 then tier == hint
    else
      && |Voters(parse, metas, rows, tier)| > 0
      && forall t :: |Voters(parse, metas, rows, t)| < |Voters(parse, metas, rows, tier)|
                     || (|Voters(parse, metas, rows, t)| == |Voters(parse, metas, rows, tier)| && tier <= t)
  }

  lemma ChosenIsSelected(hint: int, parse: string -> Option<real>, metas: map<string, Meta>, rows: seq<Value>, tier: int)
    ensures Selects(hint, parse, metas, rows, tier) <==> Chosen(hint, parse, metas, rows, tier)
  {
    hide Votes, Voters;
    forall t ensures Votes(parse, metas, rows, t) == |Voters(parse, metas, rows, t)| {
      VotesCount(parse, metas, rows, t);
    }
  }

  /** A model as reported: each limit stands under it as often as rows give it, in order. */
  ghost predicate ModelReads(m: QuotaModel, parse: string -> Option<real>, metas: map<string, Meta>, rows: seq<Value>, tier: int) {
    && m.modelId in metas && m.preview == metas[m.modelId].preview && m.tier == tier
    && FirstGives(parse, metas, rows, tier, m.modelId, m.category) && InOrder(m.limits)
    && forall l :: multiset(m.limits)[l] == |Givers(parse, metas, rows, tier, m.modelId, l)|
  }

  /** Each model for which some row gives a limit in the tier, by increasing id. */
  ghost predicate ModelsRead(models: seq<QuotaModel>, parse: string -> Option<real>, metas: map<string, Meta>, rows: seq<Value>, tier: int) {
    && models != [] && StrictlySortedBy(MODEL_ID, models) && (forall m :: m in models ==> ModelReads(m, parse, metas, rows, tier))
    && forall i: nat, e :: i < |rows| && Gives(parse, metas, rows[i], e) && e.tier == tier ==> Lists(models, e.modelId)
  }

  lemma ModelIsRead(m: QuotaModel, parse: string -> Option<real>, metas: map<string, Meta>, rows: seq<Value>, tier: int)
    requires Finished(m, Entries(parse, metas, rows), tier, metas)
    ensures ModelReads(m, parse, metas, rows, tier)
  {
    hide Entries, LimitsOf, FirstCategory, Givers, InOrder, FirstGives;
    var limits := LimitsOf(Entries(parse, metas, rows), tier, m.modelId);
    assert |m.limits| == |multiset(m.limits)| == |multiset(limits)| == |limits|;
    CategoryGiven(parse, metas, rows, tier, m.modelId);
    forall l ensures multiset(m.limits)[l] == |Givers(parse, metas, rows, tier, m.modelId, l)| {
      GivenCount(parse, metas, rows, tier, m.modelId, l);
    }
  }

  /** What is reported, by the rows' columns alone. */
  lemma ReportsRead(models: seq<QuotaModel>, hint: int, parse: string -> Option<real>, metas: map<string, Meta>, rows: seq<Value>)
    requires Reports(models, hint, parse, metas, rows)
    ensures exists tier :: Chosen(hint, parse, metas, rows, tier) && ModelsRead(models, parse, metas, rows, tier)
  {
    hide Entries, LimitsOf, Finished, Gives, ModelReads, Selects, Chosen, StrictlySortedBy, LimitOf;
    var tier :| Selects(hint, parse, metas, rows, tier) && RateLimits(models, Entries(parse, metas, rows), tier, metas);
    ChosenIsSelected(hint, parse, metas, rows, tier);
    forall m | m in models ensures ModelReads(m, parse, metas, rows, tier) {
      ModelIsRead(m, parse, metas, rows, tier);
    }
    forall i: nat, e | i < |rows| && Gives(parse, metas, rows[i], e) && e.tier == tier ensures Lists(models, e.modelId) {
      GivenIsListed(parse, metas, rows, i, e);
    }
  }

  /** No row gives a limit in a chosen tier. */
  ghost predicate NothingGives(hint: int, parse: string -> Option<real>, metas: map<string, Meta>, rows: seq<Value>) {
    forall tier, i: nat, e :: Chosen(hint, parse, metas, rows, tier) && i < |rows| && Gives(parse, metas, rows[i], e) ==> e.tier != tier
  }

  lemma NothingRead(hint: int, parse: string -> Option<real>, metas: map<string, Meta>, rows: seq<Value>)
    requires NothingToReport(hint, parse, metas, rows)
    ensures NothingGives(hint, parse, metas, rows)
  {
    hide Entries, Gives, Selects, Chosen;
    forall tier, i: nat, e | Chosen(hint, parse, metas, rows, tier) && i < |rows| && Gives(parse, metas, rows[i], e) ensures e.tier != tier {
      ChosenIsSelected(hint, parse, metas, rows, tier);
      GivenIsEntry(parse, metas, rows, i, e);
    }
  }

  lemma {:induction false} GivenIsEntry(parse: string -> Option<real>, metas: map<string, Meta>, rows: seq<Value>, i: nat, e: Entry)
    requires i < |rows| && Gives(parse, metas, rows[i], e)
    ensures e in Entries(parse, metas, rows)
  {
    hide Gives, ReadRow;
    var n := |rows| - 1;
    if i < n {
      assert rows[..n][i] == rows[i];
      GivenIsEntry(parse, metas, rows[..n], i, e);
    } else {
      RowReads(parse, metas, rows[n], e);
    }
  }

  // ----- conservation

  function Tagged(id: string, limits: seq<Limit>): seq<(string, Limit)> {
    if limits == [] then [] else Tagged(id, limits[..|limits| - 1]) + [(id, limits[|limits| - 1])]
  }

  /** Every reported limit with its model. */
  function Reported(models: seq<QuotaModel>): seq<(string, Limit)> {
    if models == [] then [] else Reported(models[..|models| - 1]) + Tagged(models[|models| - 1].modelId, models[|models| - 1].limits)
  }

  /** Every entry of the tier as a limit with its model. */
  function InTier(entries: seq<Entry>, tier: int): seq<(string, Limit)> {
    if entries == [] then []
    else
      var e := entries[|entries| - 1];
      InTier(entries[..|entries| - 1], tier) + if e.tier == tier then [(e.modelId, LimitOf(e))] else []
  }

  lemma {:induction false} TaggedCount(id: string, limits: seq<Limit>, k: string, l: Limit)
    ensures multiset(Tagged(id, limits))[(k, l)] == if k == id then multiset(limits)[l] else 0
  {
    if limits != [] {
      var n := |limits| - 1;
      TaggedCount(id, limits[..n], k, l);
      assert limits == limits[..n] + [limits[n]];
    }
  }

  lemma {:induction false} InTierCount(entries: seq<Entry>, tier: int, k: string, l: Limit)
    ensures multiset(InTier(entries, tier))[(k, l)] == multiset(LimitsOf(entries, tier, k))[l]
  {
    hide LimitOf;
    if entries != [] {
      InTierCount(entries[..|entries| - 1], tier, k, l);
    }
  }

  lemma {:induction false} ReportedCount(models: seq<QuotaModel>, k: string, l: Limit)
    requires StrictlySortedBy(MODEL_ID, models)
    ensures Lists(models, k) ==>
              exists i :: 0 <= i < |models| && models[i].modelId == k && multiset(Reported(models))[(k, l)] == multiset(models[i].limits)[l]
    ensures !Lists(models, k) ==> multiset(Reported(models))[(k, l)] == 0
  {
    hide Less, Tagged, Reported, Lists;
    if models == [] {
      NothingListed(k);
    } else {
      var n := |models| - 1;
      var init := models[..n];
      ReportedCount(init, k, l);
      TaggedCount(models[n].modelId, models[n].limits, k, l);
      ReportedStep(models, (k, l));
      ListedStep(models, k);
      if Lists(init, k) {
        var i :| 0 <= i < n && init[i].modelId == k && multiset(Reported(init))[(k, l)] == multiset(init[i].limits)[l];
        assert models[i] == init[i];
      }
    }
  }

  lemma NothingListed(k: string)
    ensures Reported([]) == [] && !Lists([], k)
  {
  }

  lemma ReportedStep(models: seq<QuotaModel>, x: (string, Limit))
    requires models != []
    ensures var n := |models| - 1;
            multiset(Reported(models))[x] == multiset(Reported(models[..n]))[x] + multiset(Tagged(models[n].modelId, models[n].limits))[x]
  {
    hide Tagged;
  }

  lemma ListedStep(models: seq<QuotaModel>, k: string)
    requires models != [] && StrictlySortedBy(MODEL_ID, models)
    ensures var n := |models| - 1; Lists(models, k) <==> Lists(models[..n], k) || models[n].modelId == k
    ensures var n := |models| - 1; Lists(models[..n], k) ==> models[n].modelId != k
  {
    hide Less;
    var n := |models| - 1;
    var init := models[..n];
    if i :| 0 <= i < n && init[i].modelId == k {
      assert models[i].modelId == k && Less(MODEL_ID(models[i]), MODEL_ID(models[n]));
      LessIrreflexive(k);
    }
    if i :| 0 <= i <= n && models[i].modelId == k {
      assert i < n ==> init[i].modelId == k;
    }
  }

  /** The reported limits are exactly the positive supported entries of the tier, none lost,
      none added and none repeated. */
  lemma LimitsAreConserved(models: seq<QuotaModel>, entries: seq<Entry>, tier: int, metas: map<string, Meta>)
    requires RateLimits(models, entries, tier, metas)
    ensures multiset(Reported(models)) == multiset(InTier(entries, tier))
  {
    hide Less, Reported, InTier, LimitsOf, LimitOf, FirstCategory, InOrder;
    var a, b := multiset(Reported(models)), multiset(InTier(entries, tier));
    forall p: (string, Limit) ensures a[p] == b[p] {
      var (k, l) := p;
      ReportedCount(models, k, l);
      InTierCount(entries, tier, k, l);
      if Lists(models, k) {
        var i :| 0 <= i < |models| && models[i].modelId == k && a[(k, l)] == multiset(models[i].limits)[l];
        assert Finished(models[i], entries, tier, metas);
      } else {
        assert LimitsOf(entries, tier, k) == [];
      }
    }
  }
}

/** Usage read from metric time series, and what remains of the limits
    (vendor_observability_collector_google_aistudio_metric_time_series.go). */
module AIStudioUsage {
  import opened Text
  import opened RpcPayload
  import opened AIStudioRateLimits

  datatype UsageKey = UsageKey(modelId: string, resource: string, window: string)

  // ----- collecting points

  /** A list that starts with a text that is not blank. */
  predicate Timestamp(v: Value) {
    v.List? && v.items != [] && v.items[0].Str? && !Blank(v.items[0].text)
  }

  /** A point is a timestamp and a list that starts with a number. */
  function PointValue(parse: string -> Option<real>, row: seq<Value>): Option<real> {
    if |row| != 2 || !Timestamp(row[0]) then None
    else
      var values := ListAt(row, 1);
      if values == [] then None else NumberOf(parse, values[0])
  }

  /** The points of a tree from left to right; a point is not searched for further points. */
  function Points(parse: string -> Option<real>, v: Value): seq<real>
    decreases v
  {
    if !v.List? then []
    else
      var point := PointValue(parse, v.items);
      if point.Some? then [point.value] else PointsIn(parse, v.items)
  }

  function PointsIn(parse: string -> Option<real>, items: seq<Value>): seq<real>
    decreases items
  {
    if items == [] then [] else PointsIn(parse, items[..|items| - 1]) + Points(parse, items[|items| - 1])
  }

  /** x is the measurement of a point: beside a timestamp, the number a list starts with. */
  predicate PointIs(parse: string -> Option<real>, row: seq<Value>, x: real) {
    && |row| == 2 && row[0].List? && row[0].items != [] && row[0].items[0].Str? && Trim(row[0].items[0].text) != ""
    && row[1].List? && row[1].items != [] && Reads(parse, row[1].items[0], x)
  }

  /** The point with x stands at the end of the path, and no list on the way is a point itself. */
  ghost predicate PointAt(parse: string -> Option<real>, v: Value, path: seq<nat>, x: real)
    decreases path
  {
    && v.List?
    && if path == [] then PointIs(parse, v.items, x)
       else (forall y :: !PointIs(parse, v.items, y)) && path[0] < |v.items| && PointAt(parse, v.items[path[0]], path[1..], x)
  }

  ghost predicate HasPoint(parse: string -> Option<real>, v: Value, x: real) {
    exists path :: PointAt(parse, v, path, x)
  }

  lemma PointReads(parse: string -> Option<real>, row: seq<Value>, x: real)
    ensures PointValue(parse, row) == Some(x) <==> PointIs(parse, row, x)
  {
    hide Trim, NumberOf, Reads;
    if |row| == 2 && row[1].List? && row[1].items != [] {
      NumberReads(parse, row[1].items[0], x);
    }
  }

  /** What is collected from a tree is the measurements of its points. */
  lemma {:induction false} PointsExactly(parse: string -> Option<real>, v: Value, x: real)
    ensures x in Points(parse, v) <==> HasPoint(parse, v, x)
    decreases v
  {
    hide PointValue, PointIs;
    if v.List? {
      var point := PointValue(parse, v.items);
      if point.Some? {
        PointReads(parse, v.items, point.value);
        PointReads(parse, v.items, x);
        if x == point.value {
          assert PointAt(parse, v, [], x);
        }
      } else {
        forall y ensures !PointIs(parse, v.items, y) {
          PointReads(parse, v.items, y);
        }
        PointsInExactly(parse, v.items, x);
        if k :| 0 <= k < |v.items| && HasPoint(parse, v.items[k], x) {
          var path :| PointAt(parse, v.items[k], path, x);
          assert ([k] + path)[1..] == path;
          assert PointAt(parse, v, [k] + path, x);
        }
        if path :| PointAt(parse, v, path, x) {
          assert path != [] && PointAt(parse, v.items[path[0]], path[1..], x);
        }
      }
    }
  }

  lemma {:induction false} PointsInExactly(parse: string -> Option<real>, items: seq<Value>, x: real)
    ensures x in PointsIn(parse, items) <==> exists k :: 0 <= k < |items| && HasPoint(parse, items[k], x)
    decreases items
  {
    hide HasPoint, Points;
    if items != [] {
      var n := |items| - 1;
      PointsInExactly(parse, items[..n], x);
      PointsExactly(parse, items[n], x);
      assert forall k :: 0 <= k < n ==> items[..n][k] == items[k];
    }
  }

  /** The recursive collector, appending to what was collected before. */
  method CollectValues(parse: string -> Option<real>, v: Value, prior: seq<real>) returns (values: seq<real>)
    ensures values == prior + Points(parse, v)
    decreases v
  {
    hide PointValue;
    values := prior;
    if !v.List? {
      return;
    }
    var point := PointValue(parse, v.items);
    if point.Some? {
      values := values + [point.value];
      return;
    }
    for i := 0 to |v.items|
      invariant values == prior + PointsIn(parse, v.items[..i])
    {
      assert v.items[..i + 1][..i] == v.items[..i];
      values := CollectValues(parse, v.items[i], values);
    }
    assert v.items[..|v.items|] == v.items;
  }

  ghost predicate IsMax(m: Option<real>, values: seq<real>) {
    if m.None? then values == [] else m.value in values && forall x :: x in values ==> x <= m.value
  }

  method MaxValue(parse: string -> Option<real>, v: Value) returns (m: Option<real>)
    ensures IsMax(m, Points(parse, v))
  {
    hide Points;
    var values := CollectValues(parse, v, []);
    assert values == Points(parse, v);
    if |values| == 0 {
      return None;
    }
    var max := values[0];
    for i := 1 to |values|
      invariant max in values && forall j :: 0 <= j < i ==> values[j] <= max
    {
      if values[i] > max {
        max := values[i];
      }
    }
    m := Some(max);
  }

  // ----- usage by model

  predicate Names(row: Value, targets: set<string>, id: string) {
    row.List? && |row.items| >= 2 && id != "" && id in targets && StringAt(row.items, 1) == id
  }

  /** The points of all rows that name the model. */
  function ModelPoints(parse: string -> Option<real>, rows: seq<Value>, targets: set<string>, id: string): seq<real> {
    if rows == [] then []
    else
      var row := rows[|rows| - 1];
      ModelPoints(parse, rows[..|rows| - 1], targets, id) + if Names(row, targets, id) then Points(parse, row.items[0]) else []
  }

  /** x is measured for the model: a row with its trimmed id in column 1 has that point in column 0. */
  ghost predicate Measured(parse: string -> Option<real>, rows: seq<Value>, targets: set<string>, id: string, x: real) {
    id != "" && id in targets
    && exists i :: 0 <= i < |rows| && rows[i].List? && |rows[i].items| >= 2 && rows[i].items[1].Str? && Trim(rows[i].items[1].text) == id
                   && HasPoint(parse, rows[i].items[0], x)
  }

  lemma {:induction false} MeasuredExactly(parse: string -> Option<real>, rows: seq<Value>, targets: set<string>, id: string, x: real)
    ensures x in ModelPoints(parse, rows, targets, id) <==> Measured(parse, rows, targets, id, x)
  {
    hide Trim, Points, HasPoint;
    if rows != [] {
      var n := |rows| - 1;
      MeasuredExactly(parse, rows[..n], targets, id, x);
      if rows[n].List? && |rows[n].items| >= 2 {
        PointsExactly(parse, rows[n].items[0], x);
      }
      assert forall i :: 0 <= i < n ==> rows[..n][i] == rows[i];
    }
  }

  /** Used is the greatest measurement, and missing only without any. */
  ghost predicate Greatest(used: Option<real>, parse: string -> Option<real>, rows: seq<Value>, targets: set<string>, id: string) {
    && (used.Some? ==> Measured(parse, rows, targets, id, used.value))
    && forall x :: Measured(parse, rows, targets, id, x) ==> used.Some? && x <= used.value
  }

  lemma MaxIsGreatest(used: Option<real>, parse: string -> Option<real>, rows: seq<Value>, targets: set<string>, id: string)
    requires IsMax(used, ModelPoints(parse, rows, targets, id))
    ensures Greatest(used, parse, rows, targets, id)
  {
    hide ModelPoints, Measured;
    forall x ensures x in ModelPoints(parse, rows, targets, id) <==> Measured(parse, rows, targets, id, x) {
      MeasuredExactly(parse, rows, targets, id, x);
    }
  }

  function UsageIn(usage: map<string, real>, id: string): Option<real> {
    if id in usage then Some(usage[id]) else None
  }

  lemma MaxOfBoth(m: Option<real>, a: seq<real>, n: Option<real>, b: seq<real>)
    requires IsMax(m, a) && IsMax(n, b)
    ensures IsMax(if n.Some? && (m.None? || n.value > m.value) then n else m, a + b)
  {
  }

  /** Each model's usage is the greatest of its points, and models without points have none. */
  method ParseUsage(parse: string -> Option<real>, payload: seq<Value>, targets: set<string>) returns (usage: map<string, real>)
    ensures payload == [] || !payload[0].List? ==> usage == map[]
    ensures payload != [] && payload[0].List? ==>
              forall id :: IsMax(UsageIn(usage, id), ModelPoints(parse, payload[0].items, targets, id))
    ensures payload != [] && payload[0].List? ==>
              forall id :: Greatest(if id in usage then Some(usage[id]) else None, parse, payload[0].items, targets, id)
  {
    hide Trim, Points, IsMax, Greatest;
    usage := map[];
    if payload == [] || !payload[0].List? {
      return;
    }
    var rows := payload[0].items;
    forall id: string ensures IsMax(UsageIn(usage, id), ModelPoints(parse, rows[..0], targets, id)) {
      NoPoints();
    }
    for i := 0 to |rows|
      invariant forall id :: IsMax(UsageIn(usage, id), ModelPoints(parse, rows[..i], targets, id))
    {
      var row := rows[i];
      PointsStep(parse, rows, i, targets);
      if !row.List? || |row.items| < 2 {
        continue;
      }
      var modelId := StringAt(row.items, 1);
      if modelId == "" || modelId !in targets {
        continue;
      }
      var value := MaxValue(parse, row.items[0]);
      MaxOfBoth(UsageIn(usage, modelId), ModelPoints(parse, rows[..i], targets, modelId), value, Points(parse, row.items[0]));
      if value.None? {
        NoMorePoints(value, Points(parse, row.items[0]));
        continue;
      }
      if modelId !in usage || value.value > usage[modelId] {
        usage := usage[modelId := value.value];
      }
    }
    assert rows[..|rows|] == rows;
    forall id ensures Greatest(if id in usage then Some(usage[id]) else None, parse, rows, targets, id) {
      MaxIsGreatest(UsageIn(usage, id), parse, rows, targets, id);
    }
  }

  lemma PointsStep(parse: string -> Option<real>, rows: seq<Value>, i: nat, targets: set<string>)
    requires i < |rows|
    ensures forall id :: ModelPoints(parse, rows[..i + 1], targets, id)
                         == if Names(rows[i], targets, id) then ModelPoints(parse, rows[..i], targets, id) + Points(parse, rows[i].items[0])
                            else ModelPoints(parse, rows[..i], targets, id)
  {
    hide Names, Points;
    assert rows[..i + 1][..i] == rows[..i];
  }

  lemma NoPoints()
    ensures IsMax(None, [])
  {
  }

  lemma NoMorePoints(m: Option<real>, values: seq<real>)
    requires IsMax(m, values) && m.None?
    ensures values == []
  {
  }

  // ----- applying usage

  function KeyOf(modelId: string, l: Limit): UsageKey {
    UsageKey(Trim(modelId), Trim(l.resource), Trim(l.window))
  }

  function UsedOf(usage: map<UsageKey, real>, key: UsageKey): real {
    if key in usage then usage[key] else 0.0
  }

  /** What is left of a limit whose usage was fetched; other limits are left alone. */
  function LimitWithUsage(modelId: string, l: Limit, fetched: set<string>, usage: map<UsageKey, real>): Limit {
    if l.resource + ":" + l.window !in fetched then l
    else
      var left := l.value - UsedOf(usage, KeyOf(modelId, l));
      l.(remaining := Some(if left < 0.0 then 0.0 else left))
  }

  function WithUsage(m: QuotaModel, fetched: set<string>, usage: map<UsageKey, real>): (r: QuotaModel)
    ensures |r.limits| == |m.limits|
    ensures forall j :: 0 <= j < |m.limits| ==> r.limits[j] == LimitWithUsage(m.modelId, m.limits[j], fetched, usage)
  {
    m.(limits := seq(|m.limits|, j requires 0 <= j < |m.limits| => LimitWithUsage(m.modelId, m.limits[j], fetched, usage)))
  }

  /** What usage makes of a limit: of a fetched one, used and remaining add up to it until it is
      used up, and nothing remains from there on; without usage all of it remains. */
  predicate Leaves(modelId: string, l: Limit, r: Limit, fetched: set<string>, usage: map<UsageKey, real>) {
    if l.resource + ":" + l.window !in fetched then r == l
    else
      var key := UsageKey(Trim(modelId), Trim(l.resource), Trim(l.window));
      && r.remaining.Some? && r == l.(remaining := r.remaining)
      && (key in usage ==> if usage[key] <= l.value then usage[key] + r.remaining.value == l.value else r.remaining.value == 0.0)
      && (key !in usage ==> r.remaining.value == if l.value >= 0.0 then l.value else 0.0)
  }

  lemma UsageLeaves(modelId: string, l: Limit, fetched: set<string>, usage: map<UsageKey, real>)
    ensures Leaves(modelId, l, LimitWithUsage(modelId, l, fetched, usage), fetched, usage)
  {
    hide Trim;
  }

  lemma UsageLeavesAll(m: QuotaModel, fetched: set<string>, usage: map<UsageKey, real>)
    ensures var r := WithUsage(m, fetched, usage);
            && r == m.(limits := r.limits) && |r.limits| == |m.limits|
            && forall j :: 0 <= j < |m.limits| ==> Leaves(m.modelId, m.limits[j], r.limits[j], fetched, usage)
  {
    hide LimitWithUsage, Leaves;
    forall j | 0 <= j < |m.limits| ensures Leaves(m.modelId, m.limits[j], WithUsage(m, fetched, usage).limits[j], fetched, usage) {
      UsageLeaves(m.modelId, m.limits[j], fetched, usage);
    }
  }

  method ApplyUsage(models: array<QuotaModel>, fetched: set<string>, usage: map<UsageKey, real>)
    modifies models
    ensures forall i :: 0 <= i < models.Length ==> models[i] == WithUsage(old(models[i]), fetched, usage)
    ensures forall i :: 0 <= i < models.Length ==>
              && models[i] == old(models[i]).(limits := models[i].limits) && |models[i].limits| == |old(models[i]).limits|
              && forall j :: 0 <= j < |models[i].limits| ==>
                   Leaves(models[i].modelId, old(models[i]).limits[j], models[i].limits[j], fetched, usage)
  {
    hide Trim, KeyOf, UsedOf, Leaves;
    for i := 0 to models.Length
      invariant forall k :: 0 <= k < i ==> models[k] == WithUsage(old(models[k]), fetched, usage)
      invariant forall k :: i <= k < models.Length ==> models[k] == old(models[k])
    {
      ghost var m := models[i];
      for j := 0 to |models[i].limits|
        invariant |models[i].limits| == |m.limits| && models[i].(limits := m.limits) == m
        invariant forall k :: 0 <= k < j ==> models[i].limits[k] == LimitWithUsage(m.modelId, m.limits[k], fetched, usage)
        invariant forall k :: j <= k < |m.limits| ==> models[i].limits[k] == m.limits[k]
        invariant forall k :: 0 <= k < models.Length && k != i ==>
                    models[k] == if k < i then WithUsage(old(models[k]), fetched, usage) else old(models[k])
      {
        var limit := models[i].limits[j];
        if limit.resource + ":" + limit.window !in fetched {
          continue;
        }
        var remaining := limit.value - UsedOf(usage, KeyOf(models[i].modelId, limit));
        if remaining < 0.0 {
          remaining := 0.0;
        }
        models[i] := models[i].(limits := models[i].limits[j := limit.(remaining := Some(remaining))]);
      }
      assert models[i].limits == WithUsage(m, fetched, usage).limits;
    }
    forall i | 0 <= i < models.Length
      ensures && models[i] == old(models[i]).(limits := models[i].limits) && |models[i].limits| == |old(models[i]).limits|
              && forall j :: 0 <= j < |models[i].limits| ==>
                   Leaves(models[i].modelId, old(models[i]).limits[j], models[i].limits[j], fetched, usage)
    {
      UsageLeavesAll(old(models[i]), fetched, usage);
    }
  }

  /** Usage changes nothing but what remains, keeps the order of the limits, and applying it
      twice is applying it once. */
  lemma UsageOnlySetsRemaining(m: QuotaModel, fetched: set<string>, usage: map<UsageKey, real>)
    ensures var r := WithUsage(m, fetched, usage);
            && r.(limits := m.limits) == m && WithUsage(r, fetched, usage) == r
            && (InOrder(m.limits) ==> InOrder(r.limits))
            && forall j :: 0 <= j < |m.limits| ==> r.limits[j].(remaining := m.limits[j].remaining) == m.limits[j]
  {
    hide Trim, Less;
    var r := WithUsage(m, fetched, usage);
    var twice := WithUsage(r, fetched, usage);
    forall j | 0 <= j < |m.limits| ensures twice.limits[j] == r.limits[j] && r.limits[j].(remaining := m.limits[j].remaining) == m.limits[j] {
    }
    assert twice.limits == r.limits;
  }

  predicate Bounded(l: Limit) {
    l.remaining.Some? ==> 0.0 <= l.remaining.value <= l.value
  }

  /** What remains of a fetched limit stays within it exactly when its usage is not negative. */
  lemma BoundedExactly(modelId: string, l: Limit, fetched: set<string>, usage: map<UsageKey, real>)
    requires l.value >= 0.0 && l.resource + ":" + l.window in fetched
    ensures Bounded(LimitWithUsage(modelId, l, fetched, usage)) <==> UsedOf(usage, KeyOf(modelId, l)) >= 0.0
  {
    hide Trim;
  }

  /** Every limit reported for a project stays within its bounds under usage that is not negative. */
  lemma ReportedLimitsStayBounded(models: seq<QuotaModel>, parse: string -> Option<real>, metas: map<string, Meta>, rows: seq<Value>, tier: int,
                                  fetched: set<string>, usage: map<UsageKey, real>)
    requires RateLimits(models, Entries(parse, metas, rows), tier, metas)
    requires forall key :: key in usage ==> usage[key] >= 0.0
    ensures forall i, j :: 0 <= i < |models| && 0 <= j < |models[i].limits| ==> Bounded(WithUsage(models[i], fetched, usage).limits[j])
  {
    hide Trim, Entries, Less, InOrder, FirstCategory, LimitsOf, WithUsage;
    var entries := Entries(parse, metas, rows);
    EntriesAreSupported(parse, metas, rows);
    forall i, j | 0 <= i < |models| && 0 <= j < |models[i].limits| ensures Bounded(WithUsage(models[i], fetched, usage).limits[j]) {
      assert Finished(models[i], entries, tier, metas);
      LimitsArePositive(entries, tier, models[i].modelId);
      SameMultisetSameMembers(models[i].limits, LimitsOf(entries, tier, models[i].modelId));
      assert models[i].limits[j] in models[i].limits;
    }
  }

  lemma {:induction false} LimitsArePositive(entries: seq<Entry>, tier: int, id: string)
    requires forall e :: e in entries ==> e.value > 0.0
    ensures forall l :: l in LimitsOf(entries, tier, id) ==> l.value > 0.0 && l.remaining.None?
  {
    if entries != [] {
      LimitsArePositive(entries[..|entries| - 1], tier, id);
    }
  }
}
