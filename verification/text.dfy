/** The string library operations the platform code relies on, over code points:
    whitespace trimming, the byte-wise string order (which is the code-point
    order), sorting by a string key, and splitting on a character. */
module Text {

  datatype Option<+T> = None | Some(value: T) {
    function GetOr(default: T): T { if None? then default else value }
  }

  datatype Result<+T, +E> = Ok(value: T) | Err(error: E)

  /** Unicode White_Space, as strings.TrimSpace sees it. */
  predicate IsSpace(c: char) {
    var n := c as int;
    || 0x09 <= n <= 0x0D || n == 0x20 || n == 0x85 || n == 0xA0
    || n == 0x1680 || 0x2000 <= n <= 0x200A || n == 0x2028 || n == 0x2029
    || n == 0x202F || n == 0x205F || n == 0x3000
  }

  /** The 25 code points of White_Space. */
  lemma SpacesAre(c: char)
    ensures IsSpace(c) <==> c as int in {9, 10, 11, 12, 13, 32, 133, 160, 5760, 8192, 8193, 8194, 8195, 8196, 8197, 8198, 8199, 8200, 8201,
                                         8202, 8232, 8233, 8239, 8287, 12288}
  {
  }

  predicate NoSpace(s: string) {
    forall i :: 0 <= i < |s| ==> !IsSpace(s[i])
  }

  /** Neither end is whitespace. */
  predicate Trimmed(s: string) {
    s != "" ==> !IsSpace(s[0]) && !IsSpace(s[|s| - 1])
  }

  function TrimLeft(s: string): string {
    if s != "" && IsSpace(s[0]) then TrimLeft(s[1..]) else s
  }

  function TrimRight(s: string): string {
    if s != "" && IsSpace(s[|s| - 1]) then TrimRight(s[..|s| - 1]) else s
  }

  /** strings.TrimSpace. */
  function Trim(s: string): string {
    TrimRight(TrimLeft(s))
  }

  predicate Blank(s: string) { Trim(s) == "" }

  /** Trimming on the left drops whitespace, and nothing else. */
  lemma {:induction false} TrimLeftDrops(s: string)
    ensures var r := TrimLeft(s);
            && |r| <= |s| && r == s[|s| - |r|..] && (r != "" ==> !IsSpace(r[0]))
            && forall i :: 0 <= i < |s| - |r| ==> IsSpace(s[i])
  {
    if s != "" && IsSpace(s[0]) {
      TrimLeftDrops(s[1..]);
      var n := |s| - |TrimLeft(s)|;
      assert forall i :: 0 < i < n ==> s[i] == s[1..][i - 1];
    }
  }

  lemma {:induction false} TrimRightDrops(s: string)
    ensures var r := TrimRight(s);
            && r <= s && (r != "" ==> !IsSpace(r[|r| - 1]))
            && forall i :: |r| <= i < |s| ==> IsSpace(s[i])
  {
    if s != "" && IsSpace(s[|s| - 1]) {
      TrimRightDrops(s[..|s| - 1]);
    }
  }

  lemma TrimIsTrimmed(s: string)
    ensures Trimmed(Trim(s)) && |Trim(s)| <= |s|
    ensures forall c :: c in Trim(s) ==> c in s
  {
    hide IsSpace, TrimLeft, TrimRight;
    TrimLeftDrops(s);
    TrimRightDrops(TrimLeft(s));
  }

  lemma TrimOfTrimmed(s: string)
    requires Trimmed(s)
    ensures Trim(s) == s
  {
    hide IsSpace;
  }

  lemma TrimOfNoSpace(s: string)
    requires NoSpace(s)
    ensures Trim(s) == s
  {
    hide IsSpace;
  }

  lemma TrimTwice(s: string)
    ensures Trim(Trim(s)) == Trim(s)
  {
    hide Trim;
    TrimIsTrimmed(s);
    TrimOfTrimmed(Trim(s));
  }

  /** Leading blanks do not matter to Trim. */
  lemma TrimSkips(c: char, s: string)
    requires IsSpace(c)
    ensures Trim([c] + s) == Trim(s)
  {
    assert ([c] + s)[1..] == s;
  }

  predicate AllSpace(s: string) {
    forall i :: 0 <= i < |s| ==> IsSpace(s[i])
  }

  /** Trailing blanks do not matter either. */
  lemma {:induction false} TrimSkipsLast(s: string, c: char)
    requires IsSpace(c)
    ensures Trim(s + [c]) == Trim(s)
  {
    hide IsSpace;
    if s != "" && IsSpace(s[0]) {
      TrimSkipsLast(s[1..], c);
      assert (s + [c])[1..] == s[1..] + [c];
    } else if s != "" {
      assert (s + [c])[..|s|] == s;
    } else {
      assert s + [c] == [c] && [c][1..] == "";
    }
  }

  lemma {:induction false} TrimAround(a: string, s: string, b: string)
    requires AllSpace(a) && AllSpace(b)
    ensures Trim(a + s + b) == Trim(s)
    decreases |a| + |b|
  {
    hide Trim, IsSpace;
    if a != "" {
      TrimAround(a[1..], s, b);
      TrimSkips(a[0], a[1..] + s + b);
      assert a + s + b == [a[0]] + (a[1..] + s + b);
    } else if b != "" {
      var n := |b| - 1;
      TrimAround(a, s, b[..n]);
      TrimSkipsLast(a + s + b[..n], b[n]);
      assert a + s + b == a + s + b[..n] + [b[n]];
    } else {
      assert a + s + b == s;
    }
  }

  /** Trimming drops the blanks at both ends, and nothing else. */
  lemma TrimExactly(s: string) returns (a: string, b: string)
    ensures AllSpace(a) && AllSpace(b) && s == a + Trim(s) + b && Trimmed(Trim(s))
    ensures forall r, x, y :: AllSpace(x) && AllSpace(y) && Trimmed(r) && s == x + r + y ==> r == Trim(s)
  {
    hide IsSpace, TrimLeft, TrimRight;
    TrimLeftDrops(s);
    var l := TrimLeft(s);
    TrimRightDrops(l);
    a, b := s[..|s| - |l|], l[|Trim(s)|..];
    TrimIsTrimmed(s);
    forall r, x, y | AllSpace(x) && AllSpace(y) && Trimmed(r) && s == x + r + y ensures r == Trim(s) {
      TrimAround(x, r, y);
      TrimOfTrimmed(r);
    }
  }

  function LowerChar(c: char): (r: char)
    ensures IsSpace(r) <==> IsSpace(c)
    ensures if 'A' <= c <= 'Z' then 'a' <= r <= 'z' && r - 'a' == c - 'A' else r == c
  {
    if 'A' <= c <= 'Z' then (c as int + 32) as char else c
  }

  /** strings.ToLower on ASCII letters; other letters are left alone. */
  function Lower(s: string): (r: string)
    ensures |r| == |s|
    ensures forall i :: 0 <= i < |s| ==> r[i] == LowerChar(s[i])
  {
    seq(|s|, i requires 0 <= i < |s| => LowerChar(s[i]))
  }

  /** The order of strings.Compare: strictly smaller. */
  predicate Less(a: string, b: string) {
    b != "" && (a == "" || a[0] < b[0] || (a[0] == b[0] && Less(a[1..], b[1..])))
  }

  /** The smaller string is a proper prefix, or has the smaller character where they first differ. */
  lemma {:induction false} LessReads(a: string, b: string)
    ensures Less(a, b) <==> exists k :: 0 <= k <= |a| && k < |b| && a[..k] == b[..k] && (k == |a| || a[k] < b[k])
  {
    if a != "" && b != "" && a[0] == b[0] {
      LessReads(a[1..], b[1..]);
      if k :| 0 <= k <= |a[1..]| && k < |b[1..]| && a[1..][..k] == b[1..][..k] && (k == |a[1..]| || a[1..][k] < b[1..][k]) {
        assert a[..k + 1] == [a[0]] + a[1..][..k] && b[..k + 1] == [b[0]] + b[1..][..k];
      }
      if k :| 0 <= k <= |a| && k < |b| && a[..k] == b[..k] && (k == |a| || a[k] < b[k]) {
        assert k > 0;
        assert a[1..][..k - 1] == a[..k][1..] && b[1..][..k - 1] == b[..k][1..];
      }
    } else if b != "" {
      assert a[..0] == b[..0];
      assert forall k :: 0 < k <= |a| && k < |b| ==> a[..k][0] == a[0] && b[..k][0] == b[0];
    }
  }

  lemma {:induction false} LessTransitive(a: string, b: string, c: string)
    requires Less(a, b) && Less(b, c)
    ensures Less(a, c)
  {
    if a != "" && a[0] == b[0] && b[0] == c[0] {
      LessTransitive(a[1..], b[1..], c[1..]);
    }
  }

  lemma {:induction false} LessIrreflexive(a: string)
    ensures !Less(a, a)
  {
    if a != "" {
      LessIrreflexive(a[1..]);
    }
  }

  lemma {:induction false} LessTotal(a: string, b: string)
    ensures Less(a, b) || a == b || Less(b, a)
  {
    if a != "" && b != "" && a[0] == b[0] {
      LessTotal(a[1..], b[1..]);
      if a[1..] == b[1..] {
        assert a == [a[0]] + a[1..] == [b[0]] + b[1..] == b;
      }
    }
  }

  /** Strings ordered by themselves. */
  const SELF: string -> string := (k: string) => k

  /** Keys never decrease. */
  ghost predicate SortedBy<T>(key: T -> string, s: seq<T>) {
    forall i, j :: 0 <= i < j < |s| ==> !Less(key(s[j]), key(s[i]))
  }

  /** Keys strictly increase, so they are also distinct. */
  ghost predicate StrictlySortedBy<T>(key: T -> string, s: seq<T>) {
    forall i, j :: 0 <= i < j < |s| ==> Less(key(s[i]), key(s[j]))
  }

  ghost predicate DistinctKeys<T>(key: T -> string, s: seq<T>) {
    forall i, j :: 0 <= i < j < |s| ==> key(s[i]) != key(s[j])
  }

  function InsertBy<T>(key: T -> string, x: T, s: seq<T>): seq<T> {
    if s == [] || !Less(key(s[0]), key(x)) then [x] + s else [s[0]] + InsertBy(key, x, s[1..])
  }

  lemma {:induction false} InsertBySorts<T>(key: T -> string, x: T, s: seq<T>)
    ensures multiset(InsertBy(key, x, s)) == multiset([x]) + multiset(s)
    ensures SortedBy(key, s) ==> SortedBy(key, InsertBy(key, x, s))
  {
    hide SortedBy, Less;
    if s == [] || !Less(key(s[0]), key(x)) {
      InsertFirst(key, x, s);
    } else {
      assert s == [s[0]] + s[1..];
      var r := InsertBy(key, x, s[1..]);
      InsertBySorts(key, x, s[1..]);
      assert multiset([s[0]] + r) == multiset([s[0]]) + multiset(r);
      InsertLater(key, x, s, r);
    }
  }

  lemma InsertFirst<T>(key: T -> string, x: T, s: seq<T>)
    requires s == [] || !Less(key(s[0]), key(x))
    ensures SortedBy(key, s) ==> SortedBy(key, [x] + s)
  {
    if s != [] && SortedBy(key, s) {
      var r := [x] + s;
      forall i, j | 0 <= i < j < |r| ensures !Less(key(r[j]), key(r[i])) {
        if i == 0 && j > 1 {
          assert r[j] == s[j - 1];
          if Less(key(s[j - 1]), key(x)) {
            LessTotal(key(s[0]), key(s[j - 1]));
            if Less(key(s[0]), key(s[j - 1])) {
              LessTransitive(key(s[0]), key(s[j - 1]), key(x));
            }
          }
        }
      }
    }
  }

  lemma InsertLater<T>(key: T -> string, x: T, s: seq<T>, r: seq<T>)
    requires s != [] && Less(key(s[0]), key(x))
    requires multiset(r) == multiset([x]) + multiset(s[1..])
    requires SortedBy(key, s[1..]) ==> SortedBy(key, r)
    ensures SortedBy(key, s) ==> SortedBy(key, [s[0]] + r)
  {
    if SortedBy(key, s) {
      assert SortedBy(key, s[1..]);
      forall j | 0 <= j < |r| ensures !Less(key(r[j]), key(s[0])) {
        assert r[j] in multiset(r);
        if r[j] in multiset(s[1..]) {
          assert r[j] in s[1..];
          var k :| 0 <= k < |s[1..]| && s[1..][k] == r[j];
          assert s[k + 1] == r[j];
        } else {
          assert r[j] == x;
          if Less(key(x), key(s[0])) {
            LessTransitive(key(x), key(s[0]), key(x));
            LessIrreflexive(key(x));
          }
        }
      }
    }
  }

  /** slices.SortFunc / sort.Strings: a sorted rearrangement. */
  function SortBy<T>(key: T -> string, s: seq<T>): seq<T> {
    if s == [] then [] else InsertBy(key, s[0], SortBy(key, s[1..]))
  }

  lemma {:induction false} SortBySorts<T>(key: T -> string, s: seq<T>)
    ensures SortedBy(key, SortBy(key, s)) && multiset(SortBy(key, s)) == multiset(s) && |SortBy(key, s)| == |s|
  {
    hide InsertBy;
    if s != [] {
      assert s == [s[0]] + s[1..];
      SortBySorts(key, s[1..]);
      InsertBySorts(key, s[0], SortBy(key, s[1..]));
      assert |multiset(SortBy(key, s))| == |multiset(s)|;
    }
  }

  lemma SameMultisetSameMembers<T>(a: seq<T>, b: seq<T>)
    requires multiset(a) == multiset(b)
    ensures forall x :: x in a <==> x in b
  {
    forall x ensures x in a <==> x in b {
      assert x in a <==> x in multiset(a);
      assert x in b <==> x in multiset(b);
    }
  }

  /** Distinct keys stay distinct under any rearrangement. */
  lemma {:induction false} DistinctKeysPermute<T>(key: T -> string, a: seq<T>, b: seq<T>)
    requires multiset(a) == multiset(b)
    requires DistinctKeys(key, a)
    ensures DistinctKeys(key, b)
  {
    SameMultisetSameMembers(a, b);
    forall i, j | 0 <= i < j < |b| ensures key(b[i]) != key(b[j]) {
      if key(b[i]) == key(b[j]) {
        assert b[i] in a && b[j] in a;
        assert b[i] == b[j];
        TwiceInMultiset(b, i, j);
        OnceInMultiset(key, a, b[i]);
      }
    }
  }

  lemma TwiceInMultiset<T>(s: seq<T>, i: int, j: int)
    requires 0 <= i < j < |s| && s[i] == s[j]
    ensures multiset(s)[s[i]] >= 2
  {
    assert s == s[..j] + s[j..];
    assert s[i] in s[..j];
    assert s[j] == s[j..][0] && s[j] in s[j..];
  }

  lemma {:induction false} OnceInMultiset<T>(key: T -> string, s: seq<T>, x: T)
    requires DistinctKeys(key, s)
    ensures multiset(s)[x] <= 1
  {
    if s != [] {
      var n := |s| - 1;
      assert s == s[..n] + [s[n]];
      assert DistinctKeys(key, s[..n]);
      OnceInMultiset(key, s[..n], x);
      if x == s[n] {
        assert x !in s[..n];
      }
    }
  }

  lemma StrictlySortedFromDistinct<T>(key: T -> string, s: seq<T>)
    requires SortedBy(key, s) && DistinctKeys(key, s)
    ensures StrictlySortedBy(key, s)
  {
    forall i, j | 0 <= i < j < |s| ensures Less(key(s[i]), key(s[j])) {
      LessTotal(key(s[i]), key(s[j]));
    }
  }

  /** Two strictly sorted sequences with the same members are the same sequence. */
  lemma {:induction false} StrictlySortedUnique<T>(key: T -> string, a: seq<T>, b: seq<T>)
    requires StrictlySortedBy(key, a) && StrictlySortedBy(key, b)
    requires forall x :: x in a <==> x in b
    ensures a == b
    decreases |a|
  {
    if a == [] {
      assert b == [] by {
        assert forall i :: 0 <= i < |b| ==> b[i] in b;
      }
    } else {
      assert a[0] in b;
      assert b[0] in a;
      var i :| 0 <= i < |b| && b[i] == a[0];
      var j :| 0 <= j < |a| && a[j] == b[0];
      if i > 0 && j > 0 {
        assert Less(key(b[0]), key(b[i]));
        assert Less(key(a[0]), key(a[j]));
        LessTransitive(key(a[0]), key(b[0]), key(a[0]));
        LessIrreflexive(key(a[0]));
      }
      assert a[0] == b[0];
      forall x ensures x in a[1..] <==> x in b[1..] {
        TailMembers(key, a, x);
        TailMembers(key, b, x);
      }
      StrictlySortedUnique(key, a[1..], b[1..]);
      assert a == [a[0]] + a[1..];
      assert b == [b[0]] + b[1..];
    }
  }

  lemma TailMembers<T>(key: T -> string, s: seq<T>, x: T)
    requires StrictlySortedBy(key, s) && s != []
    ensures x in s[1..] <==> (x in s && x != s[0])
  {
    if x in s[1..] {
      var k :| 0 <= k < |s[1..]| && s[1..][k] == x;
      assert s[k + 1] == x;
      assert Less(key(s[0]), key(s[k + 1]));
      LessIrreflexive(key(x));
    }
    assert s == [s[0]] + s[1..];
  }

  /** Sorting by distinct keys forgets the order of the input. */
  lemma SortByForgetsOrder<T>(key: T -> string, a: seq<T>, b: seq<T>)
    requires multiset(a) == multiset(b)
    requires DistinctKeys(key, a)
    ensures SortBy(key, a) == SortBy(key, b)
    ensures StrictlySortedBy(key, SortBy(key, a)) && multiset(SortBy(key, a)) == multiset(a) && |SortBy(key, a)| == |a|
  {
    hide SortBy, SortedBy, Less;
    var x, y := SortBy(key, a), SortBy(key, b);
    SortBySorts(key, a);
    SortBySorts(key, b);
    DistinctKeysPermute(key, a, x);
    DistinctKeysPermute(key, x, y);
    StrictlySortedFromDistinct(key, x);
    StrictlySortedFromDistinct(key, y);
    SameMultisetSameMembers(x, y);
    StrictlySortedUnique(key, x, y);
  }

  /** Trimmed, blanks and repetitions dropped, in order of first appearance. */
  function Deduped(values: seq<string>): (out: seq<string>)
    ensures forall i, j :: 0 <= i < j < |out| ==> out[i] != out[j]
  {
    if values == [] then []
    else
      var prior, v := Deduped(values[..|values| - 1]), Trim(values[|values| - 1]);
      if v == "" || v in prior then prior else prior + [v]
  }

  lemma {:induction false} DedupedMembers(values: seq<string>, x: string)
    ensures x in Deduped(values) <==> x != "" && exists i :: 0 <= i < |values| && Trim(values[i]) == x
  {
    hide Trim;
    if values != [] {
      var n := |values| - 1;
      DedupedMembers(values[..n], x);
      assert forall i :: 0 <= i < n ==> values[..n][i] == values[i];
    }
  }

  /** The first position of a value that trims to x, or the length. */
  function FirstAt(values: seq<string>, x: string): nat {
    if values == [] || Trim(values[0]) == x then 0 else 1 + FirstAt(values[1..], x)
  }

  lemma {:induction false} FirstAtPrefix(values: seq<string>, n: nat, x: string)
    requires n <= |values|
    ensures FirstAt(values[..n], x) <= n
    ensures FirstAt(values[..n], x) < n ==> FirstAt(values, x) == FirstAt(values[..n], x)
    ensures FirstAt(values[..n], x) == n < |values| && Trim(values[n]) == x ==> FirstAt(values, x) == n
  {
    hide Trim;
    if n > 0 && Trim(values[0]) != x {
      assert values[..n][1..] == values[1..][..n - 1];
      FirstAtPrefix(values[1..], n - 1, x);
    }
  }

  lemma {:induction false} FirstAtFinds(values: seq<string>, x: string)
    ensures (exists i :: 0 <= i < |values| && Trim(values[i]) == x) <==> FirstAt(values, x) < |values|
  {
    hide Trim;
    if values != [] {
      FirstAtFinds(values[1..], x);
      if i :| 0 <= i < |values| && Trim(values[i]) == x {
        assert i > 0 ==> values[1..][i - 1] == values[i];
      }
      if i :| 0 <= i < |values[1..]| && Trim(values[1..][i]) == x {
        assert values[i + 1] == values[1..][i];
      }
    }
  }

  /** Deduplicated values stand in the order of their first appearance. */
  lemma {:induction false} DedupedInOrder(values: seq<string>)
    ensures var out := Deduped(values); forall i, j :: 0 <= i < j < |out| ==> FirstAt(values, out[i]) < FirstAt(values, out[j]) < |values|
  {
    hide Trim, FirstAt;
    var out := Deduped(values);
    if values != [] {
      var n := |values| - 1;
      DedupedInOrder(values[..n]);
      forall i | 0 <= i < |out| ensures FirstAt(values, out[i]) < |values| {
        DedupedMembers(values, out[i]);
        FirstAtFinds(values, out[i]);
      }
      forall i, j | 0 <= i < j < |out| ensures FirstAt(values, out[i]) < FirstAt(values, out[j]) {
        DedupedMembers(values[..n], out[i]);
        FirstAtFinds(values[..n], out[i]);
        FirstAtPrefix(values, n, out[i]);
        DedupedMembers(values[..n], out[j]);
        FirstAtFinds(values[..n], out[j]);
        FirstAtPrefix(values, n, out[j]);
      }
    }
  }

  // ----- splitting

  predicate Lacks(s: string, c: char) {
    forall i :: 0 <= i < |s| ==> s[i] != c
  }

  /** The first position of c, or the length. */
  function IndexOf(s: string, c: char): (i: nat)
    ensures i <= |s| && Lacks(s[..i], c)
    ensures i < |s| ==> s[i] == c
  {
    if s == "" || s[0] == c then 0
    else
      var i := 1 + IndexOf(s[1..], c);
      assert forall k :: 0 < k < i ==> s[..i][k] == s[1..][..i - 1][k - 1];
      i
  }

  /** strings.Split on one character. */
  function Split(s: string, c: char): seq<string>
    decreases |s|
  {
    var i := IndexOf(s, c);
    if i == |s| then [s] else [s[..i]] + Split(s[i + 1..], c)
  }

  lemma LacksSlice(s: string, c: char, i: nat, j: nat)
    requires Lacks(s, c) && i <= j <= |s|
    ensures Lacks(s[i..j], c)
  {
  }

  lemma {:induction false} SplitLacks(s: string, c: char)
    ensures forall i :: 0 <= i < |Split(s, c)| ==> Lacks(Split(s, c)[i], c)
    decreases |s|
  {
    var i := IndexOf(s, c);
    if i < |s| {
      SplitLacks(s[i + 1..], c);
    } else {
      assert s[..i] == s;
    }
  }

  lemma {:induction false} IndexOfFirst(s: string, c: char, n: nat)
    requires n < |s| && s[n] == c && forall i :: 0 <= i < n ==> s[i] != c
    ensures IndexOf(s, c) == n
  {
    if n > 0 {
      IndexOfFirst(s[1..], c, n - 1);
    }
  }

  lemma SplitJoin(a: string, c: char, b: string)
    requires Lacks(a, c)
    ensures Split(a + [c] + b, c) == [a] + Split(b, c)
  {
    var s := a + [c] + b;
    IndexOfFirst(s, c, |a|);
    assert s[..|a|] == a && s[|a| + 1..] == b;
  }

  function Unsplit(pieces: seq<string>, c: char): string
    requires pieces != []
  {
    if |pieces| == 1 then pieces[0] else pieces[0] + [c] + Unsplit(pieces[1..], c)
  }

  /** The pieces lack the character, and joined by it they are the text again. */
  lemma {:induction false} SplitExactly(s: string, c: char)
    ensures Split(s, c) != [] && Unsplit(Split(s, c), c) == s
    ensures forall i :: 0 <= i < |Split(s, c)| ==> Lacks(Split(s, c)[i], c)
    decreases |s|
  {
    hide Lacks;
    SplitLacks(s, c);
    var i := IndexOf(s, c);
    if i < |s| {
      SplitExactly(s[i + 1..], c);
      assert s == s[..i] + [c] + s[i + 1..];
    } else {
      assert s[..i] == s;
    }
  }

  lemma SplitWhole(a: string, c: char)
    requires Lacks(a, c)
    ensures Split(a, c) == [a]
  {
  }

  /** Text on the two sides of the character splits on its own. */
  lemma {:induction false} SplitAppend(a: string, c: char, b: string)
    ensures Split(a + [c] + b, c) == Split(a, c) + Split(b, c)
    decreases |a|
  {
    hide *;
    var i := IndexOf(a, c);
    var s := a + [c] + b;
    FirstIn(a, c, b);
    SplitStep(s, c);
    SplitStep(a, c);
    if i == |a| {
      assert s[..i] == a && s[i + 1..] == b;
    } else {
      var rest := a[i + 1..];
      SplitAppend(rest, c, b);
      assert s[..i] == a[..i] && s[i + 1..] == rest + [c] + b;
    }
  }

  lemma SplitStep(s: string, c: char)
    ensures Split(s, c) == if IndexOf(s, c) == |s| then [s] else [s[..IndexOf(s, c)]] + Split(s[IndexOf(s, c) + 1..], c)
  {
    hide IndexOf, Lacks;
  }

  lemma FirstIn(a: string, c: char, b: string)
    ensures IndexOf(a + [c] + b, c) == IndexOf(a, c)
  {
    var i, s := IndexOf(a, c), a + [c] + b;
    assert forall k :: 0 <= k < i ==> s[k] == a[..i][k];
    IndexOfFirst(s, c, i);
  }
}
