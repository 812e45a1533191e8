/** The customer-insight charts of the dashboard (app.py, "2. 顧客インサイト"):
    detail rows grouped by one dimension with their user counts summed
    (`groupby(...).sum()`, which orders groups by key), the channel chart's
    five largest groups (`nlargest(5)`), the age chart's key order
    (`sort_index()`), and the top-pages list (`head(5)`). */
module Breakdown {
  import opened Wrappers

  /** One row of the detail report: channel, device and age bracket of a
      set of users, and how many active users it counts. */
  datatype DetailRow = DetailRow(channel: string, device: string, ageBracket: string, users: int)

  datatype Dimension = Channel | Device | AgeBracket

  function KeyOf(row: DetailRow, dim: Dimension): string {
    match dim
    case Channel => row.channel
    case Device => row.device
    case AgeBracket => row.ageBracket
  }

  /** One bar of a chart: a group key and its summed value. */
  datatype Entry = Entry(key: string, value: int)

  // ---------------------------------------------------------------------
  // The order of group keys: strings compared code point by code point
  // ---------------------------------------------------------------------

  predicate StrLess(a: string, b: string) {
    if a == [] then b != []
    else if b == [] then false
    else if a[0] != b[0] then a[0] < b[0]
    else StrLess(a[1..], b[1..])
  }

  lemma {:induction false} StrLessIrreflexive(a: string)
    ensures !StrLess(a, a)
  {
    if a != [] {
      StrLessIrreflexive(a[1..]);
    }
  }

  lemma {:induction false} StrLessAsymmetric(a: string, b: string)
    requires StrLess(a, b)
    ensures !StrLess(b, a)
  {
    if a != [] && b != [] && a[0] == b[0] {
      StrLessAsymmetric(a[1..], b[1..]);
    }
  }

  lemma {:induction false} StrLessTransitive(a: string, b: string, c: string)
    requires StrLess(a, b) && StrLess(b, c)
    ensures StrLess(a, c)
  {
    if a != [] && a[0] == b[0] && b[0] == c[0] {
      StrLessTransitive(a[1..], b[1..], c[1..]);
    }
  }

  lemma {:induction false} StrLessTotal(a: string, b: string)
    ensures a == b || StrLess(a, b) || StrLess(b, a)
  {
    if a != [] && b != [] && a[0] == b[0] {
      StrLessTotal(a[1..], b[1..]);
      if a[1..] == b[1..] {
        assert a == [a[0]] + a[1..] && b == [b[0]] + b[1..];
      }
    }
  }

  // ---------------------------------------------------------------------
  // Reference definitions over the rows and over a chart
  // ---------------------------------------------------------------------

  /** The distinct keys the rows carry in one dimension. */
  function RowKeys(rows: seq<DetailRow>, dim: Dimension): set<string> {
    if rows == [] then {} else {KeyOf(rows[0], dim)} + RowKeys(rows[1..], dim)
  }

  /** The users of the rows whose key in `dim` is `k`, added up. */
  function SumFor(rows: seq<DetailRow>, dim: Dimension, k: string): int {
    if rows == [] then 0
    else (if KeyOf(rows[0], dim) == k then rows[0].users else 0) + SumFor(rows[1..], dim, k)
  }

  /** The users of all rows, added up. */
  function TotalUsers(rows: seq<DetailRow>): int {
    if rows == [] then 0 else rows[0].users + TotalUsers(rows[1..])
  }

  function Keys(s: seq<Entry>): set<string> {
    if s == [] then {} else {s[0].key} + Keys(s[1..])
  }

  function SumValues(s: seq<Entry>): int {
    if s == [] then 0 else s[0].value + SumValues(s[1..])
  }

  /** The value of the first entry with key `k`, or 0 when there is none. */
  function ValueAt(s: seq<Entry>, k: string): int {
    if s == [] then 0 else if s[0].key == k then s[0].value else ValueAt(s[1..], k)
  }

  /** Keys strictly ascending, hence each at most once. */
  predicate KeySorted(s: seq<Entry>) {
    forall i, j :: 0 <= i < j < |s| ==> StrLess(s[i].key, s[j].key)
  }

  /** No key is repeated. */
  predicate NoDupKeys(s: seq<Entry>) {
    s == [] || (s[0].key !in Keys(s[1..]) && NoDupKeys(s[1..]))
  }

  /** Values never increase along the sequence. */
  predicate SortedDesc(s: seq<Entry>) {
    forall i, j :: 0 <= i < j < |s| ==> s[i].value >= s[j].value
  }

  /** The entries whose value is `v`, in their order in `s`. */
  function WithValue(s: seq<Entry>, v: int): seq<Entry> {
    if s == [] then [] else (if s[0].value == v then [s[0]] else []) + WithValue(s[1..], v)
  }

  // ---------------------------------------------------------------------
  // Facts about the reference definitions
  // ---------------------------------------------------------------------

  lemma {:induction false} KeysAppend(a: seq<Entry>, b: seq<Entry>)
    ensures Keys(a + b) == Keys(a) + Keys(b)
  {
    if a != [] {
      assert (a + b)[0] == a[0];
      assert (a + b)[1..] == a[1..] + b;
      KeysAppend(a[1..], b);
    } else {
      assert a + b == b;
    }
  }

  lemma {:induction false} KeyOfMember(s: seq<Entry>, i: nat)
    requires i < |s|
    ensures s[i].key in Keys(s)
  {
    if i > 0 {
      KeyOfMember(s[1..], i - 1);
    }
  }

  lemma {:induction false} KeyWitness(s: seq<Entry>, k: string) returns (i: nat)
    requires k in Keys(s)
    ensures i < |s| && s[i].key == k
  {
    if s[0].key == k {
      i := 0;
    } else {
      var j := KeyWitness(s[1..], k);
      i := j + 1;
    }
  }

  lemma {:induction false} KeysCardinality(s: seq<Entry>)
    requires NoDupKeys(s)
    ensures |Keys(s)| == |s|
  {
    if s != [] {
      KeysCardinality(s[1..]);
    }
  }

  lemma {:induction false} ValueAtAbsent(s: seq<Entry>, k: string)
    requires k !in Keys(s)
    ensures ValueAt(s, k) == 0
  {
    if s != [] {
      ValueAtAbsent(s[1..], k);
    }
  }

  lemma {:induction false} ValueAtEntry(s: seq<Entry>, i: nat)
    requires NoDupKeys(s) && i < |s|
    ensures ValueAt(s, s[i].key) == s[i].value
  {
    if i > 0 {
      KeyOfMember(s[1..], i - 1);
      ValueAtEntry(s[1..], i - 1);
    }
  }

  lemma {:induction false} NoDupKeysDistinct(s: seq<Entry>, i: nat, j: nat)
    requires NoDupKeys(s) && i < j < |s|
    ensures s[i].key != s[j].key
  {
    if i == 0 {
      KeyOfMember(s[1..], j - 1);
    } else {
      NoDupKeysDistinct(s[1..], i - 1, j - 1);
    }
  }

  lemma {:induction false} NoDupKeysPrefix(a: seq<Entry>, b: seq<Entry>)
    requires NoDupKeys(a + b)
    ensures NoDupKeys(a)
  {
    if a != [] {
      assert (a + b)[0] == a[0];
      assert (a + b)[1..] == a[1..] + b;
      KeysAppend(a[1..], b);
      NoDupKeysPrefix(a[1..], b);
    }
  }

  lemma SortedHeadBelowRest(g: seq<Entry>)
    requires KeySorted(g) && g != []
    ensures forall x :: x in Keys(g[1..]) ==> StrLess(g[0].key, x)
  {
    forall x | x in Keys(g[1..])
      ensures StrLess(g[0].key, x)
    {
      var i := KeyWitness(g[1..], x);
      assert g[1..][i] == g[i + 1];
    }
  }

  lemma SortedCons(x: Entry, rest: seq<Entry>)
    requires KeySorted(rest)
    requires forall y :: y in Keys(rest) ==> StrLess(x.key, y)
    ensures KeySorted([x] + rest)
  {
    forall j | 0 <= j < |rest|
      ensures StrLess(x.key, rest[j].key)
    {
      KeyOfMember(rest, j);
    }
  }

  lemma {:induction false} KeySortedNoDup(g: seq<Entry>)
    requires KeySorted(g)
    ensures NoDupKeys(g)
  {
    if g != [] {
      SortedHeadBelowRest(g);
      StrLessIrreflexive(g[0].key);
      KeySortedNoDup(g[1..]);
    }
  }

  lemma {:induction false} WithValueAppend(a: seq<Entry>, b: seq<Entry>, v: int)
    ensures WithValue(a + b, v) == WithValue(a, v) + WithValue(b, v)
  {
    if a != [] {
      assert (a + b)[0] == a[0];
      assert (a + b)[1..] == a[1..] + b;
      WithValueAppend(a[1..], b, v);
    } else {
      assert a + b == b;
    }
  }

  // ---------------------------------------------------------------------
  // groupby(key)["ユーザー数"].sum()
  // ---------------------------------------------------------------------

  /** Adds `v` to the group `k` of a key-ordered chart, opening the group at
      its place in key order when it is new. */
  function Add(g: seq<Entry>, k: string, v: int): seq<Entry> {
    if g == [] then [Entry(k, v)]
    else if g[0].key == k then [Entry(k, g[0].value + v)] + g[1..]
    else if StrLess(k, g[0].key) then [Entry(k, v)] + g
    else [g[0]] + Add(g[1..], k, v)
  }

  /** The rows grouped by their key in `dim`, users summed per group, groups
      in ascending key order. */
  function Group(rows: seq<DetailRow>, dim: Dimension): seq<Entry> {
    if rows == [] then [] else Add(Group(rows[1..], dim), KeyOf(rows[0], dim), rows[0].users)
  }

  lemma {:induction false} AddSpec(g: seq<Entry>, k: string, v: int)
    requires KeySorted(g)
    ensures KeySorted(Add(g, k, v))
    ensures Keys(Add(g, k, v)) == Keys(g) + {k}
    ensures SumValues(Add(g, k, v)) == SumValues(g) + v
    ensures forall x :: ValueAt(Add(g, k, v), x) == ValueAt(g, x) + (if x == k then v else 0)
  {
    var r := Add(g, k, v);
    if g == [] {
      assert r[1..] == [];
    } else if g[0].key == k {
      assert r[1..] == g[1..];
      assert forall i :: 0 <= i < |r| ==> r[i].key == g[i].key;
    } else if StrLess(k, g[0].key) {
      assert r[1..] == g;
      SortedHeadBelowRest(g);
      forall y | y in Keys(g)
        ensures StrLess(k, y)
      {
        if y != g[0].key {
          StrLessTransitive(k, g[0].key, y);
        }
      }
      StrLessIrreflexive(k);
      ValueAtAbsent(g, k);
      SortedCons(Entry(k, v), g);
    } else {
      StrLessTotal(k, g[0].key);
      var rest := Add(g[1..], k, v);
      assert r[1..] == rest;
      AddSpec(g[1..], k, v);
      SortedHeadBelowRest(g);
      SortedCons(g[0], rest);
    }
  }

  lemma {:induction false} GroupSpec(rows: seq<DetailRow>, dim: Dimension)
    ensures KeySorted(Group(rows, dim))
    ensures Keys(Group(rows, dim)) == RowKeys(rows, dim)
    ensures SumValues(Group(rows, dim)) == TotalUsers(rows)
    ensures forall x :: ValueAt(Group(rows, dim), x) == SumFor(rows, dim, x)
  {
    if rows != [] {
      GroupSpec(rows[1..], dim);
      AddSpec(Group(rows[1..], dim), KeyOf(rows[0], dim), rows[0].users);
    }
  }

  /** A grouped chart: its keys ascend (each key once), they are exactly the
      keys the rows carry, each bar is the sum of the users of the rows with
      its key, the bars add up to all users, and no rows give no bars. */
  lemma GroupSums(rows: seq<DetailRow>, dim: Dimension)
    ensures var g := Group(rows, dim);
      && KeySorted(g)
      && NoDupKeys(g)
      && Keys(g) == RowKeys(rows, dim)
      && |g| == |RowKeys(rows, dim)|
      && (forall e :: e in g ==> e.value == SumFor(rows, dim, e.key))
      && SumValues(g) == TotalUsers(rows)
      && (g == [] <==> rows == [])
  {
    var g := Group(rows, dim);
    GroupSpec(rows, dim);
    KeySortedNoDup(g);
    KeysCardinality(g);
    forall e | e in g
      ensures e.value == SumFor(rows, dim, e.key)
    {
      var i :| 0 <= i < |g| && g[i] == e;
      ValueAtEntry(g, i);
    }
    if rows != [] {
      assert KeyOf(rows[0], dim) in RowKeys(rows, dim);
    }
  }

  // ---------------------------------------------------------------------
  // nlargest(n): the n largest values, ties kept in their earlier order
  // ---------------------------------------------------------------------

  /** Inserts `x` before the first entry whose value is not larger. */
  function InsertDesc(x: Entry, l: seq<Entry>): (r: seq<Entry>)
    ensures |r| == |l| + 1
  {
    if l == [] || x.value >= l[0].value then [x] + l
    else [l[0]] + InsertDesc(x, l[1..])
  }

  /** A stable sort by descending value. */
  function SortDesc(s: seq<Entry>): (r: seq<Entry>)
    ensures |r| == |s|
  {
    if s == [] then [] else InsertDesc(s[0], SortDesc(s[1..]))
  }

  function NLargest(s: seq<Entry>, n: nat): seq<Entry> {
    var sorted := SortDesc(s);
    sorted[..if n < |s| then n else |s|]
  }

  lemma {:induction false} InsertDescMultiset(x: Entry, l: seq<Entry>)
    ensures multiset(InsertDesc(x, l)) == multiset(l) + multiset{x}
  {
    if l != [] && x.value < l[0].value {
      assert InsertDesc(x, l) == [l[0]] + InsertDesc(x, l[1..]);
      assert l == [l[0]] + l[1..];
      InsertDescMultiset(x, l[1..]);
    }
  }

  lemma {:induction false} InsertDescKeys(x: Entry, l: seq<Entry>)
    ensures Keys(InsertDesc(x, l)) == Keys(l) + {x.key}
  {
    var r := InsertDesc(x, l);
    if l == [] || x.value >= l[0].value {
      assert r[1..] == l;
    } else {
      assert r[1..] == InsertDesc(x, l[1..]);
      InsertDescKeys(x, l[1..]);
    }
  }

  lemma {:induction false} InsertDescNoDup(x: Entry, l: seq<Entry>)
    requires x.key !in Keys(l) && NoDupKeys(l)
    ensures NoDupKeys(InsertDesc(x, l))
  {
    var r := InsertDesc(x, l);
    if l == [] || x.value >= l[0].value {
      assert r[1..] == l;
    } else {
      assert r[1..] == InsertDesc(x, l[1..]);
      InsertDescKeys(x, l[1..]);
      InsertDescNoDup(x, l[1..]);
    }
  }

  lemma {:induction false} InsertDescSorted(x: Entry, l: seq<Entry>)
    requires SortedDesc(l)
    ensures SortedDesc(InsertDesc(x, l))
  {
    var r := InsertDesc(x, l);
    if l != [] && x.value < l[0].value {
      var rest := InsertDesc(x, l[1..]);
      assert r == [l[0]] + rest;
      InsertDescSorted(x, l[1..]);
      InsertDescMultiset(x, l[1..]);
      forall j | 0 <= j < |rest|
        ensures rest[j].value <= l[0].value
      {
        assert rest[j] in multiset(rest);
        if rest[j] != x {
          assert rest[j] in multiset(l[1..]);
          var i :| 0 <= i < |l[1..]| && l[1..][i] == rest[j];
          assert l[i + 1] == rest[j];
        }
      }
    }
  }

  lemma {:induction false} InsertDescWithValue(x: Entry, l: seq<Entry>, v: int)
    requires SortedDesc(l)
    ensures WithValue(InsertDesc(x, l), v) == WithValue([x], v) + WithValue(l, v)
  {
    var r := InsertDesc(x, l);
    assert [x][1..] == [];
    if l == [] || x.value >= l[0].value {
      assert r[1..] == l;
    } else {
      var rest := InsertDesc(x, l[1..]);
      assert r[1..] == rest;
      InsertDescWithValue(x, l[1..], v);
      assert WithValue(l, v) == WithValue([l[0]], v) + WithValue(l[1..], v) by {
        assert [l[0]][1..] == [];
      }
    }
  }

  lemma {:induction false} SortDescMultiset(s: seq<Entry>)
    ensures multiset(SortDesc(s)) == multiset(s)
  {
    if s != [] {
      SortDescMultiset(s[1..]);
      InsertDescMultiset(s[0], SortDesc(s[1..]));
      assert s == [s[0]] + s[1..];
    }
  }

  lemma {:induction false} SortDescSorted(s: seq<Entry>)
    ensures SortedDesc(SortDesc(s))
  {
    if s != [] {
      SortDescSorted(s[1..]);
      InsertDescSorted(s[0], SortDesc(s[1..]));
    }
  }

  lemma {:induction false} SortDescKeys(s: seq<Entry>)
    ensures Keys(SortDesc(s)) == Keys(s)
  {
    if s != [] {
      SortDescKeys(s[1..]);
      InsertDescKeys(s[0], SortDesc(s[1..]));
    }
  }

  lemma {:induction false} SortDescNoDup(s: seq<Entry>)
    requires NoDupKeys(s)
    ensures NoDupKeys(SortDesc(s))
  {
    if s != [] {
      SortDescNoDup(s[1..]);
      SortDescKeys(s[1..]);
      InsertDescNoDup(s[0], SortDesc(s[1..]));
    }
  }

  /** The sort is stable: the entries of each value keep their order. */
  lemma {:induction false} SortDescStable(s: seq<Entry>, v: int)
    ensures WithValue(SortDesc(s), v) == WithValue(s, v)
  {
    if s != [] {
      var t := SortDesc(s[1..]);
      SortDescSorted(s[1..]);
      SortDescStable(s[1..], v);
      InsertDescWithValue(s[0], t, v);
      assert SortDesc(s) == InsertDesc(s[0], t);
      assert WithValue([s[0]], v) == (if s[0].value == v then [s[0]] else []) by {
        assert [s[0]][1..] == [];
      }
    }
  }

  /** The n largest: as many as asked for when there are enough, in
      descending order, drawn from the input, none left out larger than one
      kept, and among equal values the ones earlier in the input kept (and
      kept in their order). */
  lemma NLargestSpec(s: seq<Entry>, n: nat)
    ensures var r := NLargest(s, n);
      && |r| == (if n < |s| then n else |s|)
      && SortedDesc(r)
      && multiset(r) <= multiset(s)
      && (forall x, y :: x in r && y in multiset(s) - multiset(r) ==> y.value <= x.value)
      && (forall v :: WithValue(r, v) <= WithValue(s, v))
      && (NoDupKeys(s) ==> NoDupKeys(r))
  {
    var sorted := SortDesc(s);
    var m := if n < |s| then n else |s|;
    var r, rest := sorted[..m], sorted[m..];
    assert sorted == r + rest;
    SortDescSorted(s);
    NLargestSplit(s, n);
    NLargestLargest(s, n);
    forall v
      ensures WithValue(r, v) <= WithValue(s, v)
    {
      SortDescStable(s, v);
      WithValueAppend(r, rest, v);
    }
    if NoDupKeys(s) {
      SortDescNoDup(s);
      NoDupKeysPrefix(r, rest);
    }
  }

  lemma NLargestSplit(s: seq<Entry>, n: nat)
    ensures var sorted := SortDesc(s);
      var m := if n < |s| then n else |s|;
      multiset(s) == multiset(sorted[..m]) + multiset(sorted[m..])
  {
    var sorted := SortDesc(s);
    var m := if n < |s| then n else |s|;
    SortDescMultiset(s);
    assert sorted == sorted[..m] + sorted[m..];
  }

  lemma NLargestLargest(s: seq<Entry>, n: nat)
    ensures var r := NLargest(s, n);
      forall x, y :: x in r && y in multiset(s) - multiset(r) ==> y.value <= x.value
  {
    var sorted := SortDesc(s);
    var m := if n < |s| then n else |s|;
    NLargestSplit(s, n);
    assert multiset(s) - multiset(sorted[..m]) == multiset(sorted[m..]);
    SortDescSorted(s);
    PrefixDominates(sorted, m);
  }

  /** In a descending sequence every entry of a prefix is at least every
      entry after it. */
  lemma PrefixDominates(t: seq<Entry>, m: nat)
    requires SortedDesc(t) && m <= |t|
    ensures forall x, y :: x in t[..m] && y in multiset(t[m..]) ==> y.value <= x.value
  {
    forall x, y | x in t[..m] && y in multiset(t[m..])
      ensures y.value <= x.value
    {
      var i :| 0 <= i < m && t[..m][i] == x;
      var j :| 0 <= j < |t| - m && t[m..][j] == y;
      assert t[i] == x && t[m + j] == y;
    }
  }

  // ---------------------------------------------------------------------
  // The three charts
  // ---------------------------------------------------------------------

  /** `groupby("チャネル")["ユーザー数"].sum().nlargest(5)`. */
  function ChannelBreakdown(rows: seq<DetailRow>): (r: seq<Entry>)
    ensures |r| <= 5
  {
    NLargest(Group(rows, Channel), 5)
  }

  /** `sort_index()`: a stable sort by ascending key. */
  function SortIndex(s: seq<Entry>): seq<Entry> {
    if s == [] then [] else InsertByKey(s[0], SortIndex(s[1..]))
  }

  function InsertByKey(x: Entry, l: seq<Entry>): seq<Entry> {
    if l == [] || !StrLess(l[0].key, x.key) then [x] + l
    else [l[0]] + InsertByKey(x, l[1..])
  }

  /** `groupby("年齢層")["ユーザー数"].sum().sort_index()`. */
  function AgeBreakdown(rows: seq<DetailRow>): seq<Entry> {
    SortIndex(Group(rows, AgeBracket))
  }

  /** `groupby("デバイス")["ユーザー数"].sum()`. */
  function DeviceBreakdown(rows: seq<DetailRow>): seq<Entry> {
    Group(rows, Device)
  }

  datatype Charts = Charts(channel: seq<Entry>, age: seq<Entry>, device: seq<Entry>)

  /** The three charts, or None (the "データなし" placeholders) when the
      detail report has no rows. */
  function Insights(rows: seq<DetailRow>): (c: Option<Charts>)
    ensures c.None? <==> rows == []
  {
    if rows == [] then None
    else Some(Charts(ChannelBreakdown(rows), AgeBreakdown(rows), DeviceBreakdown(rows)))
  }

  /** Sorting by key leaves an already key-ordered chart unchanged. */
  lemma {:induction false} SortIndexOfSorted(s: seq<Entry>)
    requires KeySorted(s)
    ensures SortIndex(s) == s
  {
    if s != [] {
      SortIndexOfSorted(s[1..]);
      if |s| > 1 {
        StrLessAsymmetric(s[0].key, s[1].key);
      }
      assert s == [s[0]] + s[1..];
    }
  }

  /** The channel chart: at most five channels, each once and each with its
      summed users, in non-increasing order; no channel left out has more
      users than a channel shown; and among channels with equal sums, those
      shown are the first in key order. */
  lemma ChannelBreakdownSpec(rows: seq<DetailRow>)
    ensures var r := ChannelBreakdown(rows);
      var g := Group(rows, Channel);
      && |r| == (if |g| < 5 then |g| else 5)
      && SortedDesc(r)
      && NoDupKeys(r)
      && (forall i, j :: 0 <= i < j < |r| ==> r[i].key != r[j].key)
      && (forall e :: e in r ==> e.key in RowKeys(rows, Channel) && e.value == SumFor(rows, Channel, e.key))
      && (forall c, e :: c in RowKeys(rows, Channel) && c !in Keys(r) && e in r ==>
            SumFor(rows, Channel, c) <= e.value)
      && (forall v :: WithValue(r, v) <= WithValue(g, v))
  {
    var g := Group(rows, Channel);
    GroupSums(rows, Channel);
    NLargestSpec(g, 5);
    ChannelBarsAreSums(rows);
    ChannelOmittedNotLarger(rows);
    var r := ChannelBreakdown(rows);
    forall i, j | 0 <= i < j < |r|
      ensures r[i].key != r[j].key
    {
      NoDupKeysDistinct(r, i, j);
    }
  }

  /** An entry whose key a sub-selection lacks is among the entries left out. */
  lemma LeftOut(g: seq<Entry>, r: seq<Entry>, i: nat)
    requires i < |g| && g[i].key !in Keys(r)
    ensures g[i] in multiset(g) - multiset(r)
  {
    if g[i] in r {
      var j :| 0 <= j < |r| && r[j] == g[i];
      KeyOfMember(r, j);
    }
    assert g[i] in multiset(g);
  }

  lemma ChannelBarsAreSums(rows: seq<DetailRow>)
    ensures forall e :: e in ChannelBreakdown(rows) ==>
      e.key in RowKeys(rows, Channel) && e.value == SumFor(rows, Channel, e.key)
  {
    var g := Group(rows, Channel);
    var r := ChannelBreakdown(rows);
    GroupSums(rows, Channel);
    NLargestSpec(g, 5);
    forall e | e in r
      ensures e.key in RowKeys(rows, Channel) && e.value == SumFor(rows, Channel, e.key)
    {
      assert e in multiset(r);
      assert e in g;
      var i :| 0 <= i < |g| && g[i] == e;
      KeyOfMember(g, i);
    }
  }

  lemma ChannelOmittedNotLarger(rows: seq<DetailRow>)
    ensures forall c, e :: c in RowKeys(rows, Channel) && c !in Keys(ChannelBreakdown(rows)) && e in ChannelBreakdown(rows) ==>
      SumFor(rows, Channel, c) <= e.value
  {
    var g := Group(rows, Channel);
    var r := ChannelBreakdown(rows);
    GroupSums(rows, Channel);
    NLargestSpec(g, 5);
    forall c, e | c in RowKeys(rows, Channel) && c !in Keys(r) && e in r
      ensures SumFor(rows, Channel, c) <= e.value
    {
      var i := KeyWitness(g, c);
      LeftOut(g, r, i);
      assert g[i] in g;
    }
  }

  /** The age chart: every age bracket of the rows exactly once, ascending by
      key, not truncated, each with its summed users. */
  lemma AgeBreakdownSpec(rows: seq<DetailRow>)
    ensures var r := AgeBreakdown(rows);
      && r == Group(rows, AgeBracket)
      && KeySorted(r)
      && NoDupKeys(r)
      && Keys(r) == RowKeys(rows, AgeBracket)
      && |r| == |RowKeys(rows, AgeBracket)|
      && (forall e :: e in r ==> e.value == SumFor(rows, AgeBracket, e.key))
  {
    GroupSums(rows, AgeBracket);
    SortIndexOfSorted(Group(rows, AgeBracket));
  }

  /** The device chart: one bar per device, in key order, each the sum of its
      rows' users; the bars add up to all users. */
  lemma DeviceBreakdownSpec(rows: seq<DetailRow>)
    ensures var r := DeviceBreakdown(rows);
      && KeySorted(r)
      && Keys(r) == RowKeys(rows, Device)
      && (forall e :: e in r ==> e.value == SumFor(rows, Device, e.key))
      && SumValues(r) == TotalUsers(rows)
  {
    GroupSums(rows, Device);
  }

  /** Rows Direct 50, Organic 30, Direct 10 give the channel chart
      Direct 60, Organic 30. */
  lemma ChannelExample()
    ensures ChannelBreakdown([
      DetailRow("Direct", "desktop", "25-34", 50),
      DetailRow("Organic", "mobile", "18-24", 30),
      DetailRow("Direct", "mobile", "25-34", 10)]) == [Entry("Direct", 60), Entry("Organic", 30)]
  {
    var a, b, c :=
      DetailRow("Direct", "desktop", "25-34", 50),
      DetailRow("Organic", "mobile", "18-24", 30),
      DetailRow("Direct", "mobile", "25-34", 10);
    var rows := [a, b, c];
    assert StrLess("Direct", "Organic");
    assert rows[1..] == [b, c] && [b, c][1..] == [c] && [c][1..] == [];
    var g2 := Group([c], Channel);
    assert g2 == Add(Group([], Channel), KeyOf(c, Channel), 10);
    assert g2 == [Entry("Direct", 10)];
    var g1 := Group([b, c], Channel);
    assert g1 == Add(g2, "Organic", 30);
    assert !StrLess("Organic", "Direct");
    assert g2[1..] == [];
    assert g1 == [g2[0]] + Add([], "Organic", 30);
    assert g1 == [Entry("Direct", 10), Entry("Organic", 30)];
    var g := Group(rows, Channel);
    assert g == Add(g1, "Direct", 50);
    assert g == [Entry("Direct", 60), Entry("Organic", 30)];
  }

  // ---------------------------------------------------------------------
  // Top pages: head(5) of a report requested in descending page views
  // ---------------------------------------------------------------------

  datatype PageRow = PageRow(title: string, views: int)

  /** The order the pages report was requested in: descending page views. */
  predicate ViewsDesc(pages: seq<PageRow>) {
    forall i, j :: 0 <= i < j < |pages| ==> pages[i].views >= pages[j].views
  }

  function TopPages(pages: seq<PageRow>): seq<PageRow> {
    pages[..if |pages| < 5 then |pages| else 5]
  }

  /** The first min(5, n) rows in the order returned; when the report came
      back in the requested descending order, the list is descending and no
      page left out has more views than a page shown. */
  lemma TopPagesSpec(pages: seq<PageRow>)
    ensures var r := TopPages(pages);
      && |r| == (if |pages| < 5 then |pages| else 5)
      && r <= pages
      && (ViewsDesc(pages) ==> ViewsDesc(r))
      && (ViewsDesc(pages) ==> forall i, j :: 0 <= i < |r| <= j < |pages| ==> pages[j].views <= r[i].views)
  {
  }
}
