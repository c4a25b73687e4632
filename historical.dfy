/** Historical maps: a node's `date` text ("YYYY", "YYYY-M(M)" or "YYYY-M(M)-D(D)") is
    read as a calendar day the way `new Date(year, monthIndex, day)` reads it, and the
    nodes are put in chronological order: dated nodes first by ascending day, ties and
    undated nodes in their original order. */
module Historical {
  import opened Wrappers
  import opened Strings
  import opened MindMap

  /** `s.split(c)` */
  function Split(s: string, c: char): (r: seq<string>)
    ensures |r| >= 1
    ensures |r| == 1 <==> c !in s
    ensures forall k :: 0 <= k < |r| ==> c !in r[k]
    decreases |s|
  {
    var k := IndexOf(s, c);
    if k == -1 then [s] else [s[..k]] + Split(s[k + 1..], c)
  }

  /** `/^\d{4}$/` */
  predicate IsYearText(s: string) { |s| == 4 && forall i :: 0 <= i < |s| ==> IsDigit(s[i]) }

  /** `/^\d{1,2}$/` */
  predicate IsShortNumber(s: string) { 1 <= |s| <= 2 && forall i :: 0 <= i < |s| ==> IsDigit(s[i]) }

  /** The year `new Date` uses: years 0 to 99 are taken as 1900 to 1999. */
  function DateYear(y: int): (r: int)
    ensures 0 <= y <= 99 ==> r == 1900 + y
    ensures !(0 <= y <= 99) ==> r == y
  {
    if 0 <= y <= 99 then 1900 + y else y
  }

  /** Days from 1970-01-01 to the first day of month `m` (1 to 12) of year `y` in the
      proleptic Gregorian calendar. */
  function MonthStart(y: int, m: int): int
    requires 1 <= m <= 12
  {
    var y1 := if m <= 2 then y - 1 else y;
    var era := y1 / 400;
    var yoe := y1 - era * 400;
    var mp := (m + 9) % 12;
    var doy := (153 * mp + 2) / 5;
    var doe := yoe * 365 + yoe / 4 - yoe / 100 + doy;
    era * 146097 + doe - 719468
  }

  /** `new Date(y, monthIndex, day)` as a day number: a month index outside 0..11 moves
      into the neighbouring years and a day outside the month into the neighbouring
      months, as the `Date` constructor does. */
  function DayNumber(y: int, monthIndex: int, day: int): int {
    var year := DateYear(y) + monthIndex / 12;
    MonthStart(year, monthIndex % 12 + 1) + day - 1
  }

  /** The day a node's date text stands for, or `None` when it has none of the accepted
      shapes (lines 1001-1012). */
  function ParseDate(date: string): Option<int> {
    var parts := Split(date, '-');
    if date == [] then None
    else if |parts| == 1 && IsYearText(parts[0]) then
      Some(DayNumber(DigitsValue(parts[0]), 0, 1))
    else if |parts| == 2 && IsYearText(parts[0]) && IsShortNumber(parts[1]) then
      Some(DayNumber(DigitsValue(parts[0]), DigitsValue(parts[1]) - 1, 1))
    else if |parts| == 3 && IsYearText(parts[0]) && IsShortNumber(parts[1]) && IsShortNumber(parts[2]) then
      Some(DayNumber(DigitsValue(parts[0]), DigitsValue(parts[1]) - 1, DigitsValue(parts[2])))
    else None
  }

  function Pow10(w: nat): (r: nat)
    ensures r >= 1
  {
    if w == 0 then 1 else 10 * Pow10(w - 1)
  }

  /** The `w` decimal digits of `n`, zero-padded on the left. */
  function Padded(n: nat, w: nat): (r: string)
    requires n < Pow10(w)
    ensures |r| == w && forall i :: 0 <= i < |r| ==> IsDigit(r[i])
  {
    if w == 0 then [] else Padded(n / 10, w - 1) + [DigitChar(n % 10)]
  }

  lemma {:induction false} PaddedValue(n: nat, w: nat)
    requires n < Pow10(w)
    ensures DigitsValue(Padded(n, w)) == n
  {
    if w > 0 {
      var p := Padded(n / 10, w - 1);
      PaddedValue(n / 10, w - 1);
      assert (p + [DigitChar(n % 10)])[..w - 1] == p;
    }
  }

  /** Text of the four digits of a year below 10000, zero-padded. */
  function YearText(y: nat): (r: string)
    requires y < 10000
    ensures IsYearText(r) && DigitsValue(r) == y
  {
    assert Pow10(4) == 10000;
    PaddedValue(y, 4);
    Padded(y, 4)
  }

  /** Text of a number below 100 as two digits, zero-padded. */
  function TwoDigits(n: nat): (r: string)
    requires n < 100
    ensures IsShortNumber(r) && DigitsValue(r) == n
  {
    assert Pow10(2) == 100;
    PaddedValue(n, 2);
    Padded(n, 2)
  }

  /** Splitting at the first separator: the text before it, then the split of the rest. */
  lemma {:induction false} SplitAtFirst(a: string, b: string, c: char)
    requires c !in a
    ensures Split(a + [c] + b, c) == [a] + Split(b, c)
  {
    var s := a + [c] + b;
    var k := IndexOf(s, c);
    assert s[|a|] == c;
    assert forall i :: 0 <= i < |a| ==> s[i] == a[i];
    assert k == |a|;
    assert s[..k] == a;
    assert s[k + 1..] == b;
  }

  /** Digit text holds no separator. */
  lemma {:induction false} DigitsHaveNoDash(t: string)
    requires forall i :: 0 <= i < |t| ==> IsDigit(t[i])
    ensures '-' !in t
  {
    forall i | 0 <= i < |t| ensures t[i] != '-' {
      assert IsDigit(t[i]);
    }
  }

  /** A year, month and day written "YYYY-MM-DD" are read back as that calendar day
      (month index `m - 1`), with the `Date` constructor's reading of years below 100. */
  lemma {:induction false} ParseDateReadsFullDate(y: nat, m: nat, d: nat)
    requires y < 10000 && m < 100 && d < 100
    ensures ParseDate(YearText(y) + "-" + TwoDigits(m) + "-" + TwoDigits(d)) == Some(DayNumber(y, m - 1, d))
  {
    var yt, mt, dt := YearText(y), TwoDigits(m), TwoDigits(d);
    var rest := mt + "-" + dt;
    var s := yt + "-" + mt + "-" + dt;
    assert s == yt + ['-'] + rest;
    DigitsHaveNoDash(yt);
    DigitsHaveNoDash(mt);
    DigitsHaveNoDash(dt);
    SplitAtFirst(yt, rest, '-');
    SplitAtFirst(mt, dt, '-');
    assert Split(dt, '-') == [dt];
    assert Split(s, '-') == [yt, mt, dt];
  }

  /** A year written alone as four digits is read as the first of January of that year. */
  lemma {:induction false} ParseDateReadsYear(y: nat)
    requires y < 10000
    ensures ParseDate(YearText(y)) == Some(DayNumber(y, 0, 1))
  {
    var yt := YearText(y);
    assert '-' !in yt by {
      forall i | 0 <= i < |yt| ensures yt[i] != '-' {
        assert IsDigit(yt[i]);
      }
    }
    assert Split(yt, '-') == [yt];
  }

  /** Four-digit years below 0100 ("0050") are read as years of the twentieth century
      (1950), so such a date is placed after the year 1000. */
  lemma {:induction false} EarlyYearsReadAsTwentiethCentury(y: nat)
    requires y < 100
    ensures ParseDate(YearText(y)) == ParseDate(YearText(1900 + y))
  {
    ParseDateReadsYear(y);
    ParseDateReadsYear(1900 + y);
    assert DateYear(y) == DateYear(1900 + y);
  }

  predicate Dated(n: Node) { n.parsedDate.Some? }

  function Key(n: Node): int
    requires Dated(n)
  {
    n.parsedDate.value
  }

  /** `nodes.filter(n => n.parsedDate)` */
  function DatedNodes(nodes: seq<Node>): (r: seq<Node>)
    ensures forall k :: 0 <= k < |r| ==> Dated(r[k])
    ensures |r| <= |nodes|
  {
    if nodes == [] then []
    else if Dated(nodes[0]) then [nodes[0]] + DatedNodes(nodes[1..])
    else DatedNodes(nodes[1..])
  }

  /** `nodes.filter(n => !n.parsedDate)` */
  function UndatedNodes(nodes: seq<Node>): (r: seq<Node>)
    ensures forall k :: 0 <= k < |r| ==> !Dated(r[k])
    ensures |r| <= |nodes|
  {
    if nodes == [] then []
    else if !Dated(nodes[0]) then [nodes[0]] + UndatedNodes(nodes[1..])
    else UndatedNodes(nodes[1..])
  }

  predicate SortedByDate(s: seq<Node>)
    requires forall k :: 0 <= k < |s| ==> Dated(s[k])
  {
    forall i, j :: 0 <= i < j < |s| ==> Key(s[i]) <= Key(s[j])
  }

  /** Place `x` after every node of `s` whose day is not later than its own. */
  function Insert(s: seq<Node>, x: Node): (r: seq<Node>)
    requires Dated(x) && forall k :: 0 <= k < |s| ==> Dated(s[k])
    ensures |r| == |s| + 1
    ensures forall k :: 0 <= k < |r| ==> Dated(r[k])
    decreases |s|
  {
    if s == [] then [x]
    else if Key(s[|s| - 1]) <= Key(x) then s + [x]
    else Insert(s[..|s| - 1], x) + [s[|s| - 1]]
  }

  /** Inserting adds `x` and loses nothing. */
  lemma {:induction false} InsertPermutes(s: seq<Node>, x: Node)
    requires Dated(x) && forall k :: 0 <= k < |s| ==> Dated(s[k])
    ensures multiset(Insert(s, x)) == multiset(s) + multiset{x}
    decreases |s|
  {
    if s != [] && Key(s[|s| - 1]) > Key(x) {
      var t, y := s[..|s| - 1], s[|s| - 1];
      InsertPermutes(t, x);
      assert s == t + [y];
      assert Insert(s, x) == Insert(t, x) + [y];
    }
  }

  /** A stable sort by day, as `Array.prototype.sort` with `(a, b) => a - b` is. */
  function SortByDate(s: seq<Node>): (r: seq<Node>)
    requires forall k :: 0 <= k < |s| ==> Dated(s[k])
    ensures |r| == |s|
    ensures forall k :: 0 <= k < |r| ==> Dated(r[k])
    decreases |s|
  {
    if s == [] then []
    else Insert(SortByDate(s[..|s| - 1]), s[|s| - 1])
  }

  /** The sort loses and adds nothing. */
  lemma {:induction false} SortByDatePermutes(s: seq<Node>)
    requires forall k :: 0 <= k < |s| ==> Dated(s[k])
    ensures multiset(SortByDate(s)) == multiset(s)
    decreases |s|
  {
    if s != [] {
      var t, x := s[..|s| - 1], s[|s| - 1];
      assert s == t + [x];
      SortByDatePermutes(t);
      InsertPermutes(SortByDate(t), x);
      assert SortByDate(s) == Insert(SortByDate(t), x);
    }
  }

  lemma {:induction false} InsertSorted(s: seq<Node>, x: Node)
    requires Dated(x) && forall k :: 0 <= k < |s| ==> Dated(s[k])
    requires SortedByDate(s)
    ensures SortedByDate(Insert(s, x))
    decreases |s|
  {
    if s != [] && Key(s[|s| - 1]) > Key(x) {
      var t := s[..|s| - 1];
      InsertSorted(t, x);
      var it := Insert(t, x);
      InsertBound(t, x, Key(s[|s| - 1]));
      var r := it + [s[|s| - 1]];
      forall i, j | 0 <= i < j < |r| ensures Key(r[i]) <= Key(r[j]) {
        if j == |r| - 1 {
          assert r[i] == it[i];
        }
      }
    }
  }

  /** Every day in the result of `Insert` is bounded by a bound of `s` and of `x`. */
  lemma {:induction false} InsertBound(s: seq<Node>, x: Node, b: int)
    requires Dated(x) && forall k :: 0 <= k < |s| ==> Dated(s[k])
    requires Key(x) <= b && forall k :: 0 <= k < |s| ==> Key(s[k]) <= b
    ensures forall k :: 0 <= k < |Insert(s, x)| ==> Key(Insert(s, x)[k]) <= b
    decreases |s|
  {
    if s != [] && Key(s[|s| - 1]) > Key(x) {
      InsertBound(s[..|s| - 1], x, b);
    }
  }

  lemma {:induction false} SortByDateSorted(s: seq<Node>)
    requires forall k :: 0 <= k < |s| ==> Dated(s[k])
    ensures SortedByDate(SortByDate(s))
    decreases |s|
  {
    if s != [] {
      SortByDateSorted(s[..|s| - 1]);
      InsertSorted(SortByDate(s[..|s| - 1]), s[|s| - 1]);
    }
  }

  /** The nodes with day `d`, in order. */
  function OnDay(s: seq<Node>, d: int): (r: seq<Node>)
    requires forall k :: 0 <= k < |s| ==> Dated(s[k])
  {
    if s == [] then []
    else OnDay(s[..|s| - 1], d) + (if Key(s[|s| - 1]) == d then [s[|s| - 1]] else [])
  }

  lemma {:induction false} OnDayAppend(s: seq<Node>, t: seq<Node>, d: int)
    requires forall k :: 0 <= k < |s| ==> Dated(s[k])
    requires forall k :: 0 <= k < |t| ==> Dated(t[k])
    ensures OnDay(s + t, d) == OnDay(s, d) + OnDay(t, d)
    decreases |t|
  {
    if t == [] {
      assert s + t == s;
    } else {
      var t0 := t[..|t| - 1];
      assert (s + t)[..|s + t| - 1] == s + t0;
      OnDayAppend(s, t0, d);
    }
  }

  lemma {:induction false} OnDaySingle(x: Node, d: int)
    requires Dated(x)
    ensures OnDay([x], d) == if Key(x) == d then [x] else []
  {
    assert [x][..0] == [];
  }

  /** Inserting `x` keeps the nodes of each day in order, with `x` last among its day. */
  lemma {:induction false} InsertStable(s: seq<Node>, x: Node, d: int)
    requires Dated(x) && forall k :: 0 <= k < |s| ==> Dated(s[k])
    ensures OnDay(Insert(s, x), d) == OnDay(s, d) + (if Key(x) == d then [x] else [])
    decreases |s|
  {
    if s == [] {
      OnDaySingle(x, d);
      assert Insert(s, x) == [x];
    } else if Key(s[|s| - 1]) <= Key(x) {
      OnDayAppend(s, [x], d);
      OnDaySingle(x, d);
      assert Insert(s, x) == s + [x];
    } else {
      InsertStable(s[..|s| - 1], x, d);
      InsertStableStep(s, x, d);
    }
  }

  /** The node moved past `x` is on a later day than `x`. */
  lemma {:induction false} InsertStableStep(s: seq<Node>, x: Node, d: int)
    requires Dated(x) && forall k :: 0 <= k < |s| ==> Dated(s[k])
    requires s != [] && Key(s[|s| - 1]) > Key(x)
    requires OnDay(Insert(s[..|s| - 1], x), d) == OnDay(s[..|s| - 1], d) + (if Key(x) == d then [x] else [])
    ensures OnDay(Insert(s, x), d) == OnDay(s, d) + (if Key(x) == d then [x] else [])
  {
    var t := s[..|s| - 1];
    var last := s[|s| - 1];
    var it := Insert(t, x);
    assert Insert(s, x) == it + [last];
    var lastPart := if Key(last) == d then [last] else [];
    assert OnDay(it + [last], d) == OnDay(it, d) + lastPart by {
      assert (it + [last])[..|it|] == it;
    }
    assert OnDay(s, d) == OnDay(t, d) + lastPart;
    if Key(x) == d {
      assert lastPart == [];
    }
  }

  /** The sort keeps the nodes of each day in their original order. */
  lemma {:induction false} SortByDateStable(s: seq<Node>, d: int)
    requires forall k :: 0 <= k < |s| ==> Dated(s[k])
    ensures OnDay(SortByDate(s), d) == OnDay(s, d)
    decreases |s|
  {
    if s != [] {
      var t := s[..|s| - 1];
      SortByDateStable(t, d);
      InsertStable(SortByDate(t), s[|s| - 1], d);
    }
  }

  /** Lines 1017-1022: dated nodes by ascending day, then the undated ones. */
  function Chronological(nodes: seq<Node>): seq<Node> {
    SortByDate(DatedNodes(nodes)) + UndatedNodes(nodes)
  }

  lemma {:induction false} SplitByDatePermutation(nodes: seq<Node>)
    ensures multiset(DatedNodes(nodes)) + multiset(UndatedNodes(nodes)) == multiset(nodes)
  {
    if nodes != [] {
      var x, rest := nodes[0], nodes[1..];
      SplitByDatePermutation(rest);
      assert nodes == [x] + rest;
      assert multiset(nodes) == multiset{x} + multiset(rest);
      if Dated(x) {
        assert DatedNodes(nodes) == [x] + DatedNodes(rest);
        assert multiset(DatedNodes(nodes)) == multiset{x} + multiset(DatedNodes(rest));
        assert UndatedNodes(nodes) == UndatedNodes(rest);
      } else {
        assert UndatedNodes(nodes) == [x] + UndatedNodes(rest);
        assert multiset(UndatedNodes(nodes)) == multiset{x} + multiset(UndatedNodes(rest));
        assert DatedNodes(nodes) == DatedNodes(rest);
      }
    }
  }

  /** The chronological order is a permutation of the nodes; the dated nodes come first,
      in ascending order of day, each day's nodes in their original order; the undated
      nodes follow in their original order. */
  lemma {:induction false} ChronologicalOrder(nodes: seq<Node>, d: int)
    ensures multiset(Chronological(nodes)) == multiset(nodes)
    ensures var k := |DatedNodes(nodes)|;
      (forall i :: 0 <= i < k ==> Dated(Chronological(nodes)[i]))
      && |Chronological(nodes)| == |nodes|
      && (forall i :: k <= i < |Chronological(nodes)| ==> !Dated(Chronological(nodes)[i]))
      && SortedByDate(Chronological(nodes)[..k])
      && Chronological(nodes)[k..] == UndatedNodes(nodes)
    ensures OnDay(SortByDate(DatedNodes(nodes)), d) == OnDay(DatedNodes(nodes), d)
  {
    SplitByDatePermutation(nodes);
    SortByDatePermutes(DatedNodes(nodes));
    var sd := SortByDate(DatedNodes(nodes));
    var c := Chronological(nodes);
    assert c[..|sd|] == sd;
    assert c[|sd|..] == UndatedNodes(nodes);
    assert |c| == |nodes| by {
      assert |multiset(c)| == |multiset(nodes)|;
    }
    SortByDateSorted(DatedNodes(nodes));
    SortByDateStable(DatedNodes(nodes), d);
  }
}
