/**
  The layout decisions of report.js: the ledger totals, the greedy word wrapper,
  the cell truncation, and the two PDF reports as the sequence of placements
  (page, vertical cursor, what is drawn) they hand to the PDF library.
 */
module Report {
  import opened Strings
  import opened Collections
  import opened Db

  // ---------------------------------------------------------------- totals

  /** `a.reduce((acc, v) => acc + v, 0)`. */
  function Sum(a: seq<int>): int
    decreases |a|
  {
    if a == [] then 0 else a[0] + Sum(a[1..])
  }

  /** `.map(t => t.amountCents)`. */
  function Amounts(ts: seq<Txn>): (r: seq<int>)
    ensures |r| == |ts| && forall i :: 0 <= i < |ts| ==> r[i] == ts[i].amountCents
  {
    seq(|ts|, i requires 0 <= i < |ts| => ts[i].amountCents)
  }

  /** `.filter(t => t.type === kind)`. */
  function OfKind(ts: seq<Txn>, kind: string): seq<Txn> {
    Filter(ts, (t: Txn) => t.kind == kind)
  }

  /** Independent reference: the amount of every transaction of that kind, added up one by one. */
  function KindTotal(ts: seq<Txn>, kind: string): int
    decreases |ts|
  {
    if ts == [] then 0
    else (if ts[0].kind == kind then ts[0].amountCents else 0) + KindTotal(ts[1..], kind)
  }

  /** Summing the amounts of the filtered list is the per-kind total. */
  lemma {:induction false} SumOfKind(ts: seq<Txn>, kind: string)
    ensures Sum(Amounts(OfKind(ts, kind))) == KindTotal(ts, kind)
    decreases |ts|
  {
    if ts != [] {
      SumOfKind(ts[1..], kind);
      var rest := OfKind(ts[1..], kind);
      if ts[0].kind == kind {
        assert OfKind(ts, kind) == [ts[0]] + rest;
        assert Amounts([ts[0]] + rest) == [ts[0].amountCents] + Amounts(rest);
        assert ([ts[0].amountCents] + Amounts(rest))[1..] == Amounts(rest);
      } else {
        assert OfKind(ts, kind) == rest;
      }
    }
  }

  lemma {:induction false} KindTotalConcat(a: seq<Txn>, b: seq<Txn>, kind: string)
    ensures KindTotal(a + b, kind) == KindTotal(a, kind) + KindTotal(b, kind)
    decreases |a|
  {
    if a != [] {
      assert (a + b)[0] == a[0];
      assert (a + b)[1..] == a[1..] + b;
      KindTotalConcat(a[1..], b, kind);
    } else {
      assert a + b == b;
    }
  }

  /** Taking one transaction out of the list takes its amount out of the per-kind total. */
  lemma KindTotalRemove(b: seq<Txn>, j: int, kind: string)
    requires 0 <= j < |b|
    ensures KindTotal(b, kind) == (if b[j].kind == kind then b[j].amountCents else 0) + KindTotal(b[..j] + b[j + 1..], kind)
  {
    assert b == b[..j] + ([b[j]] + b[j + 1..]);
    KindTotalConcat(b[..j], [b[j]] + b[j + 1..], kind);
    KindTotalConcat([b[j]], b[j + 1..], kind);
    KindTotalConcat(b[..j], b[j + 1..], kind);
    assert ([b[j]] + b[j + 1..])[1..] == b[j + 1..];
  }

  /** The per-kind total does not depend on the order of the transactions. */
  lemma {:induction false} KindTotalPermutation(a: seq<Txn>, b: seq<Txn>, kind: string)
    requires multiset(a) == multiset(b)
    ensures KindTotal(a, kind) == KindTotal(b, kind)
    decreases |a|
  {
    if a == [] {
      assert |b| == |multiset(b)| == 0;
    } else {
      var x := a[0];
      assert x in b by {
        assert x in multiset(a) && x in multiset(b);
      }
      var j :| 0 <= j < |b| && b[j] == x;
      var b' := b[..j] + b[j + 1..];
      assert multiset(a[1..]) == multiset(b') by {
        assert multiset(b') == multiset(b) - multiset{x} by {
          assert b == b[..j] + [x] + b[j + 1..];
        }
        assert multiset(a[1..]) == multiset(a) - multiset{x} by {
          assert a == [x] + a[1..];
        }
      }
      KindTotalPermutation(a[1..], b', kind);
      KindTotalRemove(b, j, kind);
    }
  }

  /** The three figures of the ledger summary. */
  datatype Totals = Totals(totalIn: int, totalOut: int, balance: int)

  /** `totalIn`, `totalOut` and `balance` of `pdfCash`. */
  function CashTotals(ts: seq<Txn>): (r: Totals)
    ensures r.totalIn == KindTotal(ts, "in") && r.totalOut == KindTotal(ts, "out")
    ensures r.balance == r.totalIn - r.totalOut
  {
    SumOfKind(ts, "in");
    SumOfKind(ts, "out");
    var tin := Sum(Amounts(OfKind(ts, "in")));
    var tout := Sum(Amounts(OfKind(ts, "out")));
    Totals(tin, tout, tin - tout)
  }

  /** The totals of no transactions are all zero, and reordering the transactions does not change them. */
  lemma CashTotalsLaws(a: seq<Txn>, b: seq<Txn>)
    requires multiset(a) == multiset(b)
    ensures CashTotals([]) == Totals(0, 0, 0)
    ensures CashTotals(a) == CashTotals(b)
  {
    KindTotalPermutation(a, b, "in");
    KindTotalPermutation(a, b, "out");
  }

  // ---------------------------------------------------------------- wrapText

  /**
    The greedy wrapper from a state: `line` is the line being filled, `words` the
    words still to place, and the result the lines pushed from here on.
   */
  function WrapFrom(words: seq<string>, line: string, maxChars: int): seq<string>
    decreases |words|
  {
    if words == [] then (if line == "" then [] else [line])
    else
      var w := words[0];
      var test := (if line == "" then "" else line + " ") + w;
      if |test| > maxChars then (if line == "" then [] else [line]) + WrapFrom(words[1..], w, maxChars)
      else WrapFrom(words[1..], test, maxChars)
  }

  /** What `wrapText(text, maxChars)` returns. */
  function Wrap(text: string, maxChars: int): seq<string> {
    WrapFrom(SplitSpaces(text), "", maxChars)
  }

  /** One step of the wrapper: place the first word. */
  lemma WrapStep(words: seq<string>, i: nat, line: string, maxChars: int)
    requires i < |words|
    ensures var w := words[i];
      var test := (if line == "" then "" else line + " ") + w;
      WrapFrom(words[i..], line, maxChars)
      == if |test| > maxChars then (if line == "" then [] else [line]) + WrapFrom(words[i + 1..], w, maxChars)
         else WrapFrom(words[i + 1..], test, maxChars)
  {
    assert words[i..][0] == words[i];
    assert words[i..][1..] == words[i + 1..];
  }

  /** One pass of the loop of `wrapText` keeps the lines pushed so far plus the lines still to come. */
  lemma WrapTextStep(words: seq<string>, i: nat, lines: seq<string>, line: string, maxChars: int, goal: seq<string>)
    requires i < |words| && lines + WrapFrom(words[i..], line, maxChars) == goal
    ensures var test := (if line != "" then line + " " else "") + words[i];
      if |test| > maxChars then (if line != "" then lines + [line] else lines) + WrapFrom(words[i + 1..], words[i], maxChars) == goal
      else lines + WrapFrom(words[i + 1..], test, maxChars) == goal
  {
    WrapStep(words, i, line, maxChars);
    if line != "" {
      Assoc(lines, [line], WrapFrom(words[i + 1..], words[i], maxChars));
    }
  }

  lemma Assoc(a: seq<string>, b: seq<string>, c: seq<string>)
    ensures a + (b + c) == (a + b) + c
  {
  }

  /** `wrapText`, with the loop of the source over the words, `line` and `lines`. */
  method WrapText(text: string, maxChars: int) returns (lines: seq<string>)
    ensures lines == Wrap(text, maxChars)
  {
    var words := SplitSpaces(text);
    lines := [];
    var line := "";
    assert words[0..] == words;
    for i := 0 to |words|
      invariant lines + WrapFrom(words[i..], line, maxChars) == WrapFrom(words, "", maxChars)
    {
      var w := words[i];
      WrapTextStep(words, i, lines, line, maxChars, WrapFrom(words, "", maxChars));
      var test := (if line != "" then line + " " else "") + w;
      if |test| > maxChars {
        if line != "" {
          lines := lines + [line];
        }
        line := w;
      } else {
        line := test;
      }
    }
    assert words[|words|..] == [];
    if line != "" {
      lines := lines + [line];
    }
  }

  /** No line is empty. */
  lemma {:induction false} WrapFromNoEmpty(words: seq<string>, line: string, maxChars: int)
    ensures forall l :: l in WrapFrom(words, line, maxChars) ==> l != ""
    decreases |words|
  {
    if words != [] {
      var w := words[0];
      var test := (if line == "" then "" else line + " ") + w;
      if |test| > maxChars {
        WrapFromNoEmpty(words[1..], w, maxChars);
      } else {
        WrapFromNoEmpty(words[1..], test, maxChars);
      }
    }
  }

  /** Every line fits in `maxChars`, except a single word longer than that, which sits on a line of its own. */
  lemma {:induction false} WrapFromFits(words: seq<string>, line: string, maxChars: int, all: seq<string>)
    requires line == "" || |line| <= maxChars || line in all
    requires forall w :: w in words ==> w in all
    ensures forall l :: l in WrapFrom(words, line, maxChars) ==> |l| <= maxChars || l in all
    decreases |words|
  {
    if words != [] {
      var w := words[0];
      var test := (if line == "" then "" else line + " ") + w;
      if |test| > maxChars {
        WrapFromFits(words[1..], w, maxChars, all);
      } else {
        WrapFromFits(words[1..], test, maxChars, all);
      }
    }
  }

  /** A line being filled is never lost. */
  lemma {:induction false} WrapFromNonEmpty(words: seq<string>, line: string, maxChars: int)
    requires line != ""
    ensures WrapFrom(words, line, maxChars) != []
    decreases |words|
  {
    if words != [] {
      var test := line + " " + words[0];
      if |test| <= maxChars {
        WrapFromNonEmpty(words[1..], test, maxChars);
      }
    }
  }

  lemma JoinCons(x: string, w: string, rest: seq<string>)
    ensures Join([x + " " + w] + rest, " ") == Join([x, w] + rest, " ")
  {
    assert ([x, w] + rest)[1..] == [w] + rest;
    assert ([x + " " + w] + rest)[1..] == rest;
    if rest != [] {
      assert ([w] + rest)[1..] == rest;
    }
  }

  /** With non-empty words, the lines joined by single spaces are the words joined by single spaces. */
  lemma {:induction false} WrapFromJoin(words: seq<string>, line: string, maxChars: int)
    requires forall w :: w in words ==> w != ""
    ensures Join(WrapFrom(words, line, maxChars), " ") == if line == "" then Join(words, " ") else Join([line] + words, " ")
    decreases |words|
  {
    if words == [] {
      if line != "" {
        assert [line] + words == [line];
      }
    } else {
      var w := words[0];
      var rest := words[1..];
      assert w in words;
      assert forall v :: v in rest ==> v in words by {
        assert words == [w] + rest;
      }
      var test := (if line == "" then "" else line + " ") + w;
      if |test| > maxChars {
        WrapFromJoin(rest, w, maxChars);
        WrapBreakJoin(words, line, maxChars);
      } else {
        WrapFromJoin(rest, test, maxChars);
        WrapKeepJoin(words, line, maxChars);
      }
    }
  }

  /** The step of `WrapFromJoin` where the first word starts a new line. */
  lemma WrapBreakJoin(words: seq<string>, line: string, maxChars: int)
    requires words != [] && words[0] != ""
    requires |(if line == "" then "" else line + " ") + words[0]| > maxChars
    requires Join(WrapFrom(words[1..], words[0], maxChars), " ") == Join([words[0]] + words[1..], " ")
    ensures Join(WrapFrom(words, line, maxChars), " ") == if line == "" then Join(words, " ") else Join([line] + words, " ")
  {
    var w := words[0];
    var rest := words[1..];
    assert words == [w] + rest;
    var tail := WrapFrom(rest, w, maxChars);
    if line != "" {
      WrapFromNonEmpty(rest, w, maxChars);
      assert WrapFrom(words, line, maxChars) == [line] + tail;
      JoinFirst(line, tail, " ");
      JoinFirst(line, words, " ");
    } else {
      assert WrapFrom(words, line, maxChars) == tail;
    }
  }

  /** The step of `WrapFromJoin` where the first word joins the current line. */
  lemma WrapKeepJoin(words: seq<string>, line: string, maxChars: int)
    requires words != [] && words[0] != ""
    requires |(if line == "" then "" else line + " ") + words[0]| <= maxChars
    requires Join(WrapFrom(words[1..], (if line == "" then "" else line + " ") + words[0], maxChars), " ")
             == Join([(if line == "" then "" else line + " ") + words[0]] + words[1..], " ")
    ensures Join(WrapFrom(words, line, maxChars), " ") == if line == "" then Join(words, " ") else Join([line] + words, " ")
  {
    var w := words[0];
    var rest := words[1..];
    var test := (if line == "" then "" else line + " ") + w;
    assert WrapFrom(words, line, maxChars) == WrapFrom(rest, test, maxChars);
    if line != "" {
      assert test == line + " " + w;
      JoinCons(line, w, rest);
      assert [line] + words == [line, w] + rest;
    } else {
      assert test == w;
      assert words == [w] + rest;
    }
  }

  /**
    `wrapText` loses, adds and reorders no words: for text with no white space at
    either end, the lines joined by single spaces are the words joined by single
    spaces; no line is empty; and a line longer than `maxChars` is a single word.
   */
  lemma WrapLaws(text: string, maxChars: int)
    ensures forall l :: l in Wrap(text, maxChars) ==> l != ""
    ensures forall l :: l in Wrap(text, maxChars) ==> |l| <= maxChars || (l in SplitSpaces(text) && NoSpace(l))
    ensures Trimmed(text) && text != "" ==> Join(Wrap(text, maxChars), " ") == Join(SplitSpaces(text), " ")
  {
    var words := SplitSpaces(text);
    WrapFromNoEmpty(words, "", maxChars);
    WrapFromFits(words, "", maxChars, words);
    forall l | l in Wrap(text, maxChars) && |l| > maxChars ensures l in words && NoSpace(l) {
      assert l in WrapFrom(words, "", maxChars);
      var k :| 0 <= k < |words| && words[k] == l;
      SplitSpacesNoSpace(text, k);
    }
    if Trimmed(text) && text != "" {
      SplitSpacesTrimmed(text);
      WrapFromJoin(words, "", maxChars);
    }
  }

  // ---------------------------------------------------------------- fitText

  /** The character budget of a cell: `Math.max(10, Math.floor(w / (c / 4)))`, where `w / 0` is an infinity or NaN and never truncates unless negative. */
  datatype Budget = Unlimited | Chars(n: int)

  /** `Math.floor(a / b)` for `b != 0`. */
  function FloorDiv(a: int, b: int): int
    requires b != 0
  {
    if b > 0 then a / b else (-a) / (-b)
  }

  function CharBudget(w: int, approxCharPx: int): (r: Budget)
    ensures r.Chars? ==> r.n >= 10
  {
    if approxCharPx == 0 then (if w < 0 then Chars(10) else Unlimited)
    else
      var q := FloorDiv(4 * w, approxCharPx);
      Chars(if q > 10 then q else 10)
  }

  /** `fitText(text, w, approxCharPx)`: text over budget keeps its first `max - 1` characters and gains an ellipsis. */
  function FitText(text: string, w: int, approxCharPx: int): (r: string)
    ensures var b := CharBudget(w, approxCharPx); b.Unlimited? || |text| <= b.n ==> r == text
    ensures var b := CharBudget(w, approxCharPx);
      b.Chars? && |text| > b.n ==> |r| == b.n && r[..b.n - 1] == text[..b.n - 1] && r[b.n - 1] == '\U{2026}'
  {
    var b := CharBudget(w, approxCharPx);
    if b.Chars? && |text| > b.n then text[..b.n - 1] + "\U{2026}" else text
  }

  /** A fitted cell fits its budget, and fitting it again changes nothing. */
  lemma FitTextFits(text: string, w: int, approxCharPx: int)
    ensures CharBudget(w, approxCharPx).Chars? ==> |FitText(text, w, approxCharPx)| <= CharBudget(w, approxCharPx).n
    ensures FitText(FitText(text, w, approxCharPx), w, approxCharPx) == FitText(text, w, approxCharPx)
  {
  }

  // ---------------------------------------------------------------- placements

  /** What is drawn; a rule and a separator carry no text. */
  datatype Role = Title | Stamp | TopRule | Header | BodyLine | Separator
                | Summary | SummaryRule | HeadRow | HeadRule | Row

  datatype Item = Item(role: Role, cells: seq<string>)

  /** One call to the PDF library: on page `page` (0 is the first) at height `y`. */
  datatype Draw = Draw(page: nat, y: int, item: Item)

  const PageTop := 820

  /** How far the cursor moves down after drawing. */
  function Advance(r: Role): nat {
    match r
    case Title => 22
    case Stamp => 18
    case TopRule => 10
    case Header => 14
    case BodyLine => 13
    case Separator => 12
    case Summary => 16
    case SummaryRule => 12
    case HeadRow => 14
    case HeadRule => 10
    case Row => 14
  }

  /** How far the cursor moves down just before drawing (the `y -= 6` before an entry separator). */
  function Gap(r: Role): nat {
    if r == Separator then 6 else 0
  }

  /** The roles checked against a threshold before drawing. */
  predicate Breaks(r: Role) {
    r == Header || r == BodyLine || r == Row
  }

  /** A new page is started when the cursor is below this. */
  function Threshold(r: Role): int
    requires Breaks(r)
  {
    if r == Header then 120 else 70
  }

  /** Where the next draw of role `r` goes from page `page` and cursor `y`. */
  predicate PlacedAt(page: nat, y: int, d: Draw) {
    var r := d.item.role;
    if Breaks(r) && y - Gap(r) < Threshold(r) then d.page == page + 1 && d.y == PageTop
    else d.page == page && d.y == y - Gap(r)
  }

  /** Where the draw after `a` goes: placed from the cursor `a` leaves. */
  predicate Follows(a: Draw, b: Draw) {
    PlacedAt(a.page, a.y - Advance(a.item.role), b)
  }

  /** The whole pagination rule of a report. */
  predicate Paginated(ds: seq<Draw>) {
    (ds != [] ==> PlacedAt(0, PageTop, ds[0]))
    && forall i :: 0 < i < |ds| ==> Follows(ds[i - 1], ds[i])
  }

  function Items(ds: seq<Draw>): (r: seq<Item>)
    ensures |r| == |ds| && forall i :: 0 <= i < |ds| ==> r[i] == ds[i].item
  {
    seq(|ds|, i requires 0 <= i < |ds| => ds[i].item)
  }

  /** The number of times a new page was started. */
  function Resets(ds: seq<Draw>): nat
    decreases |ds|
  {
    if |ds| < 2 then 0
    else Resets(ds[..|ds| - 1]) + (if ds[|ds| - 1].page != ds[|ds| - 2].page then 1 else 0)
  }

  /** The page the cursor is on and the cursor itself after the draws so far. */
  predicate At(ds: seq<Draw>, page: nat, y: int) {
    ds != [] && ds[|ds| - 1].page == page && y == ds[|ds| - 1].y - Advance(ds[|ds| - 1].item.role)
  }

  /** Appending a draw placed from the current cursor keeps the report paginated. */
  lemma Place(ds: seq<Draw>, page: nat, y: int, d: Draw)
    requires Paginated(ds) && At(ds, page, y) && PlacedAt(page, y, d)
    ensures Paginated(ds + [d]) && At(ds + [d], d.page, d.y - Advance(d.item.role))
    ensures Items(ds + [d]) == Items(ds) + [d.item]
  {
    assert Follows(ds[|ds| - 1], d);
    var ds' := ds + [d];
    forall i | 0 < i < |ds'| ensures Follows(ds'[i - 1], ds'[i]) {
      if i < |ds| {
        assert ds'[i - 1] == ds[i - 1] && ds'[i] == ds[i];
      }
    }
  }

  /** The page and the vertical cursor of a report being drawn. */
  datatype Cursor = Cursor(page: nat, y: int)

  /** The draws so far and the cursor they leave. */
  datatype Laid = Laid(draws: seq<Draw>, at: Cursor)

  const Start := Cursor(0, PageTop)

  /** Draw one more item: start a new page if it breaks below its threshold, draw, move the cursor down. */
  function Step(l: Laid, it: Item): Laid {
    var r := it.role;
    var c := l.at;
    var p := if Breaks(r) && c.y - Gap(r) < Threshold(r) then Cursor(c.page + 1, PageTop) else Cursor(c.page, c.y - Gap(r));
    Laid(l.draws + [Draw(p.page, p.y, it)], Cursor(p.page, p.y - Advance(r)))
  }

  /** The draws of a report whose items, in order, are `items`. */
  function Layout(items: seq<Item>): Laid
    decreases |items|
  {
    if items == [] then Laid([], Start) else Step(Layout(items[..|items| - 1]), items[|items| - 1])
  }

  lemma LayoutSnoc(items: seq<Item>, it: Item)
    ensures Layout(items + [it]) == Step(Layout(items), it)
  {
    assert (items + [it])[..|items|] == items;
  }

  /** Laying out a list of items draws exactly those items, in order, and obeys the pagination rule. */
  lemma {:induction false} LayoutPaginated(items: seq<Item>)
    ensures Paginated(Layout(items).draws) && Items(Layout(items).draws) == items
    ensures items == [] ==> Layout(items).at == Start
    ensures items != [] ==> At(Layout(items).draws, Layout(items).at.page, Layout(items).at.y)
    decreases |items|
  {
    if items != [] {
      var front := items[..|items| - 1];
      var it := items[|items| - 1];
      LayoutPaginated(front);
      var l := Layout(front);
      var d := Step(l, it).draws[|l.draws|];
      assert Step(l, it).draws == l.draws + [d];
      if front == [] {
        assert l.draws == [];
        assert [d] == Layout(items).draws;
        assert Items([d]) == [it];
      } else {
        Place(l.draws, l.at.page, l.at.y, d);
        assert items == front + [it];
      }
    }
  }

  /**
    The consequences of the pagination rule: nothing is drawn above the top of a
    page, every entry header at 120 or more, every body line and table row at 70
    or more, a new page begins at the top, pages are only appended one at a time,
    and the page count is one more than the number of resets.
   */
  lemma {:induction false} PaginatedLaws(ds: seq<Draw>)
    requires Paginated(ds)
    ensures forall i :: 0 <= i < |ds| ==> ds[i].y <= PageTop
    ensures forall i :: 0 <= i < |ds| && Breaks(ds[i].item.role) ==> ds[i].y >= Threshold(ds[i].item.role)
    ensures forall i :: 0 < i < |ds| ==> ds[i - 1].page <= ds[i].page <= ds[i - 1].page + 1
    ensures forall i :: 0 < i < |ds| && ds[i].page != ds[i - 1].page ==> ds[i].y == PageTop
    ensures ds != [] ==> ds[|ds| - 1].page + 1 == 1 + Resets(ds)
    decreases |ds|
  {
    if |ds| > 1 {
      var front := ds[..|ds| - 1];
      assert Paginated(front) by {
        forall i | 0 < i < |front| ensures Follows(front[i - 1], front[i]) {
          assert front[i - 1] == ds[i - 1] && front[i] == ds[i];
        }
      }
      PaginatedLaws(front);
      assert Follows(ds[|ds| - 2], ds[|ds| - 1]);
      forall i | 0 <= i < |ds| ensures ds[i].y <= PageTop {
        if i < |ds| - 1 {
          assert ds[i] == front[i];
        }
      }
      forall i | 0 <= i < |ds| && Breaks(ds[i].item.role) ensures ds[i].y >= Threshold(ds[i].item.role) {
        if i < |ds| - 1 {
          assert ds[i] == front[i];
        }
      }
    }
  }

  // ---------------------------------------------------------------- pdfDiary

  /** The heading line of an entry: its date and its tags, or "-" when they join to nothing. */
  function DiaryHead(e: DiaryEntry): string {
    var tags := Join(e.tags, ", ");
    e.date + "  \U{2022}  tags: " + (if tags == "" then "-" else tags)
  }

  /** The tags part of the heading is "-" exactly when there are no tags or one empty tag, and the joined tags otherwise. */
  lemma DiaryHeadTags(e: DiaryEntry)
    ensures DiaryHead(e) == e.date + "  \U{2022}  tags: "
            + (if e.tags == [] || e.tags == [""] then "-" else Join(e.tags, ", "))
  {
    if |e.tags| >= 2 {
      JoinFirst(e.tags[0], e.tags[1..], ", ");
      assert [e.tags[0]] + e.tags[1..] == e.tags;
      assert |Join(e.tags, ", ")| >= 2;
    }
  }

  /** The body of an entry: its trimmed text, or "(sem texto)". */
  function DiaryBody(e: DiaryEntry): (r: string)
    ensures Trimmed(r) && r != ""
    ensures Trim(e.text) == "" ==> r == "(sem texto)"
    ensures Trim(e.text) != "" ==> r == Trim(e.text)
  {
    var t := Trim(e.text);
    TrimSpec(e.text);
    if t == "" then "(sem texto)" else t
  }

  /** The wrap width of diary bodies. */
  const DiaryWidth := 92

  /** One body-line item per wrapped line. */
  function BodyItems(lines: seq<string>): (r: seq<Item>)
    decreases |lines|
  {
    if lines == [] then [] else BodyItems(lines[..|lines| - 1]) + [Item(BodyLine, [lines[|lines| - 1]])]
  }

  /** What one entry contributes: its heading, its wrapped body lines, its separator rule. */
  function EntryItems(e: DiaryEntry): seq<Item> {
    [Item(Header, [DiaryHead(e)])] + BodyItems(Wrap(DiaryBody(e), DiaryWidth)) + [Item(Separator, [])]
  }

  function EntriesItems(es: seq<DiaryEntry>): seq<Item>
    decreases |es|
  {
    if es == [] then [] else EntriesItems(es[..|es| - 1]) + EntryItems(es[|es| - 1])
  }

  function StampText(stamp: string): string {
    "Gerado em: " + stamp
  }

  /** Everything `pdfDiary` draws, in order. */
  function DiaryItems(es: seq<DiaryEntry>, title: string, stamp: string): seq<Item> {
    [Item(Title, [title]), Item(Stamp, [StampText(stamp)]), Item(TopRule, [])] + EntriesItems(es)
  }

  /**
    `pdfDiary`: the title, the generation stamp (given, as the clock is outside
    the model) and a rule, then per entry its heading, its body wrapped at 92
    characters and a separator, placed by the pagination rule.
   */
  method PdfDiary(entries: seq<DiaryEntry>, title: string, stamp: string) returns (draws: seq<Draw>)
    ensures draws == Layout(DiaryItems(entries, title, stamp)).draws
    ensures Paginated(draws) && Items(draws) == DiaryItems(entries, title, stamp)
  {
    var page: nat, y;
    draws, page, y := DiaryTop(title, stamp);
    assert entries[..0] == [];
    for i := 0 to |entries|
      invariant Laid(draws, Cursor(page, y)) == Layout(DiaryItems(entries[..i], title, stamp))
    {
      draws, page, y := DrawEntry(draws, page, y, entries[i], DiaryItems(entries[..i], title, stamp));
      DiaryItemsSnoc(entries, i, title, stamp);
    }
    assert entries[..|entries|] == entries;
    LayoutPaginated(DiaryItems(entries, title, stamp));
  }

  lemma DiaryItemsSnoc(es: seq<DiaryEntry>, i: int, title: string, stamp: string)
    requires 0 <= i < |es|
    ensures DiaryItems(es[..i + 1], title, stamp) == DiaryItems(es[..i], title, stamp) + EntryItems(es[i])
  {
    assert es[..i + 1][..i] == es[..i];
  }

  /** The part of `pdfDiary` above the entries: title, stamp and rule. */
  method DiaryTop(title: string, stamp: string) returns (draws: seq<Draw>, page: nat, y: int)
    ensures Laid(draws, Cursor(page, y)) == Layout(DiaryItems([], title, stamp))
  {
    page := 0;
    y := PageTop;
    var top := [Item(Title, [title]), Item(Stamp, [StampText(stamp)]), Item(TopRule, [])];
    draws := [];
    ghost var shown: seq<Item> := [];
    PlainSnoc(shown, top[0], draws, page, y);
    draws, y, shown := draws + [Draw(page, y, top[0])], y - 22, shown + [top[0]];
    PlainSnoc(shown, top[1], draws, page, y);
    draws, y, shown := draws + [Draw(page, y, top[1])], y - 18, shown + [top[1]];
    PlainSnoc(shown, top[2], draws, page, y);
    draws, y, shown := draws + [Draw(page, y, top[2])], y - 10, shown + [top[2]];
    assert shown == top;
    assert DiaryItems([], title, stamp) == top by {
      assert EntriesItems([]) == [];
    }
  }

  /** One pass of the entry loop of `pdfDiary`, after the items `prior`. */
  method DrawEntry(ds: seq<Draw>, page0: nat, y0: int, e: DiaryEntry, ghost prior: seq<Item>)
    returns (draws: seq<Draw>, page: nat, y: int)
    requires Laid(ds, Cursor(page0, y0)) == Layout(prior)
    ensures Laid(draws, Cursor(page, y)) == Layout(prior + EntryItems(e))
  {
    draws, page, y := ds, page0, y0;
    var head := DiaryHead(e);
    var body := DiaryBody(e);
    var blocks := WrapText(body, DiaryWidth);
    HeaderDrawn(prior, head, draws, page, y);
    if y < 120 {
      page := page + 1;
      y := PageTop;
    }
    draws := draws + [Draw(page, y, Item(Header, [head]))];
    y := y - 14;
    draws, page, y := DrawLines(draws, page, y, blocks, prior + [Item(Header, [head])]);
    SeparatorDrawn(prior, e, blocks, draws, page, y);
    y := y - 6;
    draws := draws + [Draw(page, y, Item(Separator, []))];
    y := y - 12;
  }

  /** The entry heading: a new page below 120, the heading, the cursor down by 14. */
  lemma HeaderDrawn(prior: seq<Item>, head: string, ds: seq<Draw>, page: nat, y: int)
    requires Laid(ds, Cursor(page, y)) == Layout(prior)
    ensures var p := if y < 120 then Cursor(page + 1, PageTop) else Cursor(page, y);
      Laid(ds + [Draw(p.page, p.y, Item(Header, [head]))], Cursor(p.page, p.y - 14)) == Layout(prior + [Item(Header, [head])])
  {
    LayoutSnoc(prior, Item(Header, [head]));
  }

  /** The entry separator: the cursor down by 6, the rule, the cursor down by 12. */
  lemma SeparatorDrawn(prior: seq<Item>, e: DiaryEntry, blocks: seq<string>, ds: seq<Draw>, page: nat, y: int)
    requires blocks == Wrap(DiaryBody(e), DiaryWidth)
    requires Laid(ds, Cursor(page, y)) == Layout(prior + [Item(Header, [DiaryHead(e)])] + BodyItems(blocks))
    ensures Laid(ds + [Draw(page, y - 6, Item(Separator, []))], Cursor(page, y - 18)) == Layout(prior + EntryItems(e))
  {
    var lines := prior + [Item(Header, [DiaryHead(e)])] + BodyItems(blocks);
    LayoutSnoc(lines, Item(Separator, []));
    assert prior + EntryItems(e) == lines + [Item(Separator, [])] by {
      assert EntryItems(e) == [Item(Header, [DiaryHead(e)])] + BodyItems(blocks) + [Item(Separator, [])];
    }
  }

  /** Laying out one more wrapped line extends the layout of the lines before it. */
  lemma BodyStep(prior: seq<Item>, blocks: seq<string>, k: int, l: Laid)
    requires 0 <= k < |blocks| && l == Layout(prior + BodyItems(blocks[..k]))
    ensures Step(l, Item(BodyLine, [blocks[k]])) == Layout(prior + BodyItems(blocks[..k + 1]))
  {
    var before := prior + BodyItems(blocks[..k]);
    LayoutSnoc(before, Item(BodyLine, [blocks[k]]));
    assert blocks[..k + 1][..k] == blocks[..k];
    assert before + [Item(BodyLine, [blocks[k]])] == prior + BodyItems(blocks[..k + 1]);
  }

  /** The inner loop of `pdfDiary`: the wrapped body lines of one entry. */
  method DrawLines(ds: seq<Draw>, page0: nat, y0: int, blocks: seq<string>, ghost prior: seq<Item>)
    returns (draws: seq<Draw>, page: nat, y: int)
    requires Laid(ds, Cursor(page0, y0)) == Layout(prior)
    ensures Laid(draws, Cursor(page, y)) == Layout(prior + BodyItems(blocks))
  {
    draws, page, y := ds, page0, y0;
    assert prior + BodyItems(blocks[..0]) == prior;
    for k := 0 to |blocks|
      invariant Laid(draws, Cursor(page, y)) == Layout(prior + BodyItems(blocks[..k]))
    {
      ghost var l := Laid(draws, Cursor(page, y));
      if y < 70 {
        page := page + 1;
        y := PageTop;
      }
      draws := draws + [Draw(page, y, Item(BodyLine, [blocks[k]]))];
      y := y - 13;
      assert Laid(draws, Cursor(page, y)) == Step(l, Item(BodyLine, [blocks[k]]));
      BodyStep(prior, blocks, k, l);
    }
    assert blocks[..|blocks|] == blocks;
  }

  // ---------------------------------------------------------------- pdfCash

  /** The table's columns: left edge and width. */
  const Columns: seq<(int, int)> := [(40, 90), (130, 70), (200, 90), (290, 120), (410, 145)]

  /** The pixels per character `drawRow` passes to `fitText`. */
  const CharPx := 40

  /** `drawRow`: each of the five cells fitted to its column. */
  function FitRow(cells: seq<string>): (r: seq<string>)
    requires |cells| == 5
    ensures |r| == 5
  {
    seq(5, i requires 0 <= i < 5 => FitText(cells[i], Columns[i].1, CharPx))
  }

  /** The character budgets of the five columns. */
  const Budgets: seq<int> := [10, 10, 10, 12, 14]

  /** The column budgets come out at 10, 10, 10, 12 and 14 characters. */
  lemma ColumnBudgets()
    ensures forall i :: 0 <= i < 5 ==> CharBudget(Columns[i].1, CharPx) == Chars(Budgets[i])
  {
    assert FloorDiv(4 * 90, 40) == 9 && FloorDiv(4 * 70, 40) == 7;
    assert FloorDiv(4 * 120, 40) == 12 && FloorDiv(4 * 145, 40) == 14;
  }

  /** Every fitted cell is within its column's budget, and a cell within the budget is drawn unchanged. */
  lemma FitRowFits(cells: seq<string>)
    requires |cells| == 5
    ensures forall i :: 0 <= i < 5 ==> |FitRow(cells)[i]| <= Budgets[i]
    ensures forall i :: 0 <= i < 5 && |cells[i]| <= Budgets[i] ==> FitRow(cells)[i] == cells[i]
  {
    ColumnBudgets();
  }

  const HeaderNames: seq<string> := ["Data", "Tipo", "Valor", "Categoria", "Descri\U{00E7}\U{00E3}o"]

  /** The header names fit their columns, so the table header is drawn uncut. */
  lemma HeaderUncut()
    ensures FitRow(HeaderNames) == HeaderNames
  {
    FitRowFits(HeaderNames);
  }

  /** The five cells of a row before fitting: date, kind, amount, category, description. */
  function RowCells(t: Txn, money: int -> string, date: int -> string): (r: seq<string>)
    ensures |r| == 5
  {
    var desc := Trim(t.description);
    [date(t.dateTime), if t.kind == "in" then "Entrada" else "Sa\U{00ED}da", money(t.amountCents),
     if t.category == "" then "-" else t.category, if desc == "" then "-" else desc]
  }

  /** The kind cell is one of the two labels; a blank category or description is drawn as "-", the category otherwise as is and the description trimmed. */
  lemma RowCellsPlaceholders(t: Txn, money: int -> string, date: int -> string)
    ensures var r := RowCells(t, money, date);
      (r[1] == "Entrada" <==> t.kind == "in") && (r[1] != "Entrada" ==> r[1] == "Sa\U{00ED}da")
      && r[3] != "" && r[4] != "" && Trimmed(r[4])
      && (t.category != "" ==> r[3] == t.category) && (t.category == "" ==> r[3] == "-")
      && (Trim(t.description) == "" ==> r[4] == "-") && (Trim(t.description) != "" ==> r[4] == Trim(t.description))
  {
    TrimSpec(t.description);
  }

  /** The row `drawRow` draws for a transaction. */
  function RowOf(t: Txn, money: int -> string, date: int -> string): Item {
    Item(Row, FitRow(RowCells(t, money, date)))
  }

  /** One table row per transaction, in order. */
  function RowItems(ts: seq<Txn>, money: int -> string, date: int -> string): (r: seq<Item>)
    decreases |ts|
  {
    if ts == [] then [] else RowItems(ts[..|ts| - 1], money, date) + [RowOf(ts[|ts| - 1], money, date)]
  }

  lemma RowItemsSnoc(ts: seq<Txn>, t: Txn, money: int -> string, date: int -> string)
    ensures RowItems(ts + [t], money, date) == RowItems(ts, money, date) + [RowOf(t, money, date)]
  {
    assert (ts + [t])[..|ts|] == ts;
  }

  /** One pass of the row loop of `pdfCash`: a new page below 70, the row, the cursor down by 14. */
  lemma RowDrawn(totals: Totals, title: string, stamp: string, ts: seq<Txn>, i: int, ds: seq<Draw>, page: nat, y: int,
                 money: int -> string, date: int -> string)
    requires 0 <= i < |ts|
    requires Laid(ds, Cursor(page, y)) == Layout(CashItems(totals, ts[..i], title, stamp, money, date))
    ensures var row := RowOf(ts[i], money, date);
      var p := if y < 70 then Cursor(page + 1, PageTop) else Cursor(page, y);
      Laid(ds + [Draw(p.page, p.y, row)], Cursor(p.page, p.y - 14)) == Layout(CashItems(totals, ts[..i + 1], title, stamp, money, date))
  {
    var row := RowOf(ts[i], money, date);
    var before := CashItems(totals, ts[..i], title, stamp, money, date);
    assert CashItems(totals, ts[..i + 1], title, stamp, money, date) == before + [row] by {
      assert ts[..i + 1] == ts[..i] + [ts[i]];
      CashItemsSnoc(totals, ts[..i], ts[i], title, stamp, money, date);
    }
    LayoutSnoc(before, row);
    assert row.role == Row;
  }

  lemma CashItemsSnoc(totals: Totals, ts: seq<Txn>, t: Txn, title: string, stamp: string,
                      money: int -> string, date: int -> string)
    ensures CashItems(totals, ts + [t], title, stamp, money, date)
            == CashItems(totals, ts, title, stamp, money, date) + [RowOf(t, money, date)]
  {
    RowItemsSnoc(ts, t, money, date);
  }

  /** Row `i` is the fitted cells of transaction `i`. */
  lemma {:induction false} RowItemsIndex(ts: seq<Txn>, money: int -> string, date: int -> string)
    ensures |RowItems(ts, money, date)| == |ts|
    ensures forall i :: 0 <= i < |ts| ==> RowItems(ts, money, date)[i] == RowOf(ts[i], money, date)
    decreases |ts|
  {
    if ts != [] {
      RowItemsIndex(ts[..|ts| - 1], money, date);
    }
  }

  function SummaryText(t: Totals, money: int -> string): string {
    "Entradas: " + money(t.totalIn) + "   \U{2022}   Sa\U{00ED}das: " + money(t.totalOut)
    + "   \U{2022}   Saldo: " + money(t.balance)
  }

  /** Everything `pdfCash` draws, in order: `totals` are those of the transactions, `sorted` the rows' order. */
  function CashItems(totals: Totals, sorted: seq<Txn>, title: string, stamp: string,
                     money: int -> string, date: int -> string): seq<Item> {
    [Item(Title, [title]), Item(Stamp, [StampText(stamp)]), Item(Summary, [SummaryText(totals, money)]),
     Item(SummaryRule, []), Item(HeadRow, FitRow(HeaderNames)), Item(HeadRule, [])]
    + RowItems(sorted, money, date)
  }

  /** The table header is drawn once, before every row. */
  lemma CashHeaderOnce(totals: Totals, sorted: seq<Txn>, title: string, stamp: string,
                       money: int -> string, date: int -> string)
    ensures var items := CashItems(totals, sorted, title, stamp, money, date);
      items[4].role == HeadRow && forall i :: 0 <= i < |items| && items[i].role == HeadRow ==> i == 4
    ensures var items := CashItems(totals, sorted, title, stamp, money, date);
      |items| == 6 + |sorted| && forall i :: 6 <= i < |items| ==> items[i].role == Row
  {
    var rows := RowItems(sorted, money, date);
    assert |rows| == |sorted| && forall k :: 0 <= k < |rows| ==> rows[k].role == Row by {
      RowItemsIndex(sorted, money, date);
    }
    var head := [Item(Title, [title]), Item(Stamp, [StampText(stamp)]), Item(Summary, [SummaryText(totals, money)]),
                 Item(SummaryRule, []), Item(HeadRow, FitRow(HeaderNames)), Item(HeadRule, [])];
    var items := CashItems(totals, sorted, title, stamp, money, date);
    assert items == head + rows;
    forall i | 6 <= i < |items| ensures items[i].role == Row {
      assert items[i] == rows[i - 6];
    }
  }

  predicate TimeAscending(s: seq<Txn>) {
    forall p, q :: 0 <= p < q < |s| ==> s[p].dateTime <= s[q].dateTime
  }

  /** `txns.sort((a, b) => a.dateTime - b.dateTime)`, in place on the caller's array (an insertion sort). */
  method SortByDateTime(a: array<Txn>)
    modifies a
    ensures TimeAscending(a[..])
    ensures multiset(a[..]) == multiset(old(a[..]))
  {
    for i := 0 to a.Length
      invariant TimeAscending(a[..i])
      invariant multiset(a[..]) == multiset(old(a[..]))
    {
      Sink(a, i);
    }
    assert a[..a.Length] == a[..];
  }

  /** Swaps `a[i]` down into the sorted prefix `a[..i]`. */
  method Sink(a: array<Txn>, i: int)
    requires 0 <= i < a.Length && TimeAscending(a[..i])
    modifies a
    ensures TimeAscending(a[..i + 1])
    ensures multiset(a[..]) == multiset(old(a[..]))
  {
    var j := i;
    SinkStart(a[..], i);
    while j > 0 && a[j - 1].dateTime > a[j].dateTime
      invariant 0 <= j <= i
      invariant Sinking(a[..], i, j)
      invariant multiset(a[..]) == multiset(old(a[..]))
    {
      ghost var s := a[..];
      a[j - 1], a[j] := a[j], a[j - 1];
      assert a[..] == s[j - 1 := s[j]][j := s[j - 1]];
      SinkStep(s, i, j);
      j := j - 1;
    }
    SinkDone(a[..], i, j);
  }

  /** While `a[i]` sinks to position `j`: the others are in order, and it is below everything after it. */
  predicate Sinking(s: seq<Txn>, i: int, j: int)
    requires 0 <= j <= i < |s|
  {
    (forall p, q :: 0 <= p < q <= i && p != j && q != j ==> s[p].dateTime <= s[q].dateTime)
    && (forall q :: j < q <= i ==> s[j].dateTime < s[q].dateTime)
  }

  lemma SinkStart(s: seq<Txn>, i: int)
    requires 0 <= i < |s| && TimeAscending(s[..i])
    ensures Sinking(s, i, i)
  {
    forall p, q | 0 <= p < q < i ensures s[p].dateTime <= s[q].dateTime {
      assert s[..i][p] == s[p] && s[..i][q] == s[q];
    }
  }

  lemma SinkStep(s: seq<Txn>, i: int, j: int)
    requires 0 < j <= i < |s| && Sinking(s, i, j) && s[j - 1].dateTime > s[j].dateTime
    ensures Sinking(s[j - 1 := s[j]][j := s[j - 1]], i, j - 1)
    ensures multiset(s[j - 1 := s[j]][j := s[j - 1]]) == multiset(s)
  {
  }

  lemma SinkDone(s: seq<Txn>, i: int, j: int)
    requires 0 <= j <= i < |s| && Sinking(s, i, j)
    requires j == 0 || s[j - 1].dateTime <= s[j].dateTime
    ensures TimeAscending(s[..i + 1])
  {
  }

  /** An item that never starts a page and has no gap before it is drawn at the cursor. */
  lemma PlainSnoc(items: seq<Item>, it: Item, ds: seq<Draw>, page: nat, y: int)
    requires Laid(ds, Cursor(page, y)) == Layout(items)
    requires !Breaks(it.role) && Gap(it.role) == 0
    ensures Laid(ds + [Draw(page, y, it)], Cursor(page, y - Advance(it.role))) == Layout(items + [it])
  {
    LayoutSnoc(items, it);
  }

  /** The part of `pdfCash` above the rows: title, stamp, summary and rule, table header and rule. */
  method CashHead(title: string, stamp: string, totals: Totals, money: int -> string)
    returns (draws: seq<Draw>, page: nat, y: int)
    ensures forall date: int -> string :: Laid(draws, Cursor(page, y)) == Layout(CashItems(totals, [], title, stamp, money, date))
  {
    page := 0;
    y := PageTop;
    var top := [Item(Title, [title]), Item(Stamp, [StampText(stamp)]), Item(Summary, [SummaryText(totals, money)]),
                Item(SummaryRule, []), Item(HeadRow, FitRow(HeaderNames)), Item(HeadRule, [])];
    draws := [];
    ghost var shown: seq<Item> := [];
    PlainSnoc(shown, top[0], draws, page, y);
    draws, y, shown := draws + [Draw(page, y, top[0])], y - 22, shown + [top[0]];
    PlainSnoc(shown, top[1], draws, page, y);
    draws, y, shown := draws + [Draw(page, y, top[1])], y - 18, shown + [top[1]];
    PlainSnoc(shown, top[2], draws, page, y);
    draws, y, shown := draws + [Draw(page, y, top[2])], y - 16, shown + [top[2]];
    PlainSnoc(shown, top[3], draws, page, y);
    draws, y, shown := draws + [Draw(page, y, top[3])], y - 12, shown + [top[3]];
    PlainSnoc(shown, top[4], draws, page, y);
    draws, y, shown := draws + [Draw(page, y, top[4])], y - 14, shown + [top[4]];
    PlainSnoc(shown, top[5], draws, page, y);
    draws, y, shown := draws + [Draw(page, y, top[5])], y - 10, shown + [top[5]];
    assert shown == top;
    forall date: int -> string ensures CashItems(totals, [], title, stamp, money, date) == top {
      assert RowItems([], money, date) == [];
    }
  }

  /**
    `pdfCash`: the totals over the transactions as given, the title, the stamp,
    the summary line and a rule, the table header and a rule, then the caller's
    array sorted in place by `dateTime` and one row per transaction in that order,
    placed by the pagination rule. `money` and `date` are the locale formatters.
   */
  method PdfCash(txns: array<Txn>, title: string, stamp: string, money: int -> string, date: int -> string)
    returns (draws: seq<Draw>)
    modifies txns
    ensures TimeAscending(txns[..]) && multiset(txns[..]) == multiset(old(txns[..]))
    ensures draws == Layout(CashItems(CashTotals(old(txns[..])), txns[..], title, stamp, money, date)).draws
    ensures Paginated(draws) && Items(draws) == CashItems(CashTotals(old(txns[..])), txns[..], title, stamp, money, date)
  {
    var totals := CashTotals(txns[..]);
    var page: nat, y;
    draws, page, y := CashHead(title, stamp, totals, money);
    SortByDateTime(txns);
    ghost var sorted := txns[..];
    assert txns[..0] == [];
    for i := 0 to txns.Length
      invariant txns[..] == sorted
      invariant Laid(draws, Cursor(page, y)) == Layout(CashItems(totals, txns[..i], title, stamp, money, date))
    {
      RowDrawn(totals, title, stamp, txns[..], i, draws, page, y, money, date);
      if y < 70 {
        page := page + 1;
        y := PageTop;
      }
      var row := FitRow(RowCells(txns[i], money, date));
      draws := draws + [Draw(page, y, Item(Row, row))];
      y := y - 14;
    }
    assert txns[..txns.Length] == txns[..];
    LayoutPaginated(CashItems(CashTotals(old(txns[..])), txns[..], title, stamp, money, date));
  }
}
