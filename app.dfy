/**
  The helpers of app.js that carry logic: HTML escaping, the comma-separated tag
  field, the text side of the money parser and the guard of the save button, the
  delete cascade of a transaction, the day totals of the home screen and the date
  range of the diary report.
 */
module App {
  import opened Wrappers
  import opened Strings
  import opened Collections
  import opened Db
  import opened Report

  // ---------------------------------------------------------------- escapeHTML

  /** `s.replaceAll(c, with)` for a one-character pattern. */
  function ReplaceAll(s: string, c: char, with: string): (r: string)
    ensures forall d :: d in r ==> (d in s && d != c) || d in with
    ensures c !in s ==> r == s
    decreases |s|
  {
    if s == [] then [] else (if s[0] == c then with else [s[0]]) + ReplaceAll(s[1..], c, with)
  }

  lemma {:induction false} ReplaceAllConcat(a: string, b: string, c: char, with: string)
    ensures ReplaceAll(a + b, c, with) == ReplaceAll(a, c, with) + ReplaceAll(b, c, with)
    decreases |a|
  {
    if a == [] {
      assert a + b == b;
    } else {
      assert (a + b)[0] == a[0];
      assert (a + b)[1..] == a[1..] + b;
      ReplaceAllConcat(a[1..], b, c, with);
    }
  }

  /** `escapeHTML`: `&` first, then `<`, then `>`. */
  function EscapeHTML(s: string): string {
    ReplaceAll(ReplaceAll(ReplaceAll(s, '&', "&amp;"), '<', "&lt;"), '>', "&gt;")
  }

  /** The entity of one character. */
  function EscapeChar(x: char): string {
    if x == '&' then "&amp;" else if x == '<' then "&lt;" else if x == '>' then "&gt;" else [x]
  }

  /** Independent reference: every character replaced by its entity in a single pass. */
  function EscapeEach(s: string): string
    decreases |s|
  {
    if s == [] then [] else EscapeChar(s[0]) + EscapeEach(s[1..])
  }

  lemma EscapeConcat(a: string, b: string)
    ensures EscapeHTML(a + b) == EscapeHTML(a) + EscapeHTML(b)
  {
    ReplaceAllConcat(a, b, '&', "&amp;");
    var a1, b1 := ReplaceAll(a, '&', "&amp;"), ReplaceAll(b, '&', "&amp;");
    ReplaceAllConcat(a1, b1, '<', "&lt;");
    ReplaceAllConcat(ReplaceAll(a1, '<', "&lt;"), ReplaceAll(b1, '<', "&lt;"), '>', "&gt;");
  }

  lemma ReplaceAllOne(x: char, c: char, with: string)
    ensures ReplaceAll([x], c, with) == if x == c then with else [x]
  {
    assert [x][1..] == [];
  }

  lemma EscapeOne(x: char)
    ensures EscapeHTML([x]) == EscapeChar(x)
  {
    ReplaceAllOne(x, '&', "&amp;");
    if x == '&' {
      assert '<' !in "&amp;" && '>' !in "&amp;";
    } else {
      ReplaceAllOne(x, '<', "&lt;");
      if x == '<' {
        assert '>' !in "&lt;";
      } else {
        ReplaceAllOne(x, '>', "&gt;");
      }
    }
  }

  /**
    Because `&` is replaced first, the three passes act like one pass over the
    characters: the `&` of an inserted `&lt;` is never escaped again.
   */
  lemma {:induction false} EscapeOnePass(s: string)
    ensures EscapeHTML(s) == EscapeEach(s)
    decreases |s|
  {
    if s != [] {
      assert s == [s[0]] + s[1..];
      EscapeConcat([s[0]], s[1..]);
      EscapeOne(s[0]);
      EscapeOnePass(s[1..]);
    }
  }

  /** The output holds no `<` and no `>`; empty input gives ""; input with none of `& < >` is left as it is. */
  lemma EscapeLaws(s: string)
    ensures '<' !in EscapeHTML(s) && '>' !in EscapeHTML(s)
    ensures EscapeHTML("") == ""
    ensures '&' !in s && '<' !in s && '>' !in s ==> EscapeHTML(s) == s
    ensures EscapeHTML("<") == "&lt;"
  {
    EscapeOne('<');
  }

  /** The HTML parser's reading of the three entities; every other character stands for itself. */
  function Unescape(s: string): string
    decreases |s|
  {
    if s == [] then []
    else if |s| >= 5 && s[..5] == "&amp;" then "&" + Unescape(s[5..])
    else if |s| >= 4 && s[..4] == "&lt;" then "<" + Unescape(s[4..])
    else if |s| >= 4 && s[..4] == "&gt;" then ">" + Unescape(s[4..])
    else [s[0]] + Unescape(s[1..])
  }

  lemma UnescapeAmp(rest: string)
    ensures Unescape("&amp;" + rest) == "&" + Unescape(rest)
  {
    var t := "&amp;" + rest;
    assert t[..5] == "&amp;" && t[5..] == rest;
  }

  lemma UnescapeLt(rest: string)
    ensures Unescape("&lt;" + rest) == "<" + Unescape(rest)
  {
    var t := "&lt;" + rest;
    assert t[1] == 'l';
    assert |t| < 5 || t[..5] != "&amp;" by {
      if |t| >= 5 {
        assert t[..5][1] == 'l';
      }
    }
    assert t[..4] == "&lt;" && t[4..] == rest;
  }

  lemma UnescapeGt(rest: string)
    ensures Unescape("&gt;" + rest) == ">" + Unescape(rest)
  {
    var t := "&gt;" + rest;
    assert |t| < 5 || t[..5] != "&amp;" by {
      if |t| >= 5 {
        assert t[..5][1] == 'g';
      }
    }
    assert t[..4][1] == 'g';
    assert t[..4] == "&gt;" && t[4..] == rest;
  }

  lemma UnescapeOther(x: char, rest: string)
    requires x != '&'
    ensures Unescape([x] + rest) == [x] + Unescape(rest)
  {
    var t := [x] + rest;
    assert |t| < 5 || t[..5] != "&amp;" by {
      if |t| >= 5 {
        assert t[..5][0] == x;
      }
    }
    assert |t| < 4 || (t[..4] != "&lt;" && t[..4] != "&gt;") by {
      if |t| >= 4 {
        assert t[..4][0] == x;
      }
    }
    assert t[0] == x && t[1..] == rest;
  }

  lemma UnescapeFirst(x: char, rest: string)
    ensures Unescape(EscapeChar(x) + rest) == [x] + Unescape(rest)
  {
    if x == '&' {
      UnescapeAmp(rest);
    } else if x == '<' {
      UnescapeLt(rest);
    } else if x == '>' {
      UnescapeGt(rest);
    } else {
      UnescapeOther(x, rest);
    }
  }

  /** The browser shows exactly the text that was escaped. */
  lemma {:induction false} UnescapeEscape(s: string)
    ensures Unescape(EscapeHTML(s)) == s
    decreases |s|
  {
    EscapeOnePass(s);
    if s != [] {
      UnescapeFirst(s[0], EscapeEach(s[1..]));
      UnescapeEscape(s[1..]);
      EscapeOnePass(s[1..]);
    }
  }

  // ---------------------------------------------------------------- tags

  function TrimAll(parts: seq<string>): (r: seq<string>)
    ensures |r| == |parts|
  {
    seq(|parts|, i requires 0 <= i < |parts| => Trim(parts[i]))
  }

  /** `filter(Boolean)` on strings: the empty string is falsy. */
  predicate NonBlank(t: string) {
    t != ""
  }

  /** `value.split(",").map(s => s.trim()).filter(Boolean)`. */
  function ParseTags(raw: string): (tags: seq<string>)
    ensures forall k :: 0 <= k < |tags| ==> tags[k] != "" && Trimmed(tags[k])
  {
    var pieces := TrimAll(Split(raw, ','));
    FilterMembers(pieces, NonBlank);
    forall k | 0 <= k < |pieces| ensures Trimmed(pieces[k]) {
      TrimSpec(Split(raw, ',')[k]);
    }
    Filter(pieces, NonBlank)
  }

  /** `t` is a non-blank comma-separated piece of `raw`, trimmed. */
  predicate TagOf(raw: string, t: string) {
    t != "" && exists k :: 0 <= k < |Split(raw, ',')| && Trim(Split(raw, ',')[k]) == t
  }

  /** A tag is exactly a non-blank comma-separated piece, trimmed. */
  lemma ParseTagsMembers(raw: string)
    ensures forall t :: t in ParseTags(raw) <==> TagOf(raw, t)
  {
    forall t ensures t in ParseTags(raw) <==> TagOf(raw, t) {
      ParseTagsHas(raw, t);
    }
  }

  lemma ParseTagsHas(raw: string, t: string)
    ensures t in ParseTags(raw) <==> TagOf(raw, t)
  {
    var parts := Split(raw, ',');
    var pieces := TrimAll(parts);
    assert ParseTags(raw) == Filter(pieces, NonBlank);
    FilterMembers(pieces, NonBlank);
    if t in ParseTags(raw) {
      assert t in pieces && NonBlank(t);
      var k :| 0 <= k < |pieces| && pieces[k] == t;
      assert Trim(parts[k]) == t;
      assert t != "";
      assert 0 <= k < |Split(raw, ',')|;
      assert exists k :: 0 <= k < |Split(raw, ',')| && Trim(Split(raw, ',')[k]) == t;
    } else if t != "" {
      forall k | 0 <= k < |parts| ensures Trim(parts[k]) != t {
        assert pieces[k] == Trim(parts[k]);
        assert pieces[k] in pieces;
      }
    }
  }

  /** The pieces `split(",")` makes of tags joined by ", ": all but the first carry the space. */
  function Spaced(tags: seq<string>, pre: string): (r: seq<string>)
    ensures |r| == |tags|
  {
    seq(|tags|, i requires 0 <= i < |tags| => (if i == 0 then pre else " ") + tags[i])
  }

  lemma {:induction false} SplitJoinTags(pre: string, tags: seq<string>)
    requires tags != [] && ',' !in pre
    requires forall k :: 0 <= k < |tags| ==> ',' !in tags[k]
    ensures Split(pre + Join(tags, ", "), ',') == Spaced(tags, pre)
    decreases |tags|
  {
    SpacedCons(tags, pre);
    if |tags| == 1 {
      assert tags[0] in tags;
      SplitNone(pre + tags[0], ',');
    } else {
      var rest := tags[1..];
      assert tags == [tags[0]] + rest;
      assert rest[0] in tags;
      JoinFirst(tags[0], rest, ", ");
      var tail := Join(rest, ", ");
      assert pre + Join(tags, ", ") == (pre + tags[0]) + [','] + (" " + tail);
      SplitAtFirst(pre + tags[0], ',', " " + tail);
      forall k | 0 <= k < |rest| ensures ',' !in rest[k] {
        assert rest[k] == tags[k + 1];
      }
      SplitJoinTags(" ", rest);
    }
  }

  lemma SpacedCons(tags: seq<string>, pre: string)
    requires tags != []
    ensures Spaced(tags, pre) == [pre + tags[0]] + Spaced(tags[1..], " ")
  {
    var r := [pre + tags[0]] + Spaced(tags[1..], " ");
    forall k | 0 <= k < |tags| ensures Spaced(tags, pre)[k] == r[k] {
      if k > 0 {
        assert r[k] == Spaced(tags[1..], " ")[k - 1];
      }
    }
  }

  /** Trimming the pieces gives back the tags. */
  lemma TrimSpaced(tags: seq<string>)
    requires forall k :: 0 <= k < |tags| ==> Trimmed(tags[k])
    ensures TrimAll(Spaced(tags, "")) == tags
  {
    var pieces := TrimAll(Spaced(tags, ""));
    forall k | 0 <= k < |tags| ensures pieces[k] == tags[k] {
      if k == 0 {
        TrimmedIsFixed(tags[0]);
        assert "" + tags[0] == tags[0];
      } else {
        TrimLeadingSpace(tags[k]);
      }
    }
  }

  /** Joining tags with ", " (as app.js:77 fills the tag field) and parsing the text back gives the same tags, in the same order; this is about the strings, not the HTML attribute they are written into. */
  lemma ParseTagsJoin(tags: seq<string>)
    requires forall k :: 0 <= k < |tags| ==> tags[k] != "" && Trimmed(tags[k]) && ',' !in tags[k]
    ensures ParseTags(Join(tags, ", ")) == tags
  {
    var raw := Join(tags, ", ");
    assert ParseTags(raw) == Filter(TrimAll(Split(raw, ',')), NonBlank);
    if tags == [] {
      ParseTagsEmpty();
    } else {
      assert Split(raw, ',') == Spaced(tags, "") by {
        SplitJoinTags("", tags);
        assert "" + raw == raw;
      }
      TrimSpaced(tags);
      FilterAll(tags, NonBlank);
    }
  }

  /** An empty tag field gives no tags. */
  lemma ParseTagsEmpty()
    ensures ParseTags("") == []
  {
    SplitNone("", ',');
    assert TrimAll([""]) == [""];
    assert Filter([""], NonBlank) == [];
  }

  // ---------------------------------------------------------------- parseMoneyToCents

  /** The characters `/[^\d.,]/g` keeps. */
  predicate IsMoneyChar(c: char) {
    '0' <= c <= '9' || c == '.' || c == ','
  }

  /** `.replace(",", ".")`: only the first comma becomes a point. */
  function ReplaceFirstComma(s: string): string {
    var i := IndexOf(s, ',');
    if i == |s| then s else s[..i] + "." + s[i + 1..]
  }

  /** `s.replace(/[^\d.,]/g, "").replace(",", ".")`. */
  function CleanAmount(s: string): (r: string)
    ensures forall i :: 0 <= i < |r| ==> IsMoneyChar(r[i])
  {
    ReplaceFirstComma(Filter(s, IsMoneyChar))
  }

  /**
    The cleaning step keeps exactly the digits, points and commas, in order, and
    turns the first comma, and only that one, into a point.
   */
  lemma CleanAmountLaws(s: string)
    ensures var k := Filter(s, IsMoneyChar);
      (forall c :: c in k <==> c in s && IsMoneyChar(c))
      && (',' !in k ==> CleanAmount(s) == k)
      && (',' in k ==> exists i :: 0 <= i < |k| && k[i] == ',' && ',' !in k[..i] && CleanAmount(s) == k[..i] + "." + k[i + 1..])
  {
    var k := Filter(s, IsMoneyChar);
    FilterMembers(s, IsMoneyChar);
    var i := IndexOf(k, ',');
    if ',' in k {
      assert i < |k|;
      assert ',' !in k[..i];
    } else {
      assert i == |k|;
    }
  }

  /** What `Number(clean)` gives: `NaN`, an infinity, or a finite value. */
  datatype Number = NaN | Infinite | Finite(v: real)

  /**
    `parseMoneyToCents`, with `Number` given as `number` (the browser's parser);
    `Math.round(v * 100)` is taken in exact arithmetic.
   */
  function ParseMoneyToCents(s: string, number: string -> Number): (cents: int)
    ensures cents >= 0
    ensures s == "" ==> cents == 0
    ensures !number(CleanAmount(s)).Finite? ==> cents == 0
    ensures cents > 0 <==> s != "" && number(CleanAmount(s)).Finite? && number(CleanAmount(s)).v * 100.0 >= 0.5
  {
    if s == "" then 0
    else match number(CleanAmount(s))
      case Finite(v) => if v <= 0.0 then 0 else (v * 100.0 + 0.5).Floor
      case _ => 0
  }

  /**
    The save button of the ledger form: an amount that parses to 0 is refused and
    nothing is stored; otherwise the transaction goes into the ledger store.
    The identifier, the time and the form fields are given.
   */
  method SaveTx(db: Store, id: string, dateTime: int, kind: string, amountRaw: string, number: string -> Number,
                category: string, paymentMethod: string, description: string) returns (saved: bool)
    requires db.Valid()
    modifies db
    ensures db.Valid()
    ensures saved <==> ParseMoneyToCents(amountRaw, number) != 0
    ensures saved ==> db.cash == old(db.cash)[id := Txn(id, dateTime, kind, ParseMoneyToCents(amountRaw, number),
                                                         category, paymentMethod, description)]
    ensures saved ==> db.cash[id].amountCents > 0
    ensures !saved ==> db.cash == old(db.cash)
    ensures db.diary == old(db.diary) && db.attach == old(db.attach) && db.config == old(db.config)
  {
    var amountCents := ParseMoneyToCents(amountRaw, number);
    if amountCents == 0 {
      return false;
    }
    db.AddCash(Txn(id, dateTime, kind, amountCents, category, paymentMethod, description));
    return true;
  }

  // ---------------------------------------------------------------- delete cascade

  function AttachmentIds(atts: seq<Attachment>): set<string> {
    set a | a in atts :: a.id
  }

  lemma AttachmentIdsSnoc(atts: seq<Attachment>, i: int)
    requires 0 <= i < |atts|
    ensures AttachmentIds(atts[..i + 1]) == AttachmentIds(atts[..i]) + {atts[i].id}
  {
    assert atts[..i + 1] == atts[..i] + [atts[i]];
  }

  /**
    The delete button of a transaction's view: every attachment of the list taken
    when the view was opened, then the transaction. When that list held all the
    transaction's attachments, none is left.
   */
  method DeleteTransaction(db: Store, txId: string, atts: seq<Attachment>)
    requires db.Valid()
    modifies db
    ensures db.Valid()
    ensures db.attach == old(db.attach) - AttachmentIds(atts)
    ensures db.cash == old(db.cash) - {txId}
    ensures db.diary == old(db.diary) && db.config == old(db.config)
    ensures (forall k :: k in old(db.attach) && old(db.attach)[k].txId == txId ==> k in AttachmentIds(atts))
            ==> forall k :: k in db.attach ==> db.attach[k].txId != txId
  {
    assert atts[..0] == [];
    for i := 0 to |atts|
      invariant db.Valid()
      invariant db.attach == old(db.attach) - AttachmentIds(atts[..i])
      invariant db.cash == old(db.cash) && db.diary == old(db.diary) && db.config == old(db.config)
    {
      db.DeleteAttachment(atts[i].id);
      AttachmentIdsSnoc(atts, i);
    }
    assert atts[..|atts|] == atts;
    db.DeleteCash(txId);
  }

  /**
    The view as written: its list of attachments is read once, when it is opened.
    A photo added afterwards from the same view (`addAtt`, for the same
    transaction) is not in that list, so deleting the transaction leaves it
    behind, pointing at a transaction that no longer exists.
   */
  method AttachAfterOpen(db: Store, txId: string, b: Attachment)
    requires db.Valid() && b.id !in db.attach && b.txId == txId
    modifies db
    ensures db.Valid()
    ensures b.id in db.attach && db.attach[b.id] == b && db.attach[b.id].txId == txId
    ensures txId !in db.cash
  {
    var atts := db.ListAttachmentsByTx(txId);
    assert b.id !in AttachmentIds(atts) by {
      forall a | a in atts ensures a.id != b.id {
        assert a in old(db.attach).Values;
      }
    }
    db.AddAttachment(b);
    DeleteTransaction(db, txId, atts);
  }

  /**
    The delete cascade as intended ("delete the attachments too"): the list is
    read when the button is pressed, so every attachment of the transaction goes,
    and every other attachment stays.
   */
  method DeleteTransactionFresh(db: Store, txId: string)
    requires db.Valid()
    modifies db
    ensures db.Valid()
    ensures forall k :: k in db.attach <==> k in old(db.attach) && old(db.attach)[k].txId != txId
    ensures forall k :: k in db.attach ==> db.attach[k] == old(db.attach)[k]
    ensures db.cash == old(db.cash) - {txId}
    ensures db.diary == old(db.diary) && db.config == old(db.config)
  {
    var atts := db.ListAttachmentsByTx(txId);
    ghost var before := db.attach;
    forall k | k in before ensures k in AttachmentIds(atts) <==> before[k].txId == txId {
      assert before[k] in before.Values;
      if k in AttachmentIds(atts) {
        var a :| a in atts && a.id == k;
        assert a in before.Values;
      }
    }
    DeleteTransaction(db, txId, atts);
  }

  // ---------------------------------------------------------------- home totals

  /** The test of `todayTx`: from the start to the end of today, both included. */
  function IsToday(todayStart: int, todayEnd: int): Txn -> bool {
    (t: Txn) => todayStart <= t.dateTime <= todayEnd
  }

  /** The transactions of today. */
  function TodayTx(txns: seq<Txn>, todayStart: int, todayEnd: int): seq<Txn> {
    Filter(txns, IsToday(todayStart, todayEnd))
  }

  /** The home screen's badges: the ledger totals of today's transactions. */
  function HomeTotals(txns: seq<Txn>, todayStart: int, todayEnd: int): (r: Totals)
    ensures r.totalIn == KindTotal(TodayTx(txns, todayStart, todayEnd), "in")
    ensures r.totalOut == KindTotal(TodayTx(txns, todayStart, todayEnd), "out")
    ensures r.balance == r.totalIn - r.totalOut
  {
    CashTotals(TodayTx(txns, todayStart, todayEnd))
  }

  /**
    A transaction outside today changes none of the badges, and one inside today
    adds its amount to the badge of its kind.
   */
  lemma HomeTotalsLaws(txns: seq<Txn>, t: Txn, todayStart: int, todayEnd: int)
    ensures !(todayStart <= t.dateTime <= todayEnd) ==> HomeTotals(txns + [t], todayStart, todayEnd) == HomeTotals(txns, todayStart, todayEnd)
    ensures todayStart <= t.dateTime <= todayEnd ==>
      HomeTotals(txns + [t], todayStart, todayEnd).totalIn
        == HomeTotals(txns, todayStart, todayEnd).totalIn + (if t.kind == "in" then t.amountCents else 0)
      && HomeTotals(txns + [t], todayStart, todayEnd).totalOut
        == HomeTotals(txns, todayStart, todayEnd).totalOut + (if t.kind == "out" then t.amountCents else 0)
  {
    var p := IsToday(todayStart, todayEnd);
    FilterConcat(txns, [t], p);
    var today := TodayTx(txns, todayStart, todayEnd);
    assert [t][1..] == [];
    KindTotalConcat(today, Filter([t], p), "in");
    KindTotalConcat(today, Filter([t], p), "out");
    if !p(t) {
      assert TodayTx(txns + [t], todayStart, todayEnd) == today + [];
      assert today + [] == today;
    }
  }

  // ---------------------------------------------------------------- diary range

  /** `all.filter(e => e.date >= a && e.date <= b)`, comparing strings. */
  function DiaryInRange(all: seq<DiaryEntry>, a: string, b: string): seq<DiaryEntry> {
    Filter(all, DatedWithin(a, b))
  }

  function DatedWithin(a: string, b: string): DiaryEntry -> bool {
    (e: DiaryEntry) => LexLessEq(a, e.date) && LexLessEq(e.date, b)
  }

  /** The report holds exactly the entries dated from `a` to `b`, and keeps the listing's order. */
  lemma DiaryInRangeLaws(all: seq<DiaryEntry>, a: string, b: string)
    ensures forall e :: e in DiaryInRange(all, a, b) <==> e in all && LexLessEq(a, e.date) && LexLessEq(e.date, b)
    ensures DiaryOrdered(all) ==> DiaryOrdered(DiaryInRange(all, a, b))
  {
    var p := DatedWithin(a, b);
    FilterMembers(all, p);
    if DiaryOrdered(all) {
      FilterOrdered(all, p, (x: DiaryEntry, y: DiaryEntry) => LexLess(x.date, y.date));
    }
  }
}
