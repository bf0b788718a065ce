/**
  The record store of db.js: four object stores (`diary`, `cash`, `attach`,
  `config`) held as maps keyed by each record's key path, the operations the
  application calls on them, and the backup codec (`exportAll`/`importAll`) that
  packs attachment bytes as base64 `data:` URLs and restores them.
 */
module Db {
  import opened Wrappers
  import opened Strings
  import opened Collections
  import opened Base64

  /** A diary entry; the UI always uses the date (YYYY-MM-DD) as its id. */
  datatype DiaryEntry = DiaryEntry(id: string, date: string, text: string, tags: seq<string>, updatedAt: int)

  /** A ledger transaction; `kind` is the record's `type` field, "in" or "out". */
  datatype Txn = Txn(id: string, dateTime: int, kind: string, amountCents: int,
                     category: string, paymentMethod: string, description: string)

  datatype Blob = Blob(bytes: seq<byte>, mimeType: string)

  /** A receipt photo of transaction `txId`, with an optional thumbnail. */
  datatype Attachment = Attachment(id: string, txId: string, mime: string, blob: Blob,
                                   thumbBlob: Option<Blob>, createdAt: int)

  /** An attachment as it appears in a backup: both blobs as `data:` URLs. */
  datatype PackedAttachment = PackedAttachment(id: string, txId: string, mime: string, blob: string,
                                               thumbBlob: Option<string>, createdAt: int)

  /** The document `exportAll` returns. */
  datatype Snapshot = Snapshot(version: int, exportedAt: string, diary: seq<DiaryEntry>,
                               cash: seq<Txn>, attach: seq<PackedAttachment>)

  /** The parsed backup `importAll` receives; a collection may be missing. */
  datatype Payload = Payload(diary: Option<seq<DiaryEntry>>, cash: Option<seq<Txn>>,
                             attach: Option<seq<PackedAttachment>>)

  const BackupVersion := 1
  const OctetStream := "application/octet-stream"

  function DiaryId(e: DiaryEntry): string { e.id }
  function TxnId(t: Txn): string { t.id }
  function AttachmentId(a: Attachment): string { a.id }
  function PackedId(p: PackedAttachment): string { p.id }

  /** `s` holds every record of `m` once. */
  ghost predicate IsListing<T(!new)>(s: seq<T>, m: map<string, T>, key: T -> string) {
    DistinctKeys(s, key) && (forall x :: x in s ==> x in m.Values) && (forall x :: x in m.Values ==> x in s)
  }

  // ---------------------------------------------------------------- diary

  /** The unique `date` index of the diary store: no two entries share a date. */
  predicate DatesUnique(d: map<string, DiaryEntry>) {
    forall k, k' :: k in d && k' in d && d[k].date == d[k'].date ==> k == k'
  }

  /** Putting `e` would not break the unique `date` index. */
  predicate DateFree(d: map<string, DiaryEntry>, e: DiaryEntry) {
    forall k :: k in d && k != e.id ==> d[k].date != e.date
  }

  function Stamp(e: DiaryEntry, now: int): DiaryEntry {
    e.(updatedAt := now)
  }

  function Restamp(d: map<string, DiaryEntry>, now: int): map<string, DiaryEntry> {
    map k | k in d :: Stamp(d[k], now)
  }

  /** Ascending by `date`; strict, as dates are unique. */
  predicate DiaryOrdered(s: seq<DiaryEntry>) {
    forall i, j :: 0 <= i < j < |s| ==> LexLess(s[i].date, s[j].date)
  }

  lemma BelowFirstIsBelowAll(d: string, s: seq<DiaryEntry>)
    requires DiaryOrdered(s) && s != [] && LexLess(d, s[0].date)
    ensures forall j :: 0 <= j < |s| ==> LexLess(d, s[j].date)
  {
    forall j | 0 < j < |s| ensures LexLess(d, s[j].date) {
      LexLessTransitive(d, s[0].date, s[j].date);
    }
  }

  function InsertByDate(s: seq<DiaryEntry>, e: DiaryEntry): (r: seq<DiaryEntry>)
    requires DiaryOrdered(s)
    requires forall x :: x in s ==> x.date != e.date
    ensures DiaryOrdered(r)
    ensures forall x :: x in r <==> x in s || x == e
    decreases |s|
  {
    if s == [] then [e]
    else if LexLess(e.date, s[0].date) then
      BelowFirstIsBelowAll(e.date, s);
      [e] + s
    else
      LexLessTotal(e.date, s[0].date);
      var rest := InsertByDate(s[1..], e);
      assert forall x :: x in rest ==> LexLess(s[0].date, x.date);
      [s[0]] + rest
  }

  /** `sort((a, b) => a.date.localeCompare(b.date))`, with plain code-point order. */
  function SortByDate(s: seq<DiaryEntry>): (r: seq<DiaryEntry>)
    requires forall i, j :: 0 <= i < j < |s| ==> s[i].date != s[j].date
    ensures DiaryOrdered(r)
    ensures forall x :: x in r <==> x in s
    decreases |s|
  {
    if s == [] then []
    else
      var rest := SortByDate(s[1..]);
      assert forall x :: x in rest ==> x.date != s[0].date;
      assert s == [s[0]] + s[1..];
      InsertByDate(rest, s[0])
  }

  /** In a keyed diary store with unique dates, two different entries of a listing have different dates. */
  lemma ListingDatesDistinct(s: seq<DiaryEntry>, d: map<string, DiaryEntry>)
    requires Keyed(d, DiaryId) && DatesUnique(d) && IsListing(s, d, DiaryId)
    ensures forall i, j :: 0 <= i < j < |s| ==> s[i].date != s[j].date
  {
    forall i, j | 0 <= i < j < |s| ensures s[i].date != s[j].date {
      assert s[i] in d.Values && s[j] in d.Values;
      var ki :| ki in d && d[ki] == s[i];
      var kj :| kj in d && d[kj] == s[j];
    }
  }

  /** A date-ordered list of entries of a keyed store repeats no id. */
  lemma OrderedListingDistinct(s: seq<DiaryEntry>, d: map<string, DiaryEntry>)
    requires Keyed(d, DiaryId) && DiaryOrdered(s)
    requires forall x :: x in s ==> x in d.Values
    ensures DistinctKeys(s, DiaryId)
  {
    forall i, j | 0 <= i < j < |s| ensures DiaryId(s[i]) != DiaryId(s[j]) {
      assert s[i] in s && s[j] in s;
      LexLessIrreflexive(s[i].date);
      var ki :| ki in d && d[ki] == s[i];
      var kj :| kj in d && d[kj] == s[j];
    }
  }

  /** The query `searchDiary` matches: lowercased, then trimmed. */
  function Query(text: string): string {
    Trim(Lower(text))
  }

  /** `e.text` or the space-joined tags contain `q`, case-insensitively. */
  predicate Matches(e: DiaryEntry, q: string) {
    Contains(Lower(e.text), q) || Contains(Lower(Join(e.tags, " ")), q)
  }

  /** What `searchDiary` returns from the listing `all`. */
  function SearchResults(all: seq<DiaryEntry>, text: string): seq<DiaryEntry> {
    var q := Query(text);
    if q == "" then all else Filter(all, (e: DiaryEntry) => Matches(e, q))
  }

  // ---------------------------------------------------------------- cash

  /** Descending by `dateTime`, most recent first. */
  predicate CashOrdered(s: seq<Txn>) {
    forall i, j :: 0 <= i < j < |s| ==> s[i].dateTime >= s[j].dateTime
  }

  function InsertByTime(s: seq<Txn>, t: Txn): (r: seq<Txn>)
    requires CashOrdered(s)
    ensures CashOrdered(r)
    ensures forall x :: x in r <==> x in s || x == t
    ensures multiset(r) == multiset(s) + multiset{t}
    decreases |s|
  {
    if s == [] || t.dateTime >= s[0].dateTime then
      InsertFront(s, t);
      [t] + s
    else
      var rest := InsertByTime(s[1..], t);
      InsertBehind(s, t, rest);
      [s[0]] + rest
  }

  /** A transaction no older than the head of an ordered list goes in front. */
  lemma InsertFront(s: seq<Txn>, t: Txn)
    requires CashOrdered(s) && (s == [] || t.dateTime >= s[0].dateTime)
    ensures CashOrdered([t] + s) && multiset([t] + s) == multiset(s) + multiset{t}
    ensures forall x :: x in [t] + s <==> x in s || x == t
  {
    forall y | y in s ensures t.dateTime >= y.dateTime {
      var k :| 0 <= k < |s| && s[k] == y;
      assert s[0].dateTime >= s[k].dateTime;
    }
    ConsOrdered(t, s);
  }

  /** A transaction older than the head goes into the tail; the head stays in front. */
  lemma InsertBehind(s: seq<Txn>, t: Txn, rest: seq<Txn>)
    requires CashOrdered(s) && s != [] && t.dateTime < s[0].dateTime
    requires CashOrdered(rest) && multiset(rest) == multiset(s[1..]) + multiset{t}
    requires forall x :: x in rest <==> x in s[1..] || x == t
    ensures CashOrdered([s[0]] + rest) && multiset([s[0]] + rest) == multiset(s) + multiset{t}
    ensures forall x :: x in [s[0]] + rest <==> x in s || x == t
  {
    assert s == [s[0]] + s[1..];
    forall x | x in rest ensures s[0].dateTime >= x.dateTime {
      if x != t {
        var k :| 0 <= k < |s[1..]| && s[1..][k] == x;
        assert s[k + 1] == x;
      }
    }
    ConsOrdered(s[0], rest);
  }

  lemma ConsOrdered(x: Txn, rest: seq<Txn>)
    requires CashOrdered(rest) && forall y :: y in rest ==> x.dateTime >= y.dateTime
    ensures CashOrdered([x] + rest)
  {
    forall i, j | 0 <= i < j < |[x] + rest| ensures ([x] + rest)[i].dateTime >= ([x] + rest)[j].dateTime {
      assert ([x] + rest)[j] == rest[j - 1] && rest[j - 1] in rest;
      if i > 0 {
        assert ([x] + rest)[i] == rest[i - 1];
      }
    }
  }

  /** `sort((a, b) => b.dateTime - a.dateTime)`. */
  function SortByTime(s: seq<Txn>): (r: seq<Txn>)
    ensures CashOrdered(r)
    ensures forall x :: x in r <==> x in s
    ensures multiset(r) == multiset(s)
    decreases |s|
  {
    if s == [] then []
    else
      var rest := SortByTime(s[1..]);
      assert s == [s[0]] + s[1..];
      InsertByTime(rest, s[0])
  }

  /** Inserting a transaction with a new id keeps the ids distinct. */
  lemma {:induction false} InsertByTimeDistinct(s: seq<Txn>, t: Txn)
    requires CashOrdered(s) && DistinctKeys(s, TxnId) && forall x :: x in s ==> x.id != t.id
    ensures DistinctKeys(InsertByTime(s, t), TxnId)
    decreases |s|
  {
    if s != [] && t.dateTime < s[0].dateTime {
      var rest := s[1..];
      forall x | x in rest ensures x.id != s[0].id {
        var k :| 0 <= k < |rest| && rest[k] == x;
        assert s[k + 1] == x;
      }
      assert DistinctKeys(rest, TxnId) by {
        forall i, j | 0 <= i < j < |rest| ensures TxnId(rest[i]) != TxnId(rest[j]) {
          assert rest[i] == s[i + 1] && rest[j] == s[j + 1];
        }
      }
      InsertByTimeDistinct(rest, t);
      var r := InsertByTime(rest, t);
      assert s[0] in s;
      ConsDistinct(s[0], r);
      assert InsertByTime(s, t) == [s[0]] + r;
    }
  }

  /** Putting a transaction with a new id in front of distinct ones keeps them distinct. */
  lemma ConsDistinct(x: Txn, r: seq<Txn>)
    requires DistinctKeys(r, TxnId) && forall y :: y in r ==> y.id != x.id
    ensures DistinctKeys([x] + r, TxnId)
  {
    forall i, j | 0 <= i < j < |[x] + r| ensures TxnId(([x] + r)[i]) != TxnId(([x] + r)[j]) {
      assert ([x] + r)[j] == r[j - 1] && r[j - 1] in r;
      if i > 0 {
        assert ([x] + r)[i] == r[i - 1];
      }
    }
  }

  /** Sorting a list of transactions with distinct ids keeps them distinct. */
  lemma {:induction false} SortByTimeDistinct(s: seq<Txn>)
    requires DistinctKeys(s, TxnId)
    ensures DistinctKeys(SortByTime(s), TxnId)
    decreases |s|
  {
    if s != [] {
      var rest := s[1..];
      assert DistinctKeys(rest, TxnId) by {
        forall i, j | 0 <= i < j < |rest| ensures TxnId(rest[i]) != TxnId(rest[j]) {
          assert rest[i] == s[i + 1] && rest[j] == s[j + 1];
        }
      }
      SortByTimeDistinct(rest);
      forall x | x in SortByTime(rest) ensures x.id != s[0].id {
        var k :| 0 <= k < |rest| && rest[k] == x;
        assert s[k + 1] == x;
      }
      InsertByTimeDistinct(SortByTime(rest), s[0]);
    }
  }

  predicate InRange(t: Txn, startMs: int, endMs: int) {
    startMs <= t.dateTime <= endMs
  }

  // ---------------------------------------------------------------- attachments and data URLs

  /** `FileReader.readAsDataURL`: a `data:` URL of section 2 of RFC 2397 with base64 data. */
  function DataUrl(b: Blob): string {
    "data:" + b.mimeType + ";base64," + Encode(b.bytes)
  }

  /** The Blob type `base64ToBlob` gives: the attachment's `mime`, or the octet-stream type when it is empty. */
  function BlobType(mime: string): string {
    if mime == "" then OctetStream else mime
  }

  /** What `base64ToBlob` returns: the bytes of the text between the first and the second comma (`split(",")[1]`), or `None` where `atob` throws. */
  function BlobFromDataUrl(dataUrl: string, mime: string): Option<Blob> {
    var parts := Split(dataUrl, ',');
    var b64 := if |parts| > 1 then parts[1] else "";
    match Atob(b64)
    case None => None
    case Some(bytes) => Some(Blob(bytes, BlobType(mime)))
  }

  /** `base64ToBlob`, which copies the decoded characters into a `Uint8Array` one index at a time. */
  method Base64ToBlob(dataUrl: string, mime: string) returns (r: Option<Blob>)
    ensures r == BlobFromDataUrl(dataUrl, mime)
  {
    var parts := Split(dataUrl, ',');
    var b64 := if |parts| > 1 then parts[1] else "";
    var bin := Atob(b64);
    if bin.None? {
      return None;
    }
    var arr := CopyBytes(bin.value);
    r := Some(Blob(arr[..], BlobType(mime)));
  }

  /** The `Uint8Array` that `base64ToBlob` fills one index at a time. */
  method CopyBytes(bs: seq<byte>) returns (arr: array<byte>)
    ensures fresh(arr) && arr[..] == bs
  {
    arr := new byte[|bs|];
    for i := 0 to |bs|
      invariant forall k :: 0 <= k < i ==> arr[k] == bs[k]
    {
      arr[i] := bs[i];
    }
  }

  /** An attachment as `exportAll` packs it. */
  function Pack(a: Attachment): PackedAttachment {
    PackedAttachment(a.id, a.txId, a.mime, DataUrl(a.blob),
                     if a.thumbBlob.Some? then Some(DataUrl(a.thumbBlob.value)) else None, a.createdAt)
  }

  function PackAll(m: map<string, Attachment>): map<string, PackedAttachment> {
    map k | k in m :: Pack(m[k])
  }

  /** A packed attachment as `importAll` rebuilds it; an empty thumbnail string counts as absent. */
  function Unpack(p: PackedAttachment): (r: Option<Attachment>)
    ensures r.Some? ==> r.value.id == p.id && r.value.txId == p.txId && r.value.mime == p.mime && r.value.createdAt == p.createdAt
    ensures r.Some? ==> (r.value.thumbBlob.Some? <==> p.thumbBlob.Some? && p.thumbBlob.value != "")
  {
    match BlobFromDataUrl(p.blob, p.mime)
    case None => None
    case Some(blob) =>
      if p.thumbBlob.Some? && p.thumbBlob.value != "" then
        match BlobFromDataUrl(p.thumbBlob.value, p.mime)
        case None => None
        case Some(thumb) => Some(Attachment(p.id, p.txId, p.mime, blob, Some(thumb), p.createdAt))
      else Some(Attachment(p.id, p.txId, p.mime, blob, None, p.createdAt))
  }

  /** Both blob types of an attachment are free of commas, so a `data:` URL splits at the base64 text. */
  predicate DataUrlSafe(a: Attachment) {
    ',' !in a.blob.mimeType && (a.thumbBlob.Some? ==> ',' !in a.thumbBlob.value.mimeType)
  }

  /** The attachment after a backup round trip: same bytes, blob types taken from `mime`. */
  function Normalized(a: Attachment): Attachment {
    a.(blob := Blob(a.blob.bytes, BlobType(a.mime)),
       thumbBlob := if a.thumbBlob.Some? then Some(Blob(a.thumbBlob.value.bytes, BlobType(a.mime))) else None)
  }

  function NormalizeAll(m: map<string, Attachment>): map<string, Attachment> {
    map k | k in m :: Normalized(m[k])
  }

  /** `base64ToBlob` reads back the bytes that `blobToBase64` wrote. */
  lemma {:induction false} BlobRoundTrip(b: Blob, mime: string)
    requires ',' !in b.mimeType
    ensures BlobFromDataUrl(DataUrl(b), mime) == Some(Blob(b.bytes, BlobType(mime)))
  {
    var head := "data:" + b.mimeType + ";base64";
    var e := Encode(b.bytes);
    assert DataUrl(b) == head + [','] + e;
    assert ',' !in e by {
      EncodeAlphabetOrPad(b.bytes);
    }
    SplitAtFirst(head, ',', e);
    SplitNone(e, ',');
    AtobEncode(b.bytes);
  }

  /** Unpacking a packed attachment gives it back, blob types aside. */
  lemma UnpackPack(a: Attachment)
    requires DataUrlSafe(a)
    ensures Unpack(Pack(a)) == Some(Normalized(a))
  {
    BlobRoundTrip(a.blob, a.mime);
    if a.thumbBlob.Some? {
      BlobRoundTrip(a.thumbBlob.value, a.mime);
    }
  }

  // ---------------------------------------------------------------- import

  /** A store after a run of puts, and whether every put succeeded (the loop stops at the first failure). */
  datatype Applied<T> = Applied(store: map<string, T>, complete: bool)

  /** `for (const e of diary) await putDiary(e)`: stops at the first entry the unique date index rejects. */
  function PutAllDiary(m: map<string, DiaryEntry>, es: seq<DiaryEntry>, now: int): Applied<DiaryEntry>
    decreases |es|
  {
    if es == [] then Applied(m, true)
    else if !DateFree(m, es[0]) then Applied(m, false)
    else PutAllDiary(m[es[0].id := Stamp(es[0], now)], es[1..], now)
  }

  /** `for (const c of cash) await addCash(c)`. */
  function PutAllCash(m: map<string, Txn>, cs: seq<Txn>): map<string, Txn>
    decreases |cs|
  {
    if cs == [] then m else PutAllCash(m[cs[0].id := cs[0]], cs[1..])
  }

  /** Decode each record and put it, stopping at the first one that does not decode. */
  function PutAllDecoded<P>(m: map<string, Attachment>, ps: seq<P>, decode: P -> Option<Attachment>): Applied<Attachment>
    decreases |ps|
  {
    if ps == [] then Applied(m, true)
    else match decode(ps[0])
      case None => Applied(m, false)
      case Some(a) => PutAllDecoded(m[a.id := a], ps[1..], decode)
  }

  /** The attachment loop of `importAll`: stops at the first payload `atob` rejects. */
  function PutAllAttach(m: map<string, Attachment>, ps: seq<PackedAttachment>): Applied<Attachment> {
    PutAllDecoded(m, ps, Unpack)
  }

  /** `payload.x || []`. */
  function OrEmpty<T>(o: Option<seq<T>>): seq<T> {
    if o.Some? then o.value else []
  }

  /** The three stores `importAll` leaves, and whether it ran to the end. */
  datatype Restored = Restored(diary: map<string, DiaryEntry>, cash: map<string, Txn>,
                               attach: map<string, Attachment>, complete: bool)

  function Restore(p: Payload, now: int): Restored {
    var d := PutAllDiary(map[], OrEmpty(p.diary), now);
    if !d.complete then Restored(d.store, map[], map[], false)
    else
      var a := PutAllAttach(map[], OrEmpty(p.attach));
      Restored(d.store, PutAllCash(map[], OrEmpty(p.cash)), a.store, a.complete)
  }

  /** One pass of the attachment loop of `importAll`. */
  lemma PutAllAttachStep(m: map<string, Attachment>, ps: seq<PackedAttachment>, i: int)
    requires 0 <= i < |ps|
    ensures PutAllAttach(m, ps[i..])
            == if Unpack(ps[i]).None? then Applied(m, false)
               else PutAllAttach(m[ps[i].id := Unpack(ps[i]).value], ps[i + 1..])
  {
    assert ps[i..][0] == ps[i] && ps[i..][1..] == ps[i + 1..];
  }

  /** Repeated `addCash` is one map update per record: the last record with an id wins. */
  lemma {:induction false} PutAllCashIsToMap(m: map<string, Txn>, cs: seq<Txn>)
    ensures PutAllCash(m, cs) == m + ToMap(cs, TxnId)
    decreases |cs|
  {
    if cs != [] {
      PutAllCashIsToMap(m[cs[0].id := cs[0]], cs[1..]);
      assert m[cs[0].id := cs[0]] == m + map[TxnId(cs[0]) := cs[0]];
    }
  }

  /** Importing cash keeps exactly the ids of the payload, with the last record of each id. */
  lemma ImportedCash(cs: seq<Txn>)
    ensures forall k :: k in PutAllCash(map[], cs) <==> exists i :: 0 <= i < |cs| && cs[i].id == k
    ensures forall i :: 0 <= i < |cs| && (forall j :: i < j < |cs| ==> cs[j].id != cs[i].id)
              ==> PutAllCash(map[], cs)[cs[i].id] == cs[i]
  {
    PutAllCashIsToMap(map[], cs);
    ToMapLastWins(cs, TxnId);
    assert map[] + ToMap(cs, TxnId) == ToMap(cs, TxnId);
  }

  /** Every diary entry a run of puts stores carries the stamp `now`, and the date index stays unique. */
  lemma {:induction false} PutAllDiaryStamps(m: map<string, DiaryEntry>, es: seq<DiaryEntry>, now: int)
    requires DatesUnique(m) && Keyed(m, DiaryId)
    ensures var r := PutAllDiary(m, es, now).store;
      DatesUnique(r) && Keyed(r, DiaryId) && m.Keys <= r.Keys
    ensures var r := PutAllDiary(m, es, now).store;
      forall k :: k in r ==> (k in m && r[k] == m[k]) || r[k].updatedAt == now
    decreases |es|
  {
    if es != [] && DateFree(m, es[0]) {
      PutAllDiaryStamps(m[es[0].id := Stamp(es[0], now)], es[1..], now);
    }
  }

  function StampAll(es: seq<DiaryEntry>, now: int): (r: seq<DiaryEntry>)
    ensures |r| == |es| && forall i :: 0 <= i < |es| ==> r[i] == Stamp(es[i], now)
  {
    seq(|es|, i requires 0 <= i < |es| => Stamp(es[i], now))
  }

  /** Entries with distinct ids and distinct dates, none of them clashing with the store `m`. */
  predicate FreshEntries(m: map<string, DiaryEntry>, es: seq<DiaryEntry>) {
    DistinctKeys(es, DiaryId)
    && (forall i, j :: 0 <= i < j < |es| ==> es[i].date != es[j].date)
    && (forall i :: 0 <= i < |es| ==> es[i].id !in m && DateFree(m, es[i]))
  }

  /** After putting the first fresh entry, the others are still fresh. */
  lemma FreshTail(m: map<string, DiaryEntry>, es: seq<DiaryEntry>, now: int)
    requires es != [] && FreshEntries(m, es)
    ensures FreshEntries(m[es[0].id := Stamp(es[0], now)], es[1..])
  {
    var m' := m[es[0].id := Stamp(es[0], now)];
    var rest := es[1..];
    forall i | 0 <= i < |rest| ensures rest[i].id !in m' && DateFree(m', rest[i]) {
      assert rest[i] == es[i + 1];
    }
    forall i, j | 0 <= i < j < |rest| ensures rest[i].date != rest[j].date && DiaryId(rest[i]) != DiaryId(rest[j]) {
      assert rest[i] == es[i + 1] && rest[j] == es[j + 1];
    }
  }

  /** Fresh entries are all put, each re-stamped. */
  lemma {:induction false} PutAllDiaryFree(m: map<string, DiaryEntry>, es: seq<DiaryEntry>, now: int)
    requires FreshEntries(m, es)
    ensures PutAllDiary(m, es, now) == Applied(m + ToMap(StampAll(es, now), DiaryId), true)
    decreases |es|
  {
    if es != [] {
      var e := es[0];
      assert DateFree(m, e);
      FreshTail(m, es, now);
      PutAllDiaryFree(m[e.id := Stamp(e, now)], es[1..], now);
      assert StampAll(es, now) == [Stamp(e, now)] + StampAll(es[1..], now);
      PutOne(m, Stamp(e, now), StampAll(es[1..], now), DiaryId);
    }
  }

  lemma RestampListing(ds: seq<DiaryEntry>, d: map<string, DiaryEntry>, now: int)
    requires Keyed(d, DiaryId) && IsListing(ds, d, DiaryId)
    ensures IsListing(StampAll(ds, now), Restamp(d, now), DiaryId) && Keyed(Restamp(d, now), DiaryId)
  {
    var s := StampAll(ds, now);
    var r := Restamp(d, now);
    forall x ensures x in s <==> x in r.Values {
      if x in s {
        var i :| 0 <= i < |s| && s[i] == x;
        assert ds[i] in ds;
        var k :| k in d && d[k] == ds[i];
        assert r[k] == x;
      }
      if x in r.Values {
        var k :| k in r && r[k] == x;
        assert d[k] in d.Values;
        var i :| 0 <= i < |ds| && ds[i] == d[k];
        assert s[i] == x;
      }
    }
  }

  /** Packing a listing of the attachments lists the packed store. */
  /** The packing loop of `exportAll`: one packed record per attachment, in the same order. */
  method PackEach(all: seq<Attachment>) returns (packed: seq<PackedAttachment>)
    ensures |packed| == |all| && forall k :: 0 <= k < |all| ==> packed[k] == Pack(all[k])
  {
    packed := [];
    for i := 0 to |all|
      invariant |packed| == i && forall k :: 0 <= k < i ==> packed[k] == Pack(all[k])
    {
      packed := packed + [Pack(all[i])];
    }
  }

  lemma PackListing(all: seq<Attachment>, packed: seq<PackedAttachment>, a: map<string, Attachment>)
    requires Keyed(a, AttachmentId) && IsListing(all, a, AttachmentId)
    requires |packed| == |all| && forall i :: 0 <= i < |all| ==> packed[i] == Pack(all[i])
    ensures IsListing(packed, PackAll(a), PackedId) && Keyed(PackAll(a), PackedId)
  {
    var pa := PackAll(a);
    forall p ensures p in packed <==> p in pa.Values {
      if p in packed {
        var i :| 0 <= i < |packed| && packed[i] == p;
        assert all[i] in all;
        var k :| k in a && a[k] == all[i];
        assert pa[k] == p;
      }
      if p in pa.Values {
        var k :| k in pa && pa[k] == p;
        assert a[k] in a.Values;
        var i :| 0 <= i < |all| && all[i] == a[k];
        assert packed[i] == p;
      }
    }
  }

  /** Records that all decode are all put. */
  lemma {:induction false} PutAllDecodedAll<P>(m: map<string, Attachment>, ps: seq<P>, decode: P -> Option<Attachment>,
                                               atts: seq<Attachment>)
    requires |atts| == |ps| && forall i :: 0 <= i < |ps| ==> decode(ps[i]) == Some(atts[i])
    ensures PutAllDecoded(m, ps, decode) == Applied(m + ToMap(atts, AttachmentId), true)
    decreases |ps|
  {
    if ps != [] {
      var a := atts[0];
      assert PutAllDecoded(m, ps, decode) == PutAllDecoded(m[a.id := a], ps[1..], decode);
      PutAllDecodedAll(m[a.id := a], ps[1..], decode, atts[1..]);
      PutOne(m, a, atts[1..], AttachmentId);
    }
  }

  /** Putting `x` and then the records of `rest` is putting the records of `[x] + rest`. */
  lemma PutOne<T>(m: map<string, T>, x: T, rest: seq<T>, key: T -> string)
    ensures m[key(x) := x] + ToMap(rest, key) == m + ToMap([x] + rest, key)
  {
    assert ([x] + rest)[1..] == rest;
    assert ToMap([x] + rest, key) == map[key(x) := x] + ToMap(rest, key);
    assert m[key(x) := x] == m + map[key(x) := x];
  }

  /**
    The backup round trip: importing the listings `exportAll` produces rebuilds
    the diary (re-stamped), the cash store, and the attachments (same ids, fields
    and bytes; blob types taken from `mime`).
   */
  lemma RestoreListings(d: map<string, DiaryEntry>, c: map<string, Txn>, a: map<string, Attachment>,
                        ds: seq<DiaryEntry>, cs: seq<Txn>, ps: seq<PackedAttachment>, now: int)
    requires Keyed(d, DiaryId) && DatesUnique(d) && Keyed(c, TxnId) && Keyed(a, AttachmentId)
    requires IsListing(ds, d, DiaryId) && IsListing(cs, c, TxnId) && IsListing(ps, PackAll(a), PackedId)
    requires forall k :: k in a ==> DataUrlSafe(a[k])
    ensures Restore(Payload(Some(ds), Some(cs), Some(ps)), now) == Restored(Restamp(d, now), c, NormalizeAll(a), true)
  {
    RestoreDiary(d, ds, now);
    RestoreCash(c, cs);
    RestoreAttach(a, ps);
  }

  /** Importing a listing of a diary store puts every entry back, re-stamped. */
  lemma RestoreDiary(d: map<string, DiaryEntry>, ds: seq<DiaryEntry>, now: int)
    requires Keyed(d, DiaryId) && DatesUnique(d) && IsListing(ds, d, DiaryId)
    ensures PutAllDiary(map[], ds, now) == Applied(Restamp(d, now), true)
  {
    assert FreshEntries(map[], ds) by {
      ListingDatesDistinct(ds, d);
    }
    PutAllDiaryFree(map[], ds, now);
    var s := StampAll(ds, now);
    assert ToMap(s, DiaryId) == Restamp(d, now) by {
      RestampListing(ds, d, now);
      assert DistinctKeys(s, DiaryId) && (forall x :: x in s <==> x in Restamp(d, now).Values);
      ListingRebuilds(s, Restamp(d, now), DiaryId);
    }
    assert map[] + ToMap(s, DiaryId) == ToMap(s, DiaryId);
  }

  /** Importing a listing of a cash store rebuilds it. */
  lemma RestoreCash(c: map<string, Txn>, cs: seq<Txn>)
    requires Keyed(c, TxnId) && IsListing(cs, c, TxnId)
    ensures PutAllCash(map[], cs) == c
  {
    PutAllCashIsToMap(map[], cs);
    ListingRebuilds(cs, c, TxnId);
    assert map[] + ToMap(cs, TxnId) == c;
  }

  /** Importing a listing of packed attachments rebuilds the attachment store, blob types normalised. */
  lemma RestoreAttach(a: map<string, Attachment>, ps: seq<PackedAttachment>)
    requires Keyed(a, AttachmentId) && IsListing(ps, PackAll(a), PackedId)
    requires forall k :: k in a ==> DataUrlSafe(a[k])
    ensures PutAllAttach(map[], ps) == Applied(NormalizeAll(a), true)
  {
    forall k | k in a ensures Unpack(Pack(a[k])) == Some(Normalized(a[k])) {
      UnpackPack(a[k]);
    }
    RestoreDecoded(a, ps, Pack, Unpack);
  }

  /** The same, for any id-keeping encoder and a decoder that inverts it on the stored attachments. */
  lemma RestoreDecoded(a: map<string, Attachment>, ps: seq<PackedAttachment>,
                       encode: Attachment -> PackedAttachment, decode: PackedAttachment -> Option<Attachment>)
    requires Keyed(a, AttachmentId)
    requires forall x :: encode(x).id == x.id
    requires IsListing(ps, map k | k in a :: encode(a[k]), PackedId)
    requires forall k :: k in a ==> decode(encode(a[k])) == Some(Normalized(a[k]))
    ensures PutAllDecoded(map[], ps, decode) == Applied(NormalizeAll(a), true)
  {
    var pa := map k | k in a :: encode(a[k]);
    assert forall i :: 0 <= i < |ps| ==> ps[i].id in a && ps[i] == encode(a[ps[i].id]) by {
      forall i | 0 <= i < |ps| ensures ps[i].id in a && ps[i] == encode(a[ps[i].id]) {
        assert ps[i] in pa.Values;
      }
    }
    var atts := seq(|ps|, i requires 0 <= i < |ps| => Normalized(a[ps[i].id]));
    assert forall i :: 0 <= i < |ps| ==> decode(ps[i]) == Some(atts[i]) by {
      forall i | 0 <= i < |ps| ensures decode(ps[i]) == Some(atts[i]) {
        var k := ps[i].id;
        assert decode(encode(a[k])) == Some(Normalized(a[k]));
      }
    }
    PutAllDecodedAll(map[], ps, decode, atts);
    assert ToMap(atts, AttachmentId) == NormalizeAll(a) by {
      NormalizedListing(a, ps, encode, atts);
      ListingRebuilds(atts, NormalizeAll(a), AttachmentId);
    }
    assert map[] + ToMap(atts, AttachmentId) == ToMap(atts, AttachmentId);
  }

  lemma NormalizedListing(a: map<string, Attachment>, ps: seq<PackedAttachment>,
                          encode: Attachment -> PackedAttachment, atts: seq<Attachment>)
    requires Keyed(a, AttachmentId)
    requires forall x :: encode(x).id == x.id
    requires IsListing(ps, map k | k in a :: encode(a[k]), PackedId)
    requires |atts| == |ps| && forall i :: 0 <= i < |ps| ==> ps[i].id in a && atts[i] == Normalized(a[ps[i].id])
    ensures IsListing(atts, NormalizeAll(a), AttachmentId) && Keyed(NormalizeAll(a), AttachmentId)
  {
    var pa := map k | k in a :: encode(a[k]);
    var na := NormalizeAll(a);
    forall x | x in atts ensures x in na.Values {
      var i :| 0 <= i < |atts| && atts[i] == x;
      assert na[ps[i].id] == x;
    }
    forall x | x in na.Values ensures x in atts {
      var k :| k in na && na[k] == x;
      assert pa[k] in pa.Values;
      var i :| 0 <= i < |ps| && ps[i] == pa[k];
      assert atts[i] == x;
    }
    forall i, j | 0 <= i < j < |atts| ensures AttachmentId(atts[i]) != AttachmentId(atts[j]) {
      assert PackedId(ps[i]) != PackedId(ps[j]);
    }
  }

  // ---------------------------------------------------------------- the store

  /** `getAll()` on an object store: every record once, in no promised order. */
  method ListValues<T(==,!new)>(m: map<string, T>, key: T -> string) returns (s: seq<T>)
    requires Keyed(m, key)
    ensures IsListing(s, m, key)
  {
    s := [];
    var rest := m.Keys;
    while rest != {}
      invariant rest <= m.Keys
      invariant forall i :: 0 <= i < |s| ==> key(s[i]) in m && key(s[i]) !in rest && m[key(s[i])] == s[i]
      invariant forall k :: k in m && k !in rest ==> m[k] in s
      invariant DistinctKeys(s, key)
      decreases rest
    {
      var k :| k in rest;
      s := s + [m[k]];
      rest := rest - {k};
    }
    forall x | x in m.Values ensures x in s {
      var k :| k in m && m[k] == x;
    }
  }

  /** The IndexedDB database of the application, one map per object store. */
  class Store {
    var diary: map<string, DiaryEntry>
    var cash: map<string, Txn>
    var attach: map<string, Attachment>
    var config: map<string, string>

    /** Each record sits under its key path, and the diary's date index is unique. */
    ghost predicate Valid()
      reads this
    {
      Keyed(diary, DiaryId) && DatesUnique(diary) && Keyed(cash, TxnId) && Keyed(attach, AttachmentId)
    }

    /** A freshly created database: all four stores empty. */
    constructor ()
      ensures Valid()
      ensures diary == map[] && cash == map[] && attach == map[] && config == map[]
    {
      diary, cash, attach, config := map[], map[], map[], map[];
    }

    /** `setConfig`: a put into the config store. */
    method SetConfig(key: string, value: string)
      requires Valid()
      modifies this
      ensures Valid()
      ensures config == old(config)[key := value]
      ensures diary == old(diary) && cash == old(cash) && attach == old(attach)
    {
      config := config[key := value];
    }

    /** `getConfig`: the stored value, or null. */
    method GetConfig(key: string) returns (r: Option<string>)
      ensures r.Some? <==> key in config
      ensures r.Some? ==> r.value == config[key]
    {
      r := if key in config then Some(config[key]) else None;
    }

    /** `getDiary`: the entry stored under `id`, or null. */
    method GetDiary(id: string) returns (r: Option<DiaryEntry>)
      ensures r.Some? <==> id in diary
      ensures r.Some? ==> r.value == diary[id]
    {
      r := if id in diary then Some(diary[id]) else None;
    }

    /**
      `putDiary`: stamps `updatedAt` on the caller's entry (returned as `stamped`)
      and puts it; the unique date index rejects an entry whose date another id
      already holds, and then nothing changes.
     */
    method PutDiary(e: DiaryEntry, now: int) returns (stamped: DiaryEntry, ok: bool)
      requires Valid()
      modifies this
      ensures Valid()
      ensures stamped == e.(updatedAt := now)
      ensures ok == DateFree(old(diary), e)
      ensures diary == if ok then old(diary)[e.id := stamped] else old(diary)
      ensures cash == old(cash) && attach == old(attach) && config == old(config)
    {
      stamped := e.(updatedAt := now);
      ok := DateFree(diary, e);
      if ok {
        diary := diary[e.id := stamped];
      }
    }

    /** `listDiary`: every entry, ascending by date. */
    method ListDiary() returns (r: seq<DiaryEntry>)
      requires Valid()
      ensures DiaryOrdered(r) && IsListing(r, diary, DiaryId)
    {
      var all := ListValues(diary, DiaryId);
      ListingDatesDistinct(all, diary);
      r := SortByDate(all);
      OrderedListingDistinct(r, diary);
    }

    /**
      `searchDiary`: the entries of `listDiary` whose lowercased text or
      space-joined tags contain the lowercased, trimmed query; all of them when
      that query is empty. Nothing is capped.
     */
    method SearchDiary(text: string) returns (r: seq<DiaryEntry>)
      requires Valid()
      ensures DiaryOrdered(r) && DistinctKeys(r, DiaryId)
      ensures forall x :: x in r <==> x in diary.Values && (Query(text) == "" || Matches(x, Query(text)))
    {
      var all := ListDiary();
      r := SearchResults(all, text);
      var q := Query(text);
      if q != "" {
        var p := (e: DiaryEntry) => Matches(e, q);
        assert r == Filter(all, p);
        FilterMembers(all, p);
        FilterOrdered(all, p, (x: DiaryEntry, y: DiaryEntry) => LexLess(x.date, y.date));
        FilterOrdered(all, p, (x: DiaryEntry, y: DiaryEntry) => DiaryId(x) != DiaryId(y));
      }
    }

    /** `addCash`: a put; a transaction with an existing id replaces it. */
    method AddCash(t: Txn)
      requires Valid()
      modifies this
      ensures Valid()
      ensures cash == old(cash)[t.id := t]
      ensures diary == old(diary) && attach == old(attach) && config == old(config)
    {
      cash := cash[t.id := t];
    }

    /** `deleteCash`: removes that id only. */
    method DeleteCash(id: string)
      requires Valid()
      modifies this
      ensures Valid()
      ensures cash == old(cash) - {id}
      ensures diary == old(diary) && attach == old(attach) && config == old(config)
    {
      cash := cash - {id};
    }

    /** `listCash`: every transaction, most recent first. */
    method ListCash() returns (r: seq<Txn>)
      requires Valid()
      ensures CashOrdered(r) && IsListing(r, cash, TxnId)
    {
      var all := ListValues(cash, TxnId);
      r := SortByTime(all);
      SortByTimeDistinct(all);
    }

    /** `listCashByRange`: the transactions with `startMs <= dateTime <= endMs`, most recent first. */
    method ListCashByRange(startMs: int, endMs: int) returns (r: seq<Txn>)
      requires Valid()
      ensures CashOrdered(r) && DistinctKeys(r, TxnId)
      ensures forall x :: x in r <==> x in cash.Values && InRange(x, startMs, endMs)
    {
      var all := ListCash();
      var p := (t: Txn) => InRange(t, startMs, endMs);
      r := Filter(all, p);
      FilterMembers(all, p);
      FilterOrdered(all, p, (x: Txn, y: Txn) => x.dateTime >= y.dateTime);
      FilterOrdered(all, p, (x: Txn, y: Txn) => TxnId(x) != TxnId(y));
    }

    /** `addAttachment`: a put; an attachment with an existing id replaces it. */
    method AddAttachment(a: Attachment)
      requires Valid()
      modifies this
      ensures Valid()
      ensures attach == old(attach)[a.id := a]
      ensures diary == old(diary) && cash == old(cash) && config == old(config)
    {
      attach := attach[a.id := a];
    }

    /** `deleteAttachment`: removes that id only. */
    method DeleteAttachment(id: string)
      requires Valid()
      modifies this
      ensures Valid()
      ensures attach == old(attach) - {id}
      ensures diary == old(diary) && cash == old(cash) && config == old(config)
    {
      attach := attach - {id};
    }

    /** `listAttachmentsByTx`: exactly the attachments of transaction `txId`, each once. */
    method ListAttachmentsByTx(txId: string) returns (r: seq<Attachment>)
      requires Valid()
      ensures DistinctKeys(r, AttachmentId)
      ensures forall x :: x in r <==> x in attach.Values && x.txId == txId
    {
      var all := ListValues(attach, AttachmentId);
      var p := (a: Attachment) => a.txId == txId;
      r := Filter(all, p);
      FilterMembers(all, p);
      FilterOrdered(all, p, (x: Attachment, y: Attachment) => AttachmentId(x) != AttachmentId(y));
    }

    /**
      `exportAll`: version 1, the diary in `listDiary` order, the cash in
      `listCash` order, and every attachment with its blobs packed as `data:` URLs.
      The store is only read.
     */
    method ExportAll(exportedAt: string) returns (snap: Snapshot)
      requires Valid()
      ensures snap.version == BackupVersion && snap.exportedAt == exportedAt
      ensures DiaryOrdered(snap.diary) && IsListing(snap.diary, diary, DiaryId)
      ensures CashOrdered(snap.cash) && IsListing(snap.cash, cash, TxnId)
      ensures IsListing(snap.attach, PackAll(attach), PackedId)
    {
      var d := ListDiary();
      var c := ListCash();
      var all := ListValues(attach, AttachmentId);
      var packed := PackEach(all);
      PackListing(all, packed, attach);
      snap := Snapshot(BackupVersion, exportedAt, d, c, packed);
    }

    /**
      One pass of the attachment loop of `importAll`: decodes the blob, and the
      thumbnail when one is given, and puts the attachment; a payload `atob`
      rejects changes nothing.
     */
    method PutPacked(a: PackedAttachment) returns (ok: bool)
      requires Valid()
      modifies this
      ensures Valid()
      ensures ok == Unpack(a).Some?
      ensures attach == if ok then old(attach)[a.id := Unpack(a).value] else old(attach)
      ensures diary == old(diary) && cash == old(cash) && config == old(config)
    {
      var blob := Base64ToBlob(a.blob, a.mime);
      if blob.None? {
        return false;
      }
      var thumb: Option<Blob> := None;
      if a.thumbBlob.Some? && a.thumbBlob.value != "" {
        thumb := Base64ToBlob(a.thumbBlob.value, a.mime);
        if thumb.None? {
          return false;
        }
      }
      AddAttachment(Attachment(a.id, a.txId, a.mime, blob.value, thumb, a.createdAt));
      ok := true;
    }

    /**
      `importAll`: clears the diary, cash and attachment stores (config is left
      alone), then puts the payload's records in order, re-stamping diary entries;
      it stops at the first put the date index rejects or the first blob `atob`
      cannot decode, and `ok` says whether it ran to the end.
     */
    method ImportAll(p: Payload, now: int) returns (ok: bool)
      requires Valid()
      modifies this
      ensures Valid()
      ensures config == old(config)
      ensures var r := Restore(p, now); diary == r.diary && cash == r.cash && attach == r.attach && ok == r.complete
    {
      diary, cash, attach := map[], map[], map[];
      ok := PutDiaries(OrEmpty(p.diary), now);
      if !ok {
        return;
      }
      PutCashes(OrEmpty(p.cash));
      ok := PutAllPacked(OrEmpty(p.attach));
    }

    /** The diary loop of `importAll`. */
    method PutDiaries(ds: seq<DiaryEntry>, now: int) returns (ok: bool)
      requires Valid()
      modifies this
      ensures Valid()
      ensures var r := PutAllDiary(old(diary), ds, now); diary == r.store && ok == r.complete
      ensures cash == old(cash) && attach == old(attach) && config == old(config)
    {
      var i := 0;
      while i < |ds|
        invariant 0 <= i <= |ds|
        invariant Valid()
        invariant PutAllDiary(old(diary), ds, now) == PutAllDiary(diary, ds[i..], now)
        invariant cash == old(cash) && attach == old(attach) && config == old(config)
      {
        assert ds[i..] == [ds[i]] + ds[i + 1..];
        var stamped, put := PutDiary(ds[i], now);
        if !put {
          return false;
        }
        i := i + 1;
      }
      ok := true;
    }

    /** The cash loop of `importAll`. */
    method PutCashes(cs: seq<Txn>)
      requires Valid()
      modifies this
      ensures Valid()
      ensures cash == PutAllCash(old(cash), cs)
      ensures diary == old(diary) && attach == old(attach) && config == old(config)
    {
      var i := 0;
      while i < |cs|
        invariant 0 <= i <= |cs|
        invariant Valid()
        invariant PutAllCash(old(cash), cs) == PutAllCash(cash, cs[i..])
        invariant diary == old(diary) && attach == old(attach) && config == old(config)
      {
        assert cs[i..] == [cs[i]] + cs[i + 1..];
        AddCash(cs[i]);
        i := i + 1;
      }
    }

    /** The attachment loop of `importAll`. */
    method PutAllPacked(ps: seq<PackedAttachment>) returns (ok: bool)
      requires Valid()
      modifies this
      ensures Valid()
      ensures var r := PutAllAttach(old(attach), ps); attach == r.store && ok == r.complete
      ensures diary == old(diary) && cash == old(cash) && config == old(config)
    {
      var i := 0;
      while i < |ps|
        invariant 0 <= i <= |ps|
        invariant Valid()
        invariant PutAllAttach(old(attach), ps) == PutAllAttach(attach, ps[i..])
        invariant diary == old(diary) && cash == old(cash) && config == old(config)
      {
        ghost var before := attach;
        var put := PutPacked(ps[i]);
        assert PutAllAttach(before, ps[i..]) == if put then PutAllAttach(attach, ps[i + 1..]) else Applied(attach, false) by {
          PutAllAttachStep(before, ps, i);
        }
        if !put {
          return false;
        }
        i := i + 1;
      }
      ok := true;
    }
  }

  // ---------------------------------------------------------------- laws that combine calls

  /** After `putDiary(e)` succeeds, `getDiary(e.id)` returns `e` stamped; other ids read as before. */
  method PutThenGet(s: Store, e: DiaryEntry, now: int, other: string)
    returns (got: Option<DiaryEntry>, gotOther: Option<DiaryEntry>)
    requires s.Valid() && DateFree(s.diary, e) && other != e.id
    modifies s
    ensures got == Some(e.(updatedAt := now))
    ensures gotOther == if other in old(s.diary) then Some(old(s.diary)[other]) else None
  {
    var stamped, ok := s.PutDiary(e, now);
    got := s.GetDiary(e.id);
    gotOther := s.GetDiary(other);
  }

  /** Putting the same entry twice leaves one entry, the one of the second put. */
  method PutTwice(s: Store, e: DiaryEntry, t1: int, t2: int)
    requires s.Valid() && DateFree(s.diary, e)
    modifies s
    ensures s.diary == old(s.diary)[e.id := e.(updatedAt := t2)]
  {
    var a, ok1 := s.PutDiary(e, t1);
    var b, ok2 := s.PutDiary(e, t2);
  }

  /** `getConfig(k)` returns what the last `setConfig(k, v)` stored, whatever other stores do in between. */
  method ConfigSurvives(s: Store, k: string, v: string, e: DiaryEntry, t: Txn, now: int) returns (got: Option<string>)
    requires s.Valid()
    modifies s
    ensures got == Some(v)
  {
    s.SetConfig(k, v);
    var stamped, ok := s.PutDiary(e, now);
    s.AddCash(t);
    s.DeleteCash(t.id);
    var snap := s.ExportAll("");
    ok := s.ImportAll(Payload(None, None, None), now);
    got := s.GetConfig(k);
  }

  /**
    Export then import: the diary comes back re-stamped, the cash store exactly,
    the attachments with the same ids, fields and bytes, and config untouched.
   */
  method BackupRoundTrip(s: Store, exportedAt: string, now: int) returns (ok: bool)
    requires s.Valid()
    requires forall k :: k in s.attach ==> DataUrlSafe(s.attach[k])
    modifies s
    ensures ok
    ensures s.diary == Restamp(old(s.diary), now) && s.cash == old(s.cash)
    ensures s.attach == NormalizeAll(old(s.attach)) && s.config == old(s.config)
  {
    var snap := s.ExportAll(exportedAt);
    RestoreListings(s.diary, s.cash, s.attach, snap.diary, snap.cash, snap.attach, now);
    ok := s.ImportAll(Payload(Some(snap.diary), Some(snap.cash), Some(snap.attach)), now);
  }
}
