/**
 * The notes cache of the listing-page content script: an in-memory map from
 * listing id to note, a queue of pending saves, the copy kept in the
 * extension's local storage, and the rules by which edits, saves and pulls
 * from the notes server update them. Timestamps are whole numbers; the
 * storage, the timers and the server are replaced by the values they yield.
 */
module NotesCache {
  import opened Wrappers
  import opened JsText

  /** A cached note: its text ("" when absent), its `updatedAt` (None when
      absent or falsy) and its `version` (None when absent). */
  datatype Note = Note(note: string, updatedAt: Option<int>, version: Option<int>)

  /** What local storage holds under a note key: a plain string (the older
      format) or a note object. */
  datatype Stored = PlainText(text: string) | Object(entry: Note)

  /** A save waiting in the queue. */
  datatype Pending = Pending(text: string, updatedAt: int)

  // ---------------------------------------------------------------- loading

  /** The storage key of a listing's note. */
  function NoteKey(adId: string): (k: string)
    ensures |k| == |adId| + 5 && k[5..] == adId
  {
    "note:" + adId
  }

  lemma NoteKeyInjective(a: string, b: string)
    requires NoteKey(a) == NoteKey(b)
    ensures a == b
  {
    assert NoteKey(a)[5..] == a;
  }

  /** A stored value as the cache holds it: a plain string becomes a note with
      no timestamp and version 0; an object is kept as it is. */
  function Normalize(v: Stored): (n: Note)
    ensures v.Object? ==> n == v.entry
    ensures v.PlainText? ==> n.note == v.text && n.updatedAt.None? && n.version == Some(0)
  {
    match v
    case PlainText(t) => Note(t, None, Some(0))
    case Object(n) => n
  }

  /** `getAllNotesLocal`: the notes of the listings in the index that storage
      holds, normalised. */
  function LoadedNotes(index: set<string>, storage: map<string, Stored>): (m: map<string, Note>)
    ensures m.Keys == set id | id in index && NoteKey(id) in storage
    ensures forall id :: id in m ==> m[id] == Normalize(storage[NoteKey(id)])
  {
    map id | id in index && NoteKey(id) in storage :: Normalize(storage[NoteKey(id)])
  }

  /** Writing one note through `setNoteLocal` changes what a reload yields in
      that entry only. */
  lemma LoadedAfterWrite(index: set<string>, storage: map<string, Stored>, adId: string, n: Note)
    ensures LoadedNotes(index + {adId}, storage[NoteKey(adId) := Object(n)]) == LoadedNotes(index, storage)[adId := n]
  {
    var after := LoadedNotes(index + {adId}, storage[NoteKey(adId) := Object(n)]);
    var expected := LoadedNotes(index, storage)[adId := n];
    forall id | id in after
      ensures id in expected && after[id] == expected[id]
    {
      if id != adId {
        if NoteKey(id) == NoteKey(adId) {
          NoteKeyInjective(id, adId);
        }
      }
    }
    forall id | id in expected
      ensures id in after
    {
    }
  }

  /** Every note of a cache, stored as an object under its key. */
  function StoredCache(cache: map<string, Note>): (storage: map<string, Stored>)
    ensures storage.Keys == set id | id in cache :: NoteKey(id)
  {
    map id | id in cache :: NoteKey(id) := Object(cache[id])
  }

  /** Storing every cached note and indexing its listing, then reloading,
      gives the cache back. */
  lemma LoadedRoundTrip(cache: map<string, Note>)
    ensures LoadedNotes(cache.Keys, StoredCache(cache)) == cache
  {
    var storage := StoredCache(cache);
    forall id | id in cache
      ensures NoteKey(id) in storage && storage[NoteKey(id)] == Object(cache[id])
    {
      forall other | other in cache && NoteKey(other) == NoteKey(id)
        ensures other == id
      {
        NoteKeyInjective(other, id);
      }
    }
  }

  /** A note kept in the older plain-string format loads without a timestamp
      and with version 0: any pulled item for its listing replaces it, and
      its next save carries version 0. */
  lemma LegacyNoteReplaced(index: set<string>, storage: map<string, Stored>, it: Item)
    requires it.adId in index && NoteKey(it.adId) in storage && storage[NoteKey(it.adId)].PlainText?
    ensures var loaded := LoadedNotes(index, storage);
      && it.adId in loaded && loaded[it.adId].note == storage[NoteKey(it.adId)].text
      && Replaces(loaded, it)
      && VersionOf(loaded, it.adId) == 0
  {
  }

  // ---------------------------------------------------------------- the row

  /** The attributes of a result row that name its listing: `data-id`, `id`
      and the `href` of its first listing link ("" when absent). */
  datatype Row = Row(dataId: string, idAttr: string, href: string)

  /** `getAdId`: the `data-id`, else the first run of digits in the `id`
      attribute, else the digits of the first `/<digits>` in the link that
      ends at '?', '/' or the end. */
  function GetAdId(row: Option<Row>): (r: Option<string>)
    ensures r.Some? ==> r.value != []
    ensures row.Some? && row.value.dataId != "" ==> r == Some(row.value.dataId)
    ensures row.Some? && row.value.dataId == "" && r.Some? ==> AllDigits(r.value)
  {
    match row
    case None => None
    case Some(w) =>
      if w.dataId != "" then Some(w.dataId)
      else
        var digits := FirstDigitRun(w.idAttr);
        if digits != "" then Some(digits)
        else if w.href != "" then FirstDelimitedDigits(w.href, '/', {'?', '/'})
        else None
  }

  /** A row is without a listing id exactly when it has no `data-id`, no digit
      in its `id` and no `/<digits>` segment in its link. */
  lemma GetAdIdNone(w: Row)
    ensures GetAdId(Some(w)).None? <==>
      && w.dataId == ""
      && (forall k :: 0 <= k < |w.idAttr| ==> !IsDigit(w.idAttr[k]))
      && (forall i :: 0 <= i < |w.href| ==> DelimitedDigitsAt(w.href[i..], '/', {'?', '/'}).None?)
  {
    FirstDelimitedDigitsSpec(w.href, '/', {'?', '/'});
  }

  /** The row of a listing with a note shows the star: its note is not blank.
      A row without an id looks up the key "null", as indexing an object with
      `null` does. */
  function HasNote(cache: map<string, Note>, adId: Option<string>): (r: bool)
    ensures adId.Some? ==> (r <==> adId.value in cache && !IsBlank(cache[adId.value].note))
    ensures adId.None? ==> (r <==> "null" in cache && !IsBlank(cache["null"].note))
  {
    var key := adId.GetOr("null");
    key in cache && Trim(cache[key].note) != ""
  }

  // ---------------------------------------------------------------- the pull merge

  /** A pulled item: the listing it belongs to and the note object. */
  datatype Item = Item(adId: string, entry: Note)

  /** Whether a pulled item replaces the cached entry: there is none, the entry
      has no timestamp, or the item's timestamp is not older. An item without
      a timestamp compares as an invalid date and so never replaces one that
      has one. */
  predicate Replaces(cache: map<string, Note>, it: Item) {
    it.adId !in cache || cache[it.adId].updatedAt.None?
    || (it.entry.updatedAt.Some? && it.entry.updatedAt.value >= cache[it.adId].updatedAt.value)
  }

  function MergeOne(cache: map<string, Note>, it: Item): map<string, Note> {
    if Replaces(cache, it) then cache[it.adId := it.entry] else cache
  }

  /** The cache after the items are considered in order. */
  function MergeItems(cache: map<string, Note>, items: seq<Item>): map<string, Note> {
    if items == [] then cache
    else MergeOne(MergeItems(cache, items[..|items| - 1]), items[|items| - 1])
  }

  /** The listings the items name. */
  function ItemIds(items: seq<Item>): set<string> {
    set i | 0 <= i < |items| :: items[i].adId
  }

  /** The merge adds exactly the listings the items name, and leaves every
      other entry as it was. */
  lemma {:induction false} MergeFrame(cache: map<string, Note>, items: seq<Item>)
    ensures MergeItems(cache, items).Keys == cache.Keys + ItemIds(items)
    ensures forall id :: id in cache && id !in ItemIds(items) ==> MergeItems(cache, items)[id] == cache[id]
  {
    if items != [] {
      var pre := items[..|items| - 1];
      MergeFrame(cache, pre);
      assert ItemIds(items) == ItemIds(pre) + {items[|items| - 1].adId} by {
        forall id | id in ItemIds(items)
          ensures id in ItemIds(pre) + {items[|items| - 1].adId}
        {
          var i :| 0 <= i < |items| && items[i].adId == id;
          if i < |pre| {
            assert pre[i].adId == id;
          }
        }
        forall id | id in ItemIds(pre)
          ensures id in ItemIds(items)
        {
          var i :| 0 <= i < |pre| && pre[i].adId == id;
          assert items[i].adId == id;
        }
      }
    }
  }

  /** Newer-or-equal wins: a pull never moves a timestamped entry back in
      time, nor takes its timestamp away. */
  lemma {:induction false} MergeNeverOlder(cache: map<string, Note>, items: seq<Item>, id: string)
    requires id in cache && cache[id].updatedAt.Some?
    ensures id in MergeItems(cache, items)
    ensures MergeItems(cache, items)[id].updatedAt.Some?
    ensures MergeItems(cache, items)[id].updatedAt.value >= cache[id].updatedAt.value
  {
    if items != [] {
      MergeNeverOlder(cache, items[..|items| - 1], id);
    }
  }

  /** `a` is at least as new as `b`: `b` has no timestamp, or `a` has one
      that is not earlier. */
  predicate NotOlder(a: Option<int>, b: Option<int>) {
    b.None? || (a.Some? && a.value >= b.value)
  }

  /** Newest wins: the merged entry of a listing is the cached entry or one of
      the items for it, and it is at least as new as the cached entry and as
      every item for that listing. */
  lemma {:induction false} MergeNewest(cache: map<string, Note>, items: seq<Item>, id: string)
    requires id in MergeItems(cache, items)
    ensures var r := MergeItems(cache, items)[id];
      && ((id in cache && r == cache[id]) || exists j :: 0 <= j < |items| && items[j].adId == id && r == items[j].entry)
      && (id in cache ==> NotOlder(r.updatedAt, cache[id].updatedAt))
      && (forall j :: 0 <= j < |items| && items[j].adId == id ==> NotOlder(r.updatedAt, items[j].entry.updatedAt))
  {
    if items != [] {
      var pre := items[..|items| - 1];
      var it := items[|items| - 1];
      var before := MergeItems(cache, pre);
      var r := MergeItems(cache, items)[id];
      assert MergeItems(cache, items) == MergeOne(before, it);
      if it.adId == id && Replaces(before, it) {
        assert r == it.entry;
        var cur := if id in before then before[id].updatedAt else None;
        assert NotOlder(r.updatedAt, cur);
        if id in before {
          MergeNewest(cache, pre, id);
        } else {
          MergeFrame(cache, pre);
        }
        forall j | 0 <= j < |items| && items[j].adId == id
          ensures NotOlder(r.updatedAt, items[j].entry.updatedAt)
        {
          if j < |pre| {
            assert items[j] == pre[j];
          }
        }
        assert r == items[|items| - 1].entry;
      } else {
        assert id in before && r == before[id];
        MergeNewest(cache, pre, id);
        if (id in cache && r == cache[id]) {
        } else {
          var j :| 0 <= j < |pre| && pre[j].adId == id && r == pre[j].entry;
          assert items[j] == pre[j];
        }
        forall j | 0 <= j < |items| && items[j].adId == id
          ensures NotOlder(r.updatedAt, items[j].entry.updatedAt)
        {
          if j < |pre| {
            assert items[j] == pre[j];
          }
        }
      }
    }
  }

  // ---------------------------------------------------------------- outcomes

  /** What the note `PUT` yields: a status and the body parsed (None when it is
      not JSON), or a network error. */
  datatype SaveOutcome = SaveReply(status: int, server: Option<Note>) | SaveNetErr

  /** The body the `PUT` sends. */
  datatype SaveRequest = SaveRequest(adId: string, note: string, updatedAt: int, version: int)

  /** The server's answer is taken: a conflict (409) or an ok status, with a
      JSON body. */
  predicate Accepted(o: SaveOutcome) {
    o.SaveReply? && (o.status == 409 || 200 <= o.status <= 299) && o.server.Some?
  }

  /** The body of a pull: its items (None when absent) and server time (None
      when absent or falsy). */
  datatype PullBody = PullBody(items: Option<seq<Item>>, serverTime: Option<int>)

  /** What the pull `GET` yields: a status and the body parsed (None when it is
      not JSON), or a network error. */
  datatype PullOutcome = PullReply(status: int, body: Option<PullBody>) | PullNetErr

  /** The pull got a usable answer: an ok status with a JSON body. */
  predicate PullSucceeded(o: PullOutcome) {
    o.PullReply? && 200 <= o.status <= 299 && o.body.Some?
  }

  function PulledItems(o: PullOutcome): seq<Item>
    requires PullSucceeded(o)
  {
    o.body.value.items.GetOr([])
  }

  /** The version the next save carries: the cached one, 0 when there is none. */
  function VersionOf(cache: map<string, Note>, adId: string): int {
    if adId in cache && cache[adId].version.Some? then cache[adId].version.value else 0
  }

  // ---------------------------------------------------------------- the cache

  class NoteStore {
    /** `notesCache`. */
    var cache: map<string, Note>
    /** `savingQueue`. */
    var pending: map<string, Pending>
    /** The note entries of local storage, by key. */
    var storage: map<string, Stored>
    /** The `noteIndex` of local storage: the listings that have a note. */
    var noteIndex: set<string>
    /** `lastSyncAt` in local storage. */
    var lastSyncAt: Option<int>

    /** The cache is what a reload from storage would give. */
    ghost predicate Valid()
      reads this
    {
      cache == LoadedNotes(noteIndex, storage)
    }

    /** The content script starts with an empty cache over what storage holds. */
    constructor(index: set<string>, stored: map<string, Stored>, synced: Option<int>)
      ensures cache == map[] && pending == map[]
      ensures noteIndex == index && storage == stored && lastSyncAt == synced
      ensures LoadedNotes(index, stored) == map[] ==> Valid()
    {
      cache := map[];
      pending := map[];
      noteIndex := index;
      storage := stored;
      lastSyncAt := synced;
    }

    /** `getAllNotesLocal`: reads the indexed note keys from storage. */
    method GetAllNotesLocal() returns (m: map<string, Note>)
      ensures m == LoadedNotes(noteIndex, storage)
    {
      m := map[];
      var ids := noteIndex;
      while ids != {}
        invariant ids <= noteIndex
        invariant m.Keys == set id | id in noteIndex - ids && NoteKey(id) in storage
        invariant forall id :: id in m ==> m[id] == Normalize(storage[NoteKey(id)])
        decreases ids
      {
        var id :| id in ids;
        var k := NoteKey(id);
        if k in storage {
          var v := storage[k];
          m := m[id := if v.PlainText? then Note(v.text, None, Some(0)) else v.entry];
        }
        ids := ids - {id};
      }
    }

    /** `bootstrap`: the cache becomes what storage holds. */
    method Bootstrap()
      modifies this
      ensures Valid()
      ensures pending == old(pending) && storage == old(storage) && noteIndex == old(noteIndex)
      ensures lastSyncAt == old(lastSyncAt)
    {
      cache := GetAllNotesLocal();
    }

    /** `setNoteLocal`: adds the listing to the index and stores the note. */
    method SetNoteLocal(adId: string, n: Note)
      modifies this
      ensures noteIndex == old(noteIndex) + {adId}
      ensures storage == old(storage)[NoteKey(adId) := Object(n)]
      ensures cache == old(cache) && pending == old(pending) && lastSyncAt == old(lastSyncAt)
    {
      noteIndex := noteIndex + {adId};
      storage := storage[NoteKey(adId) := Object(n)];
    }

    /** `queueSave`: the latest text for a listing replaces any pending one. */
    method QueueSave(adId: string, text: string, updatedAt: int)
      modifies this
      ensures pending == old(pending)[adId := Pending(text, updatedAt)]
      ensures cache == old(cache) && storage == old(storage) && noteIndex == old(noteIndex)
      ensures lastSyncAt == old(lastSyncAt)
    {
      pending := pending[adId := Pending(text, updatedAt)];
    }

    /** `onNoteChanged`: the edited note, stamped `now`, keeps its version (0
      when it had none), is stored, and its save is queued. */
    method OnNoteChanged(adId: string, text: string, now: int)
      requires Valid()
      modifies this
      ensures Valid()
      ensures cache == old(cache)[adId := Note(text, Some(now), Some(VersionOf(old(cache), adId)))]
      ensures pending == old(pending)[adId := Pending(text, now)]
      ensures lastSyncAt == old(lastSyncAt)
    {
      var version := if adId in cache && cache[adId].version.Some? then cache[adId].version.value else 0;
      cache := cache[adId := Note(text, Some(now), Some(version))];
      LoadedAfterWrite(noteIndex, storage, adId, cache[adId]);
      SetNoteLocal(adId, cache[adId]);
      QueueSave(adId, text, now);
    }

    /** `flushSave`: sends the pending save, if any; a conflict or an ok answer
      replaces the cached note by the server's; any other answer keeps the
      local one. The pending save is gone afterwards in every case. Run to
      completion, with no edit while the request is in flight. */
    method FlushSave(adId: string, outcome: SaveOutcome) returns (sent: Option<SaveRequest>)
      requires Valid()
      modifies this
      ensures Valid()
      ensures adId !in old(pending) ==>
        sent.None? && cache == old(cache) && pending == old(pending)
        && storage == old(storage) && noteIndex == old(noteIndex)
      ensures adId in old(pending) ==>
        sent == Some(SaveRequest(adId, old(pending)[adId].text, old(pending)[adId].updatedAt, VersionOf(old(cache), adId)))
      ensures pending == old(pending) - {adId}
      ensures adId in old(pending) && Accepted(outcome) ==> cache == old(cache)[adId := outcome.server.value]
      ensures !Accepted(outcome) ==> cache == old(cache) && storage == old(storage) && noteIndex == old(noteIndex)
      ensures lastSyncAt == old(lastSyncAt)
    {
      sent := BeginSave(adId);
      if sent.None? {
        return;
      }
      FinishSave(adId, pending[adId], outcome);
    }

    /** The part of `flushSave` before the `PUT` is awaited: the request built
      from the pending save and the cached version. It changes nothing. */
    method BeginSave(adId: string) returns (sent: Option<SaveRequest>)
      ensures adId !in pending ==> sent.None?
      ensures adId in pending ==>
        sent == Some(SaveRequest(adId, pending[adId].text, pending[adId].updatedAt, VersionOf(cache, adId)))
    {
      if adId !in pending {
        return None;
      }
      var p := pending[adId];
      var version := if adId in cache && cache[adId].version.Some? then cache[adId].version.value else 0;
      sent := Some(SaveRequest(adId, p.text, p.updatedAt, version));
    }

    /** The part of `flushSave` after the reply, as written: an accepted
      answer overwrites the cached and stored note, and the `finally` drops
      whatever save is queued for the listing, even one queued by an edit
      made while the request was in flight. */
    method FinishSaveAsWritten(adId: string, outcome: SaveOutcome)
      requires Valid()
      modifies this
      ensures Valid()
      ensures pending == old(pending) - {adId}
      ensures Accepted(outcome) ==> cache == old(cache)[adId := outcome.server.value]
      ensures !Accepted(outcome) ==> cache == old(cache) && storage == old(storage) && noteIndex == old(noteIndex)
      ensures lastSyncAt == old(lastSyncAt)
    {
      if outcome.SaveReply? && (outcome.status == 409 || 200 <= outcome.status <= 299) && outcome.server.Some? {
        var server := outcome.server.value;
        cache := cache[adId := server];
        LoadedAfterWrite(noteIndex, storage, adId, server);
        SetNoteLocal(adId, server);
      }
      pending := pending - {adId};
    }

    /** The part of `flushSave` after the reply, corrected: the answer is
      applied and the queue entry dropped only while the queue still holds
      the save `sent` that was sent; a save queued by a later edit stays
      queued, and the edited note stays in the cache. */
    method FinishSave(adId: string, sent: Pending, outcome: SaveOutcome)
      requires Valid()
      modifies this
      ensures Valid()
      ensures lastSyncAt == old(lastSyncAt)
      ensures adId in old(pending) && old(pending)[adId] != sent ==>
        cache == old(cache) && pending == old(pending) && storage == old(storage) && noteIndex == old(noteIndex)
      ensures adId in old(pending) && old(pending)[adId] == sent ==> pending == old(pending) - {adId}
      ensures adId in old(pending) && old(pending)[adId] == sent && Accepted(outcome) ==>
        cache == old(cache)[adId := outcome.server.value]
      ensures adId !in old(pending) || !Accepted(outcome) ==>
        cache == old(cache) && storage == old(storage) && noteIndex == old(noteIndex)
      ensures adId !in old(pending) ==> pending == old(pending)
    {
      if adId !in pending {
        return;
      }
      if pending[adId] == sent {
        FinishSaveAsWritten(adId, outcome);
      }
    }

    /** One pass of the pull loop: the item replaces the cached entry, and is
      stored, when it is not older. */
    method MergeItem(it: Item)
      requires Valid()
      modifies this
      ensures Valid()
      ensures cache == MergeOne(old(cache), it)
      ensures pending == old(pending) && lastSyncAt == old(lastSyncAt)
    {
      var cur := if it.adId in cache then Some(cache[it.adId]) else None;
      if cur.None? || cur.value.updatedAt.None?
         || (it.entry.updatedAt.Some? && it.entry.updatedAt.value >= cur.value.updatedAt.value) {
        cache := cache[it.adId := it.entry];
        LoadedAfterWrite(noteIndex, storage, it.adId, it.entry);
        SetNoteLocal(it.adId, it.entry);
      }
    }

    /** `pullFromServer`: asks for the notes changed since the last sync; on an
      ok answer merges the items into the cache (and storage) in order, then
      records the server time (or `now`) as the last sync. Any failure
      changes nothing. */
    method PullFromServer(outcome: PullOutcome, now: int) returns (since: Option<int>)
      requires Valid()
      modifies this
      ensures Valid()
      ensures since == old(lastSyncAt)
      ensures pending == old(pending)
      ensures PullSucceeded(outcome) ==> cache == MergeItems(old(cache), PulledItems(outcome))
      ensures PullSucceeded(outcome) ==>
        lastSyncAt == Some(outcome.body.value.serverTime.GetOr(now))
      ensures !PullSucceeded(outcome) ==>
        cache == old(cache) && storage == old(storage) && noteIndex == old(noteIndex) && lastSyncAt == old(lastSyncAt)
    {
      since := lastSyncAt;
      if !PullSucceeded(outcome) {
        return;
      }
      var items := outcome.body.value.items.GetOr([]);
      for i := 0 to |items|
        invariant Valid()
        invariant cache == MergeItems(old(cache), items[..i])
        invariant pending == old(pending) && lastSyncAt == old(lastSyncAt)
      {
        assert items[..i + 1][..i] == items[..i];
        MergeItem(items[i]);
      }
      assert items[..|items|] == items;
      lastSyncAt := Some(outcome.body.value.serverTime.GetOr(now));
    }
  }


  // ---------------------------------------------------------------- an edit during a save

  /** The listing and notes of the scenario below. */
  const RaceId: string := "1"

  /** An edit made while its listing's save is in flight, with the server
      accepting the earlier text: the content script as written loses the
      edit. Afterwards nothing is queued for the listing and the cache holds
      the server's copy of the earlier text. */
  method LostEditAsWritten() returns (queued: bool, note: string)
    ensures !queued && note == "first"
  {
    var store := new NoteStore({}, map[], None);
    store.Bootstrap();
    store.OnNoteChanged(RaceId, "first", 1);
    var sent := store.BeginSave(RaceId);
    store.OnNoteChanged(RaceId, "second", 2);
    store.FinishSaveAsWritten(RaceId, SaveReply(200, Some(Note("first", Some(1), Some(1)))));
    queued := RaceId in store.pending;
    note := store.cache[RaceId].note;
  }

  /** The same scenario with the corrected second half: the edit stays in the
      cache and its save stays queued. */
  method EditKeptCorrected() returns (queued: bool, note: string)
    ensures queued && note == "second"
  {
    var store := new NoteStore({}, map[], None);
    store.Bootstrap();
    store.OnNoteChanged(RaceId, "first", 1);
    var p := store.pending[RaceId];
    var sent := store.BeginSave(RaceId);
    store.OnNoteChanged(RaceId, "second", 2);
    store.FinishSave(RaceId, p, SaveReply(200, Some(Note("first", Some(1), Some(1)))));
    queued := RaceId in store.pending;
    note := store.cache[RaceId].note;
  }
}
