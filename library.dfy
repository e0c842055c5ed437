/**
 * The `videos` object store (app.js:10, app.js:20-52) as a map from key to record plus the
 * key generator, and the module state `currentPlaying` (app.js:67) of the player overlay.
 */
module Library {
  import opened Wrappers
  import opened Records
  import opened Gallery
  import opened Ingest

  /** The records with key below `n`, in ascending key order: what `getAll` returns. */
  function ListBelow(m: map<nat, VideoRecord>, n: nat): seq<VideoRecord>
  {
    if n == 0 then [] else ListBelow(m, n - 1) + (if n - 1 in m then [m[n - 1]] else [])
  }

  /** The store's `keyPath: 'id'`: each record carries its own key. */
  ghost predicate KeysMatch(m: map<nat, VideoRecord>)
  {
    forall k :: k in m ==> m[k].id == k
  }

  /** The listing holds exactly the stored records with key below `n`. */
  lemma {:induction false} ListBelowMembers(m: map<nat, VideoRecord>, n: nat)
    requires KeysMatch(m)
    ensures forall r :: r in ListBelow(m, n) <==> r.id < n && r.id in m && m[r.id] == r
  {
    if n > 0 {
      ListBelowMembers(m, n - 1);
    }
  }

  /** The listing is in strictly ascending key order, so no record appears twice. */
  lemma {:induction false} ListBelowIncreasing(m: map<nat, VideoRecord>, n: nat)
    requires KeysMatch(m)
    ensures IncreasingIds(ListBelow(m, n))
  {
    if n > 0 {
      ListBelowIncreasing(m, n - 1);
      ListBelowMembers(m, n - 1);
      var prev := ListBelow(m, n - 1);
      var l := ListBelow(m, n);
      forall i, j | 0 <= i < j < |l| ensures l[i].id < l[j].id {
        if j >= |prev| {
          assert l[i] == prev[i] && l[i] in prev;
        } else {
          assert l[i] == prev[i] && l[j] == prev[j];
        }
      }
    }
  }

  /** Two stores that agree below `n` list the same records. */
  lemma {:induction false} ListBelowAgree(m1: map<nat, VideoRecord>, m2: map<nat, VideoRecord>, n: nat)
    requires forall k :: k < n ==> (k in m1 <==> k in m2) && (k in m1 ==> m1[k] == m2[k])
    ensures ListBelow(m1, n) == ListBelow(m2, n)
  {
    if n > 0 {
      ListBelowAgree(m1, m2, n - 1);
    }
  }

  /** Adding under the next key appends the new record to the listing. */
  lemma ListBelowAdd(m: map<nat, VideoRecord>, n: nat, r: VideoRecord)
    requires forall k :: k in m ==> k < n
    ensures ListBelow(m[n := r], n + 1) == ListBelow(m, n) + [r]
  {
    ListBelowAgree(m[n := r], m, n);
  }

  /** A store whose keys are all below `n` lists nothing exactly when it is empty. */
  lemma ListBelowEmpty(m: map<nat, VideoRecord>, n: nat)
    requires KeysMatch(m) && forall k :: k in m ==> k < n
    ensures ListBelow(m, n) == [] <==> m == map[]
  {
    ListBelowMembers(m, n);
    if m != map[] {
      var k :| k in m;
      assert m[k] in ListBelow(m, n);
    }
  }

  /** The store after a batch has been added under consecutive keys starting at `first`. */
  function AddBatch(m: map<nat, VideoRecord>, files: seq<File>, answers: seq<Option<string>>, times: seq<int>, first: nat)
    : map<nat, VideoRecord>
    requires |answers| == |files| && |times| == |files|
    decreases |files|
  {
    if files == [] then m
    else
      var n := |files| - 1;
      AddBatch(m, files[..n], answers[..n], times[..n], first)[first + n := NewRecord(files[n], answers[n], first + n, times[n])]
  }

  /** One more file of the batch adds one more record. */
  lemma AddBatchStep(m: map<nat, VideoRecord>, files: seq<File>, answers: seq<Option<string>>, times: seq<int>, first: nat, i: nat)
    requires |answers| == |files| && |times| == |files| && i < |files|
    ensures AddBatch(m, files[..i + 1], answers[..i + 1], times[..i + 1], first)
            == AddBatch(m, files[..i], answers[..i], times[..i], first)[first + i := NewRecord(files[i], answers[i], first + i, times[i])]
  {
    assert files[..i + 1][..i] == files[..i];
    assert answers[..i + 1][..i] == answers[..i];
    assert times[..i + 1][..i] == times[..i];
  }

  /** Each key of the batch holds its file's record; every other key is as before. */
  lemma {:induction false} AddBatchRecords(m: map<nat, VideoRecord>, files: seq<File>, answers: seq<Option<string>>, times: seq<int>, first: nat)
    requires |answers| == |files| && |times| == |files|
    ensures forall k :: first <= k < first + |files| ==>
              k in AddBatch(m, files, answers, times, first)
              && AddBatch(m, files, answers, times, first)[k] == NewRecord(files[k - first], answers[k - first], k, times[k - first])
    ensures forall k :: !(first <= k < first + |files|) ==>
              (k in AddBatch(m, files, answers, times, first) <==> k in m)
              && (k in m ==> AddBatch(m, files, answers, times, first)[k] == m[k])
    decreases |files|
  {
    if files != [] {
      var n := |files| - 1;
      AddBatchRecords(m, files[..n], answers[..n], times[..n], first);
    }
  }

  /** Added above every existing key, the batch's records follow the old listing, in order. */
  lemma {:induction false} AddBatchListing(m: map<nat, VideoRecord>, files: seq<File>, answers: seq<Option<string>>, times: seq<int>, first: nat)
    requires |answers| == |files| && |times| == |files|
    requires forall k :: k in m ==> k < first
    ensures ListBelow(AddBatch(m, files, answers, times, first), first + |files|)
            == ListBelow(m, first) + Ingested(files, answers, times, first)
    decreases |files|
  {
    if files != [] {
      var n := |files| - 1;
      var prev := AddBatch(m, files[..n], answers[..n], times[..n], first);
      var r := NewRecord(files[n], answers[n], first + n, times[n]);
      var earlier := Ingested(files[..n], answers[..n], times[..n], first);
      assert forall k :: k in prev ==> k < first + n by {
        AddBatchRecords(m, files[..n], answers[..n], times[..n], first);
      }
      assert Ingested(files, answers, times, first) == earlier + [r] by {
        assert files[..n + 1] == files && answers[..n + 1] == answers && times[..n + 1] == times;
        IngestedPrefix(files, answers, times, first, n);
      }
      calc {
        ListBelow(AddBatch(m, files, answers, times, first), first + |files|);
        ListBelow(prev[first + n := r], first + n + 1);
        { ListBelowAdd(prev, first + n, r); }
        ListBelow(prev, first + n) + [r];
        { AddBatchListing(m, files[..n], answers[..n], times[..n], first); }
        ListBelow(m, first) + earlier + [r];
        ListBelow(m, first) + Ingested(files, answers, times, first);
      }
    }
  }

  /** The cards are exactly the stored records visible for `q`, with descending keys. */
  ghost predicate ShowsNewestFirst(cards: seq<VideoRecord>, m: map<nat, VideoRecord>, q: string)
  {
    && DecreasingIds(cards)
    && forall r :: r in cards <==> r.id in m && m[r.id] == r && Visible(r, q)
  }

  /** JavaScript truthiness of `currentPlaying`: `null` and the number 0 are false. */
  function Truthy(p: Option<nat>): bool
  {
    p.Some? && p.value != 0
  }

  class VideoLibrary {
    /** The object store, by key. */
    var records: map<nat, VideoRecord>
    /** The store's key generator: the key the next `add` receives. */
    var nextId: nat
    /** `currentPlaying`: the key shown in the player overlay, if any. */
    var currentPlaying: Option<nat>

    /** Keys come from the generator, which starts at 1 and only grows. */
    ghost predicate Valid()
      reads this
    {
      && 1 <= nextId
      && KeysMatch(records)
      && (forall k :: k in records ==> 1 <= k < nextId)
      && (currentPlaying.Some? ==> 1 <= currentPlaying.value < nextId)
    }

    /** What `getAllVideos` resolves to. */
    function Listing(): seq<VideoRecord>
      reads this
    {
      ListBelow(records, nextId)
    }

    /** A freshly created store, with the overlay closed. */
    constructor ()
      ensures Valid()
      ensures records == map[] && nextId == 1 && currentPlaying == None
    {
      records := map[];
      nextId := 1;
      currentPlaying := None;
    }

    /** `addVideo` (app.js:20-30): store under a fresh key and resolve to that key. */
    method Add(blob: Blob, filename: string, title: string, created: int) returns (id: nat)
      requires Valid()
      modifies this
      ensures Valid()
      ensures id == old(nextId) && id >= 1 && id !in old(records)
      ensures records == old(records)[id := VideoRecord(id, blob, Some(filename), Some(title), created)]
      ensures nextId == old(nextId) + 1 && currentPlaying == old(currentPlaying)
      ensures Listing() == old(Listing()) + [records[id]]
    {
      id := nextId;
      ListBelowAdd(records, nextId, VideoRecord(id, blob, Some(filename), Some(title), created));
      records := records[id := VideoRecord(id, blob, Some(filename), Some(title), created)];
      nextId := nextId + 1;
    }

    /** `getAllVideos` (app.js:32-41): every stored record, once each, by ascending key. */
    method GetAll() returns (items: seq<VideoRecord>)
      requires Valid()
      ensures forall r :: r in items <==> r.id in records && records[r.id] == r
      ensures IncreasingIds(items)
      ensures items == [] <==> records == map[]
      ensures items == Listing()
    {
      items := ListBelow(records, nextId);
      ListBelowMembers(records, nextId);
      ListBelowIncreasing(records, nextId);
      ListBelowEmpty(records, nextId);
    }

    /** `store.get(id)` in `openPlayer` (app.js:134): the record, or nothing when the key is absent. */
    method Get(id: nat) returns (r: Option<VideoRecord>)
      ensures r.Some? <==> id in records
      ensures r.Some? ==> r.value == records[id]
    {
      r := if id in records then Some(records[id]) else None;
    }

    /** `deleteVideo` (app.js:43-52): remove that key; an absent key is not an error. */
    method Delete(id: nat)
      requires Valid()
      modifies this
      ensures Valid()
      ensures records == old(records) - {id}
      ensures nextId == old(nextId) && currentPlaying == old(currentPlaying)
      ensures forall r :: r in Listing() <==> r in old(Listing()) && r.id != id
    {
      ListBelowMembers(records, nextId);
      records := records - {id};
      ListBelowMembers(records, nextId);
    }

    /** `refreshGrid` (app.js:99-128): read the store, then build the grid for the query. */
    method RefreshGrid(rawQuery: string) returns (g: Grid)
      requires Valid()
      ensures g == Select(Listing(), rawQuery)
      ensures g.EmptyState? <==> records == map[]
      ensures g.Cards? ==> ShowsNewestFirst(g.items, records, NormalizeQuery(rawQuery))
    {
      var items := GetAll();
      g := BuildGrid(items, rawQuery);
      if items != [] {
        SelectNewestFirst(items, rawQuery);
      }
    }

    /** `handleFiles` (app.js:90-97): one `add` per file, in order, then one refresh. */
    method HandleFiles(files: seq<File>, answers: seq<Option<string>>, times: seq<int>, rawQuery: string)
      returns (ids: seq<nat>, g: Grid)
      requires Valid()
      requires |answers| == |files| && |times| == |files|
      modifies this
      ensures Valid()
      ensures nextId == old(nextId) + |files| && currentPlaying == old(currentPlaying)
      ensures |ids| == |files|
      ensures forall i :: 0 <= i < |ids| ==> ids[i] == old(nextId) + i && ids[i] !in old(records)
      ensures records == AddBatch(old(records), files, answers, times, old(nextId))
      ensures Listing() == old(Listing()) + Ingested(files, answers, times, old(nextId))
      ensures g == Select(Listing(), rawQuery)
    {
      ghost var first := nextId;
      ids := [];
      var i := 0;
      while i < |files|
        invariant 0 <= i <= |files|
        invariant Valid()
        invariant nextId == first + i && currentPlaying == old(currentPlaying)
        invariant |ids| == i
        invariant forall j :: 0 <= j < i ==> ids[j] == first + j
        invariant records == AddBatch(old(records), files[..i], answers[..i], times[..i], first)
      {
        var f := files[i];
        AddBatchStep(old(records), files, answers, times, first, i);
        var id := Add(f.content, f.name, Title(answers[i], f.name), times[i]);
        ids := ids + [id];
        i := i + 1;
      }
      assert files[..i] == files && answers[..i] == answers && times[..i] == times;
      AddBatchListing(old(records), files, answers, times, first);
      g := RefreshGrid(rawQuery);
    }

    /**
     * The `drop` and `change` handlers (app.js:76-86): keep the `video/` files, then ingest them.
     * `answers` holds one prompt answer per accepted file, `times` one creation time.
     */
    method Ingest(chosen: seq<File>, answers: seq<Option<string>>, times: seq<int>, rawQuery: string)
      returns (ids: seq<nat>, g: Grid)
      requires Valid()
      requires |answers| == |AcceptedFiles(chosen)| && |times| == |AcceptedFiles(chosen)|
      modifies this
      ensures Valid()
      ensures nextId == old(nextId) + |ids| && currentPlaying == old(currentPlaying)
      ensures |ids| == |AcceptedFiles(chosen)|
      ensures forall i :: 0 <= i < |ids| ==> ids[i] == old(nextId) + i && ids[i] !in old(records)
      ensures records == AddBatch(old(records), AcceptedFiles(chosen), answers, times, old(nextId))
      ensures Listing() == old(Listing()) + Ingested(AcceptedFiles(chosen), answers, times, old(nextId))
      ensures (forall k :: 0 <= k < |chosen| ==> !IsVideo(chosen[k])) ==> records == old(records) && ids == []
      ensures g == Select(Listing(), rawQuery)
    {
      var files := AcceptedFiles(chosen);
      ids, g := HandleFiles(files, answers, times, rawQuery);
    }

    /** The card's Remove button (app.js:122): on confirmation delete, then refresh. */
    method RemoveCard(id: nat, confirmed: bool, rawQuery: string) returns (g: Option<Grid>)
      requires Valid()
      modifies this
      ensures Valid()
      ensures records == if confirmed then old(records) - {id} else old(records)
      ensures nextId == old(nextId) && currentPlaying == old(currentPlaying)
      ensures g == if confirmed then Some(Select(Listing(), rawQuery)) else None
    {
      g := None;
      if confirmed {
        Delete(id);
        var grid := RefreshGrid(rawQuery);
        g := Some(grid);
      }
    }

    /** `openPlayer` (app.js:130-144): when the key is found, show it and remember it. */
    method OpenPlayer(id: nat) returns (shown: Option<VideoRecord>)
      requires Valid()
      modifies this
      ensures Valid()
      ensures shown == if id in records then Some(records[id]) else None
      ensures currentPlaying == if id in records then Some(id) else old(currentPlaying)
      ensures records == old(records) && nextId == old(nextId)
    {
      shown := Get(id);
      if shown.Some? {
        currentPlaying := Some(id);
      }
    }

    /** The close button (app.js:146-151). */
    method ClosePlayer()
      requires Valid()
      modifies this
      ensures Valid()
      ensures currentPlaying == None
      ensures records == old(records) && nextId == old(nextId)
    {
      currentPlaying := None;
    }

    /**
     * The player's delete button (app.js:153-162): only while a record is open and the
     * user confirms, delete it, close the overlay, and refresh.
     */
    method DeleteFromPlayer(confirmed: bool, rawQuery: string) returns (g: Option<Grid>)
      requires Valid()
      modifies this
      ensures Valid()
      ensures nextId == old(nextId)
      ensures old(currentPlaying).Some? && confirmed ==>
                records == old(records) - {old(currentPlaying).value}
                && currentPlaying == None
                && g == Some(Select(Listing(), rawQuery))
      ensures !(old(currentPlaying).Some? && confirmed) ==>
                records == old(records) && currentPlaying == old(currentPlaying) && g == None
    {
      g := None;
      if Truthy(currentPlaying) && confirmed {
        Delete(currentPlaying.value);
        currentPlaying := None;
        var grid := RefreshGrid(rawQuery);
        g := Some(grid);
      }
    }
  }
}
