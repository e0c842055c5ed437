/**
 * The documented behaviour checked on concrete data: the gallery filter on two records,
 * an ingestion session (drop a video and a non-video, fetch the new record back), and a
 * player session (add, open a missing and a stored key, decline and confirm the delete).
 */
module Scenarios {
  import opened Wrappers
  import opened Seqs
  import opened Text
  import opened Records
  import opened Gallery
  import opened Ingest
  import opened Library

  lemma TrimUntouched(s: string)
    requires s != [] && !IsWhitespace(s[0]) && !IsWhitespace(s[|s| - 1])
    ensures Trim(s) == s
  {
  }

  /** A lower-case letter appears after lower-casing only if it or its capital was there. */
  lemma LowerAbsent(s: string, c: char, u: char)
    requires 'a' <= c <= 'z' && u as int == c as int - 32
    requires c !in s && u !in s
    ensures c !in ToLower(s)
  {
  }

  lemma NotVisible(r: VideoRecord, q: string)
    requires q != [] && q[0] !in ToLower(OrEmpty(r.title)) && q[0] !in ToLower(OrEmpty(r.filename))
    ensures !Visible(r, q)
  {
    ContainsIff(ToLower(OrEmpty(r.title)), q);
    ContainsIff(ToLower(OrEmpty(r.filename)), q);
  }

  lemma SelectPair(a: VideoRecord, b: VideoRecord, raw: string)
    ensures Select([a, b], raw) ==
              Cards((if Visible(b, NormalizeQuery(raw)) then [b] else [])
                    + (if Visible(a, NormalizeQuery(raw)) then [a] else []))
  {
    var items := [a, b];
    assert items[1..] == [b] && [b][1..] == [];
    assert Reverse(items) == [b, a];
    var p := Keeps(NormalizeQuery(raw));
    assert [b, a][1..] == [a] && [a][1..] == [];
    assert Filter([a], p) == (if p(a) then [a] else []);
    assert Filter([b, a], p) == (if p(b) then [b] else []) + Filter([a], p);
  }

  lemma CatQuery(raw: string)
    requires raw == "cat" || raw == "CAT"
    ensures NormalizeQuery(raw) == "cat"
  {
    TrimUntouched(raw);
    var l := ToLower(raw);
    assert l[0] == 'c' && l[1] == 'a' && l[2] == 't';
  }

  lemma CatTitle(cat: VideoRecord, q: string)
    requires cat.title == Some("Cat Jumping") && q == "cat"
    ensures Visible(cat, q)
  {
    assert ToLower(OrEmpty(cat.title))[..3] == q;
  }

  lemma DogLetters(dog: VideoRecord)
    requires dog.title == Some("Dog Running") && dog.filename == Some("b.mov")
    ensures 'c' !in OrEmpty(dog.title) && 'C' !in OrEmpty(dog.title)
    ensures 'c' !in OrEmpty(dog.filename) && 'C' !in OrEmpty(dog.filename)
  {
  }

  lemma DogHidden(dog: VideoRecord, q: string)
    requires dog.title == Some("Dog Running") && dog.filename == Some("b.mov") && q == "cat"
    ensures !Visible(dog, q)
  {
    DogLetters(dog);
    LowerAbsent(OrEmpty(dog.title), 'c', 'C');
    LowerAbsent(OrEmpty(dog.filename), 'c', 'C');
    NotVisible(dog, q);
  }

  lemma SelectFirstOnly(a: VideoRecord, b: VideoRecord, raw: string)
    requires Visible(a, NormalizeQuery(raw)) && !Visible(b, NormalizeQuery(raw))
    ensures Select([a, b], raw) == Cards([a])
  {
    SelectPair(a, b, raw);
  }

  /** "cat" and "CAT" select only "Cat Jumping". */
  lemma FilterExample(cat: VideoRecord, dog: VideoRecord, raw: string)
    requires cat.title == Some("Cat Jumping") && cat.filename == Some("a.mp4")
    requires dog.title == Some("Dog Running") && dog.filename == Some("b.mov")
    requires raw == "cat" || raw == "CAT"
    ensures Select([cat, dog], raw) == Cards([cat])
  {
    CatQuery(raw);
    CatTitle(cat, NormalizeQuery(raw));
    DogHidden(dog, NormalizeQuery(raw));
    SelectFirstOnly(cat, dog, raw);
  }

  /** The empty query selects both records, the later one first. */
  lemma EmptyFilterExample(cat: VideoRecord, dog: VideoRecord)
    ensures Select([cat, dog], "") == Cards([dog, cat])
  {
    SelectPair(cat, dog, "");
    assert NormalizeQuery("") == [];
  }

  /** Non-video files are dropped; the video becomes one record that can be fetched back intact. */
  method IngestSession(movie: File, clip: File, answer: Option<string>)
    requires IsVideo(movie) && !IsVideo(clip)
  {
    var lib := new VideoLibrary();
    assert [clip, movie][1..] == [movie] && [movie][1..] == [];
    assert Filter([movie], IsVideo) == [movie];
    assert AcceptedFiles([clip, movie]) == [movie];
    var ids, grid := lib.Ingest([clip, movie], [answer], [7], "");
    var id := ids[0];
    assert id == 1;
    var got := lib.Get(id);
    assert got == Some(VideoRecord(id, movie.content, Some(movie.name), Some(Title(answer, movie.name)), 7));
  }

  /** Opening a missing key changes nothing; a declined delete keeps the record; a confirmed one removes it. */
  method PlayerSession(video: Blob)
  {
    var lib := new VideoLibrary();
    var id := lib.Add(video, "a.mp4", "Cat Jumping", 0);
    var shown := lib.OpenPlayer(id + 1);
    assert shown == None && lib.currentPlaying == None;
    shown := lib.OpenPlayer(id);
    assert lib.currentPlaying == Some(id);
    var refreshed := lib.DeleteFromPlayer(false, "");
    assert refreshed == None && id in lib.records;
    refreshed := lib.DeleteFromPlayer(true, "");
    assert lib.currentPlaying == None && lib.records == map[];
    ListBelowEmpty(lib.records, lib.nextId);
    assert refreshed == Some(EmptyState);
    var got := lib.Get(id);
    assert got == None;
  }
}
