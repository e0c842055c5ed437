/**
 * The selection rule of `refreshGrid` (app.js:99-128): which stored records become cards,
 * in which order, and when the empty-state message is shown instead.
 */
module Gallery {
  import opened Wrappers
  import opened Seqs
  import opened Text
  import opened Records

  /** What the grid shows: the empty-state message, or cards for these records in this order. */
  datatype Grid = EmptyState | Cards(items: seq<VideoRecord>)

  /** `field || ''`: a missing field reads as the empty string. */
  function OrEmpty(s: Option<string>): string
  {
    if s.Some? then s.value else ""
  }

  /** `search.value.trim().toLowerCase()` (app.js:100). */
  function NormalizeQuery(raw: string): (q: string)
    ensures forall i :: 0 <= i < |q| ==> !('A' <= q[i] <= 'Z')
    ensures q == [] || (!IsWhitespace(q[0]) && !IsWhitespace(q[|q| - 1]))
  {
    ToLowerWhitespace(Trim(raw));
    ToLower(Trim(raw))
  }

  /** A query that differs only in the case of its letters selects the same records. */
  lemma NormalizeQueryIgnoresCase(a: string, b: string)
    requires ToLower(a) == ToLower(b)
    ensures NormalizeQuery(a) == NormalizeQuery(b)
  {
    TrimLower(a);
    TrimLower(b);
  }

  /** The test of app.js:108, negated: the record is kept. `q` is already normalized. */
  predicate Visible(r: VideoRecord, q: string)
  {
    q == [] || Contains(ToLower(OrEmpty(r.title)), q) || Contains(ToLower(OrEmpty(r.filename)), q)
  }

  /** Kept exactly when the query is empty or occurs in the lower-cased title or filename. */
  lemma VisibleIff(r: VideoRecord, q: string)
    ensures Visible(r, q) <==>
              (q == []
               || (exists i: nat :: OccursAt(ToLower(OrEmpty(r.title)), q, i))
               || (exists i: nat :: OccursAt(ToLower(OrEmpty(r.filename)), q, i)))
  {
    var t, f := ToLower(OrEmpty(r.title)), ToLower(OrEmpty(r.filename));
    ContainsIff(t, q);
    ContainsIff(f, q);
    if Contains(t, q) {
      var i: nat :| OccursAt(t, q, i);
      assert OccursAt(ToLower(OrEmpty(r.title)), q, i);
    }
    if Contains(f, q) {
      var i: nat :| OccursAt(f, q, i);
      assert OccursAt(ToLower(OrEmpty(r.filename)), q, i);
    }
  }

  function Keeps(q: string): VideoRecord -> bool
  {
    r => Visible(r, q)
  }

  /** The whole rule: empty store gives the message, otherwise the visible records, newest first. */
  function Select(items: seq<VideoRecord>, raw: string): (g: Grid)
  {
    if items == [] then EmptyState else Cards(Filter(Reverse(items), Keeps(NormalizeQuery(raw))))
  }

  /** The message is shown exactly when the store returned no record at all. */
  lemma SelectEmptyState(items: seq<VideoRecord>, raw: string)
    ensures Select(items, raw).EmptyState? <==> items == []
    ensures items != [] && (forall r :: r in items ==> !Visible(r, NormalizeQuery(raw))) ==> Select(items, raw) == Cards([])
  {
    var q := NormalizeQuery(raw);
    if items != [] && (forall r :: r in items ==> !Visible(r, q)) {
      var c := Filter(Reverse(items), Keeps(q));
      ReverseMembers(items);
      if c != [] {
        assert c[0] in Reverse(items) && Keeps(q)(c[0]);
      }
    }
  }

  /** A query that trims to nothing shows every record, in reverse store order. */
  lemma SelectEmptyQuery(items: seq<VideoRecord>, raw: string)
    requires items != [] && NormalizeQuery(raw) == []
    ensures Select(items, raw) == Cards(Reverse(items))
  {
    FilterAll(Reverse(items), Keeps(NormalizeQuery(raw)));
  }

  /** A record gets a card exactly when it is stored and visible for the query. */
  lemma SelectMembers(items: seq<VideoRecord>, raw: string)
    requires items != []
    ensures forall r :: r in Select(items, raw).items <==> r in items && Visible(r, NormalizeQuery(raw))
  {
    var q := NormalizeQuery(raw);
    var rev := Reverse(items);
    var c := Filter(rev, Keeps(q));
    ReverseMembers(items);
    forall r | r in items && Visible(r, q) ensures r in c {
      var k :| 0 <= k < |rev| && rev[k] == r;
      assert Keeps(q)(rev[k]);
    }
  }

  /** Filtering never reorders: the cards are a subsequence of the reversed store list. */
  lemma SelectSubsequence(items: seq<VideoRecord>, raw: string)
    requires items != []
    ensures IsSubsequence(Select(items, raw).items, Reverse(items))
  {
    FilterIsSubsequence(Reverse(items), Keeps(NormalizeQuery(raw)));
  }

  ghost predicate IncreasingIds(s: seq<VideoRecord>)
  {
    forall i, j :: 0 <= i < j < |s| ==> s[i].id < s[j].id
  }

  ghost predicate DecreasingIds(s: seq<VideoRecord>)
  {
    forall i, j :: 0 <= i < j < |s| ==> s[i].id > s[j].id
  }

  /** A record with a larger id than all of a descending list can be put in front of it. */
  lemma PrependDecreasing(x: VideoRecord, rest: seq<VideoRecord>)
    requires DecreasingIds(rest)
    requires forall k :: 0 <= k < |rest| ==> rest[k].id < x.id
    ensures DecreasingIds([x] + rest)
  {
    var r := [x] + rest;
    forall i, j | 0 <= i < j < |r| ensures r[i].id > r[j].id {
      assert r[j] == rest[j - 1];
      if i > 0 {
        assert r[i] == rest[i - 1];
      }
    }
  }

  lemma {:induction false} FilterDecreasing(s: seq<VideoRecord>, p: VideoRecord -> bool)
    requires DecreasingIds(s)
    ensures DecreasingIds(Filter(s, p))
  {
    if s != [] {
      var tail := s[1..];
      assert DecreasingIds(tail);
      var rest := Filter(tail, p);
      FilterDecreasing(tail, p);
      if p(s[0]) {
        assert Filter(s, p) == [s[0]] + rest;
        forall k | 0 <= k < |rest| ensures rest[k].id < s[0].id {
          var m :| 0 <= m < |tail| && tail[m] == rest[k];
          assert s[m + 1] == rest[k];
        }
        PrependDecreasing(s[0], rest);
      }
    }
  }

  /** When the store lists records by ascending id, the newest record comes first. */
  lemma SelectNewestFirst(items: seq<VideoRecord>, raw: string)
    requires items != [] && IncreasingIds(items)
    ensures DecreasingIds(Select(items, raw).items)
  {
    var rev := Reverse(items);
    assert DecreasingIds(rev) by {
      forall i, j | 0 <= i < j < |rev| ensures rev[i].id > rev[j].id {
        assert rev[i] == items[|items| - 1 - i] && rev[j] == items[|items| - 1 - j];
      }
    }
    FilterDecreasing(rev, Keeps(NormalizeQuery(raw)));
  }

  /**
   * The card-building loop of `refreshGrid` (app.js:107-127), without the DOM work:
   * walk the reversed records and keep each one that passes the test of app.js:108.
   */
  method VisibleCards(rev: seq<VideoRecord>, q: string) returns (cards: seq<VideoRecord>)
    ensures cards == Filter(rev, Keeps(q))
  {
    cards := [];
    for j := 0 to |rev|
      invariant cards == Filter(rev[..j], Keeps(q))
    {
      FilterPrefixStep(rev, j, Keeps(q));
      if Visible(rev[j], q) {
        cards := cards + [rev[j]];
      }
    }
    assert rev[..|rev|] == rev;
  }

  /** `refreshGrid` (app.js:99-128) after the store has answered: the message, or the cards. */
  method BuildGrid(items: seq<VideoRecord>, rawQuery: string) returns (g: Grid)
    ensures g == Select(items, rawQuery)
    ensures g.EmptyState? <==> items == []
    ensures g.Cards? ==> forall r :: r in g.items <==> r in items && Visible(r, NormalizeQuery(rawQuery))
  {
    var q := NormalizeQuery(rawQuery);
    if |items| == 0 {
      return EmptyState;
    }
    var cards := VisibleCards(Reverse(items), q);
    g := Cards(cards);
    SelectMembers(items, rawQuery);
  }
}
