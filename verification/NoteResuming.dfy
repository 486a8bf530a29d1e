/**
  A client that resumes paging while the indexer goes on: what it may miss, and the ledger the indexer
  publishes that tells it beforehand.
*/
module NoteResuming {
  import opened Wrappers
  import opened IndexerSync
  import opened NotePaging

  /**
    `later` is a table that `t` can grow into on an indexer that has persisted the cursor `synced`: leaf
    order is kept, and everything below the cursor is in the table already.
  */
  ghost predicate GrowsInto(t: Table, synced: nat, later: Table) {
    && LeafOrdered(later) && LedgersFollowLeaves(later)
    && t <= later
    && (forall i :: |t| <= i < |later| ==> later[i].ledger >= synced)
  }

  /** Paging `t` from `start` and resuming in `later` at `cursor` serves what one pass over `later` does. */
  ghost predicate Serves(t: Table, later: Table, start: nat, cursor: nat, limit: nat)
    requires LeafOrdered(t) && LedgersFollowLeaves(t) && LeafOrdered(later) && LedgersFollowLeaves(later) && limit >= 1
  {
    AllPages(t, start, limit) + AllPages(later, cursor, limit) == AllPages(later, start, limit)
  }

  lemma ServesUnlessLate(t: Table, later: Table, start: nat, cursor: nat, limit: nat)
    requires LeafOrdered(t) && LedgersFollowLeaves(t) && LeafOrdered(later) && LedgersFollowLeaves(later) && limit >= 1
    requires t <= later && start <= cursor && SelectFrom(t, cursor) == []
    ensures Serves(t, later, start, cursor, limit) <==> !HasLateRow(later[|t|..], start, cursor)
  {
    assert later == t + later[|t|..];
    PagesDeliverEverything(t, start, limit);
    PagesDeliverEverything(later, cursor, limit);
    PagesDeliverEverything(later, start, limit);
    ResumingServesTheGrownTable(t, later[|t|..], start, cursor);
  }

  /** A row that the indexer may still add: in the cursor's ledger or in that of the table's last row. */
  function NextRow(t: Table, synced: nat, start: nat): StoredNote {
    var least := Max(synced, start);
    if t == [] then StoredNote(0, "", "", least)
    else StoredNote(Last(t).leafIndex + 1, "", "", Max(least, Last(t).ledger))
  }

  lemma NextRowFits(t: Table, synced: nat, start: nat)
    requires LeafOrdered(t) && LedgersFollowLeaves(t)
    ensures GrowsInto(t, synced, t + [NextRow(t, synced, start)])
  {
  }

  lemma {:induction false} RowsLieBelow(t: Table, cursor: nat)
    requires SelectFrom(t, cursor) == []
    ensures forall i :: 0 <= i < |t| ==> t[i].ledger < cursor
  {
    if t != [] {
      RowsLieBelow(t[1..], cursor);
      assert forall i :: 1 <= i < |t| ==> t[i] == t[1..][i - 1];
    }
  }

  /**
    A client that finished at `cursor` can resume there without missing a note, whatever the table grows
    into, exactly if it moved not at all or no further than the ledger the indexer had synced to when it
    served the client.
  */
  lemma ResumingIsSafeIffSynced(t: Table, synced: nat, start: nat, cursor: nat, limit: nat)
    requires LeafOrdered(t) && LedgersFollowLeaves(t) && limit >= 1
    requires start <= cursor && SelectFrom(t, cursor) == []
    ensures (forall later :: GrowsInto(t, synced, later) ==> Serves(t, later, start, cursor, limit))
       <==> cursor == start || cursor <= synced
  {
    if cursor == start || cursor <= synced {
      forall later | GrowsInto(t, synced, later)
        ensures Serves(t, later, start, cursor, limit)
      {
        ServesUnlessLate(t, later, start, cursor, limit);
      }
    } else {
      var row := NextRow(t, synced, start);
      var later := t + [row];
      NextRowFits(t, synced, start);
      RowsLieBelow(t, cursor);
      ServesUnlessLate(t, later, start, cursor, limit);
      assert later[|t|..] == [row] && start <= row.ledger < cursor;
      assert [row][0].ledger == row.ledger;
      assert HasLateRow([row], start, cursor);
      assert !Serves(t, later, start, cursor, limit);
    }
  }

  /** Then two syncs of an auditor recover what one sync over the later table recovers, nothing twice. */
  lemma SyncedAuditorRecoversOnce(
      before: seq<AuditedNote>, middle: seq<AuditedNote>, t: Table, synced: nat, later: Table, start: nat, cursor: nat,
      decrypt: StoredNote -> Option<AuditedNote>)
    requires Decrypts(decrypt) && GrowsInto(t, synced, later)
    requires start <= cursor && SelectFrom(t, cursor) == [] && (cursor == start || cursor <= synced)
    requires middle == before + Recovered(SelectFrom(t, start), decrypt, Commitments(before))
    ensures middle + Recovered(SelectFrom(later, cursor), decrypt, Commitments(middle))
         == before + Recovered(SelectFrom(later, start), decrypt, Commitments(before))
  {
    var added := later[|t|..];
    assert later == t + added;
    assert !HasLateRow(added, start, cursor) by {
      assert forall i :: 0 <= i < |added| ==> added[i] == later[|t| + i];
    }
    ResumedSyncIsOneSync(before, middle, t, added, start, cursor, decrypt);
  }

  // ----- the tables of the sync loop grow this way

  /** The note events of a history, in order. */
  function NotesIn(events: seq<Event>): Table {
    if events == [] then []
    else
      var last := |events| - 1;
      NotesIn(events[..last]) + if events[last].NoteEvent? then [events[last].note] else []
  }

  lemma {:induction false} NotesInAppend(xs: seq<Event>, ys: seq<Event>)
    ensures NotesIn(xs + ys) == NotesIn(xs) + NotesIn(ys)
  {
    if ys == [] {
      assert xs + ys == xs;
    } else {
      var last := |ys| - 1;
      NotesInAppend(xs, ys[..last]);
      assert (xs + ys)[..|xs| + last] == xs + ys[..last];
    }
  }

  lemma {:induction false} NoteOf(events: seq<Event>, i: nat) returns (k: nat)
    requires i < |NotesIn(events)|
    ensures k < |events| && events[k] == NoteEvent(NotesIn(events)[i])
  {
    var last := |events| - 1;
    if i < |NotesIn(events[..last])| {
      k := NoteOf(events[..last], i);
    } else {
      k := last;
    }
  }

  lemma {:induction false} NotesInHas(events: seq<Event>, k: nat)
    requires k < |events| && events[k].NoteEvent?
    ensures events[k].note in NotesIn(events)
  {
    var last := |events| - 1;
    if k < last {
      NotesInHas(events[..last], k);
    }
  }

  lemma {:induction false} NotesInLeafOrdered(events: seq<Event>)
    requires LeavesGrow(events)
    ensures LeafOrdered(NotesIn(events))
  {
    if events != [] {
      var last := |events| - 1;
      NotesInLeafOrdered(events[..last]);
      if events[last].NoteEvent? {
        forall i | 0 <= i < |NotesIn(events[..last])|
          ensures NotesIn(events[..last])[i].leafIndex < events[last].note.leafIndex
        {
          var k := NoteOf(events[..last], i);
        }
      }
    }
  }

  lemma NotesInLists(events: seq<Event>)
    requires LeavesGrow(events)
    ensures Lists(NotesIn(events), TablesOf(events).notes)
  {
    var t, notes := NotesIn(events), TablesOf(events).notes;
    NotesInLeafOrdered(events);
    forall i | 0 <= i < |t|
      ensures t[i].leafIndex in notes && notes[t[i].leafIndex] == t[i]
    {
      var k := NoteOf(events, i);
      RowsKeepEvents(events, k);
    }
    forall leaf | leaf in notes
      ensures notes[leaf] in t
    {
      var k := RowsComeFromEvents(events, leaf);
      NotesInHas(events, k);
    }
  }

  ghost predicate SameRows(t: Table, u: Table) {
    forall r :: r in t <==> r in u
  }

  function Front(t: Table): Table
    requires t != []
  {
    t[..|t| - 1]
  }

  lemma FrontRows(t: Table)
    requires LeafOrdered(t) && t != []
    ensures LeafOrdered(Front(t)) && t == Front(t) + [Last(t)]
    ensures forall r :: r in Front(t) <==> r in t && r != Last(t)
  {
    forall r | r in t && r != Last(t)
      ensures r in Front(t)
    {
      var i :| 0 <= i < |t| && t[i] == r;
      assert Front(t)[i] == r;
    }
    var front := Front(t);
    forall i | 0 <= i < |front|
      ensures front[i] in t && front[i] != Last(t)
    {
      assert t[i].leafIndex < t[|t| - 1].leafIndex;
    }
  }

  /** The last row is the one with the largest leaf index. */
  lemma LastIsLargest(t: Table, r: StoredNote)
    requires LeafOrdered(t) && r in t
    ensures r.leafIndex < Last(t).leafIndex || r == Last(t)
  {
    var i :| 0 <= i < |t| && t[i] == r;
    assert i == |t| - 1 || t[i].leafIndex < t[|t| - 1].leafIndex;
  }

  lemma LastAgrees(t: Table, u: Table)
    requires LeafOrdered(t) && LeafOrdered(u) && SameRows(t, u) && t != []
    ensures u != [] && Last(t) == Last(u)
  {
    assert Last(t) in t;
    LastIsLargest(u, Last(t));
    assert Last(u) in u;
    LastIsLargest(t, Last(u));
  }

  lemma FrontsAgree(t: Table, u: Table)
    requires LeafOrdered(t) && LeafOrdered(u) && SameRows(t, u) && t != [] && u != [] && Last(t) == Last(u)
    ensures LeafOrdered(Front(t)) && LeafOrdered(Front(u)) && SameRows(Front(t), Front(u))
    ensures t == Front(t) + [Last(t)] && u == Front(u) + [Last(u)]
  {
    FrontRows(t);
    FrontRows(u);
  }

  lemma RowOf(u: Table)
    ensures u != [] ==> exists r :: r in u
  {
    if u != [] {
      assert u[0] in u;
    }
  }

  /** Leaf-ordered tables with the same rows are the same. */
  lemma {:induction false} SameRowsSameTable(t: Table, u: Table)
    requires LeafOrdered(t) && LeafOrdered(u) && SameRows(t, u)
    ensures t == u
    decreases |t|
  {
    if t == [] {
      RowOf(u);
    } else {
      LastAgrees(t, u);
      FrontsAgree(t, u);
      SameRowsSameTable(Front(t), Front(u));
    }
  }

  lemma ListingIsTheNotes(t: Table, events: seq<Event>)
    requires LeavesGrow(events) && Lists(t, TablesOf(events).notes)
    ensures t == NotesIn(events)
  {
    var u, notes := NotesIn(events), TablesOf(events).notes;
    NotesInLists(events);
    forall r
      ensures r in t <==> r in u
    {
      assert r in t ==> notes[r.leafIndex] == r;
      assert r in u ==> notes[r.leafIndex] == r;
    }
    SameRowsSameTable(t, u);
  }

  lemma PrefixGrows(done: seq<Event>, more: seq<Event>)
    requires LeavesGrow(done + more)
    ensures LeavesGrow(done)
  {
    assert forall i :: 0 <= i < |done| ==> (done + more)[i] == done[i];
  }

  lemma NotesAtOrAfter(events: seq<Event>, synced: nat)
    requires forall k :: 0 <= k < |events| ==> events[k].Ledger() >= synced
    ensures forall i :: 0 <= i < |NotesIn(events)| ==> NotesIn(events)[i].ledger >= synced
  {
    forall i | 0 <= i < |NotesIn(events)|
      ensures NotesIn(events)[i].ledger >= synced
    {
      var k := NoteOf(events, i);
    }
  }

  lemma ListingsGrow(done: seq<Event>, more: seq<Event>, synced: nat, t: Table, later: Table)
    requires Ordered(done + more) && LeavesGrow(done + more)
    requires Lists(t, TablesOf(done).notes) && Lists(later, TablesOf(done + more).notes)
    requires forall k :: 0 <= k < |more| ==> more[k].Ledger() >= synced
    ensures GrowsInto(t, synced, later)
  {
    StoredLedgersFollowLeaves(later, done + more);
    PrefixGrows(done, more);
    ListingIsTheNotes(t, done);
    ListingIsTheNotes(later, done + more);
    NotesInAppend(done, more);
    NotesAtOrAfter(more, synced);
    AppendedRows(t, NotesIn(more), later, synced);
  }

  lemma AppendedRows(t: Table, added: Table, later: Table, synced: nat)
    requires later == t + added && forall i :: 0 <= i < |added| ==> added[i].ledger >= synced
    ensures t <= later && forall i :: |t| <= i < |later| ==> later[i].ledger >= synced
  {
    assert forall i :: |t| <= i < |later| ==> later[i] == added[i - |t|];
  }

  /** A stretch of the history and the stretch behind it. */
  lemma HistoryStretches(h: seq<Event>, x: nat, y: nat, z: nat, synced: nat)
    requires Ordered(h) && LeavesGrow(h) && x <= y <= z <= |h| && Below(h, synced) <= y
    ensures h[x..z] == h[x..y] + h[y..z] && Ordered(h[x..z]) && LeavesGrow(h[x..z])
    ensures forall k :: 0 <= k < z - y ==> h[y..z][k].Ledger() >= synced
  {
    BelowSplits(h, synced);
  }

  /** The table of an indexer grows into that of any indexer of the same history that got further. */
  lemma SyncedTablesGrow(a: Syncer, b: Syncer, t: Table, later: Table)
    requires a.Valid() && b.Valid() && a.history == b.history && a.startLedger == b.startLedger && a.mark <= b.mark
    requires LeavesGrow(a.history) && Lists(t, a.tables.notes) && Lists(later, b.tables.notes)
    ensures GrowsInto(t, a.Cursor(), later) && LedgersFollowLeaves(t)
  {
    var x, y, z := a.Start(), a.mark, b.mark;
    HistoryStretches(a.history, x, y, z, a.Cursor());
    ListingsGrow(a.history[x..y], a.history[y..z], a.Cursor(), t, later);
    PrefixFollows(t, later);
  }

  lemma PrefixFollows(t: Table, later: Table)
    requires t <= later && LedgersFollowLeaves(later)
    ensures LedgersFollowLeaves(t)
  {
  }

  /**
    A client served by an indexer, and no further than the ledger that indexer had synced to, can resume
    with any indexer of the same history that got at least as far, and misses nothing.
  */
  lemma ResumingUpToTheSyncedLedger(
      a: Syncer, b: Syncer, t: Table, later: Table, start: nat, cursor: nat, limit: nat)
    requires a.Valid() && b.Valid() && a.history == b.history && a.startLedger == b.startLedger && a.mark <= b.mark
    requires LeavesGrow(a.history) && Lists(t, a.tables.notes) && Lists(later, b.tables.notes)
    requires start <= cursor <= a.Cursor() && limit >= 1
    ensures GrowsInto(t, a.Cursor(), later) && LedgersFollowLeaves(t)
    ensures SelectFrom(t, cursor) == [] ==> Serves(t, later, start, cursor, limit)
  {
    SyncedTablesGrow(a, b, t, later);
    if SelectFrom(t, cursor) == [] {
      ResumingIsSafeIffSynced(t, a.Cursor(), start, cursor, limit);
    }
  }

  // ----- a note missed

  const FIRST: StoredNote := StoredNote(0, "c0", "n0", 5)
  const SECOND: StoredNote := StoredNote(1, "c1", "n1", 5)

  /** Two notes in one ledger. */
  function TwoNotes(): seq<Event> {
    [NoteEvent(FIRST), NoteEvent(SECOND)]
  }

  /** A poll that fails after storing the first note, and the same followed by one that completes. */
  method InterruptedAndRetried() returns (a: Syncer, b: Syncer)
    ensures a.Valid() && a.history == TwoNotes() && a.startLedger == 5 && a.mark == 1 && a.Cursor() == 5
    ensures b.Valid() && b.history == TwoNotes() && b.startLedger == 5 && b.mark == 2 && b.Cursor() == 6
  {
    var h := TwoNotes();
    TwoNotesBelow();
    InterruptedPoll();
    a := new Syncer(h, 5);
    var failed := a.SyncOnce(h, [5], 3);
    b := new Syncer(h, 5);
    failed := b.SyncOnce(h, [5], 3);
    PollReachesTheTip(h, 1, 5, 5, [5], 5);
    var completed := b.SyncOnce(h, [5], 5);
  }

  lemma InterruptedPoll()
    ensures Ordered(TwoNotes()) && Poll(TwoNotes(), 0, 5, [5], 3) == Outcome(false, 1, 5)
  {
    TwoNotesBelow();
  }

  lemma TwoNotesBelow()
    ensures Ordered(TwoNotes()) && LeavesGrow(TwoNotes())
    ensures Below(TwoNotes(), 5) == 0 && Below(TwoNotes(), 6) == 2
  {
    BelowSplits(TwoNotes(), 5);
    BelowSplits(TwoNotes(), 6);
  }

  /**
    The input that loses a note: an indexer interrupted between the two notes of ledger 5 serves the
    first and the next ledger 6, beyond the 5 it has synced to. Once it has caught up, a client that
    starts over gets both notes; the one that resumes at 6 never gets the second.
  */
  lemma NoteMissedByResuming(a: Syncer, b: Syncer, t: Table, later: Table, limit: nat)
    requires a.Valid() && a.history == TwoNotes() && a.startLedger == 5 && a.mark == 1 && a.Cursor() == 5
    requires b.Valid() && b.history == TwoNotes() && b.startLedger == 5 && b.mark == 2 && b.Cursor() == 6
    requires Lists(t, a.tables.notes) && Lists(later, b.tables.notes) && limit >= 1
    ensures GrowsInto(t, 5, later) && LedgersFollowLeaves(t)
    ensures PageRows(t, 5, limit) == [FIRST] && NextLedger([FIRST], 5) == 6 > a.Cursor()
    ensures SECOND in AllPages(later, 5, limit) && SECOND !in AllPages(later, 6, limit)
    ensures !Serves(t, later, 5, 6, limit)
  {
    SyncedTablesGrow(a, b, t, later);
    TwoNotesBelow();
    FirstOnly(a, t);
    EmittedNotesReachTheClient(b, later, 5, limit, 1);
    OneRowPage(FIRST, 5, limit);
    SecondIsLate(t, later, limit);
  }

  lemma FirstOnly(a: Syncer, t: Table)
    requires a.Valid() && a.history == TwoNotes() && a.startLedger == 5 && a.mark == 1
    requires Lists(t, a.tables.notes)
    ensures t == [FIRST]
  {
    var h := TwoNotes();
    TwoNotesBelow();
    assert h[0..1] == [NoteEvent(FIRST)];
    assert [NoteEvent(FIRST)][..0] == [];
    ListingIsTheNotes(t, [NoteEvent(FIRST)]);
  }

  lemma SecondIsLate(t: Table, later: Table, limit: nat)
    requires LeafOrdered(later) && LedgersFollowLeaves(later) && limit >= 1
    requires t == [FIRST] <= later && SECOND in AllPages(later, 5, limit)
    ensures SECOND !in AllPages(later, 6, limit) && !Serves(t, later, 5, 6, limit)
  {
    PagesDeliverEverything(t, 5, limit);
    PagesDeliverEverything(later, 6, limit);
    SelectFromHas(t, 5, SECOND);
    SelectFromHas(later, 6, SECOND);
    assert SECOND !in AllPages(t, 5, limit) + AllPages(later, 6, limit);
  }

  lemma OneRowPage(r: StoredNote, start: nat, limit: nat)
    requires start <= r.ledger && limit >= 1
    ensures PageRows([r], start, limit) == [r]
  {
    PageIsBlock([r], start, limit);
    RowsBelowSplits([r], start);
    PageEndsALedger([r], start, limit);
  }
}
