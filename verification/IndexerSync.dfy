/**
  The indexer's sync loop. `getEvents` serves pages of an ordered event history; any await may
  fail; what is stored must depend on the history alone, and nothing below the persisted cursor may
  be missing.
*/
module IndexerSync {
  import opened Wrappers

  const PAGE_LIMIT: nat := 1000

  datatype StoredNote = StoredNote(leafIndex: nat, commitment: string, encryptedNote: string, ledger: nat)

  /** A contract event; `Other` stands for topics the loop skips. */
  datatype Event =
    | NoteEvent(note: StoredNote)
    | NullifierEvent(nullifier: string, spentLedger: nat)
    | Other(otherLedger: nat)
  {
    function Ledger(): nat {
      match this
      case NoteEvent(n) => n.ledger
      case NullifierEvent(_, l) => l
      case Other(l) => l
    }
  }

  datatype Tables = Tables(notes: map<nat, StoredNote>, nullifiers: map<string, nat>) {
    /** `upsertNote` and `markNullifierSpent`: insert unless the key is there. */
    function Apply(e: Event): Tables {
      match e
      case NoteEvent(n) => if n.leafIndex in notes then this else this.(notes := notes[n.leafIndex := n])
      case NullifierEvent(nf, l) => if nf in nullifiers then this else this.(nullifiers := nullifiers[nf := l])
      case Other(_) => this
    }

    /** Every row is a row of `other`, unchanged. */
    ghost predicate Within(other: Tables) {
      && (forall k :: k in notes ==> k in other.notes && other.notes[k] == notes[k])
      && (forall k :: k in nullifiers ==> k in other.nullifiers && other.nullifiers[k] == nullifiers[k])
    }

    predicate Has(e: Event) {
      match e
      case NoteEvent(n) => n.leafIndex in notes
      case NullifierEvent(nf, _) => nf in nullifiers
      case Other(_) => true
    }
  }

  /** The tables after processing a history once, in order. */
  function TablesOf(events: seq<Event>): Tables {
    if events == [] then Tables(map[], map[])
    else TablesOf(events[..|events| - 1]).Apply(events[|events| - 1])
  }

  lemma {:induction false} TablesHaveAll(events: seq<Event>, i: nat)
    requires i < |events|
    ensures TablesOf(events).Has(events[i])
  {
    var last := |events| - 1;
    if i < last {
      TablesHaveAll(events[..last], i);
    }
  }

  /** Processing again what was processed before changes nothing. */
  lemma ApplyAgain(events: seq<Event>, i: nat)
    requires i < |events|
    ensures TablesOf(events).Apply(events[i]) == TablesOf(events)
  {
    TablesHaveAll(events, i);
  }

  lemma ProcessNext(h: seq<Event>, start: nat, mark: nat)
    requires start <= mark < |h|
    ensures TablesOf(h[start..mark + 1]) == TablesOf(h[start..mark]).Apply(h[mark])
  {
    var more := h[start..mark + 1];
    assert more[..|more| - 1] == h[start..mark];
  }

  // ----- the history and its pages

  ghost predicate Ordered(h: seq<Event>) {
    forall i, j :: 0 <= i <= j < |h| ==> h[i].Ledger() <= h[j].Ledger()
  }

  /** How many events of an ordered history lie below a ledger. */
  function Below(h: seq<Event>, ledger: nat): (n: nat)
    ensures n <= |h|
  {
    if h == [] then 0
    else if h[|h| - 1].Ledger() < ledger then |h|
    else Below(h[..|h| - 1], ledger)
  }

  lemma {:induction false} BelowSplits(h: seq<Event>, ledger: nat)
    requires Ordered(h)
    ensures forall i :: 0 <= i < Below(h, ledger) ==> h[i].Ledger() < ledger
    ensures forall i :: Below(h, ledger) <= i < |h| ==> h[i].Ledger() >= ledger
  {
    if h != [] && h[|h| - 1].Ledger() >= ledger {
      BelowSplits(h[..|h| - 1], ledger);
    }
  }

  lemma BelowMonotone(h: seq<Event>, a: nat, b: nat)
    requires Ordered(h) && a <= b
    ensures Below(h, a) <= Below(h, b)
  {
    BelowSplits(h, a);
    BelowSplits(h, b);
    if Below(h, b) < Below(h, a) {
      assert h[Below(h, b)].Ledger() < a;
    }
  }

  function Min(a: nat, b: nat): nat { if a < b then a else b }

  function Max(a: nat, b: nat): nat { if a < b then b else a }

  /** End of the page that starts at event `pos` on a node whose latest ledger is `tip`. */
  function PageEnd(h: seq<Event>, pos: nat, tip: nat): nat {
    Min(pos + PAGE_LIMIT, Below(h, tip + 1))
  }

  /** Where the loop goes on: at the cursor's ledger, or right after the last event of a full page in it. */
  ghost predicate Resumes(h: seq<Event>, pos: nat, cursor: nat) {
    && pos <= |h|
    && (pos == Below(h, cursor) || (pos > 0 && h[pos - 1].Ledger() == cursor))
  }

  lemma PageWithin(h: seq<Event>, pos: nat, cursor: nat, tip: nat)
    requires Ordered(h) && Resumes(h, pos, cursor) && cursor <= tip
    ensures Below(h, cursor) <= pos <= PageEnd(h, pos, tip) <= |h|
  {
    BelowSplits(h, cursor);
    BelowSplits(h, tip + 1);
    BelowMonotone(h, cursor, tip + 1);
  }

  /** A full page moves the cursor to its last event's ledger, which may continue on the next page. */
  lemma LastEventLedger(h: seq<Event>, pos: nat, end: nat, cursor: nat)
    requires Ordered(h) && Resumes(h, pos, cursor) && pos < end <= |h|
    ensures cursor <= h[end - 1].Ledger() && Below(h, h[end - 1].Ledger()) < end
  {
    BelowSplits(h, cursor);
    BelowSplits(h, h[end - 1].Ledger());
  }

  // ----- what one poll achieves

  /** The outcome of a poll: whether it completed, how far into the history it got, and its cursor. */
  datatype Outcome = Outcome(ok: bool, mark: nat, cursor: nat)

  /**
    What is left of a poll that continues with request `page` at event `pos`, with `left` awaits to
    settle: each request and each write takes one. It ends well with the first short page, and badly
    with the first await that rejects, the first request a lagging node refuses, or the end of `tips`.
  */
  ghost function Pages(h: seq<Event>, pos: nat, mark: nat, cursor: nat, tips: seq<nat>, page: nat, left: nat): Outcome
    requires Ordered(h) && Resumes(h, pos, cursor) && page <= |tips|
    decreases |tips| - page
  {
    if page == |tips| || left == 0 || tips[page] < cursor then Outcome(false, mark, cursor)
    else
      PageWithin(h, pos, cursor, tips[page]);
      var end := PageEnd(h, pos, tips[page]);
      var reached := Max(mark, pos + Min(left - 1, end - pos));
      if left - 1 <= end - pos then Outcome(false, reached, cursor)
      else if end - pos < PAGE_LIMIT then Outcome(true, reached, tips[page] + 1)
      else Pages(h, end, reached, h[end - 1].Ledger(), tips, page + 1, left - 2 - (end - pos))
  }

  /** A poll first reads the cursor and starts at the first event of its ledger. */
  ghost function Poll(h: seq<Event>, mark: nat, cursor: nat, tips: seq<nat>, awaits: nat): Outcome
    requires Ordered(h)
  {
    if awaits == 0 then Outcome(false, mark, cursor)
    else Pages(h, Below(h, cursor), mark, cursor, tips, 0, awaits - 1)
  }

  /** After a full page the poll goes on behind it, with the cursor at its last event's ledger. */
  lemma FullPageContinues(h: seq<Event>, pos: nat, mark: nat, cursor: nat, tips: seq<nat>, page: nat, left: nat,
                          end: nat, reached: nat, ledger: nat, rest: nat)
    requires Ordered(h) && Resumes(h, pos, cursor) && page < |tips| && cursor <= tips[page]
    requires pos <= end == PageEnd(h, pos, tips[page]) <= |h| && end - pos >= PAGE_LIMIT
    requires reached == Max(mark, end) && ledger == h[end - 1].Ledger() && left == rest + 2 + (end - pos)
    ensures cursor <= ledger && Below(h, ledger) < end && Resumes(h, end, ledger)
    ensures Pages(h, pos, mark, cursor, tips, page, left) == Pages(h, end, reached, ledger, tips, page + 1, rest)
  {
    LastEventLedger(h, pos, end, cursor);
  }

  /** On a node that stays at one tip, enough requests and awaits bring the pages to that tip. */
  lemma {:induction false} PagesReachTheTip(
      h: seq<Event>, pos: nat, mark: nat, cursor: nat, tip: nat, tips: seq<nat>, page: nat, left: nat)
    requires Ordered(h) && Resumes(h, pos, cursor) && cursor <= tip && page <= |tips|
    requires forall k :: page <= k < |tips| ==> tips[k] == tip
    requires Below(h, tip + 1) < pos + (|tips| - page) * PAGE_LIMIT
    requires left + pos >= Below(h, tip + 1) + 2 * (|tips| - page)
    ensures pos <= Below(h, tip + 1)
    ensures Pages(h, pos, mark, cursor, tips, page, left) == Outcome(true, Max(mark, Below(h, tip + 1)), tip + 1)
    decreases |tips| - page
  {
    PageWithin(h, pos, cursor, tip);
    var end := PageEnd(h, pos, tip);
    if end - pos >= PAGE_LIMIT {
      BelowSplits(h, tip + 1);
      var reached, ledger, rest := Max(mark, end), h[end - 1].Ledger(), left - 2 - (end - pos);
      FullPageContinues(h, pos, mark, cursor, tips, page, left, end, reached, ledger, rest);
      PagesReachTheTip(h, end, reached, ledger, tip, tips, page + 1, rest);
    }
  }

  /**
    Progress: a poll that no await interrupts, on a node that stays at a tip not behind the cursor,
    stores every event up to that tip and moves the cursor right behind it.
  */
  lemma PollReachesTheTip(h: seq<Event>, mark: nat, cursor: nat, tip: nat, tips: seq<nat>, awaits: nat)
    requires Ordered(h) && cursor <= tip && forall k :: 0 <= k < |tips| ==> tips[k] == tip
    requires Below(h, tip + 1) < Below(h, cursor) + |tips| * PAGE_LIMIT
    requires awaits + Below(h, cursor) > Below(h, tip + 1) + 2 * |tips|
    ensures Poll(h, mark, cursor, tips, awaits) == Outcome(true, Max(mark, Below(h, tip + 1)), tip + 1)
  {
    BelowMonotone(h, cursor, tip + 1);
    PagesReachTheTip(h, Below(h, cursor), mark, cursor, tip, tips, 0, awaits - 1);
  }

  class Syncer {
    /** All events of the contract there will ever be, in order; a node sees those up to its tip. */
    ghost const history: seq<Event>
    const startLedger: nat

    var tables: Tables
    var lastSynced: Option<nat>
    /** How far into the history the loop has ever got. */
    ghost var mark: nat

    ghost function Start(): nat { Below(history, startLedger) }

    function Cursor(): nat
      reads this
    {
      if lastSynced.Some? then lastSynced.value else startLedger
    }

    ghost predicate Valid()
      reads this
    {
      && Ordered(history)
      && Start() <= mark <= |history|
      && tables == TablesOf(history[Start()..mark])
      && startLedger <= Cursor()
      && Below(history, Cursor()) <= mark
    }

    constructor (ghost history: seq<Event>, startLedger: nat)
      requires Ordered(history)
      ensures Valid() && Cursor() == startLedger && this.history == history && this.startLedger == startLedger
      ensures mark == Start()
    {
      this.history, this.startLedger := history, startLedger;
      tables, lastSynced := Tables(map[], map[]), None;
      mark := Below(history, startLedger);
    }

    /**
      One poll. `tips` is the node's latest ledger at each request; a node refuses a request that
      starts past its tip. `awaits` counts the awaits that settle before one of them rejects.
    */
    method SyncOnce(h: seq<Event>, tips: seq<nat>, awaits: nat) returns (ok: bool)
      requires Valid() && h == history
      modifies this
      ensures Valid()
      ensures Cursor() >= old(Cursor()) && mark >= old(mark)
      ensures Outcome(ok, mark, Cursor()) == Poll(h, old(mark), old(Cursor()), tips, awaits)
    {
      ok := false;
      if awaits == 0 { return; }
      var left: nat := awaits - 1;
      var pos: nat := Below(h, Cursor());
      for page := 0 to |tips|
        modifies this
        invariant Valid() && Resumes(h, pos, Cursor())
        invariant pos <= mark && mark >= old(mark) && Cursor() >= old(Cursor())
        invariant Poll(h, old(mark), old(Cursor()), tips, awaits) == Pages(h, pos, mark, Cursor(), tips, page, left)
      {
        var done;
        done, ok, pos, left := SyncPage(h, pos, tips, page, left);
        if done { return; }
      }
      ok := false;
    }

    /** One round of the loop: request a page, write its events, persist the cursor. */
    method SyncPage(h: seq<Event>, pos: nat, tips: seq<nat>, page: nat, awaits: nat)
      returns (done: bool, ok: bool, next: nat, left: nat)
      requires Valid() && h == history && Resumes(h, pos, Cursor()) && pos <= mark && page < |tips|
      modifies this
      ensures Valid() && Cursor() >= old(Cursor()) && mark >= old(mark)
      ensures done ==> Outcome(ok, mark, Cursor()) == Pages(h, pos, old(mark), old(Cursor()), tips, page, awaits)
      ensures !done ==>
                && Resumes(h, next, Cursor()) && next <= mark
                && Pages(h, next, mark, Cursor(), tips, page + 1, left)
                   == Pages(h, pos, old(mark), old(Cursor()), tips, page, awaits)
    {
      done, ok, next, left := true, false, pos, awaits;
      var tip := tips[page];
      if awaits == 0 || tip < Cursor() { return; }
      var stored, end;
      stored, end, left := StorePage(h, pos, tip, awaits - 1);
      if !stored || left == 0 { return; }
      left := left - 1;
      done := end - pos < PAGE_LIMIT;
      ok := done;
      PersistCursor(h, pos, tips, page, end, old(mark), awaits, left);
      next := end;
    }

    /** Persist the cursor behind a stored page: past the node's tip if short, else at its last event's ledger. */
    method PersistCursor(h: seq<Event>, pos: nat, tips: seq<nat>, page: nat, end: nat,
                         ghost before: nat, ghost awaits: nat, ghost left: nat)
      requires Valid() && h == history && Resumes(h, pos, Cursor()) && page < |tips| && Cursor() <= tips[page]
      requires pos <= end == PageEnd(h, pos, tips[page]) <= |h| && mark == Max(before, end)
      requires awaits == left + 2 + (end - pos)
      modifies this`lastSynced
      ensures Valid() && Cursor() >= old(Cursor())
      ensures end - pos < PAGE_LIMIT ==>
                Outcome(true, mark, Cursor()) == Pages(h, pos, before, old(Cursor()), tips, page, awaits)
      ensures end - pos >= PAGE_LIMIT ==>
                && Resumes(h, end, Cursor())
                && Pages(h, end, mark, Cursor(), tips, page + 1, left)
                   == Pages(h, pos, before, old(Cursor()), tips, page, awaits)
    {
      if end - pos < PAGE_LIMIT {
        SetLastSynced(tips[page] + 1);
      } else {
        var ledger := h[end - 1].Ledger();
        FullPageContinues(h, pos, before, Cursor(), tips, page, awaits, end, mark, ledger, left);
        SetLastSynced(ledger);
      }
    }

    /** Store the page that the node serves from event `pos`. */
    method StorePage(h: seq<Event>, pos: nat, tip: nat, awaits: nat) returns (ok: bool, end: nat, left: nat)
      requires Valid() && h == history && Resumes(h, pos, Cursor()) && pos <= mark && Cursor() <= tip
      modifies this`tables, this`mark
      ensures Valid() && pos <= end == PageEnd(h, pos, tip) <= |h|
      ensures ok <==> awaits >= end - pos
      ensures var written := Min(awaits, end - pos);
              left == awaits - written && mark == Max(old(mark), pos + written)
    {
      PageWithin(h, pos, Cursor(), tip);
      BelowMonotone(h, startLedger, Cursor());
      end := PageEnd(h, pos, tip);
      ok, left := StoreEvents(h, pos, end, awaits);
    }

    method SetLastSynced(ledger: nat)
      requires Valid() && ledger >= Cursor() && Below(history, ledger) <= mark
      modifies this`lastSynced
      ensures Valid() && Cursor() == ledger
    {
      lastSynced := Some(ledger);
    }

    /** Write the events of a page one await at a time, as many as the awaits suffice for. */
    method StoreEvents(h: seq<Event>, first: nat, end: nat, awaits: nat) returns (ok: bool, left: nat)
      requires Valid() && h == history && first <= end <= |h| && first <= mark && Start() <= first
      modifies this`tables, this`mark
      ensures Valid()
      ensures ok <==> awaits >= end - first
      ensures var written := Min(awaits, end - first);
              left == awaits - written && mark == Max(old(mark), first + written)
    {
      left := awaits;
      for i := first to end
        invariant Valid() && i <= mark == Max(old(mark), i) && left == awaits - (i - first)
      {
        if left == 0 { return false, left; }
        left := left - 1;
        ghost var done := h[Start()..mark];
        if i < mark {
          assert done[i - Start()] == h[i];
          ApplyAgain(done, i - Start());
        } else {
          ProcessNext(h, Start(), mark);
        }
        tables := tables.Apply(h[i]);
        if i == mark {
          mark := mark + 1;
        }
      }
      ok := true;
    }

    /** Every event from the start up to (but not at) the persisted cursor is stored. */
    lemma NothingBelowTheCursorIsMissing(i: nat)
      requires Valid() && i < |history| && startLedger <= history[i].Ledger() < Cursor()
      ensures tables.Has(history[i])
    {
      BelowSplits(history, startLedger);
      BelowSplits(history, Cursor());
      var done := history[Start()..mark];
      assert done[i - Start()] == history[i];
      TablesHaveAll(done, i - Start());
    }
  }

  // ----- the tables depend on the history only

  /** What a chain's note events satisfy: leaf indices grow, so each is used once. */
  ghost predicate LeavesGrow(h: seq<Event>) {
    forall i, j :: 0 <= i < j < |h| && h[i].NoteEvent? && h[j].NoteEvent? ==> h[i].note.leafIndex < h[j].note.leafIndex
  }

  /** Every note row is a note event processed. */
  lemma {:induction false} RowsComeFromEvents(events: seq<Event>, k: nat) returns (i: nat)
    requires k in TablesOf(events).notes
    ensures i < |events| && events[i] == NoteEvent(TablesOf(events).notes[k]) && events[i].note.leafIndex == k
  {
    var last := |events| - 1;
    if k in TablesOf(events[..last]).notes {
      i := RowsComeFromEvents(events[..last], k);
    } else {
      i := last;
    }
  }

  /** Every note event processed is a row, unchanged. */
  lemma RowsKeepEvents(events: seq<Event>, i: nat)
    requires LeavesGrow(events) && i < |events| && events[i].NoteEvent?
    ensures events[i].note.leafIndex in TablesOf(events).notes
    ensures TablesOf(events).notes[events[i].note.leafIndex] == events[i].note
  {
    TablesHaveAll(events, i);
    var j := RowsComeFromEvents(events, events[i].note.leafIndex);
    assert i == j;
  }

  /** Below its cursor an indexer holds every note of the history, as it was emitted. */
  lemma NotesBelowTheCursor(a: Syncer, i: nat)
    requires a.Valid() && LeavesGrow(a.history) && i < |a.history| && a.history[i].NoteEvent?
    requires a.startLedger <= a.history[i].Ledger() < a.Cursor()
    ensures var n := a.history[i].note;
            n.leafIndex in a.tables.notes && a.tables.notes[n.leafIndex] == n
  {
    BelowSplits(a.history, a.startLedger);
    BelowSplits(a.history, a.Cursor());
    var done := a.history[a.Start()..a.mark];
    assert done[i - a.Start()] == a.history[i];
    RowsKeepEvents(done, i - a.Start());
  }

  /** `f` is the first event that spends `nf`. */
  ghost predicate SpentFirstAt(events: seq<Event>, f: nat, nf: string) {
    && f < |events| && events[f].NullifierEvent? && events[f].nullifier == nf
    && forall j :: 0 <= j < f ==> !(events[j].NullifierEvent? && events[j].nullifier == nf)
  }

  /** A nullifier row holds the ledger of the first event that spent it. */
  lemma {:induction false} RowIsFirstSpend(events: seq<Event>, nf: string) returns (f: nat)
    requires nf in TablesOf(events).nullifiers
    ensures SpentFirstAt(events, f, nf) && TablesOf(events).nullifiers[nf] == events[f].spentLedger
  {
    var last := |events| - 1;
    if nf in TablesOf(events[..last]).nullifiers {
      f := RowIsFirstSpend(events[..last], nf);
    } else {
      f := last;
      forall j | 0 <= j < last && events[j].NullifierEvent?
        ensures events[j].nullifier != nf
      {
        TablesHaveAll(events[..last], j);
      }
    }
  }

  /** Whatever nullifier an indexer holds was spent on the chain, first at the ledger stored. */
  lemma StoredNullifierWasSpent(a: Syncer, nf: string) returns (f: nat)
    requires a.Valid() && nf in a.tables.nullifiers
    ensures a.Start() <= f < a.mark && SpentFirstAt(a.history[a.Start()..], f - a.Start(), nf)
    ensures a.tables.nullifiers[nf] == a.history[f].Ledger()
  {
    var done, all := a.history[a.Start()..a.mark], a.history[a.Start()..];
    var i := RowIsFirstSpend(done, nf);
    assert forall j :: 0 <= j <= i ==> done[j] == all[j];
    f := a.Start() + i;
  }

  /** Below its cursor an indexer holds every nullifier of the history, with the ledger of its first spend. */
  lemma NullifiersBelowTheCursor(a: Syncer, i: nat) returns (f: nat)
    requires a.Valid() && i < |a.history| && a.history[i].NullifierEvent?
    requires a.startLedger <= a.history[i].Ledger() < a.Cursor()
    ensures var nf := a.history[i].nullifier;
            && nf in a.tables.nullifiers
            && a.Start() <= f <= i && SpentFirstAt(a.history[a.Start()..], f - a.Start(), nf)
            && a.tables.nullifiers[nf] == a.history[f].Ledger()
  {
    BelowSplits(a.history, a.startLedger);
    a.NothingBelowTheCursorIsMissing(i);
    f := StoredNullifierWasSpent(a, a.history[i].nullifier);
    assert a.history[a.Start()..][i - a.Start()] == a.history[i];
  }

  /** Processing more of a history only adds rows. */
  lemma {:induction false} TablesGrow(events: seq<Event>, n: nat)
    requires n <= |events|
    ensures TablesOf(events[..n]).Within(TablesOf(events))
  {
    if n < |events| {
      TablesGrow(events[..|events| - 1], n);
      assert events[..|events| - 1][..n] == events[..n];
    } else {
      assert events[..n] == events;
    }
  }

  /**
    Two indexers of the same history, however they were paged, interrupted and retried: the tables of
    the one that got less far are contained in those of the other, notes and nullifiers alike, so they
    are equal at equal progress; and both hold every note below their cursors as emitted.
  */
  lemma TablesDependOnHistoryOnly(a: Syncer, b: Syncer, i: nat)
    requires a.Valid() && b.Valid() && a.history == b.history && a.startLedger == b.startLedger
    ensures a.mark <= b.mark ==> a.tables.Within(b.tables)
    ensures a.mark == b.mark ==> a.tables == b.tables
    ensures LeavesGrow(a.history) && i < |a.history| && a.history[i].NoteEvent?
            && a.startLedger <= a.history[i].Ledger() < Min(a.Cursor(), b.Cursor()) ==>
              var n := a.history[i].note;
              && n.leafIndex in a.tables.notes && n.leafIndex in b.tables.notes
              && a.tables.notes[n.leafIndex] == b.tables.notes[n.leafIndex] == n
  {
    if a.mark <= b.mark {
      var more := b.history[b.Start()..b.mark];
      assert more[..a.mark - a.Start()] == a.history[a.Start()..a.mark];
      TablesGrow(more, a.mark - a.Start());
    }
    if LeavesGrow(a.history) && i < |a.history| && a.history[i].NoteEvent?
       && a.startLedger <= a.history[i].Ledger() < Min(a.Cursor(), b.Cursor()) {
      NotesBelowTheCursor(a, i);
      NotesBelowTheCursor(b, i);
    }
  }
}
