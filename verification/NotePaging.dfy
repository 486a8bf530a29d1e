/**
  The paged note query, in its SQLite and Postgres forms, and the client loop that resumes it until
  it has every note.
*/
module NotePaging {
  import opened Wrappers
  import opened IndexerSync

  /** The notes table in leaf order, as `ORDER BY leaf_index` lists it. */
  type Table = seq<StoredNote>

  ghost predicate LeafOrdered(t: Table) {
    forall i, j :: 0 <= i < j < |t| ==> t[i].leafIndex < t[j].leafIndex
  }

  /** Later leaves never carry earlier ledgers. */
  ghost predicate LedgersFollowLeaves(t: Table) {
    forall i, j :: 0 <= i <= j < |t| ==> t[i].ledger <= t[j].ledger
  }

  /** `WHERE ledger >= from`, in leaf order. */
  function SelectFrom(t: Table, start: nat): Table {
    if t == [] then []
    else (if t[0].ledger >= start then [t[0]] else []) + SelectFrom(t[1..], start)
  }

  /** `WHERE ledger = at`, in leaf order. */
  function SelectAt(t: Table, at: nat): Table {
    if t == [] then []
    else (if t[0].ledger == at then [t[0]] else []) + SelectAt(t[1..], at)
  }

  function Limit(t: Table, limit: nat): Table {
    if |t| <= limit then t else t[..limit]
  }

  function LeafSet(rows: Table): set<nat> {
    set r | r in rows :: r.leafIndex
  }

  function NotIn(t: Table, seen: set<nat>): Table {
    if t == [] then []
    else (if t[0].leafIndex in seen then [] else [t[0]]) + NotIn(t[1..], seen)
  }

  function Last(rows: Table): StoredNote
    requires rows != []
  {
    rows[|rows| - 1]
  }

  /** A page cut by the limit is completed with whatever else its last row's ledger holds. */
  function Complete(t: Table, rows: Table, limit: nat): Table {
    if |rows| == limit && |rows| > 0 then
      rows + NotIn(SelectAt(t, Last(rows).ledger), LeafSet(rows))
    else rows
  }

  /** The page served from a ledger: at most `limit` rows, completed. */
  function PageRows(t: Table, start: nat, limit: nat): Table {
    Complete(t, Limit(SelectFrom(t, start), limit), limit)
  }

  function NextLedger(rows: Table, start: nat): nat {
    if rows == [] then start else Last(rows).ledger + 1
  }

  /** Push onto a page each row whose leaf it does not hold yet. */
  method AppendUnseen(page: Table, rest: Table, seen: set<nat>) returns (rows: Table)
    ensures rows == page + NotIn(rest, seen)
  {
    rows := page;
    for i := 0 to |rest|
      invariant rows + NotIn(rest[i..], seen) == page + NotIn(rest, seen)
    {
      assert rest[i..][0] == rest[i] && rest[i..][1..] == rest[i + 1..];
      if rest[i].leafIndex !in seen {
        rows := rows + [rest[i]];
      }
    }
  }

  method SqliteGetNotesFrom(t: Table, start: nat, limit: nat) returns (notes: Table, nextLedger: nat)
    ensures notes == PageRows(t, start, limit) && nextLedger == NextLedger(notes, start)
  {
    var rows := Limit(SelectFrom(t, start), limit);
    if |rows| == limit && |rows| > 0 {
      var boundary := rows[|rows| - 1].ledger;
      var seen := set r | r in rows :: r.leafIndex;
      var rest := SelectAt(t, boundary);
      rows := AppendUnseen(rows, rest, seen);
    }
    notes := rows;
    nextLedger := if |notes| > 0 then notes[|notes| - 1].ledger + 1 else start;
  }

  method PostgresGetNotesFrom(t: Table, start: nat, limit: nat) returns (notes: Table, nextLedger: nat)
    ensures notes == PageRows(t, start, limit) && nextLedger == NextLedger(notes, start)
  {
    var rows := Limit(SelectFrom(t, start), limit);
    if |rows| == limit && |rows| > 0 {
      rows := rows + NotIn(SelectAt(t, Last(rows).ledger), LeafSet(rows));
    }
    notes := rows;
    nextLedger := if |notes| > 0 then Last(notes).ledger + 1 else start;
  }

  // ----- on a table ordered by ledger a page is a block of rows that ends with a whole ledger

  /** How many rows lie below a ledger. */
  function RowsBelow(t: Table, ledger: nat): (n: nat)
    ensures n <= |t|
  {
    if t == [] || t[0].ledger >= ledger then 0 else 1 + RowsBelow(t[1..], ledger)
  }

  lemma {:induction false} RowsBelowSplits(t: Table, ledger: nat)
    requires LedgersFollowLeaves(t)
    ensures forall i :: 0 <= i < RowsBelow(t, ledger) ==> t[i].ledger < ledger
    ensures forall i :: RowsBelow(t, ledger) <= i < |t| ==> t[i].ledger >= ledger
  {
    if t != [] && t[0].ledger < ledger {
      RowsBelowSplits(t[1..], ledger);
      forall i | 0 <= i < |t|
        ensures i < RowsBelow(t, ledger) <==> t[i].ledger < ledger
      {
        if i > 0 {
          assert t[i] == t[1..][i - 1];
        }
      }
    }
  }

  lemma {:induction false} SelectFromIsSuffix(t: Table, start: nat)
    requires LedgersFollowLeaves(t)
    ensures SelectFrom(t, start) == t[RowsBelow(t, start)..]
  {
    if t != [] {
      SelectFromIsSuffix(t[1..], start);
      if t[0].ledger >= start {
        if |t| > 1 {
          assert t[1..][0].ledger >= start;
        }
        assert RowsBelow(t[1..], start) == 0;
        assert t == [t[0]] + t[1..];
      }
    }
  }

  /** How the first row counts. */
  lemma RowsBelowCons(t: Table, ledger: nat)
    requires LedgersFollowLeaves(t) && t != []
    ensures LedgersFollowLeaves(t[1..])
    ensures RowsBelow(t, ledger) == if t[0].ledger < ledger then 1 + RowsBelow(t[1..], ledger) else 0
    ensures t[0].ledger >= ledger ==> RowsBelow(t[1..], ledger) == 0
  {
    assert |t| > 1 ==> t[1..][0] == t[1];
  }

  lemma BlockOfRest(t: Table, a: nat, b: nat)
    requires t != [] && a <= b < |t|
    ensures t[a + 1..b + 1] == t[1..][a..b]
    ensures t[0..b + 1] == [t[0]] + t[1..][0..b]
  {
  }

  lemma {:induction false} SelectAtIsBlock(t: Table, at: nat)
    requires LedgersFollowLeaves(t)
    ensures RowsBelow(t, at) <= RowsBelow(t, at + 1)
    ensures SelectAt(t, at) == t[RowsBelow(t, at)..RowsBelow(t, at + 1)]
  {
    if t != [] {
      var rest := t[1..];
      RowsBelowCons(t, at);
      RowsBelowCons(t, at + 1);
      SelectAtIsBlock(rest, at);
      BlockOfRest(t, RowsBelow(rest, at), RowsBelow(rest, at + 1));
      assert SelectAt(t, at) == (if t[0].ledger == at then [t[0]] else []) + SelectAt(rest, at);
    }
  }

  lemma {:induction false} NotInKeeps(rows: Table, seen: set<nat>)
    requires forall i :: 0 <= i < |rows| ==> rows[i].leafIndex !in seen
    ensures NotIn(rows, seen) == rows
  {
    if rows != [] {
      NotInKeeps(rows[1..], seen);
    }
  }

  lemma {:induction false} NotInDrops(rows: Table, rest: Table, seen: set<nat>)
    requires forall i :: 0 <= i < |rows| ==> rows[i].leafIndex in seen
    ensures NotIn(rows + rest, seen) == NotIn(rest, seen)
    decreases |rows|
  {
    if rows == [] {
      assert rows + rest == rest;
    } else {
      NotInDrops(rows[1..], rest, seen);
      assert (rows + rest)[1..] == rows[1..] + rest;
    }
  }

  /** Dropping from a block of rows those of a block that starts no later leaves what lies behind that one. */
  lemma NotInBlock(t: Table, a: nat, b: nat, c: nat, d: nat)
    requires LeafOrdered(t) && a <= c <= d <= |t| && a <= b <= d
    ensures NotIn(t[c..d], LeafSet(t[a..b])) == if b <= c then t[c..d] else t[b..d]
  {
    var m := if b <= c then c else b;
    forall i | c <= i < d
      ensures t[i].leafIndex in LeafSet(t[a..b]) <==> i < b
    {
      LeafInBlock(t, a, b, i);
    }
    NotInDrops(t[c..m], t[m..d], LeafSet(t[a..b]));
    NotInKeeps(t[m..d], LeafSet(t[a..b]));
    Join(t, c, m, d);
  }

  lemma LeafInBlock(t: Table, a: nat, b: nat, i: nat)
    requires LeafOrdered(t) && a <= b <= |t| && i < |t|
    ensures t[i].leafIndex in LeafSet(t[a..b]) <==> a <= i < b
  {
    if a <= i < b {
      assert t[a..b][i - a] == t[i];
    }
    if t[i].leafIndex in LeafSet(t[a..b]) {
      var r :| r in t[a..b] && r.leafIndex == t[i].leafIndex;
      var k :| 0 <= k < b - a && t[a..b][k] == r;
      assert t[a + k].leafIndex == t[i].leafIndex;
    }
  }

  /** Where the page that starts at ledger `start` ends. */
  function PageStop(t: Table, start: nat, limit: nat): (e: nat)
    requires limit >= 1
    ensures RowsBelow(t, start) <= e <= |t|
  {
    var a := RowsBelow(t, start);
    if |t| - a < limit then |t|
    else
      var stop := RowsBelow(t, t[a + limit - 1].ledger + 1);
      if stop < a + limit then a + limit else stop
  }

  lemma RowsBelowMonotone(t: Table, x: nat, y: nat)
    requires LedgersFollowLeaves(t) && x <= y
    ensures RowsBelow(t, x) <= RowsBelow(t, y)
  {
    RowsBelowSplits(t, x);
    RowsBelowSplits(t, y);
    if RowsBelow(t, y) < RowsBelow(t, x) {
      assert t[RowsBelow(t, y)].ledger < x;
    }
  }

  /** The last row's ledger ends at or after that row. */
  lemma RowWithinItsLedger(t: Table, i: nat)
    requires LedgersFollowLeaves(t) && i < |t|
    ensures RowsBelow(t, t[i].ledger) <= i < RowsBelow(t, t[i].ledger + 1)
  {
    RowsBelowSplits(t, t[i].ledger);
    RowsBelowSplits(t, t[i].ledger + 1);
  }

  lemma Join(t: Table, a: nat, b: nat, d: nat)
    requires a <= b <= d <= |t|
    ensures t[a..b] + t[b..d] == t[a..d]
  {
  }

  lemma JoinSuffix(t: Table, a: nat, e: nat)
    requires a <= e <= |t|
    ensures t[a..e] + t[e..] == t[a..]
  {
  }

  /** Cutting the suffix that starts at `a` after `limit` rows. */
  lemma Cut(t: Table, a: nat, limit: nat)
    requires a <= |t|
    ensures Limit(t[a..], limit) == if a + limit <= |t| then t[a..a + limit] else t[a..|t|]
  {
  }

  lemma LastOf(t: Table, a: nat, b: nat)
    requires a < b <= |t|
    ensures |t[a..b]| == b - a && t[a..b] != [] && Last(t[a..b]) == t[b - 1]
  {
  }

  /** Completing a cut page with its boundary ledger yields the block up to the end of that ledger. */
  lemma BoundaryCompletes(t: Table, a: nat, b: nat, at: nat)
    requires LeafOrdered(t) && LedgersFollowLeaves(t)
    requires a < b <= |t| && t[b - 1].ledger == at && a <= RowsBelow(t, at)
    ensures b <= RowsBelow(t, at + 1)
    ensures t[a..b] + NotIn(SelectAt(t, at), LeafSet(t[a..b])) == t[a..RowsBelow(t, at + 1)]
  {
    var c, d := RowsBelow(t, at), RowsBelow(t, at + 1);
    RowWithinItsLedger(t, b - 1);
    SelectAtIsBlock(t, at);
    assert NotIn(SelectAt(t, at), LeafSet(t[a..b])) == t[b..d] by {
      NotInBlock(t, a, b, c, d);
    }
    Join(t, a, b, d);
  }

  /** The ledger of a row at or after the first row of `start` starts no earlier than that row. */
  lemma LaterLedgersStartLater(t: Table, start: nat, i: nat)
    requires LedgersFollowLeaves(t) && RowsBelow(t, start) <= i < |t|
    ensures start <= t[i].ledger && RowsBelow(t, start) <= RowsBelow(t, t[i].ledger)
  {
    RowsBelowSplits(t, start);
    RowsBelowMonotone(t, start, t[i].ledger);
  }

  /** What completion makes of the block of rows that `LIMIT` leaves. */
  lemma CompleteBlock(t: Table, a: nat, limit: nat, b: nat, at: nat)
    requires LeafOrdered(t) && LedgersFollowLeaves(t) && limit >= 1
    requires b == a + limit <= |t| && t[b - 1].ledger == at && a <= RowsBelow(t, at)
    ensures b <= RowsBelow(t, at + 1)
    ensures Complete(t, t[a..b], limit) == t[a..RowsBelow(t, at + 1)]
  {
    LastOf(t, a, b);
    BoundaryCompletes(t, a, b, at);
  }

  lemma FullPageStop(t: Table, start: nat, limit: nat, a: nat, at: nat)
    requires limit >= 1 && a == RowsBelow(t, start) && a + limit <= |t| && at == t[a + limit - 1].ledger
    requires a + limit <= RowsBelow(t, at + 1)
    ensures PageStop(t, start, limit) == RowsBelow(t, at + 1)
  {
  }

  /** What `LIMIT` leaves of the rows from a ledger on. */
  lemma LimitedRows(t: Table, start: nat, limit: nat, a: nat)
    requires LedgersFollowLeaves(t) && a == RowsBelow(t, start)
    ensures Limit(SelectFrom(t, start), limit) == if a + limit <= |t| then t[a..a + limit] else t[a..|t|]
  {
    SelectFromIsSuffix(t, start);
    Cut(t, a, limit);
  }

  lemma ShortPage(t: Table, start: nat, limit: nat, a: nat)
    requires a == RowsBelow(t, start) && a + limit > |t| && Limit(SelectFrom(t, start), limit) == t[a..|t|]
    ensures PageRows(t, start, limit) == t[a..|t|] && PageStop(t, start, limit) == |t|
  {
  }

  lemma FullPage(t: Table, start: nat, limit: nat, a: nat)
    requires LeafOrdered(t) && LedgersFollowLeaves(t) && limit >= 1
    requires a == RowsBelow(t, start) && a + limit <= |t|
    requires Limit(SelectFrom(t, start), limit) == t[a..a + limit]
    ensures PageRows(t, start, limit) == t[a..PageStop(t, start, limit)]
  {
    var at := t[a + limit - 1].ledger;
    LaterLedgersStartLater(t, start, a + limit - 1);
    CompleteBlock(t, a, limit, a + limit, at);
    FullPageStop(t, start, limit, a, at);
  }

  /** A page is exactly the rows from the first at or after its starting ledger up to `PageStop`. */
  lemma PageIsBlock(t: Table, start: nat, limit: nat)
    requires LeafOrdered(t) && LedgersFollowLeaves(t) && limit >= 1
    ensures PageRows(t, start, limit) == t[RowsBelow(t, start)..PageStop(t, start, limit)]
  {
    var a := RowsBelow(t, start);
    LimitedRows(t, start, limit, a);
    if a + limit <= |t| {
      FullPage(t, start, limit, a);
    } else {
      ShortPage(t, start, limit, a);
    }
  }

  /** A page ends with a whole ledger: nothing after it carries the ledger of its last row. */
  lemma PageEndsALedger(t: Table, start: nat, limit: nat)
    requires LeafOrdered(t) && LedgersFollowLeaves(t) && limit >= 1
    requires RowsBelow(t, start) < |t|
    ensures RowsBelow(t, start) < PageStop(t, start, limit)
    ensures RowsBelow(t, t[PageStop(t, start, limit) - 1].ledger + 1) == PageStop(t, start, limit)
    ensures start <= t[PageStop(t, start, limit) - 1].ledger
  {
    var a, e := RowsBelow(t, start), PageStop(t, start, limit);
    if a + limit <= |t| {
      var at := t[a + limit - 1].ledger;
      RowWithinItsLedger(t, a + limit - 1);
      RowsBelowSplits(t, at + 1);
      assert e == RowsBelow(t, at + 1) && t[e - 1].ledger == at;
    } else {
      RowWithinItsLedger(t, |t| - 1);
    }
    LaterLedgersStartLater(t, start, e - 1);
  }

  /**
    A page is no shorter than `limit` while rows are left, and longer only by rows of the ledger that
    its `limit`-th row is of.
  */
  lemma PageSize(t: Table, start: nat, limit: nat)
    requires LeafOrdered(t) && LedgersFollowLeaves(t) && limit >= 1
    ensures var page := PageRows(t, start, limit);
            && |page| >= Min(limit, |SelectFrom(t, start)|)
            && forall i :: limit <= i < |page| ==> page[i].ledger == page[limit - 1].ledger
  {
    PageIsBlock(t, start, limit);
    SelectFromIsSuffix(t, start);
    StopIsPastTheLimit(t, start, limit);
    forall k | RowsBelow(t, start) + limit <= k < PageStop(t, start, limit)
      ensures t[k].ledger == t[RowsBelow(t, start) + limit - 1].ledger
    {
      BoundaryLedger(t, start, limit, k);
    }
    BlockSize(t, RowsBelow(t, start), PageStop(t, start, limit), limit, PageRows(t, start, limit));
  }

  lemma BlockSize(t: Table, a: nat, e: nat, limit: nat, page: Table)
    requires limit >= 1 && a <= e <= |t| && e - a >= Min(limit, |t| - a) && page == t[a..e]
    requires forall k :: a + limit <= k < e ==> t[k].ledger == t[a + limit - 1].ledger
    ensures |page| >= Min(limit, |t[a..]|)
    ensures forall i :: limit <= i < |page| ==> page[i].ledger == page[limit - 1].ledger
  {
    forall i | limit <= i < |page|
      ensures page[i].ledger == page[limit - 1].ledger
    {
      assert page[i] == t[a + i] && page[limit - 1] == t[a + limit - 1];
    }
  }

  lemma StopIsPastTheLimit(t: Table, start: nat, limit: nat)
    requires LedgersFollowLeaves(t) && limit >= 1
    ensures PageStop(t, start, limit) - RowsBelow(t, start) >= Min(limit, |t| - RowsBelow(t, start))
  {
  }

  lemma BoundaryLedger(t: Table, start: nat, limit: nat, k: nat)
    requires LedgersFollowLeaves(t) && limit >= 1
    requires RowsBelow(t, start) + limit <= k < PageStop(t, start, limit)
    ensures t[k].ledger == t[RowsBelow(t, start) + limit - 1].ledger
  {
    var last := RowsBelow(t, start) + limit - 1;
    RowWithinItsLedger(t, last);
    RowsBelowSplits(t, t[last].ledger + 1);
  }

  /** `WHERE` keeps the rows at or after the ledger, whatever order ledgers come in. */
  lemma {:induction false} SelectsExactly(t: Table, start: nat, r: StoredNote)
    ensures r in SelectFrom(t, start) <==> r in t && r.ledger >= start
    decreases |t|
  {
    if t != [] {
      SelectsExactly(t[1..], start, r);
      assert t == [t[0]] + t[1..];
    }
  }

  lemma SuffixSplits(t: Table, start: nat, next: nat, e: nat)
    requires LedgersFollowLeaves(t) && RowsBelow(t, start) <= e == RowsBelow(t, next)
    ensures t[RowsBelow(t, start)..e] + SelectFrom(t, next) == SelectFrom(t, start)
  {
    SelectFromIsSuffix(t, start);
    SelectFromIsSuffix(t, next);
    JoinSuffix(t, RowsBelow(t, start), e);
  }

  /** A page starts at its ledger's first row, and its `nextLedger` is the ledger behind its last row. */
  lemma NextLedgerFollowsPage(t: Table, start: nat, limit: nat, page: Table, next: nat)
    requires LeafOrdered(t) && LedgersFollowLeaves(t) && limit >= 1 && RowsBelow(t, start) < |t|
    requires page == t[RowsBelow(t, start)..PageStop(t, start, limit)] && next == NextLedger(page, start)
    ensures page != [] && next > start
    ensures RowsBelow(t, start) < RowsBelow(t, next) == PageStop(t, start, limit)
  {
    PageEndsALedger(t, start, limit);
    LastOf(t, RowsBelow(t, start), PageStop(t, start, limit));
  }

  /**
    Resuming at a page's `nextLedger` continues right behind its last row, and a page is empty only
    when nothing is left.
  */
  lemma NextPage(t: Table, start: nat, limit: nat, page: Table, next: nat)
    requires LeafOrdered(t) && LedgersFollowLeaves(t) && limit >= 1
    requires page == PageRows(t, start, limit) && next == NextLedger(page, start)
    ensures page + SelectFrom(t, next) == SelectFrom(t, start)
    ensures page == [] ==> SelectFrom(t, start) == []
    ensures page != [] ==> next > start && RowsBelow(t, next) > RowsBelow(t, start)
  {
    PageIsBlock(t, start, limit);
    if RowsBelow(t, start) < |t| {
      NextLedgerFollowsPage(t, start, limit, page, next);
      SuffixSplits(t, start, next, PageStop(t, start, limit));
    } else {
      SelectFromIsSuffix(t, start);
      assert page == [];
    }
  }

  // ----- the resuming client

  /** All pages from a starting ledger, by resuming at each page's `nextLedger`. */
  function AllPages(t: Table, start: nat, limit: nat): (rows: Table)
    requires LeafOrdered(t) && LedgersFollowLeaves(t) && limit >= 1
    decreases |t| - RowsBelow(t, start)
  {
    var page := PageRows(t, start, limit);
    var next := NextLedger(page, start);
    NextPage(t, start, limit, page, next);
    if page == [] then [] else page + AllPages(t, next, limit)
  }

  /**
    For every page size the client gets each note at or after its starting ledger exactly once, in
    leaf order, however many notes one ledger holds.
  */
  lemma {:induction false} PagesDeliverEverything(t: Table, start: nat, limit: nat)
    requires LeafOrdered(t) && LedgersFollowLeaves(t) && limit >= 1
    ensures AllPages(t, start, limit) == SelectFrom(t, start)
    decreases |t| - RowsBelow(t, start)
  {
    var page := PageRows(t, start, limit);
    var next := NextLedger(page, start);
    NextPage(t, start, limit, page, next);
    if page != [] {
      PagesDeliverEverything(t, next, limit);
    }
  }

  // ----- the auditor

  datatype AuditedNote = AuditedNote(
    value: nat, assetId: string, rho: seq<byte>, rcm: seq<byte>, leafIndex: nat, commitment: string, ledger: nat)

  /** Decryption keeps the public fields of a record. */
  ghost predicate Decrypts(decrypt: StoredNote -> Option<AuditedNote>) {
    forall raw: StoredNote :: decrypt(raw).Some? ==>
      && decrypt(raw).value.leafIndex == raw.leafIndex
      && decrypt(raw).value.commitment == raw.commitment
      && decrypt(raw).value.ledger == raw.ledger
  }

  function Commitments(notes: seq<AuditedNote>): set<string> {
    set n | n in notes :: n.commitment
  }

  /** The notes a viewing key recovers from `rows`, skipping commitments already seen. */
  function Recovered(rows: Table, decrypt: StoredNote -> Option<AuditedNote>, seen: set<string>): seq<AuditedNote>
    decreases |rows|
  {
    if rows == [] then []
    else if rows[0].commitment in seen || decrypt(rows[0]).None? then Recovered(rows[1..], decrypt, seen)
    else [decrypt(rows[0]).value] + Recovered(rows[1..], decrypt, seen + {rows[0].commitment})
  }

  lemma {:induction false} RecoveredAppend(
      xs: Table, ys: Table, decrypt: StoredNote -> Option<AuditedNote>, seen: set<string>)
    requires Decrypts(decrypt)
    ensures Recovered(xs + ys, decrypt, seen)
         == Recovered(xs, decrypt, seen)
            + Recovered(ys, decrypt, seen + Commitments(Recovered(xs, decrypt, seen)))
    decreases |xs|
  {
    if xs == [] {
      assert xs + ys == ys && seen + Commitments([]) == seen;
    } else {
      assert (xs + ys)[0] == xs[0] && (xs + ys)[1..] == xs[1..] + ys;
      if xs[0].commitment in seen || decrypt(xs[0]).None? {
        RecoveredAppend(xs[1..], ys, decrypt, seen);
      } else {
        var seen' := seen + {xs[0].commitment};
        RecoveredAppend(xs[1..], ys, decrypt, seen');
        var rest := Recovered(xs[1..], decrypt, seen');
        CommitmentsCons(decrypt(xs[0]).value, rest);
        assert seen' + Commitments(rest) == seen + Commitments([decrypt(xs[0]).value] + rest);
      }
    }
  }

  lemma CommitmentsCons(n: AuditedNote, rest: seq<AuditedNote>)
    ensures Commitments([n] + rest) == {n.commitment} + Commitments(rest)
  {
    var all := [n] + rest;
    assert forall x :: x in all <==> x == n || x in rest;
  }

  lemma CommitmentsAppend(xs: seq<AuditedNote>, ys: seq<AuditedNote>)
    ensures Commitments(xs + ys) == Commitments(xs) + Commitments(ys)
  {
    assert forall x :: x in xs + ys <==> x in xs || x in ys;
  }

  /** Absorbing a page and then the rest is absorbing both. */
  lemma SyncStep(before: seq<AuditedNote>, after: seq<AuditedNote>, page: Table, rest: Table,
                 decrypt: StoredNote -> Option<AuditedNote>)
    requires Decrypts(decrypt) && after == before + Recovered(page, decrypt, Commitments(before))
    ensures before + Recovered(page + rest, decrypt, Commitments(before))
         == after + Recovered(rest, decrypt, Commitments(after))
  {
    RecoveredAppend(page, rest, decrypt, Commitments(before));
    CommitmentsAppend(before, Recovered(page, decrypt, Commitments(before)));
  }

  class ZKELLAAuditor {
    var notes: seq<AuditedNote>
    var lastSyncLedger: nat

    constructor (birthdayLedger: nat)
      ensures notes == [] && lastSyncLedger == birthdayLedger
    {
      notes, lastSyncLedger := [], birthdayLedger;
    }

    /**
      Page through the indexer from where the last sync stopped. Afterwards everything the key
      recovers from the table at or after that ledger has been added, once, in leaf order, and the
      next sync starts behind the last row.
    */
    method Sync(t: Table, limit: nat, decrypt: StoredNote -> Option<AuditedNote>)
      requires LeafOrdered(t) && LedgersFollowLeaves(t) && limit >= 1 && Decrypts(decrypt)
      modifies this
      ensures notes == old(notes)
                       + Recovered(SelectFrom(t, old(lastSyncLedger)), decrypt, Commitments(old(notes)))
      ensures lastSyncLedger >= old(lastSyncLedger)
      ensures SelectFrom(t, lastSyncLedger) == []
    {
      var cursor := lastSyncLedger;
      var seen := Commitments(notes);
      ghost var goal := notes + Recovered(SelectFrom(t, cursor), decrypt, seen);
      while true
        invariant cursor >= old(lastSyncLedger) && lastSyncLedger == old(lastSyncLedger)
        invariant notes + Recovered(SelectFrom(t, cursor), decrypt, seen) == goal
        invariant seen == Commitments(notes)
        decreases |t| - RowsBelow(t, cursor)
      {
        var page, nextLedger := SqliteGetNotesFrom(t, cursor, limit);
        NextPage(t, cursor, limit, page, nextLedger);
        ghost var before := notes;
        seen := Absorb(page, decrypt, seen);
        SyncStep(before, notes, page, SelectFrom(t, nextLedger), decrypt);
        if |page| == 0 || nextLedger <= cursor {
          break;
        }
        cursor := nextLedger;
      }
      lastSyncLedger := cursor;
    }

    /** The loop over one page: decrypt, skip what was seen, keep the rest. */
    method Absorb(page: Table, decrypt: StoredNote -> Option<AuditedNote>, seen: set<string>) returns (seen': set<string>)
      requires Decrypts(decrypt) && seen == Commitments(notes)
      modifies this`notes
      ensures notes == old(notes) + Recovered(page, decrypt, seen)
      ensures seen' == Commitments(notes)
    {
      seen' := seen;
      for i := 0 to |page|
        invariant seen' == Commitments(notes)
        invariant notes + Recovered(page[i..], decrypt, seen') == old(notes) + Recovered(page, decrypt, seen)
      {
        var raw := page[i];
        assert page[i..][0] == raw && page[i..][1..] == page[i + 1..];
        if raw.commitment !in seen' {
          var note := decrypt(raw);
          if note.Some? {
            CommitmentsAppend(notes, [note.value]);
            CommitmentsCons(note.value, []);
            seen' := seen' + {raw.commitment};
            notes := notes + [note.value];
          }
        }
      }
    }
  }

  /** Commitments are unique in the notes table. */
  ghost predicate CommitmentsUnique(t: Table) {
    forall i, j :: 0 <= i < j < |t| ==> t[i].commitment != t[j].commitment
  }

  /** The decryptable rows, in order. */
  function Decryptable(rows: Table, decrypt: StoredNote -> Option<AuditedNote>): seq<AuditedNote> {
    if rows == [] then []
    else (if decrypt(rows[0]).Some? then [decrypt(rows[0]).value] else []) + Decryptable(rows[1..], decrypt)
  }

  /** A first sync recovers each note encrypted to the key exactly once. */
  lemma {:induction false} FreshSyncRecoversAll(rows: Table, decrypt: StoredNote -> Option<AuditedNote>, seen: set<string>)
    requires CommitmentsUnique(rows) && forall i :: 0 <= i < |rows| ==> rows[i].commitment !in seen
    ensures Recovered(rows, decrypt, seen) == Decryptable(rows, decrypt)
    decreases |rows|
  {
    if rows != [] {
      var seen' := if decrypt(rows[0]).Some? then seen + {rows[0].commitment} else seen;
      forall i | 0 <= i < |rows| - 1
        ensures rows[1..][i].commitment !in seen'
      {
        assert rows[i + 1].commitment != rows[0].commitment;
      }
      FreshSyncRecoversAll(rows[1..], decrypt, seen');
    }
  }

  // ----- syncing again after the table has grown

  lemma SelectFromCons(rows: Table, start: nat)
    requires rows != []
    ensures var rest := SelectFrom(rows[1..], start);
            SelectFrom(rows, start) == if rows[0].ledger >= start then [rows[0]] + rest else rest
  {
    var rest := SelectFrom(rows[1..], start);
    assert [] + rest == rest;
  }

  lemma ConsAppend(r: StoredNote, xs: Table, ys: Table)
    ensures ([r] + xs) + ys == [r] + (xs + ys)
  {
  }

  lemma {:induction false} SelectFromAppend(xs: Table, ys: Table, start: nat)
    ensures SelectFrom(xs + ys, start) == SelectFrom(xs, start) + SelectFrom(ys, start)
  {
    if xs == [] {
      assert xs + ys == ys;
    } else {
      assert (xs + ys)[0] == xs[0] && (xs + ys)[1..] == xs[1..] + ys;
      SelectFromAppend(xs[1..], ys, start);
      SelectFromCons(xs, start);
      SelectFromCons(xs + ys, start);
      ConsAppend(xs[0], SelectFrom(xs[1..], start), SelectFrom(ys, start));
    }
  }

  /** A row that lands in a ledger the client has already passed. */
  ghost predicate HasLateRow(rows: Table, start: nat, cursor: nat) {
    exists i :: 0 <= i < |rows| && start <= rows[i].ledger < cursor
  }

  lemma LateRowCons(rows: Table, start: nat, cursor: nat)
    requires rows != []
    ensures HasLateRow(rows, start, cursor) <==> start <= rows[0].ledger < cursor || HasLateRow(rows[1..], start, cursor)
  {
    var rest := rows[1..];
    if i :| 0 <= i < |rest| && start <= rest[i].ledger < cursor {
      assert rows[i + 1] == rest[i];
    }
    if i :| 0 <= i < |rows| && start <= rows[i].ledger < cursor {
      assert i > 0 ==> rest[i - 1] == rows[i];
    }
  }

  lemma ConsInjective(r: StoredNote, xs: Table, ys: Table)
    ensures [r] + xs == [r] + ys <==> xs == ys
  {
    assert ([r] + xs)[1..] == xs && ([r] + ys)[1..] == ys;
  }

  lemma {:induction false} LaterStartSkipsExactlyLateRows(rows: Table, start: nat, cursor: nat)
    requires start <= cursor
    ensures |SelectFrom(rows, cursor)| <= |SelectFrom(rows, start)|
    ensures SelectFrom(rows, cursor) == SelectFrom(rows, start) <==> !HasLateRow(rows, start, cursor)
  {
    if rows != [] {
      LaterStartSkipsExactlyLateRows(rows[1..], start, cursor);
      LateRowCons(rows, start, cursor);
      SelectFromCons(rows, start);
      SelectFromCons(rows, cursor);
      ConsInjective(rows[0], SelectFrom(rows[1..], cursor), SelectFrom(rows[1..], start));
    }
  }

  /**
    A client that finished at `cursor` and pages again after `added` rows were indexed has been
    served what one pass over the grown table serves, exactly when no added row carries a ledger it
    had already passed.
  */
  lemma ResumingServesTheGrownTable(t: Table, added: Table, start: nat, cursor: nat)
    requires start <= cursor && SelectFrom(t, cursor) == []
    ensures SelectFrom(t, start) + SelectFrom(t + added, cursor) == SelectFrom(t + added, start)
            <==> !HasLateRow(added, start, cursor)
  {
    var xs, ys, zs := SelectFrom(t, start), SelectFrom(added, cursor), SelectFrom(added, start);
    SelectFromAppend(t, added, start);
    SelectFromAppend(t, added, cursor);
    LaterStartSkipsExactlyLateRows(added, start, cursor);
    assert SelectFrom(t + added, cursor) == ys;
    assert ys == (xs + ys)[|xs|..] && zs == (xs + zs)[|xs|..];
  }

  /** Two syncs, the second after the table grew behind the cursor, recover what one sync recovers. */
  lemma ResumedSyncIsOneSync(before: seq<AuditedNote>, middle: seq<AuditedNote>, t: Table, added: Table,
                             start: nat, cursor: nat, decrypt: StoredNote -> Option<AuditedNote>)
    requires Decrypts(decrypt) && start <= cursor && SelectFrom(t, cursor) == []
    requires !HasLateRow(added, start, cursor)
    requires middle == before + Recovered(SelectFrom(t, start), decrypt, Commitments(before))
    ensures middle + Recovered(SelectFrom(t + added, cursor), decrypt, Commitments(middle))
         == before + Recovered(SelectFrom(t + added, start), decrypt, Commitments(before))
  {
    ResumingServesTheGrownTable(t, added, start, cursor);
    SyncStep(before, middle, SelectFrom(t, start), SelectFrom(t + added, cursor), decrypt);
  }

  // ----- from the chain's events to the client

  /** `t` lists the notes table in leaf order. */
  ghost predicate Lists(t: Table, notes: map<nat, StoredNote>) {
    && LeafOrdered(t)
    && (forall i :: 0 <= i < |t| ==> t[i].leafIndex in notes && notes[t[i].leafIndex] == t[i])
    && (forall k :: k in notes ==> notes[k] in t)
  }

  lemma EarlierLeafEarlierLedger(events: seq<Event>, m: nat, n: nat)
    requires Ordered(events) && LeavesGrow(events) && m < |events| && n < |events|
    requires events[m].NoteEvent? && events[n].NoteEvent? && events[m].note.leafIndex < events[n].note.leafIndex
    ensures events[m].note.ledger <= events[n].note.ledger
  {
    if m <= n {
      assert events[m].Ledger() <= events[n].Ledger();
    } else {
      assert false;
    }
  }

  /** What the sync loop stores is ordered by ledger when listed by leaf. */
  lemma StoredLedgersFollowLeaves(t: Table, events: seq<Event>)
    requires Ordered(events) && LeavesGrow(events) && Lists(t, TablesOf(events).notes)
    ensures LedgersFollowLeaves(t)
  {
    forall i, j | 0 <= i < j < |t|
      ensures t[i].ledger <= t[j].ledger
    {
      var m := RowsComeFromEvents(events, t[i].leafIndex);
      var n := RowsComeFromEvents(events, t[j].leafIndex);
      EarlierLeafEarlierLedger(events, m, n);
    }
  }

  lemma {:induction false} SelectFromHas(t: Table, start: nat, row: StoredNote)
    ensures row in SelectFrom(t, start) <==> row in t && row.ledger >= start
  {
    if t != [] {
      SelectFromHas(t[1..], start, row);
      assert row in t <==> row == t[0] || row in t[1..];
    }
  }

  /**
    End to end: every note the contract emitted in a ledger at or after the client's start and below
    the indexer's cursor reaches the client, for every page size.
  */
  lemma EmittedNotesReachTheClient(a: Syncer, t: Table, start: nat, limit: nat, i: nat)
    requires a.Valid() && LeavesGrow(a.history) && Lists(t, a.tables.notes) && limit >= 1
    requires i < |a.history| && a.history[i].NoteEvent? && a.startLedger <= start
    requires start <= a.history[i].note.ledger < a.Cursor()
    ensures LedgersFollowLeaves(t)
    ensures a.history[i].note in AllPages(t, start, limit)
  {
    StoredLedgersFollowLeaves(t, a.history[a.Start()..a.mark]);
    NotesBelowTheCursor(a, i);
    PagesDeliverEverything(t, start, limit);
    SelectFromHas(t, start, a.history[i].note);
  }
}
