/**
  Pages of the audit log in true time order, cut from the newest candidates by id instead of the whole table.
 */
module AuditPaging {
  import opened Wrappers

  // How many rows past the requested page are read.
  const OVERSCAN := 500

  const DEFAULT_LIMIT := 50

  // The zero instant (January 1 of year 1, in Unix seconds) of entries whose timestamp cannot be read.
  const ZERO_TIME := -62135596800

  datatype Row = Row(id: int, timestamp: Option<int>)

  datatype Entry = Entry(id: int, createdAt: int)

  function Resolve(row: Row): Entry {
    Entry(row.id, if row.timestamp.Some? then row.timestamp.value else ZERO_TIME)
  }

  function Entries(rows: seq<Row>): seq<Entry> {
    seq(|rows|, i requires 0 <= i < |rows| => Resolve(rows[i]))
  }

  // The table as ORDER BY id DESC lists it.
  ghost predicate IdsDescend(s: seq<Entry>) {
    forall i, j | 0 <= i < j < |s| :: s[i].id > s[j].id
  }

  // ---- The sort ----

  // e goes in front of the first entry that is not strictly newer.
  function Insert(e: Entry, s: seq<Entry>): seq<Entry> {
    if s == [] then [e]
    else if s[0].createdAt > e.createdAt then [s[0]] + Insert(e, s[1..])
    else [e] + s
  }

  // Newest first; entries of the same instant keep their order.
  function Sorted(s: seq<Entry>): seq<Entry> {
    if s == [] then [] else Insert(s[0], Sorted(s[1..]))
  }

  predicate Newer(a: Entry, b: Entry) {
    a.createdAt > b.createdAt || (a.createdAt == b.createdAt && a.id > b.id)
  }

  ghost predicate InOrder(s: seq<Entry>) {
    forall i, j | 0 <= i < j < |s| :: Newer(s[i], s[j])
  }

  lemma {:induction false} InsertElements(e: Entry, s: seq<Entry>)
    ensures |Insert(e, s)| == |s| + 1
    ensures forall x :: x in Insert(e, s) <==> x == e || x in s
  {
    if s != [] && s[0].createdAt > e.createdAt {
      InsertElements(e, s[1..]);
      assert s == [s[0]] + s[1..];
    }
  }

  lemma {:induction false} InsertKeepsOrder(e: Entry, s: seq<Entry>)
    requires InOrder(s) && forall x | x in s :: e.id > x.id
    ensures InOrder(Insert(e, s))
  {
    if s != [] {
      if s[0].createdAt > e.createdAt {
        assert forall x | x in s[1..] :: x in s;
        InsertKeepsOrder(e, s[1..]);
        InsertElements(e, s[1..]);
        var rest := Insert(e, s[1..]);
        forall j | 0 <= j < |rest|
          ensures Newer(s[0], rest[j])
        {
          assert rest[j] in rest;
          if rest[j] != e {
            var k :| 0 <= k < |s[1..]| && s[1..][k] == rest[j];
            assert Newer(s[0], s[k + 1]);
          }
        }
      } else {
        forall j | 0 <= j < |s|
          ensures Newer(e, s[j])
        {
          assert s[j] in s;
          assert j > 0 ==> Newer(s[0], s[j]);
        }
      }
    }
  }

  /** The stable sort of a table listed by falling id orders it by instant, newer ids first among equal instants. */
  lemma {:induction false} SortedIsInOrder(s: seq<Entry>)
    requires IdsDescend(s)
    ensures InOrder(Sorted(s)) && |Sorted(s)| == |s|
    ensures forall x :: x in Sorted(s) <==> x in s
  {
    if s != [] {
      SortedIsInOrder(s[1..]);
      forall x | x in Sorted(s[1..])
        ensures s[0].id > x.id
      {
        var k :| 0 <= k < |s[1..]| && s[1..][k] == x;
        assert s[k + 1] == x;
      }
      InsertKeepsOrder(s[0], Sorted(s[1..]));
      InsertElements(s[0], Sorted(s[1..]));
      assert s == [s[0]] + s[1..];
    }
  }

  // ---- Candidates ----

  // The entries with an id above t.
  function Above(s: seq<Entry>, t: int): seq<Entry> {
    if s == [] then [] else if s[0].id > t then [s[0]] + Above(s[1..], t) else Above(s[1..], t)
  }

  lemma {:induction false} AboveElements(s: seq<Entry>, t: int)
    ensures forall x :: x in Above(s, t) <==> x in s && x.id > t
  {
    if s != [] {
      AboveElements(s[1..], t);
      assert s == [s[0]] + s[1..];
    }
  }

  lemma {:induction false} AboveConcat(a: seq<Entry>, b: seq<Entry>, t: int)
    ensures Above(a + b, t) == Above(a, t) + Above(b, t)
  {
    if a == [] {
      assert a + b == b;
    } else {
      assert (a + b)[1..] == a[1..] + b;
      AboveConcat(a[1..], b, t);
    }
  }

  lemma {:induction false} AboveAll(s: seq<Entry>, t: int)
    ensures (forall x | x in s :: x.id > t) ==> Above(s, t) == s
    ensures (forall x | x in s :: x.id <= t) ==> Above(s, t) == []
    ensures |Above(s, t)| <= |s|
    ensures |Above(s, t)| == |s| ==> forall x | x in s :: x.id > t
  {
    if s != [] {
      assert s == [s[0]] + s[1..];
      AboveAll(s[1..], t);
    }
  }

  lemma {:induction false} InsertAbove(e: Entry, s: seq<Entry>, t: int)
    requires forall i, j | 0 <= i < j < |s| :: s[i].createdAt >= s[j].createdAt
    ensures Above(Insert(e, s), t) == if e.id > t then Insert(e, Above(s, t)) else Above(s, t)
  {
    if s != [] {
      if s[0].createdAt > e.createdAt {
        InsertAbove(e, s[1..], t);
        assert ([s[0]] + Insert(e, s[1..]))[1..] == Insert(e, s[1..]);
        assert ([s[0]] + Above(s[1..], t))[1..] == Above(s[1..], t);
      } else {
        assert ([e] + s)[1..] == s;
        AboveElements(s, t);
        if Above(s, t) != [] {
          assert Above(s, t)[0] in Above(s, t);
          assert Above(s, t)[0] in s;
        }
      }
    }
  }

  /** Sorting only the candidates is sorting everything and striking out the rest. */
  lemma {:induction false} SortedAbove(s: seq<Entry>, t: int)
    requires IdsDescend(s)
    ensures Sorted(Above(s, t)) == Above(Sorted(s), t)
  {
    if s != [] {
      SortedAbove(s[1..], t);
      SortedIsInOrder(s[1..]);
      var sorted := Sorted(s[1..]);
      assert forall i, j | 0 <= i < j < |sorted| :: Newer(sorted[i], sorted[j]);
      InsertAbove(s[0], sorted, t);
      if s[0].id > t {
        assert ([s[0]] + Above(s[1..], t))[1..] == Above(s[1..], t);
      }
    }
  }

  // ---- Pages ----

  function Cut(sorted: seq<Entry>, offset: nat, limit: nat): seq<Entry> {
    if offset >= |sorted| then []
    else if |sorted| - offset > limit then sorted[offset..offset + limit]
    else sorted[offset..]
  }

  function Candidates(table: seq<Entry>, offset: nat, limit: nat): seq<Entry> {
    if offset + limit + OVERSCAN <= |table| then table[..offset + limit + OVERSCAN] else table
  }

  function CandidatePage(table: seq<Entry>, offset: nat, limit: nat): seq<Entry> {
    Cut(Sorted(Candidates(table, offset, limit)), offset, limit)
  }

  function FullPage(table: seq<Entry>, offset: nat, limit: nat): seq<Entry> {
    Cut(Sorted(table), offset, limit)
  }

  // Every entry up to the end of the page, in true order, is a candidate.
  ghost predicate PageIsCovered(table: seq<Entry>, offset: nat, limit: nat) {
    forall p | 0 <= p < |table| && p < offset + limit && p < |Sorted(table)| ::
      Sorted(table)[p] in Candidates(table, offset, limit)
  }

  // No entry lies more than 500 places further down by id than by instant.
  ghost predicate SkewWithinOverscan(table: seq<Entry>) {
    forall i, p | 0 <= i < |table| && 0 <= p < |Sorted(table)| && Sorted(table)[p] == table[i] :: i <= p + 500
  }

  // An id that separates the first n entries of the table from the others.
  function IdBelow(table: seq<Entry>, n: nat): int
    requires n <= |table|
  {
    if n < |table| then table[n].id else if n > 0 then table[n - 1].id - 1 else 0
  }

  lemma FrontIsAbove(table: seq<Entry>, n: nat)
    requires IdsDescend(table) && n <= |table|
    ensures forall x | x in table[..n] :: x.id > IdBelow(table, n)
    ensures forall x | x in table[n..] :: x.id <= IdBelow(table, n)
  {
    forall x | x in table[..n]
      ensures x.id > IdBelow(table, n)
    {
      var k :| 0 <= k < n && table[k] == x;
    }
    forall x | x in table[n..]
      ensures x.id <= IdBelow(table, n)
    {
      var k :| n <= k < |table| && table[k] == x;
    }
  }

  lemma AboveOfParts(front: seq<Entry>, back: seq<Entry>, t: int)
    requires (forall x | x in front :: x.id > t) && (forall x | x in back :: x.id <= t)
    ensures Above(front + back, t) == front
  {
    AboveConcat(front, back, t);
    AboveAll(front, t);
    AboveAll(back, t);
    assert front + [] == front;
  }

  lemma CandidatesAbove(table: seq<Entry>, n: nat) returns (t: int)
    requires IdsDescend(table) && n <= |table|
    ensures Above(table, t) == table[..n]
    ensures forall x | x in table :: x.id > t <==> x in table[..n]
  {
    t := IdBelow(table, n);
    FrontIsAbove(table, n);
    assert table[..n] + table[n..] == table;
    AboveOfParts(table[..n], table[n..], t);
    AboveElements(table, t);
  }

  // With every entry before the page's end above t, striking out entries below it does not touch the page.
  lemma CutAbove(sorted: seq<Entry>, t: int, offset: nat, limit: nat)
    requires forall p | 0 <= p < |sorted| && p < offset + limit :: sorted[p].id > t
    ensures Cut(Above(sorted, t), offset, limit) == Cut(sorted, offset, limit)
  {
    if offset + limit < |sorted| {
      var m := offset + limit;
      assert sorted == sorted[..m] + sorted[m..];
      AboveConcat(sorted[..m], sorted[m..], t);
      assert forall k | 0 <= k < m :: sorted[..m][k] == sorted[k] && sorted[..m][k].id > t;
      AboveAll(sorted[..m], t);
      CutOfPrefix(sorted[..m], sorted[m..], offset, limit);
      CutOfPrefix(sorted[..m], Above(sorted[m..], t), offset, limit);
    } else {
      AboveAll(sorted, t);
    }
  }

  lemma CutOfPrefix(s: seq<Entry>, more: seq<Entry>, offset: nat, limit: nat)
    requires |s| == offset + limit
    ensures Cut(s + more, offset, limit) == s[offset..]
  {
  }

  // Striking out an entry before the page's end changes the page.
  lemma CutMissing(sorted: seq<Entry>, t: int, offset: nat, limit: nat, p: nat)
    requires InOrder(sorted) && limit > 0 && offset < |sorted|
    requires p < |sorted| && p < offset + limit && sorted[p].id <= t
    ensures Cut(Above(sorted, t), offset, limit) != Cut(sorted, offset, limit)
  {
    var above := Above(sorted, t);
    if p >= offset {
      AboveElements(sorted, t);
      assert Cut(sorted, offset, limit)[p - offset] == sorted[p];
      CutElements(above, offset, limit);
      assert sorted[p] !in Cut(above, offset, limit);
    } else {
      assert Cut(sorted, offset, limit)[0] == sorted[offset];
      if offset < |above| {
        FewerBefore(sorted[..offset], t, p);
        OffsetMovesUp(sorted, t, offset);
        assert Cut(above, offset, limit)[0] == above[offset];
      }
    }
  }

  lemma CutElements(s: seq<Entry>, offset: nat, limit: nat)
    ensures forall x | x in Cut(s, offset, limit) :: x in s
  {
    var cut := Cut(s, offset, limit);
    assert forall i | 0 <= i < |cut| :: cut[i] == s[offset + i];
  }

  lemma FewerBefore(s: seq<Entry>, t: int, p: nat)
    requires p < |s| && s[p].id <= t
    ensures |Above(s, t)| < |s|
  {
    AboveAll(s, t);
    assert s[p] in s;
  }

  lemma AboveOfThree(a: seq<Entry>, x: Entry, b: seq<Entry>, t: int)
    ensures Above(a + ([x] + b), t) == Above(a, t) + (Above([x], t) + Above(b, t))
    ensures |Above([x], t)| <= 1
  {
    AboveConcat(a, [x] + b, t);
    AboveConcat([x], b, t);
    AboveAll([x], t);
  }

  lemma LaterIsOther(sorted: seq<Entry>, offset: nat, x: Entry)
    requires InOrder(sorted) && offset < |sorted| && x in sorted[offset + 1..]
    ensures x != sorted[offset]
  {
    var k :| offset < k < |sorted| && sorted[k] == x;
    assert Newer(sorted[offset], sorted[k]);
  }

  lemma OffsetMovesUp(sorted: seq<Entry>, t: int, offset: nat)
    requires InOrder(sorted) && offset < |sorted| && offset < |Above(sorted, t)|
    requires |Above(sorted[..offset], t)| < offset
    ensures Above(sorted, t)[offset] != sorted[offset]
  {
    var front, x, behind := sorted[..offset], sorted[offset], sorted[offset + 1..];
    assert sorted == front + ([x] + behind);
    AboveOfThree(front, x, behind, t);
    var moved := Above(behind, t)[offset - |Above(front, t)| - |Above([x], t)|];
    assert Above(sorted, t)[offset] == moved;
    AboveElements(behind, t);
    LaterIsOther(sorted, offset, moved);
  }

  /** A page that starts inside the table is exact precisely when every entry up to its end is a candidate. */
  lemma PageIsExactIff(table: seq<Entry>, offset: nat, limit: nat)
    requires IdsDescend(table) && limit > 0 && offset < |table|
    ensures CandidatePage(table, offset, limit) == FullPage(table, offset, limit) <==>
            PageIsCovered(table, offset, limit)
  {
    var n := offset + limit + OVERSCAN;
    var t := CandidatesAbove(table, if n <= |table| then n else |table|);
    assert Candidates(table, offset, limit) == table[..if n <= |table| then n else |table|];
    var sorted := Sorted(table);
    SortedIsInOrder(table);
    SortedAbove(table, t);
    assert forall p | 0 <= p < |sorted| :: sorted[p] in table;
    if PageIsCovered(table, offset, limit) {
      assert forall p | 0 <= p < |sorted| && p < offset + limit :: sorted[p].id > t;
      CutAbove(sorted, t, offset, limit);
    } else {
      var p :| 0 <= p < |table| && p < offset + limit && sorted[p] !in Candidates(table, offset, limit);
      CutMissing(sorted, t, offset, limit, p);
    }
  }

  lemma CoveredIfSkewSmall(table: seq<Entry>, offset: nat, limit: nat)
    requires IdsDescend(table) && SkewWithinOverscan(table)
    ensures PageIsCovered(table, offset, limit)
  {
    var sorted := Sorted(table);
    SortedIsInOrder(table);
    forall p | 0 <= p < |table| && p < offset + limit
      ensures sorted[p] in Candidates(table, offset, limit)
    {
      assert sorted[p] in table;
      var i :| 0 <= i < |table| && table[i] == sorted[p];
      assert i < |Candidates(table, offset, limit)|;
      assert Candidates(table, offset, limit)[i] == table[i];
    }
  }

  ghost predicate AllPagesExact(table: seq<Entry>) {
    forall offset: nat, limit: nat :: CandidatePage(table, offset, limit) == FullPage(table, offset, limit)
  }

  lemma PastTheEnd(table: seq<Entry>, offset: nat, limit: nat)
    requires IdsDescend(table) && (offset >= |table| || limit == 0)
    ensures CandidatePage(table, offset, limit) == FullPage(table, offset, limit) == []
  {
    var c := Candidates(table, offset, limit);
    assert IdsDescend(c);
    SortedIsInOrder(table);
    SortedIsInOrder(c);
  }

  /** Every page is exact precisely when no entry is more than 500 places further down by id than by instant. */
  lemma AllPagesExactIff(table: seq<Entry>)
    requires IdsDescend(table)
    ensures AllPagesExact(table) <==> SkewWithinOverscan(table)
  {
    var sorted := Sorted(table);
    SortedIsInOrder(table);
    if SkewWithinOverscan(table) {
      forall offset: nat, limit: nat
        ensures CandidatePage(table, offset, limit) == FullPage(table, offset, limit)
      {
        if offset < |table| && limit > 0 {
          CoveredIfSkewSmall(table, offset, limit);
          PageIsExactIff(table, offset, limit);
        } else {
          PastTheEnd(table, offset, limit);
        }
      }
    } else {
      var i, p :| 0 <= i < |table| && 0 <= p < |sorted| && sorted[p] == table[i] && i > p + OVERSCAN;
      PageIsExactIff(table, p, 1);
      forall k | 0 <= k < |Candidates(table, p, 1)|
        ensures Candidates(table, p, 1)[k] != sorted[p]
      {
        assert Candidates(table, p, 1)[k] == table[k];
      }
      assert CandidatePage(table, p, 1) != FullPage(table, p, 1);
    }
  }

  // n entries of one instant, except that the lowest id carries a newer one.
  function LateLowest(n: nat): seq<Entry> {
    seq(n, i requires 0 <= i < n => Entry(n - i, if i == n - 1 then 1 else 0))
  }

  lemma FirstIsNewest(sorted: seq<Entry>, p: nat)
    requires InOrder(sorted) && p < |sorted|
    ensures sorted[0].createdAt >= sorted[p].createdAt
  {
    assert p > 0 ==> Newer(sorted[0], sorted[p]);
  }

  // The newest entry comes first however far down it is listed.
  lemma NewestIsFirst(table: seq<Entry>, i: nat)
    requires IdsDescend(table) && i < |table|
    requires forall j | 0 <= j < |table| && j != i :: table[j].createdAt < table[i].createdAt
    ensures Sorted(table) != [] && Sorted(table)[0] == table[i]
  {
    var sorted := Sorted(table);
    SortedIsInOrder(table);
    assert table[i] in sorted;
    var p :| 0 <= p < |sorted| && sorted[p] == table[i];
    FirstIsNewest(sorted, p);
    assert sorted[0] in table;
    var j :| 0 <= j < |table| && table[j] == sorted[0];
  }

  /** Tables of a given size always have exact pages precisely when they hold at most 501 entries. */
  lemma SizeIsSafeIff(n: nat)
    ensures (forall table | IdsDescend(table) && |table| == n :: AllPagesExact(table)) <==> n <= 501
  {
    if n <= OVERSCAN + 1 {
      forall table | IdsDescend(table) && |table| == n
        ensures AllPagesExact(table)
      {
        assert SkewWithinOverscan(table);
        AllPagesExactIff(table);
      }
    } else {
      LateLowestIsMissed(n);
    }
  }

  /** In the larger ones a late entry with the lowest id is missing from the first page. */
  lemma LateLowestIsMissed(n: nat)
    requires n > 501
    ensures IdsDescend(LateLowest(n)) && |LateLowest(n)| == n && !AllPagesExact(LateLowest(n))
    ensures FullPage(LateLowest(n), 0, 1) == [Entry(1, 1)] && CandidatePage(LateLowest(n), 0, 1) != [Entry(1, 1)]
  {
    var table := LateLowest(n);
    NewestIsFirst(table, n - 1);
    assert Sorted(table)[0] == Entry(1, 1);
    assert forall k | 0 <= k < OVERSCAN + 1 :: Candidates(table, 0, 1)[k] == table[k] != Entry(1, 1);
    assert Entry(1, 1) !in Candidates(table, 0, 1);
    PageIsExactIff(table, 0, 1);
    SortedIsInOrder(table);
  }

  lemma FetchedAreCandidates(rows: seq<Row>, offset: nat, limit: nat)
    ensures Entries(Fetched(rows, offset + limit + OVERSCAN)) == Candidates(Entries(rows), offset, limit)
  {
  }

  // SELECT ... ORDER BY id DESC LIMIT n
  function Fetched(rows: seq<Row>, n: nat): seq<Row> {
    if n <= |rows| then rows[..n] else rows
  }

  // ---- The page, spelled out ----

  // The entry of a row; a timestamp that cannot be read counts as January 1 of year 1.
  function EntryOf(row: Row): Entry {
    Entry(row.id, match row.timestamp case Some(t) => t case None => -62135596800)
  }

  // The rows as entries, newest first and higher ids first among equal instants.
  ghost predicate IsNewestFirst(rows: seq<Row>, sorted: seq<Entry>) {
    && |sorted| == |rows|
    && (forall i, j | 0 <= i < j < |sorted| ::
          || sorted[i].createdAt > sorted[j].createdAt
          || (sorted[i].createdAt == sorted[j].createdAt && sorted[i].id > sorted[j].id))
    && (set e | e in sorted) == set i | 0 <= i < |rows| :: EntryOf(rows[i])
  }

  // At most l entries from place o on, and fewer only at the end.
  predicate IsSlice(sorted: seq<Entry>, o: nat, l: nat, page: seq<Entry>) {
    && |page| == (if o >= |sorted| then 0 else if |sorted| - o < l then |sorted| - o else l)
    && forall k | 0 <= k < |page| && o + k < |sorted| :: page[k] == sorted[o + k]
  }

  // A page of these rows.
  ghost predicate IsPageOf(rows: seq<Row>, o: nat, l: nat, page: seq<Entry>) {
    exists sorted :: IsNewestFirst(rows, sorted) && IsSlice(sorted, o, l, page)
  }

  lemma CutIsSlice(sorted: seq<Entry>, o: nat, l: nat)
    ensures IsSlice(sorted, o, l, Cut(sorted, o, l))
  {
  }

  lemma SortedIsNewestFirst(rows: seq<Row>)
    requires IdsDescend(Entries(rows))
    ensures IsNewestFirst(rows, Sorted(Entries(rows)))
  {
    var entries := Entries(rows);
    var sorted := Sorted(entries);
    assert forall i | 0 <= i < |rows| :: EntryOf(rows[i]) == entries[i] && entries[i] in entries;
    SortedIsInOrder(entries);
    assert forall i, j | 0 <= i < j < |sorted| :: Newer(sorted[i], sorted[j]);
  }

  lemma CutIsPage(rows: seq<Row>, o: nat, l: nat)
    requires IdsDescend(Entries(rows))
    ensures IsPageOf(rows, o, l, Cut(Sorted(Entries(rows)), o, l))
  {
    SortedIsNewestFirst(rows);
    CutIsSlice(Sorted(Entries(rows)), o, l);
  }

  lemma CandidatePageIs(rows: seq<Row>, o: nat, l: nat)
    ensures CandidatePage(Entries(rows), o, l) == Cut(Sorted(Entries(Fetched(rows, o + l + 500))), o, l)
  {
    FetchedAreCandidates(rows, o, l);
  }

  // The page of the candidates, and when it is the whole table's.
  lemma PageIs(rows: seq<Row>, o: nat, l: nat, page: seq<Entry>)
    requires IdsDescend(Entries(rows)) && page == CandidatePage(Entries(rows), o, l)
    ensures IsPageOf(Fetched(rows, o + l + 500), o, l, page)
    ensures SkewWithinOverscan(Entries(rows)) ==> IsPageOf(rows, o, l, page)
  {
    FetchedDescend(rows, o + l + 500);
    CandidatePageIs(rows, o, l);
    CutIsPage(Fetched(rows, o + l + 500), o, l);
    if SkewWithinOverscan(Entries(rows)) {
      AllPagesExactIff(Entries(rows));
      CutIsPage(rows, o, l);
      assert FullPage(Entries(rows), o, l) == page;
    }
  }

  lemma FetchedDescend(rows: seq<Row>, n: nat)
    requires IdsDescend(Entries(rows))
    ensures IdsDescend(Entries(Fetched(rows, n)))
  {
    var fetched := Fetched(rows, n);
    assert forall i | 0 <= i < |fetched| :: Entries(fetched)[i] == Entries(rows)[i];
  }

  method ReadLogs(fetched: seq<Row>) returns (logs: seq<Entry>)
    ensures logs == Entries(fetched)
  {
    logs := [];
    for i := 0 to |fetched|
      invariant logs == Entries(fetched[..i])
    {
      logs := logs + [Resolve(fetched[i])];
    }
    assert fetched[..|fetched|] == fetched;
  }

  // The resolver: limit and offset are optional; a page of no rows is empty without a query.
  method AdminAuditLogs(rows: seq<Row>, limit: Option<int>, offset: Option<int>) returns (page: seq<Entry>)
    requires IdsDescend(Entries(rows))
    ensures var l := if limit.Some? then limit.value else 50;
            var o := if offset.Some? && offset.value > 0 then offset.value else 0;
            && (l <= 0 ==> page == [])
            && (l > 0 ==> page == CandidatePage(Entries(rows), o, l))
            && (l > 0 ==> IsPageOf(Fetched(rows, o + l + 500), o, l, page))
            && (l > 0 && SkewWithinOverscan(Entries(rows)) ==> IsPageOf(rows, o, l, page))
  {
    var limitVal := if limit.Some? then limit.value else DEFAULT_LIMIT;
    var offsetVal := if offset.Some? then offset.value else 0;
    if offsetVal < 0 {
      offsetVal := 0;
    }
    if limitVal <= 0 {
      return [];
    }
    page := LoadPage(rows, offsetVal, limitVal);
  }

  method LoadPage(rows: seq<Row>, offset: nat, limit: nat) returns (page: seq<Entry>)
    requires IdsDescend(Entries(rows))
    ensures page == CandidatePage(Entries(rows), offset, limit)
    ensures IsPageOf(Fetched(rows, offset + limit + 500), offset, limit, page)
    ensures SkewWithinOverscan(Entries(rows)) ==> IsPageOf(rows, offset, limit, page)
  {
    var logs := ReadLogs(Fetched(rows, offset + limit + OVERSCAN));
    page := CutPage(Sorted(logs), offset, limit);
    CandidatePageIs(rows, offset, limit);
    PageIs(rows, offset, limit, page);
  }

  method CutPage(sorted: seq<Entry>, offset: nat, limit: nat) returns (page: seq<Entry>)
    ensures page == Cut(sorted, offset, limit)
  {
    if offset >= |sorted| {
      return [];
    }
    page := sorted[offset..];
    if |page| > limit {
      page := page[..limit];
    }
  }
}
