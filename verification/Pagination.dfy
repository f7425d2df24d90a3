/**
 Cursor pagination of a subject's quotes: the keyset query of src/persistence.rs, the
 skip-to-position form of src/lib.rs and the page cut of src/contract.rs, for any order by
 a rank with ties broken by id. `QuoteListing` says which ranks the two stores use.
 */
module Pagination {
  import opened Wrappers
  import opened Timestamps

  datatype Record = Record(id: nat, owner: string, createdAt: Stamp)

  /** What a listing is ordered by, greatest first. */
  type Rank = Record -> int

  datatype Page = Page(quotes: seq<Record>, next: Option<nat>)

  /** Listing order: greatest rank first, then greatest id. */
  predicate Before(rank: Rank, a: Record, b: Record) {
    rank(a) > rank(b) || (rank(a) == rank(b) && a.id > b.id)
  }

  predicate Sorted(rank: Rank, q: seq<Record>) {
    forall i, j :: 0 <= i < j < |q| ==> Before(rank, q[i], q[j])
  }

  predicate UniqueIds(s: set<Record>) {
    forall a, b :: a in s && b in s && a.id == b.id ==> a == b
  }

  function Elements(q: seq<Record>): set<Record> {
    set r | r in q
  }

  // ---------- The listing of a set ----------

  predicate IsFirst(rank: Rank, s: set<Record>, top: Record) {
    top in s && forall r :: r in s && r != top ==> Before(rank, top, r)
  }

  lemma {:induction false} HasFirst(rank: Rank, s: set<Record>)
    requires s != {} && UniqueIds(s)
    ensures exists top :: IsFirst(rank, s, top)
  {
    var x :| x in s;
    var rest := s - {x};
    if rest == {} {
      assert s == {x};
      assert IsFirst(rank, s, x);
    } else {
      HasFirst(rank, rest);
      var y :| IsFirst(rank, rest, y);
      assert x.id != y.id;
      assert s == rest + {x};
      assert IsFirst(rank, s, if Before(rank, x, y) then x else y);
    }
  }

  ghost function First(rank: Rank, s: set<Record>): (top: Record)
    requires s != {} && UniqueIds(s)
    ensures IsFirst(rank, s, top)
  {
    HasFirst(rank, s);
    var top :| IsFirst(rank, s, top);
    top
  }

  /** ORDER BY rank DESC, id DESC */
  ghost function Listing(rank: Rank, s: set<Record>): (q: seq<Record>)
    requires UniqueIds(s)
    ensures Sorted(rank, q) && Elements(q) == s && |q| == |s|
  {
    if s == {} then []
    else
      var top := First(rank, s);
      var rest := Listing(rank, s - {top});
      FirstThenRest(rank, s, top, rest);
      [top] + rest
  }

  lemma FirstThenRest(rank: Rank, s: set<Record>, top: Record, rest: seq<Record>)
    requires IsFirst(rank, s, top) && Sorted(rank, rest) && Elements(rest) == s - {top}
    ensures Sorted(rank, [top] + rest) && Elements([top] + rest) == s
  {
    forall i | 0 <= i < |rest| ensures Before(rank, top, rest[i]) {
      assert rest[i] in Elements(rest);
    }
    assert forall r :: r in [top] + rest <==> r == top || r in Elements(rest);
  }

  lemma HasElements(q: seq<Record>)
    requires q != []
    ensures Elements(q) != {}
  {
    assert q[0] in Elements(q);
  }

  /** A set has one listing. */
  lemma {:induction false} ListingUnique(rank: Rank, q: seq<Record>, p: seq<Record>)
    requires Sorted(rank, q) && Sorted(rank, p) && Elements(q) == Elements(p)
    ensures q == p
  {
    if q == [] {
      if p != [] { HasElements(p); }
    } else {
      assert q[0] in Elements(p);
      SameFirst(rank, q, p);
      assert Elements(q[1..]) == Elements(q) - {q[0]};
      assert Elements(p[1..]) == Elements(p) - {p[0]};
      ListingUnique(rank, q[1..], p[1..]);
      assert q == [q[0]] + q[1..] && p == [p[0]] + p[1..];
    }
  }

  lemma SameFirst(rank: Rank, q: seq<Record>, p: seq<Record>)
    requires Sorted(rank, q) && Sorted(rank, p) && Elements(q) == Elements(p) && q != [] && p != []
    ensures q[0] == p[0]
  {
    assert q[0] in Elements(p) && p[0] in Elements(q);
    var i :| 0 <= i < |p| && p[i] == q[0];
    var j :| 0 <= j < |q| && q[j] == p[0];
  }

  // ---------- The keyset query ----------

  /** Rows after the cursor; none when the cursor is unknown or another subject's. */
  function Remaining(rank: Rank, s: set<Record>, owner: string, cursor: Option<nat>): set<Record> {
    set r | r in s && r.owner == owner
            && (cursor.None? || exists c :: c in s && c.owner == owner && c.id == cursor.value && Before(rank, c, r))
  }

  function Take(q: seq<Record>, n: nat): seq<Record> {
    if |q| <= n then q else q[..n]
  }

  /** `persistence::list_quotes`: at most `n` rows. */
  ghost function Query(rank: Rank, s: set<Record>, owner: string, cursor: Option<nat>, n: nat): seq<Record>
    requires UniqueIds(s)
  {
    Take(Listing(rank, Remaining(rank, s, owner, cursor)), n)
  }

  /** The database branch of `list_quotes` with the page cut of `quote_list_response`. */
  ghost function Respond(rank: Rank, s: set<Record>, owner: string, cursor: Option<nat>, limit: nat): Page
    requires UniqueIds(s) && limit > 0
  {
    Cut(Query(rank, s, owner, cursor, limit + 1), limit)
  }

  function Cut(records: seq<Record>, limit: nat): Page
    requires limit > 0
  {
    if |records| > limit then Page(records[..limit], Some(records[limit - 1].id)) else Page(records, None)
  }

  // ---------- The in-memory listing ----------

  /** The sorted insertion used by the model of `sort_by`. */
  function Insert(rank: Rank, r: Record, q: seq<Record>): seq<Record> {
    if q == [] || Before(rank, r, q[0]) then [r] + q else [q[0]] + Insert(rank, r, q[1..])
  }

  function SortByRank(rank: Rank, q: seq<Record>): seq<Record> {
    if q == [] then [] else Insert(rank, q[0], SortByRank(rank, q[1..]))
  }

  lemma {:induction false} InsertSpec(rank: Rank, r: Record, q: seq<Record>)
    requires Sorted(rank, q) && forall i :: 0 <= i < |q| ==> q[i].id != r.id
    ensures Sorted(rank, Insert(rank, r, q)) && Elements(Insert(rank, r, q)) == Elements(q) + {r}
  {
    if q == [] || Before(rank, r, q[0]) {
    } else {
      InsertSpec(rank, r, q[1..]);
      assert Elements(q) == Elements(q[1..]) + {q[0]};
      var t := Insert(rank, r, q[1..]);
      forall i | 0 <= i < |t| ensures Before(rank, q[0], t[i]) {
        assert t[i] in Elements(t);
      }
    }
  }

  predicate DistinctIds(q: seq<Record>) {
    forall i, j :: 0 <= i < j < |q| ==> q[i].id != q[j].id
  }

  lemma {:induction false} SortSpec(rank: Rank, q: seq<Record>)
    requires DistinctIds(q)
    ensures Sorted(rank, SortByRank(rank, q)) && Elements(SortByRank(rank, q)) == Elements(q)
  {
    if q != [] {
      SortSpec(rank, q[1..]);
      var t := SortByRank(rank, q[1..]);
      forall i | 0 <= i < |t| ensures t[i].id != q[0].id {
        assert t[i] in Elements(t);
        assert t[i] in q[1..];
      }
      InsertSpec(rank, q[0], t);
      assert Elements(q) == Elements(q[1..]) + {q[0]};
    }
  }

  lemma AfterCursor(rank: Rank, s: set<Record>, owner: string, sorted: seq<Record>, position: nat, r: Record)
    requires UniqueIds(s) && Sorted(rank, sorted) && Elements(sorted) == Remaining(rank, s, owner, None)
    requires position < |sorted|
    ensures r in sorted[position + 1..] <==> r in Remaining(rank, s, owner, Some(sorted[position].id))
  {
    var c := sorted[position];
    assert c in Elements(sorted);
    if r in Remaining(rank, s, owner, Some(c.id)) {
      assert r in Elements(sorted);
      var k :| 0 <= k < |sorted| && sorted[k] == r;
      assert Before(rank, c, r);
      assert sorted[position + 1..][k - position - 1] == r;
    }
    if r in sorted[position + 1..] {
      assert r in Elements(sorted);
    }
  }

  /** What follows the cursor in a sorted list is what sorts after it. */
  lemma SkipIsKeyset(rank: Rank, s: set<Record>, owner: string, sorted: seq<Record>, position: nat)
    requires UniqueIds(s) && Sorted(rank, sorted) && Elements(sorted) == Remaining(rank, s, owner, None)
    requires position < |sorted|
    ensures sorted[position + 1..] == Listing(rank, Remaining(rank, s, owner, Some(sorted[position].id)))
  {
    var after := Remaining(rank, s, owner, Some(sorted[position].id));
    forall r ensures r in sorted[position + 1..] <==> r in after {
      AfterCursor(rank, s, owner, sorted, position, r);
    }
    assert Elements(sorted[position + 1..]) == after;
    ListingUnique(rank, sorted[position + 1..], Listing(rank, after));
  }

  lemma UnknownCursorIsEmpty(rank: Rank, s: set<Record>, owner: string, sorted: seq<Record>, cursor: nat)
    requires Elements(sorted) == Remaining(rank, s, owner, None)
    requires forall i :: 0 <= i < |sorted| ==> sorted[i].id != cursor
    ensures Remaining(rank, s, owner, Some(cursor)) == {}
  {
    forall c | c in s && c.owner == owner ensures c.id != cursor {
      assert c in Elements(sorted);
    }
  }

  function OwnedBy(values: seq<Record>, owner: string): seq<Record> {
    if values == [] then []
    else (if values[0].owner == owner then [values[0]] else []) + OwnedBy(values[1..], owner)
  }

  lemma {:induction false} OwnedByKeeps(values: seq<Record>, owner: string)
    ensures forall r :: r in OwnedBy(values, owner) <==> r in values && r.owner == owner
  {
    if values != [] {
      OwnedByKeeps(values[1..], owner);
      assert forall r :: r in values <==> r == values[0] || r in values[1..];
    }
  }

  lemma {:induction false} OwnedByDistinct(values: seq<Record>, owner: string)
    requires DistinctIds(values)
    ensures DistinctIds(OwnedBy(values, owner))
  {
    if values != [] {
      OwnedByDistinct(values[1..], owner);
      OwnedByKeeps(values[1..], owner);
      var rest := OwnedBy(values[1..], owner);
      forall i | 0 <= i < |rest| ensures rest[i].id != values[0].id {
        assert rest[i] in rest;
      }
    }
  }

  function Position(records: seq<Record>, id: nat): (r: Option<nat>)
    ensures r.Some? ==> r.value < |records| && records[r.value].id == id
    ensures r.None? ==> forall i :: 0 <= i < |records| ==> records[i].id != id
  {
    if records == [] then None
    else if records[0].id == id then Some(0)
    else
      var rest := Position(records[1..], id);
      if rest.None? then None else Some(rest.value + 1)
  }

  /** Filtering and sorting the stored values lists the subject's records. */
  lemma SortedOwned(rank: Rank, values: seq<Record>, owner: string)
    requires DistinctIds(values)
    ensures UniqueIds(Elements(values))
    ensures SortByRank(rank, OwnedBy(values, owner)) == Listing(rank, Remaining(rank, Elements(values), owner, None))
  {
    var sorted := SortByRank(rank, OwnedBy(values, owner));
    OwnedByKeeps(values, owner);
    OwnedByDistinct(values, owner);
    SortSpec(rank, OwnedBy(values, owner));
    assert Elements(sorted) == Remaining(rank, Elements(values), owner, None);
    ListingUnique(rank, sorted, Listing(rank, Remaining(rank, Elements(values), owner, None)));
  }

  function SkipTo(records: seq<Record>, cursor: Option<nat>): seq<Record> {
    if cursor.None? then records
    else
      var position := Position(records, cursor.value);
      if position.None? then [] else records[position.value + 1..]
  }

  /** The skip-to-position form is the keyset form; unknown and foreign cursors leave nothing in either. */
  lemma SkipToIsKeyset(rank: Rank, s: set<Record>, owner: string, cursor: Option<nat>)
    requires UniqueIds(s)
    ensures SkipTo(Listing(rank, Remaining(rank, s, owner, None)), cursor)
         == Listing(rank, Remaining(rank, s, owner, cursor))
    ensures cursor.Some? && (forall c :: c in s ==> c.owner != owner || c.id != cursor.value) ==>
              Listing(rank, Remaining(rank, s, owner, cursor)) == []
  {
    if cursor.Some? {
      var sorted := Listing(rank, Remaining(rank, s, owner, None));
      var position := Position(sorted, cursor.value);
      if position.Some? {
        SkipIsKeyset(rank, s, owner, sorted, position.value);
        assert sorted[position.value] in Elements(sorted);
      } else {
        UnknownCursorIsEmpty(rank, s, owner, sorted, cursor.value);
      }
    }
  }

  lemma MemoryIsQuery(rank: Rank, values: seq<Record>, owner: string, n: nat, cursor: Option<nat>)
    requires DistinctIds(values)
    ensures UniqueIds(Elements(values))
    ensures Take(SkipTo(SortByRank(rank, OwnedBy(values, owner)), cursor), n)
              == Query(rank, Elements(values), owner, cursor, n)
  {
    SortedOwned(rank, values, owner);
    SkipToIsKeyset(rank, Elements(values), owner, cursor);
  }

  /** The `limit` query parameter, 25 when absent. */
  function ClampLimit(limit: Option<nat>): (n: nat)
    ensures 1 <= n <= 100 && (limit.None? ==> n == 25)
    ensures limit.Some? && 1 <= limit.value <= 100 ==> n == limit.value
    ensures limit.Some? ==> (n < limit.value ==> n == 100) && (limit.value < n ==> n == 1)
  {
    if limit.None? then 25 else if limit.value < 1 then 1 else if limit.value > 100 then 100 else limit.value
  }

  /** `quote_list_response`: truncates the rows in place and names the last one kept. */
  method QuoteListResponse(rows: seq<Record>, limit: nat) returns (page: Page)
    requires limit > 0
    ensures page == Cut(rows, limit)
  {
    var records, next := rows, None;
    if |records| > limit {
      records := records[..limit];
      next := Some(records[|records| - 1].id);
    }
    page := Page(records, next);
  }

  // ---------- Following the cursor ----------

  datatype Walk = Walk(visited: seq<Record>, finished: bool)

  /** One request per store, each with the cursor of the page before it. */
  ghost function Follow(rank: Rank, stores: seq<set<Record>>, owner: string, cursor: Option<nat>, limit: nat): Walk
    requires forall i :: 0 <= i < |stores| ==> UniqueIds(stores[i])
    requires limit > 0
  {
    if stores == [] then Walk([], false)
    else
      var page := Respond(rank, stores[0], owner, cursor, limit);
      if page.next.None? then Walk(page.quotes, true)
      else
        var rest := Follow(rank, stores[1..], owner, page.next, limit);
        Walk(page.quotes + rest.visited, rest.finished)
  }

  /** Records are added between requests and never removed. */
  predicate Growing(stores: seq<set<Record>>) {
    && (forall i :: 0 <= i < |stores| ==> UniqueIds(stores[i]))
    && (forall i, j :: 0 <= i <= j < |stores| ==> stores[i] <= stores[j])
  }

  lemma RemainingGrows(rank: Rank, s: set<Record>, t: set<Record>, owner: string, cursor: Option<nat>)
    requires s <= t
    ensures Remaining(rank, s, owner, cursor) <= Remaining(rank, t, owner, cursor)
  {
  }

  /** What is after a remaining record remains too. */
  lemma CursorAdvances(rank: Rank, s: set<Record>, t: set<Record>, owner: string, cursor: Option<nat>, c: Record,
                       r: Record)
    requires UniqueIds(t) && s <= t && c in Remaining(rank, s, owner, cursor)
    requires r in Remaining(rank, t, owner, Some(c.id))
    ensures Before(rank, c, r) && r in Remaining(rank, t, owner, cursor)
  {
  }

  lemma RestIndex(q: seq<Record>, n: nat, r: Record) returns (k: nat)
    requires n <= |q| && r in q && r !in q[..n]
    ensures n <= k < |q| && q[k] == r
  {
    assert q == q[..n] + q[n..];
    var i :| 0 <= i < |q[n..]| && q[n..][i] == r;
    k := n + i;
  }

  /** Cutting a listing after `limit` records leaves what is after the last of them. */
  lemma FrontAndRest(rank: Rank, s: set<Record>, owner: string, cursor: Option<nat>, q: seq<Record>, limit: nat,
                     r: Record)
    requires Sorted(rank, q) && Elements(q) == Remaining(rank, s, owner, cursor) && 0 < limit < |q|
    requires r in q && r !in q[..limit]
    ensures r in Remaining(rank, s, owner, Some(q[limit - 1].id))
  {
    var k := RestIndex(q, limit, r);
    assert q[limit - 1] in Elements(q) && r in Elements(q);
    assert Before(rank, q[limit - 1], r);
  }

  /** A page is the front of what remains, and its cursor stands for the rest. */
  ghost predicate PageOk(rank: Rank, s: set<Record>, owner: string, cursor: Option<nat>, limit: nat, page: Page) {
    && Sorted(rank, page.quotes) && Elements(page.quotes) <= Remaining(rank, s, owner, cursor)
    && (page.next.None? ==> Elements(page.quotes) == Remaining(rank, s, owner, cursor))
    && (page.next.Some? ==>
          && 0 < |page.quotes| == limit && page.quotes[limit - 1].id == page.next.value
          && Remaining(rank, s, owner, cursor) <= Elements(page.quotes) + Remaining(rank, s, owner, page.next))
  }

  lemma PageSpec(rank: Rank, s: set<Record>, owner: string, cursor: Option<nat>, limit: nat)
    requires UniqueIds(s) && limit > 0
    ensures PageOk(rank, s, owner, cursor, limit, Respond(rank, s, owner, cursor, limit))
  {
    var q := Listing(rank, Remaining(rank, s, owner, cursor));
    CutSpec(rank, s, owner, cursor, q, limit);
    CutTaken(q, limit);
  }

  lemma CutTaken(q: seq<Record>, limit: nat)
    requires limit > 0
    ensures Cut(Take(q, limit + 1), limit) == Cut(q, limit)
  {
    if |q| > limit {
      assert Take(q, limit + 1)[..limit] == q[..limit];
    }
  }

  lemma CutSpec(rank: Rank, s: set<Record>, owner: string, cursor: Option<nat>, q: seq<Record>, limit: nat)
    requires Sorted(rank, q) && Elements(q) == Remaining(rank, s, owner, cursor) && limit > 0
    ensures PageOk(rank, s, owner, cursor, limit, Cut(q, limit))
  {
    if |q| > limit {
      assert Elements(q[..limit]) <= Elements(q);
      forall r | r in q && r !in q[..limit] ensures r in Remaining(rank, s, owner, Some(q[limit - 1].id)) {
        FrontAndRest(rank, s, owner, cursor, q, limit, r);
      }
    }
  }

  lemma SortedJoin(rank: Rank, p: seq<Record>, q: seq<Record>)
    requires Sorted(rank, p) && Sorted(rank, q) && p != []
    requires forall r :: r in q ==> Before(rank, p[|p| - 1], r)
    ensures Sorted(rank, p + q)
  {
    forall i, j | 0 <= i < |p| && 0 <= j < |q| ensures Before(rank, p[i], q[j]) {
      assert q[j] in q;
    }
  }

  /** Records that fit on `n` full pages. */
  function Room(n: nat, limit: nat): nat {
    if n == 0 then 0 else limit + Room(n - 1, limit)
  }

  lemma {:induction false} RoomIsProduct(n: nat, limit: nat)
    ensures Room(n, limit) == n * limit
  {
    if n > 0 {
      RoomIsProduct(n - 1, limit);
    }
  }

  /**
   Whatever is inserted between requests, the walk is strictly in listing order (so it visits
   nothing twice); until it ends every page is full, and once it ends it has visited everything
   that was there when it began.
   */
  ghost predicate WalkOk(rank: Rank, stores: seq<set<Record>>, owner: string, cursor: Option<nat>, limit: nat,
                         w: Walk) {
    && (!w.finished ==> |w.visited| == Room(|stores|, limit))
    && Sorted(rank, w.visited)
    && (w.visited != [] || w.finished ==> stores != [])
    && (stores != [] ==> Elements(w.visited) <= Remaining(rank, stores[|stores| - 1], owner, cursor))
    && (stores != [] && w.finished ==> Remaining(rank, stores[0], owner, cursor) <= Elements(w.visited))
  }

  lemma {:induction false} WalkIsComplete(rank: Rank, stores: seq<set<Record>>, owner: string, cursor: Option<nat>,
                                          limit: nat)
    requires Growing(stores) && limit > 0
    ensures WalkOk(rank, stores, owner, cursor, limit, Follow(rank, stores, owner, cursor, limit))
  {
    if stores != [] {
      PageSpec(rank, stores[0], owner, cursor, limit);
      var page := Respond(rank, stores[0], owner, cursor, limit);
      RemainingGrows(rank, stores[0], stores[|stores| - 1], owner, cursor);
      if page.next.Some? {
        assert Growing(stores[1..]);
        WalkIsComplete(rank, stores[1..], owner, page.next, limit);
        OnePageMore(rank, stores, owner, cursor, limit, page, Follow(rank, stores[1..], owner, page.next, limit));
      }
    }
  }

  lemma OnePageMore(rank: Rank, stores: seq<set<Record>>, owner: string, cursor: Option<nat>, limit: nat, page: Page,
                    rest: Walk)
    requires Growing(stores) && stores != [] && page.next.Some?
    requires PageOk(rank, stores[0], owner, cursor, limit, page)
              && WalkOk(rank, stores[1..], owner, page.next, limit, rest)
    ensures WalkOk(rank, stores, owner, cursor, limit, Walk(page.quotes + rest.visited, rest.finished))
  {
    var s, t := stores[0], stores[|stores| - 1];
    var c := page.quotes[limit - 1];
    assert c in Elements(page.quotes);
    RemainingGrows(rank, s, t, owner, cursor);
    forall r | r in rest.visited ensures Before(rank, c, r) && r in Remaining(rank, t, owner, cursor) {
      assert r in Elements(rest.visited);
      CursorAdvances(rank, s, t, owner, cursor, c, r);
    }
    SortedJoin(rank, page.quotes, rest.visited);
    if rest.finished {
      RemainingGrows(rank, s, stores[1], owner, page.next);
    }
  }

  lemma {:induction false} SortedCount(rank: Rank, q: seq<Record>)
    requires Sorted(rank, q)
    ensures |Elements(q)| == |q|
  {
    if q != [] {
      SortedCount(rank, q[1..]);
      assert Elements(q) == Elements(q[1..]) + {q[0]};
    }
  }

  /** The walk ends as soon as its pages have room for every record the subject has by then and one more. */
  lemma WalkEnds(rank: Rank, stores: seq<set<Record>>, owner: string, limit: nat)
    requires Growing(stores) && stores != [] && limit > 0
    requires |Remaining(rank, stores[|stores| - 1], owner, None)| < |stores| * limit
    ensures Follow(rank, stores, owner, None, limit).finished
  {
    var w := Follow(rank, stores, owner, None, limit);
    WalkIsComplete(rank, stores, owner, None, limit);
    SortedCount(rank, w.visited);
    SubsetSize(Elements(w.visited), Remaining(rank, stores[|stores| - 1], owner, None));
    if !w.finished {
      RoomIsProduct(|stores|, limit);
      assert false;
    }
  }

  /** From the first page on: every record there at the start is visited at exactly one place. */
  lemma WalkVisitsEachOnce(rank: Rank, stores: seq<set<Record>>, owner: string, limit: nat, r: Record)
    requires Growing(stores) && stores != [] && limit > 0
    requires Follow(rank, stores, owner, None, limit).finished
    requires r in stores[0] && r.owner == owner
    ensures var v := Follow(rank, stores, owner, None, limit).visited;
            exists k :: 0 <= k < |v| && v[k] == r && forall i :: 0 <= i < |v| && i != k ==> v[i] != r
  {
    WalkIsComplete(rank, stores, owner, None, limit);
    var v := Follow(rank, stores, owner, None, limit).visited;
    assert r in Elements(v);
    var k :| 0 <= k < |v| && v[k] == r;
    assert forall i :: 0 <= i < |v| && i != k ==> v[i] != r;
  }

  /** A walk shows its subject only records of its own that are stored by then. */
  lemma WalkShowsOwnOnly(rank: Rank, stores: seq<set<Record>>, owner: string, cursor: Option<nat>, limit: nat)
    requires Growing(stores) && limit > 0
    ensures forall r :: r in Follow(rank, stores, owner, cursor, limit).visited ==>
              r.owner == owner && stores != [] && r in stores[|stores| - 1]
  {
    WalkIsComplete(rank, stores, owner, cursor, limit);
    var visited := Follow(rank, stores, owner, cursor, limit).visited;
    forall r | r in visited ensures r.owner == owner && stores != [] && r in stores[|stores| - 1] {
      assert r in Elements(visited);
    }
  }
}
