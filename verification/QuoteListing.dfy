/**
 The two listings of a subject's quotes. The database orders by creation time in whole
 microseconds, then by id; the in-memory branch (src/lib.rs) compares RFC 3339 texts, then ids.
 They order a pair differently in two ways: the texts clash, one trimmed fraction being a proper
 prefix of the other within one second, or the times round to one microsecond and the ids go the
 other way.
 */
module QuoteListing {
  import opened Wrappers
  import opened Timestamps
  import opened TimestampOrder
  import opened Pagination

  // ---------- The two orders ----------

  /** The order of the instants themselves. */
  function ByTime(r: Record): int {
    r.createdAt.clock * 1_000_000_000 + r.createdAt.nano
  }

  function MicroRank(m: MicroStamp): int {
    m.clock * 1_000_000 + m.micro
  }

  /** timestamptz comparison: the column holds whole microseconds. */
  function ByMicro(round: Stamp -> MicroStamp): Rank {
    (r: Record) => MicroRank(round(r.createdAt))
  }

  /** Text comparison, as a number. */
  function ByText(r: Record): int {
    TextRank(RfcText(r.createdAt), 30)
  }

  /** The comparator given to `sort_by`. */
  predicate TextBefore(a: Record, b: Record) {
    Less(RfcText(b.createdAt), RfcText(a.createdAt)) || (RfcText(a.createdAt) == RfcText(b.createdAt) && a.id > b.id)
  }

  lemma ByTextIsTextOrder(a: Record, b: Record)
    ensures Before(ByText, a, b) <==> TextBefore(a, b)
  {
    TextIsShort(a.createdAt);
    TextIsShort(b.createdAt);
    RankIsLess(RfcText(b.createdAt), RfcText(a.createdAt), 30);
  }

  lemma ByTimeIsTimeOrder(a: Record, b: Record)
    ensures ByTime(a) < ByTime(b) <==> Earlier(a.createdAt, b.createdAt)
    ensures ByTime(a) == ByTime(b) <==> a.createdAt == b.createdAt
  {
  }

  predicate Clashing(a: Record, b: Record) {
    Clash(a.createdAt, b.createdAt)
  }

  lemma ClashIsEarlier(a: Stamp, b: Stamp)
    requires Clash(a, b)
    ensures Earlier(a, b)
  {
    if b.nano < a.nano {
      var _ := FractionOrder(b.nano, a.nano);
    }
  }

  lemma EarlierPairAgrees(a: Record, b: Record)
    requires Earlier(a.createdAt, b.createdAt)
    ensures (Before(ByText, b, a) <==> !Clashing(a, b)) && (Before(ByText, a, b) <==> Clashing(a, b))
    ensures Before(ByTime, b, a) && !Before(ByTime, a, b) && !Clashing(b, a)
  {
    ByTextIsTextOrder(a, b);
    ByTextIsTextOrder(b, a);
    ByTimeIsTimeOrder(a, b);
    ByTimeIsTimeOrder(b, a);
    TextOrderExactly(a.createdAt, b.createdAt);
    if Clashing(b, a) { ClashIsEarlier(b.createdAt, a.createdAt); }
  }

  /** The orders agree on a pair exactly when it does not clash. */
  lemma PairAgreesExactly(a: Record, b: Record)
    ensures (Before(ByText, a, b) <==> Before(ByTime, a, b)) <==> !Clashing(a, b) && !Clashing(b, a)
  {
    if Earlier(a.createdAt, b.createdAt) {
      EarlierPairAgrees(a, b);
    } else if Earlier(b.createdAt, a.createdAt) {
      EarlierPairAgrees(b, a);
    } else {
      assert a.createdAt == b.createdAt;
    }
  }

  // ---------- The in-memory branch ----------

  function InsertByText(r: Record, q: seq<Record>): seq<Record> {
    if q == [] || TextBefore(r, q[0]) then [r] + q else [q[0]] + InsertByText(r, q[1..])
  }

  function SortByText(q: seq<Record>): seq<Record> {
    if q == [] then [] else InsertByText(q[0], SortByText(q[1..]))
  }

  lemma {:induction false} InsertByTextIsInsert(r: Record, q: seq<Record>)
    ensures InsertByText(r, q) == Insert(ByText, r, q)
  {
    if q != [] {
      ByTextIsTextOrder(r, q[0]);
      InsertByTextIsInsert(r, q[1..]);
    }
  }

  lemma {:induction false} SortByTextIsSort(q: seq<Record>)
    ensures SortByText(q) == SortByRank(ByText, q)
  {
    if q != [] {
      SortByTextIsSort(q[1..]);
      InsertByTextIsInsert(q[0], SortByText(q[1..]));
    }
  }

  /** The in-memory branch of `list_quotes` returns the rows of a keyset query in text order. */
  method ListMemory(values: seq<Record>, owner: string, n: nat, cursor: Option<nat>) returns (records: seq<Record>)
    requires DistinctIds(values)
    ensures UniqueIds(Elements(values)) && records == Query(ByText, Elements(values), owner, cursor, n)
  {
    records := SortByText(OwnedBy(values, owner));
    SortByTextIsSort(OwnedBy(values, owner));
    if cursor.Some? {
      var position := Position(records, cursor.value);
      if position.Some? {
        records := records[position.value + 1..];
      } else {
        records := [];
      }
    }
    if |records| > n {
      records := records[..n];
    }
    MemoryIsQuery(ByText, values, owner, n, cursor);
  }

  /** The handler over the in-memory store. */
  method ListQuotes(values: seq<Record>, owner: string, limit: Option<nat>, cursor: Option<nat>) returns (page: Page)
    requires DistinctIds(values)
    ensures UniqueIds(Elements(values)) && page == Respond(ByText, Elements(values), owner, cursor, ClampLimit(limit))
  {
    var n := ClampLimit(limit);
    var records := ListMemory(values, owner, n + 1, cursor);
    page := QuoteListResponse(records, n);
  }

  // ---------- Exactly when the two branches agree ----------

  function Owned(s: set<Record>, owner: string): set<Record> {
    set r | r in s && r.owner == owner
  }

  predicate NoClash(s: set<Record>) {
    forall a, b :: a in s && b in s ==> !Clashing(a, b)
  }

  predicate SameOrder(r1: Rank, r2: Rank, s: set<Record>) {
    forall a, b :: a in s && b in s ==> (Before(r1, a, b) <==> Before(r2, a, b))
  }

  lemma SameOrderSorts(r1: Rank, r2: Rank, q: seq<Record>)
    requires SameOrder(r1, r2, Elements(q)) && Sorted(r1, q)
    ensures Sorted(r2, q)
  {
    assert forall i :: 0 <= i < |q| ==> q[i] in Elements(q);
  }

  lemma SortedBothWays(r1: Rank, r2: Rank, q: seq<Record>, a: Record, b: Record)
    requires Sorted(r1, q) && Sorted(r2, q) && a in Elements(q) && b in Elements(q)
    ensures Before(r1, a, b) <==> Before(r2, a, b)
  {
    var i :| 0 <= i < |q| && q[i] == a;
    var j :| 0 <= j < |q| && q[j] == b;
    assert i < j ==> Before(r1, a, b) && Before(r2, a, b);
    assert j < i ==> Before(r1, b, a) && Before(r2, b, a);
  }

  /** Two orders list a set alike exactly when they agree on every pair of it. */
  lemma SameListingExactly(r1: Rank, r2: Rank, s: set<Record>)
    requires UniqueIds(s)
    ensures Listing(r1, s) == Listing(r2, s) <==> SameOrder(r1, r2, s)
  {
    var p, q := Listing(r1, s), Listing(r2, s);
    if SameOrder(r1, r2, s) {
      SameOrderSorts(r1, r2, p);
      ListingUnique(r2, p, q);
    }
    if p == q {
      forall a, b | a in s && b in s ensures Before(r1, a, b) <==> Before(r2, a, b) {
        SortedBothWays(r1, r2, p, a, b);
      }
    }
  }

  lemma NoClashIsSameOrder(s: set<Record>)
    ensures NoClash(s) <==> SameOrder(ByText, ByTime, s)
  {
    forall a, b | a in s && b in s
      ensures (Before(ByText, a, b) <==> Before(ByTime, a, b)) <==> !Clashing(a, b) && !Clashing(b, a)
    {
      PairAgreesExactly(a, b);
    }
  }

  lemma ListingsAgreeExactly(s: set<Record>)
    requires UniqueIds(s)
    ensures Listing(ByText, s) == Listing(ByTime, s) <==> NoClash(s)
  {
    SameListingExactly(ByText, ByTime, s);
    NoClashIsSameOrder(s);
  }

  lemma SameRemaining(r1: Rank, r2: Rank, s: set<Record>, owner: string, cursor: Option<nat>)
    requires SameOrder(r1, r2, Owned(s, owner))
    ensures Remaining(r1, s, owner, cursor) == Remaining(r2, s, owner, cursor)
  {
    forall c, r | c in s && c.owner == owner && r in s && r.owner == owner
      ensures Before(r1, c, r) <==> Before(r2, c, r)
    {
      assert c in Owned(s, owner) && r in Owned(s, owner);
    }
  }

  lemma PagesAgree(r1: Rank, r2: Rank, s: set<Record>, owner: string, cursor: Option<nat>, limit: nat)
    requires UniqueIds(s) && limit > 0 && SameOrder(r1, r2, Owned(s, owner))
    ensures Respond(r1, s, owner, cursor, limit) == Respond(r2, s, owner, cursor, limit)
  {
    SameRemaining(r1, r2, s, owner, cursor);
    var left := Remaining(r2, s, owner, cursor);
    assert left <= Owned(s, owner);
    assert SameOrder(r1, r2, left);
    SameListingExactly(r1, r2, left);
  }

  ghost predicate SamePages(r1: Rank, r2: Rank, s: set<Record>, owner: string)
    requires UniqueIds(s)
  {
    forall cursor, limit :: 1 <= limit <= 100 ==>
      Respond(r1, s, owner, cursor, limit) == Respond(r2, s, owner, cursor, limit)
  }

  function Unchanged(s: set<Record>, n: nat): seq<set<Record>> {
    seq(n, _ => s)
  }

  lemma SamePageOfOne(r1: Rank, r2: Rank, s: set<Record>, owner: string, cursor: Option<nat>)
    requires UniqueIds(s) && SamePages(r1, r2, s, owner)
    ensures Respond(r1, s, owner, cursor, 1) == Respond(r2, s, owner, cursor, 1)
  {
  }

  lemma {:induction false} SameWalk(r1: Rank, r2: Rank, s: set<Record>, n: nat, owner: string, cursor: Option<nat>)
    requires UniqueIds(s) && SamePages(r1, r2, s, owner)
    ensures Follow(r1, Unchanged(s, n), owner, cursor, 1) == Follow(r2, Unchanged(s, n), owner, cursor, 1)
  {
    if n > 0 {
      SamePageOfOne(r1, r2, s, owner, cursor);
      var next := Respond(r2, s, owner, cursor, 1).next;
      SameWalk(r1, r2, s, n - 1, owner, next);
      FollowUnchanged(r1, s, n, owner, cursor);
      FollowUnchanged(r2, s, n, owner, cursor);
    }
  }

  /** One request of a walk over a store that stands still. */
  lemma FollowUnchanged(rank: Rank, s: set<Record>, n: nat, owner: string, cursor: Option<nat>)
    requires UniqueIds(s) && n > 0
    ensures var page := Respond(rank, s, owner, cursor, 1);
            var rest := Follow(rank, Unchanged(s, n - 1), owner, page.next, 1);
            Follow(rank, Unchanged(s, n), owner, cursor, 1)
            == if page.next.None? then Walk(page.quotes, true) else Walk(page.quotes + rest.visited, rest.finished)
  {
    assert Unchanged(s, n)[1..] == Unchanged(s, n - 1);
  }

  /** Over a store that stands still, the walk spells the listing. */
  lemma WalkIsListing(rank: Rank, s: set<Record>, owner: string)
    requires UniqueIds(s)
    ensures Follow(rank, Unchanged(s, |Owned(s, owner)| + 1), owner, None, 1).visited == Listing(rank, Owned(s, owner))
  {
    var stores := Unchanged(s, |Owned(s, owner)| + 1);
    assert Remaining(rank, s, owner, None) == Owned(s, owner);
    WalkEnds(rank, stores, owner, 1);
    WalkIsComplete(rank, stores, owner, None, 1);
    var visited := Follow(rank, stores, owner, None, 1).visited;
    assert Elements(visited) == Owned(s, owner);
    ListingUnique(rank, visited, Listing(rank, Owned(s, owner)));
  }

  /** Two orders answer every cursor and limit alike exactly when they agree on every pair of
      the subject's records. */
  lemma SamePagesExactly(r1: Rank, r2: Rank, s: set<Record>, owner: string)
    requires UniqueIds(s)
    ensures SamePages(r1, r2, s, owner) <==> SameOrder(r1, r2, Owned(s, owner))
  {
    if SameOrder(r1, r2, Owned(s, owner)) {
      forall cursor, limit | 1 <= limit <= 100
        ensures Respond(r1, s, owner, cursor, limit) == Respond(r2, s, owner, cursor, limit)
      {
        PagesAgree(r1, r2, s, owner, cursor, limit);
      }
    }
    if SamePages(r1, r2, s, owner) {
      SameWalk(r1, r2, s, |Owned(s, owner)| + 1, owner, None);
      WalkIsListing(r1, s, owner);
      WalkIsListing(r2, s, owner);
      SameListingExactly(r1, r2, Owned(s, owner));
    }
  }

  // ---------- Text against microseconds ----------

  /** Rounding never reverses two instants. */
  ghost predicate Monotone(round: Stamp -> MicroStamp) {
    forall a, b :: Earlier(a, b) ==> MicroRank(round(a)) <= MicroRank(round(b))
  }

  /** The two branches list this pair, the earlier record first, in opposite ways: its texts
      clash, unless both times are one microsecond to the database and the ids decide there. */
  predicate Swapped(round: Stamp -> MicroStamp, a: Record, b: Record) {
    && Earlier(a.createdAt, b.createdAt)
    && if round(a.createdAt) == round(b.createdAt) then Clashing(a, b) <==> a.id < b.id else Clashing(a, b)
  }

  lemma MicroRankInjective(m: MicroStamp, n: MicroStamp)
    ensures MicroRank(m) == MicroRank(n) <==> m == n
  {
  }

  lemma EarlierPairSwaps(round: Stamp -> MicroStamp, a: Record, b: Record)
    requires Monotone(round) && Earlier(a.createdAt, b.createdAt) && a.id != b.id
    ensures (Before(ByText, a, b) <==> Before(ByMicro(round), a, b)) <==> !Swapped(round, a, b)
    ensures (Before(ByText, b, a) <==> Before(ByMicro(round), b, a)) <==> !Swapped(round, a, b)
    ensures !Swapped(round, b, a)
  {
    EarlierPairAgrees(a, b);
    MicroRankInjective(round(a.createdAt), round(b.createdAt));
  }

  /** The branches order a pair alike exactly when it is not swapped, either way round. */
  lemma PairSwapsExactly(round: Stamp -> MicroStamp, a: Record, b: Record)
    requires Monotone(round) && a.id != b.id
    ensures (Before(ByText, a, b) <==> Before(ByMicro(round), a, b)) <==> !Swapped(round, a, b) && !Swapped(round, b, a)
  {
    if Earlier(a.createdAt, b.createdAt) {
      EarlierPairSwaps(round, a, b);
    } else if Earlier(b.createdAt, a.createdAt) {
      EarlierPairSwaps(round, b, a);
    } else {
      assert a.createdAt == b.createdAt;
    }
  }

  /** A swapped pair is listed in opposite ways. */
  lemma SwappedIsOpposite(round: Stamp -> MicroStamp, a: Record, b: Record)
    requires Monotone(round) && Swapped(round, a, b) && a.id != b.id
    ensures (Before(ByText, a, b) && Before(ByMicro(round), b, a))
            || (Before(ByText, b, a) && Before(ByMicro(round), a, b))
  {
    EarlierPairAgrees(a, b);
    EarlierPairSwaps(round, a, b);
  }

  predicate NoSwap(round: Stamp -> MicroStamp, s: set<Record>) {
    forall a, b :: a in s && b in s ==> !Swapped(round, a, b)
  }

  lemma NoSwapIsSameOrder(round: Stamp -> MicroStamp, s: set<Record>)
    requires Monotone(round) && UniqueIds(s)
    ensures NoSwap(round, s) <==> SameOrder(ByText, ByMicro(round), s)
  {
    forall a, b | a in s && b in s && a != b
      ensures (Before(ByText, a, b) <==> Before(ByMicro(round), a, b))
              <==> !Swapped(round, a, b) && !Swapped(round, b, a)
    {
      PairSwapsExactly(round, a, b);
    }
  }

  /** The memory branch answers every request as the database would exactly when no two of the
      subject's records are swapped. */
  lemma PagesAgreeExactly(round: Stamp -> MicroStamp, s: set<Record>, owner: string)
    requires Monotone(round) && UniqueIds(s)
    ensures SamePages(ByText, ByMicro(round), s, owner) <==> NoSwap(round, Owned(s, owner))
  {
    SamePagesExactly(ByText, ByMicro(round), s, owner);
    NoSwapIsSameOrder(round, Owned(s, owner));
  }

  // ---------- Sufficient conditions and failing pairs ----------

  /** Fractions of one width never clash. */
  lemma EqualWidthsDoNotClash(a: Record, b: Record)
    requires |Fraction(a.createdAt.nano)| == |Fraction(b.createdAt.nano)|
    ensures !Clashing(a, b) && !Clashing(b, a)
  {
  }

  /** Equal widths in different microseconds are listed alike. */
  lemma EqualWidthsAgree(round: Stamp -> MicroStamp, a: Record, b: Record)
    requires |Fraction(a.createdAt.nano)| == |Fraction(b.createdAt.nano)|
    requires round(a.createdAt) != round(b.createdAt)
    ensures !Swapped(round, a, b) && !Swapped(round, b, a)
  {
    EqualWidthsDoNotClash(a, b);
  }

  /** For times that are whole microseconds only a clash swaps. */
  lemma WholeMicrosSwapByClash(round: Stamp -> MicroStamp, a: Record, b: Record)
    requires KeepsMicros(round) && a.createdAt.nano % 1000 == 0 && b.createdAt.nano % 1000 == 0
    ensures Swapped(round, a, b) <==> Clashing(a, b)
  {
    if Clashing(a, b) { ClashIsEarlier(a.createdAt, b.createdAt); }
    assert a.createdAt.nano == 1000 * (a.createdAt.nano / 1000) && b.createdAt.nano == 1000 * (b.createdAt.nano / 1000);
    assert round(a.createdAt) == MicroStamp(a.createdAt.clock, a.createdAt.nano / 1000);
    assert round(b.createdAt) == MicroStamp(b.createdAt.clock, b.createdAt.nano / 1000);
  }

  lemma TenthsFractions(x: Nano, y: Nano)
    requires x == 100_000_000 * 1 && y == 10_000_000 * 12
    ensures Fraction(x) < Fraction(y)
  {
    OneDigitFraction(1);
    TwoDigitFraction(12);
  }

  /** .1 seconds is earlier than .12 seconds, and memory lists it as the later one. */
  lemma TenthsClash(round: Stamp -> MicroStamp, a: Record, b: Record)
    requires KeepsMicros(round) && a.createdAt.clock == b.createdAt.clock
    requires a.createdAt.nano == 100_000_000 && b.createdAt.nano == 120_000_000
    ensures Clashing(a, b) && Swapped(round, a, b)
  {
    TenthsFractions(a.createdAt.nano, b.createdAt.nano);
    WholeMicrosSwapByClash(round, a, b);
  }

  lemma NineDigits(nano: Nano)
    requires nano % 10 != 0
    ensures |Fraction(nano)| == 9
  {
    LastDigits(nano);
    ZeroDigit(nano % 10);
    TrimNothing(Digits(nano, 9));
  }

  /** Within a microsecond some two of three adjacent nanoseconds round alike. */
  lemma NeighboursRoundAlike(round: Stamp -> MicroStamp, clock: Clock)
    requires KeepsMicros(round) && Monotone(round)
    ensures round(Stamp(clock, 101)) == round(Stamp(clock, 102)) || round(Stamp(clock, 102)) == round(Stamp(clock, 103))
  {
    var x, y, z := Stamp(clock, 101), Stamp(clock, 102), Stamp(clock, 103);
    var low, high := Stamp(clock, 0), Stamp(clock, 1000);
    assert round(low) == MicroStamp(clock, 0) && round(high) == MicroStamp(clock, 1);
    assert Earlier(low, x) && Earlier(x, y) && Earlier(y, z) && Earlier(z, high);
    MicroRankInjective(round(x), round(y));
    MicroRankInjective(round(y), round(z));
  }

  lemma TieSwaps(round: Stamp -> MicroStamp, a: Record, b: Record)
    requires Earlier(a.createdAt, b.createdAt) && round(a.createdAt) == round(b.createdAt) && a.id > b.id
    requires |Fraction(a.createdAt.nano)| == |Fraction(b.createdAt.nano)|
    ensures Swapped(round, a, b) && !Clashing(a, b)
  {
    EqualWidthsDoNotClash(a, b);
  }

  /** Whatever the rounding, some two records one nanosecond apart, of equal fraction widths and
      with the greater id on the earlier one, are swapped: the database sees a tie. */
  lemma TiesSwap(round: Stamp -> MicroStamp, clock: Clock, owner: string) returns (a: Record, b: Record)
    requires KeepsMicros(round) && Monotone(round)
    ensures a.owner == b.owner == owner && a.id == 2 && b.id == 1 && a.createdAt.clock == b.createdAt.clock == clock
    ensures b.createdAt.nano == a.createdAt.nano + 1 && Swapped(round, a, b) && !Clashing(a, b)
  {
    NeighboursRoundAlike(round, clock);
    var nano: Nano := if round(Stamp(clock, 101)) == round(Stamp(clock, 102)) then 101 else 102;
    NineDigits(nano);
    NineDigits(nano + 1);
    a, b := Record(2, owner, Stamp(clock, nano)), Record(1, owner, Stamp(clock, nano + 1));
    TieSwaps(round, a, b);
  }

  /** Cutting to microseconds is such a rounding. */
  function Truncated(s: Stamp): MicroStamp {
    MicroStamp(s.clock, s.nano / 1000)
  }

  lemma TruncationRounds()
    ensures KeepsMicros(Truncated) && Monotone(Truncated)
  {
    forall a, b | Earlier(a, b) ensures MicroRank(Truncated(a)) <= MicroRank(Truncated(b)) {
      assert a.clock < b.clock ==> a.clock + 1 <= b.clock;
    }
  }
}
