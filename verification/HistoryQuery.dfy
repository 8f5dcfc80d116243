/** The reading side of the probe history (pkg/probehistory/store.go): cursor pagination over a table
    that grows and is pruned meanwhile, and the pruning loop. Times are in milliseconds. */
module HistoryQuery {
  import opened Prelude
  import opened HistoryStore

  const RETENTION: int := 7 * 24 * 3600 * 1000
  const PRUNE_CHUNK: nat := 5000

  datatype Row = Row(id: nat, record: HistoryStore.Record)

  datatype Query = Query(tunnel: string, since: int, until: Option<int>, kind: string, status: string, before: nat, limit: int)

  datatype Page = Page(records: seq<Row>, next: nat)

  /** Row numbers start at 1 and increase; a number is never used again. */
  ghost predicate Numbered(table: seq<Row>) {
    forall i :: 0 <= i < |table| ==> table[i].id > 0 && forall j :: 0 <= j < i ==> table[j].id < table[i].id
  }

  function Clamp(f: Query, now: int): Query {
    f.(since := if f.since < now - RETENTION then now - RETENTION else f.since,
       until := if f.until == None then Some(now) else f.until,
       limit := if f.limit <= 0 || f.limit > 100 then 50 else f.limit)
  }

  predicate Matches(r: Row, f: Query) {
    && r.record.tunnel == f.tunnel
    && f.since <= r.record.time && (f.until.Some? ==> r.record.time <= f.until.value)
    && (f.kind != "" ==> r.record.kind == f.kind) && (f.status != "" ==> r.record.status == f.status)
    && (f.before > 0 ==> r.id < f.before)
  }

  /** All matching rows, newest first. */
  function Matching(table: seq<Row>, f: Query): seq<Row> {
    if table == [] then []
    else
      var last := table[|table| - 1];
      (if Matches(last, f) then [last] else []) + Matching(table[..|table| - 1], f)
  }

  function PageOf(table: seq<Row>, f: Query, now: int): (p: Page)
  {
    var g := Clamp(f, now);
    var all := Matching(table, g);
    if |all| > g.limit then Page(all[..g.limit], all[g.limit - 1].id) else Page(all, 0)
  }

  lemma MatchingPrefix(table: seq<Row>, i: nat, f: Query)
    requires i < |table|
    ensures Matching(table[..i + 1], f) == (if Matches(table[i], f) then [table[i]] else []) + Matching(table[..i], f)
  {
    assert table[..i + 1][..i] == table[..i];
  }

  lemma MatchingNone(f: Query)
    ensures Matching([], f) == []
  {
  }

  /** ORDER BY id DESC LIMIT: the first limit matching rows, newest first. */
  method Select(table: seq<Row>, g: Query, limit: nat) returns (rows: seq<Row>)
    ensures rows == if |Matching(table, g)| > limit then Matching(table, g)[..limit] else Matching(table, g)
  {
    hide Matches, Matching;
    ghost var all := Matching(table, g);
    rows := [];
    var i := |table|;
    assert table[..i] == table && [] + all == all;
    while i > 0 && |rows| < limit
      invariant 0 <= i <= |table| && |rows| <= limit
      invariant all == rows + Matching(table[..i], g)
    {
      i := i - 1;
      MatchingPrefix(table, i, g);
      if Matches(table[i], g) { rows := rows + [table[i]]; }
    }
    MatchingNone(g);
    if i == 0 { assert table[..i] == [] && all == rows; }
    assert all[..|rows|] == rows;
  }

  /** The query: at most one row more than the page is fetched, to know whether there is a next page. The
      page holds, newest first, exactly the rows of the tunnel that are of the kind and status asked for (if
      asked for), below the cursor (if there is one), no older than the lower bound and a week, no newer than
      the upper bound or now, and down to the next cursor. There is a next cursor, the last row of a page of
      the size asked for (50 unless that is between 1 and 100), exactly when rows are left below it. */
  method RunQuery(table: seq<Row>, f: Query, now: int) returns (page: Page, ok: bool)
    ensures ok <==> f.tunnel != ""
    ensures page == if ok then PageOf(table, f, now) else Page([], 0)
    ensures ok ==> |page.records| <= if 1 <= f.limit <= 100 then f.limit else 50
    ensures page.next > 0 ==>
              |page.records| == (if 1 <= f.limit <= 100 then f.limit else 50) && page.records[|page.records| - 1].id == page.next
    ensures ok && Numbered(table) ==>
              && Descending(page.records)
              && (forall r :: r in page.records <==>
                    && r in table && r.record.tunnel == f.tunnel
                    && f.since <= r.record.time && now - 604_800_000 <= r.record.time
                    && r.record.time <= (if f.until.Some? then f.until.value else now)
                    && (f.kind == "" || r.record.kind == f.kind) && (f.status == "" || r.record.status == f.status)
                    && (f.before == 0 || r.id < f.before) && r.id >= page.next)
              && (page.next > 0 ==> exists r :: r in table && r !in page.records && r.id < page.next && Matches(r, Clamp(f, now)))
  {
    page := Page([], 0);
    if f.tunnel == "" { return page, false; }
    if Numbered(table) { PageFields(table, f, now); }
    LimitBounds(f, now);
    hide Matching, Matches, Clamp, Numbered, Descending;
    var g := Clamp(f, now);
    var rows := Select(table, g, g.limit + 1);
    if |rows| > g.limit {
      assert rows[..g.limit] == Matching(table, g)[..g.limit];
      page := Page(rows[..g.limit], rows[g.limit - 1].id);
    } else {
      page := Page(rows, 0);
    }
    ok := true;
  }

  // ---------------------------------------------------------------- how the table may change

  /** Between two pages rows are appended with larger numbers, and rows older than the query reaches may
      be pruned. */
  ghost predicate Evolves(t: seq<Row>, t': seq<Row>, since: int) {
    && Numbered(t) && Numbered(t')
    && (forall i :: 0 <= i < |t| && since <= t[i].record.time ==> t[i] in t')
    && (forall i :: 0 <= i < |t'| ==> t'[i] in t || forall j :: 0 <= j < |t| ==> t[j].id < t'[i].id)
  }

  lemma {:induction false} MatchingMembers(t: seq<Row>, f: Query)
    ensures forall r :: r in Matching(t, f) <==> r in t && Matches(r, f)
  {
    if t != [] {
      MatchingMembers(t[..|t| - 1], f);
      assert t == t[..|t| - 1] + [t[|t| - 1]];
    }
  }

  ghost predicate Descending(s: seq<Row>) {
    forall i, j :: 0 <= i < j < |s| ==> s[i].id > s[j].id
  }

  lemma {:induction false} MatchingDescends(t: seq<Row>, f: Query)
    requires Numbered(t)
    ensures Descending(Matching(t, f))
  {
    if t != [] {
      var init := t[..|t| - 1];
      MatchingDescends(init, f);
      MatchingMembers(init, f);
      forall r | r in Matching(init, f) ensures r.id < t[|t| - 1].id {
        var k :| 0 <= k < |init| && init[k] == r;
      }
    }
  }

  /** Two descending sequences with the same rows are the same. */
  lemma {:induction false} DescendingUnique(a: seq<Row>, b: seq<Row>)
    requires Descending(a) && Descending(b) && forall r :: r in a <==> r in b
    ensures a == b
  {
    assert a != [] ==> a[0] in a;
    assert b != [] ==> b[0] in b;
    if a != [] && b != [] {
      assert a[0] in b && b[0] in a;
      assert a[0] == b[0];
      forall r ensures r in a[1..] <==> r in b[1..] {
        if r in a[1..] { assert r in a; }
        if r in b[1..] { assert r in b; }
      }
      DescendingUnique(a[1..], b[1..]);
    }
  }

  /** With a cursor at a row already there, neither new rows nor pruning show. */
  lemma CursorStable(t: seq<Row>, t': seq<Row>, f: Query)
    requires Evolves(t, t', f.since) && f.before > 0
    requires exists i :: 0 <= i < |t| && f.before <= t[i].id
    ensures Matching(t', f) == Matching(t, f)
  {
    MatchingDescends(t, f);
    MatchingDescends(t', f);
    MatchingMembers(t, f);
    MatchingMembers(t', f);
    var i :| 0 <= i < |t| && f.before <= t[i].id;
    forall r ensures r in Matching(t, f) <==> r in Matching(t', f) {
      if r in Matching(t', f) { var k :| 0 <= k < |t'| && t'[k] == r; }
      if r in Matching(t, f) { var k :| 0 <= k < |t| && t[k] == r; }
    }
    DescendingUnique(Matching(t', f), Matching(t, f));
  }

  /** Moving the cursor to the last row of a page leaves exactly the rows after that page. */
  lemma CursorContinues(t: seq<Row>, f: Query, k: nat)
    requires Numbered(t) && 0 < k < |Matching(t, f)|
    ensures Matching(t, f.(before := Matching(t, f)[k - 1].id)) == Matching(t, f)[k..]
  {
    var all := Matching(t, f);
    var g := f.(before := all[k - 1].id);
    MatchingDescends(t, f);
    MatchingDescends(t, g);
    MatchingMembers(t, f);
    MatchingMembers(t, g);
    assert all[k - 1] in all;
    forall r ensures r in Matching(t, g) <==> r in all[k..] {
      if r in Matching(t, g) {
        assert r in all;
        var i :| 0 <= i < |all| && all[i] == r;
        assert i >= k;
        assert all[k..][i - k] == r;
      }
      if r in all[k..] {
        var i :| 0 <= i < |all| - k && all[k..][i] == r;
        assert all[k + i] == r;
      }
    }
    DescendingUnique(Matching(t, g), all[k..]);
  }

  /** A page is a front part of what matches, cut where the numbers fall below the cursor. */
  lemma PageRows(t: seq<Row>, f: Query, now: int)
    requires Numbered(t)
    ensures var p, g := PageOf(t, f, now), Clamp(f, now);
            && Descending(p.records)
            && (forall r :: r in p.records <==> r in t && Matches(r, g) && r.id >= p.next)
            && (p.next > 0 ==> exists r :: r in t && r !in p.records && r.id < p.next && Matches(r, g))
  {
    hide Matches, Clamp, Matching, Numbered;
    var p, g := PageOf(t, f, now), Clamp(f, now);
    var all, k := Matching(t, g), g.limit;
    LimitBounds(f, now);
    MatchingMembers(t, g);
    MatchingDescends(t, g);
    if |all| > k {
      var last := all[k - 1];
      assert last in all && all[k] in all;
      IdsArePositive(t, last);
      forall r ensures r in all[..k] <==> r in all && r.id >= last.id {
        if r in all { var i :| 0 <= i < |all| && all[i] == r; }
      }
      assert all[k] !in p.records && all[k].id < p.next;
    }
  }

  lemma PageFields(t: seq<Row>, f: Query, now: int)
    requires Numbered(t)
    ensures var p := PageOf(t, f, now);
            && Descending(p.records)
            && (forall r :: r in p.records <==>
                  && r in t && r.record.tunnel == f.tunnel
                  && f.since <= r.record.time && now - 604_800_000 <= r.record.time
                  && r.record.time <= (if f.until.Some? then f.until.value else now)
                  && (f.kind == "" || r.record.kind == f.kind) && (f.status == "" || r.record.status == f.status)
                  && (f.before == 0 || r.id < f.before) && r.id >= p.next)
            && (p.next > 0 ==> exists r :: r in t && r !in p.records && r.id < p.next && Matches(r, Clamp(f, now)))
  {
    PageRows(t, f, now);
    hide Numbered, Descending, PageOf, Matching;
  }

  lemma LimitBounds(f: Query, now: int)
    ensures Clamp(f, now).limit == if 1 <= f.limit <= 100 then f.limit else 50
  {
  }

  lemma IdsArePositive(t: seq<Row>, r: Row)
    requires Numbered(t) && r in t
    ensures r.id > 0
  {
    var i :| 0 <= i < |t| && t[i] == r;
  }

  // ---------------------------------------------------------------- following the pages

  /** The tables and clocks seen at successive pages: the query's bounds are fixed and stay within
      retention, so pruning never reaches them. */
  ghost predicate History(tables: nat -> seq<Row>, clock: nat -> int, f: Query) {
    && f.until.Some?
    && (forall i: nat :: Turns(tables, i, f.since))
    && (forall i: nat :: clock(i) - 604_800_000 <= f.since)
  }

  ghost predicate Turns(tables: nat -> seq<Row>, i: nat, since: int) {
    Evolves(tables(i), tables(i + 1), since)
  }

  /** All records collected by following next from page i on, for at most fuel pages. */
  ghost function Follow(tables: nat -> seq<Row>, clock: nat -> int, i: nat, f: Query, fuel: nat): (seq<Row>, bool)
    decreases fuel
  {
    if fuel == 0 then ([], false)
    else
      var p := PageOf(tables(i), f, clock(i));
      if p.next == 0 then (p.records, true)
      else
        var (rest, ended) := Follow(tables, clock, i + 1, f.(before := p.next), fuel - 1);
        (p.records + rest, ended)
  }

  /** A page with bounds fixed and inside retention: the first rows, and the cursor when there are more. */
  lemma PageMeaning(t: seq<Row>, f: Query, now: int)
    requires f.until.Some? && now - RETENTION <= f.since
    ensures var p, all, k := PageOf(t, f, now), Matching(t, f), Clamp(f, now).limit;
            0 < k <= 100 && if |all| > k then p == Page(all[..k], all[k - 1].id) else p == Page(all, 0)
  {
    SameRows(t, Clamp(f, now), f);
  }

  /** One page turned: the rest of what matched is what the next query will see. */
  lemma NextPage(t: seq<Row>, t': seq<Row>, f: Query, k: nat)
    requires Evolves(t, t', f.since) && 0 < k < |Matching(t, f)|
    ensures Matching(t, f)[k - 1].id > 0
    ensures Matching(t', f.(before := Matching(t, f)[k - 1].id)) == Matching(t, f)[k..]
  {
    var last := Matching(t, f)[k - 1];
    CursorContinues(t, f, k);
    MatchingMembers(t, f);
    assert last in Matching(t, f);
    var j :| 0 <= j < |t| && t[j] == last;
    CursorStable(t, t', f.(before := last.id));
  }

  lemma FollowStep(tables: nat -> seq<Row>, clock: nat -> int, i: nat, f: Query, fuel: nat)
    requires fuel > 0
    ensures var p := PageOf(tables(i), f, clock(i));
            Follow(tables, clock, i, f, fuel) ==
              if p.next == 0 then (p.records, true)
              else var rest := Follow(tables, clock, i + 1, f.(before := p.next), fuel - 1); (p.records + rest.0, rest.1)
  {
  }

  /** Whatever is appended or pruned between pages, following the cursor ends, within one page more than
      there are rows, and yields every row that matched when the first page was read exactly once, newest
      first. */
  lemma {:induction false} PaginationComplete(tables: nat -> seq<Row>, clock: nat -> int, i: nat, f: Query, fuel: nat)
    requires History(tables, clock, f) && fuel > |Matching(tables(i), f)|
    ensures Follow(tables, clock, i, f, fuel) == (Matching(tables(i), f), true)
    ensures Descending(Matching(tables(i), f))
    decreases fuel
  {
    hide *;
    var all := Matching(tables(i), f);
    FollowStep(tables, clock, i, f, fuel);
    var k := PageStep(tables, clock, i, f);
    if |all| > k {
      PaginationComplete(tables, clock, i + 1, f.(before := all[k - 1].id), fuel - 1);
      assert all[..k] + all[k..] == all;
    }
  }

  /** One page, and what the next query will see. */
  lemma PageStep(tables: nat -> seq<Row>, clock: nat -> int, i: nat, f: Query) returns (k: nat)
    requires History(tables, clock, f)
    ensures var p, all := PageOf(tables(i), f, clock(i)), Matching(tables(i), f);
            Descending(all) && 0 < k &&
            if |all| > k then
              p == Page(all[..k], all[k - 1].id) && p.next > 0 && History(tables, clock, f.(before := p.next)) &&
              Matching(tables(i + 1), f.(before := p.next)) == all[k..]
            else p == Page(all, 0)
  {
    assert Turns(tables, i, f.since);
    MatchingDescends(tables(i), f);
    PageMeaning(tables(i), f, clock(i));
    k := Clamp(f, clock(i)).limit;
    if |Matching(tables(i), f)| > k {
      NextPage(tables(i), tables(i + 1), f, k);
    }
  }

  lemma {:induction false} SameRows(t: seq<Row>, f: Query, g: Query)
    requires f.(limit := g.limit) == g
    ensures Matching(t, f) == Matching(t, g)
  {
    if t != [] { SameRows(t[..|t| - 1], f, g); }
  }

  // ---------------------------------------------------------------- pruning

  /** The rows that survive pruning, in their order. */
  function Kept(table: seq<Row>, cutoff: int): seq<Row> {
    if table == [] then []
    else Kept(table[..|table| - 1], cutoff) +
         (if table[|table| - 1].record.time < cutoff then [] else [table[|table| - 1]])
  }

  function Expired(table: seq<Row>, cutoff: int): nat {
    if table == [] then 0
    else Expired(table[..|table| - 1], cutoff) + (if table[|table| - 1].record.time < cutoff then 1 else 0)
  }

  lemma {:induction false} RemoveOne(table: seq<Row>, i: nat, cutoff: int)
    requires i < |table| && table[i].record.time < cutoff
    ensures Kept(table[..i] + table[i + 1..], cutoff) == Kept(table, cutoff)
    ensures Expired(table[..i] + table[i + 1..], cutoff) == Expired(table, cutoff) - 1
  {
    var n := |table| - 1;
    var rest := table[..i] + table[i + 1..];
    if i == n {
      assert rest == table[..n];
    } else {
      RemoveOne(table[..n], i, cutoff);
      assert rest[..|rest| - 1] == table[..n][..i] + table[..n][i + 1..];
      assert rest[|rest| - 1] == table[n];
    }
  }

  lemma {:induction false} NoneExpired(table: seq<Row>, cutoff: int)
    ensures Expired(table, cutoff) == 0 <==> forall i :: 0 <= i < |table| ==> table[i].record.time >= cutoff
    ensures Expired(table, cutoff) == 0 ==> Kept(table, cutoff) == table
  {
    if table != [] {
      var init, last := table[..|table| - 1], table[|table| - 1];
      NoneExpired(init, cutoff);
      assert table == init + [last];
      assert (forall i :: 0 <= i < |table| ==> table[i].record.time >= cutoff) <==>
        (forall i :: 0 <= i < |init| ==> init[i].record.time >= cutoff) && last.record.time >= cutoff by {
        assert forall i :: 0 <= i < |init| ==> table[i] == init[i];
        assert table[|table| - 1] == last;
      }
    }
  }

  /** One DELETE with its LIMIT: up to limit expired rows go, which ones is not said. */
  method DeleteSome(table: seq<Row>, cutoff: int, limit: nat) returns (left: seq<Row>, n: nat)
    ensures n == if Expired(table, cutoff) < limit then Expired(table, cutoff) else limit
    ensures Kept(left, cutoff) == Kept(table, cutoff) && Expired(left, cutoff) == Expired(table, cutoff) - n
  {
    left, n := table, 0;
    while n < limit
      invariant n <= limit && Kept(left, cutoff) == Kept(table, cutoff)
      invariant Expired(left, cutoff) + n == Expired(table, cutoff)
      decreases limit - n
    {
      NoneExpired(left, cutoff);
      if forall i :: 0 <= i < |left| ==> left[i].record.time >= cutoff { return; }
      var i :| 0 <= i < |left| && left[i].record.time < cutoff;
      RemoveOne(left, i, cutoff);
      left, n := left[..i] + left[i + 1..], n + 1;
    }
  }

  /** Deleting chunk by chunk until a chunk is not full removes exactly the expired rows. */
  method Prune(table: seq<Row>, now: int) returns (left: seq<Row>)
    ensures left == Kept(table, now - RETENTION)
    ensures forall r :: r in left <==> r in table && r.record.time >= now - 604_800_000
    ensures Numbered(table) ==> Numbered(left)
  {
    KeptMembers(table, now - RETENTION);
    if Numbered(table) { KeptMeaning(table, now - RETENTION); }
    left := table;
    var n := PRUNE_CHUNK;
    while n >= PRUNE_CHUNK
      invariant Kept(left, now - RETENTION) == Kept(table, now - RETENTION)
      invariant n < PRUNE_CHUNK ==> Expired(left, now - RETENTION) == 0
      decreases Expired(left, now - RETENTION), n
    {
      left, n := DeleteSome(left, now - RETENTION, PRUNE_CHUNK);
    }
    NoneExpired(left, now - RETENTION);
  }

  /** Pruning within retention, and inserting, are changes the pages do not notice. */
  lemma PruneEvolves(t: seq<Row>, now: int, since: int)
    requires Numbered(t) && now - RETENTION <= since
    ensures Evolves(t, Kept(t, now - RETENTION), since)
  {
    KeptMeaning(t, now - RETENTION);
  }

  lemma {:induction false} KeptMembers(t: seq<Row>, cutoff: int)
    ensures forall r :: r in Kept(t, cutoff) <==> r in t && r.record.time >= cutoff
  {
    if t != [] {
      KeptMembers(t[..|t| - 1], cutoff);
      assert t == t[..|t| - 1] + [t[|t| - 1]];
    }
  }

  lemma {:induction false} KeptMeaning(t: seq<Row>, cutoff: int)
    requires Numbered(t)
    ensures Numbered(Kept(t, cutoff)) && forall r :: r in Kept(t, cutoff) <==> r in t && r.record.time >= cutoff
  {
    if t != [] {
      var init := t[..|t| - 1];
      KeptMeaning(init, cutoff);
      assert t == init + [t[|t| - 1]];
      var k := Kept(t, cutoff);
      forall i | 0 <= i < |k| ensures k[i].id > 0 && forall j :: 0 <= j < i ==> k[j].id < k[i].id {
        if i == |Kept(init, cutoff)| {
          forall j | 0 <= j < i ensures k[j].id < k[i].id {
            assert k[j] in Kept(init, cutoff);
            var m :| 0 <= m < |init| && init[m] == k[j];
            assert t[m].id < t[|t| - 1].id;
          }
        }
      }
    }
  }

  lemma InsertEvolves(t: seq<Row>, more: seq<Row>, since: int)
    requires Numbered(t) && Numbered(t + more)
    ensures Evolves(t, t + more, since)
  {
    forall i | 0 <= i < |t + more| ensures (t + more)[i] in t || forall j :: 0 <= j < |t| ==> t[j].id < (t + more)[i].id {
      if i >= |t| {
        forall j | 0 <= j < |t| ensures t[j].id < (t + more)[i].id { assert (t + more)[j] == t[j]; }
      }
    }
  }
}
