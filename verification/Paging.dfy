/** The query endpoint: evaluate, then return one page of entities and a cursor to the next. */
module Paging {
  import opened Bytes
  import opened Sequences
  import opened Wrappers
  import opened Entities
  import opened Ledger
  import opened Chain
  import opened Machine
  import opened CacheStores
  import opened Disk
  import opened Bitmaps
  import opened Stores
  import opened Reads
  import opened Language
  import opened Normalize
  import opened Evaluate
  import opened Answers
  import opened History

  const QUERY_RESULT_COUNT_LIMIT: uint64 := 200

  // ---------- Descending order ----------

  predicate Descending(list: seq<uint64>) {
    forall i, j :: 0 <= i < j < |list| ==> list[i] > list[j]
  }

  lemma {:induction false} MaxExists(ids: set<uint64>) returns (m: uint64)
    requires ids != {}
    ensures m in ids && forall x :: x in ids ==> x <= m
  {
    var y :| y in ids;
    var rest := ids - {y};
    if rest == {} {
      assert ids == {y};
      m := y;
    } else {
      var z := MaxExists(rest);
      m := if y < z then z else y;
      forall x | x in ids ensures x <= m { assert x == y || x in rest; }
    }
  }

  function MaxOf(ids: set<uint64>): (m: uint64)
    requires ids != {}
    ensures m in ids && forall x :: x in ids ==> x <= m
  {
    assert exists m: uint64 :: m in ids && forall x :: x in ids ==> x <= m by {
      var m := MaxExists(ids);
    }
    var m: uint64 :| m in ids && forall x :: x in ids ==> x <= m;
    m
  }

  /** The IDs from the largest down, as the reverse iterator yields them. */
  function Desc(ids: set<uint64>): (list: seq<uint64>)
    ensures Descending(list) && |list| == |ids|
    ensures forall x :: x in list <==> x in ids
  {
    if ids == {} then []
    else
      var m := MaxOf(ids);
      DescStep(m, Desc(ids - {m}));
      [m] + Desc(ids - {m})
  }

  lemma DescStep(m: uint64, rest: seq<uint64>)
    requires Descending(rest) && forall x :: x in rest ==> x < m
    ensures Descending([m] + rest)
  {
    forall j | 0 <= j < |rest| ensures rest[j] < m { assert rest[j] in rest; }
  }

  lemma HasMember(s: seq<uint64>)
    requires s != []
    ensures exists x :: x in s
  {
    assert s[0] in s;
  }

  /** A descending list is determined by its members. */
  lemma {:induction false} DescUnique(a: seq<uint64>, b: seq<uint64>)
    requires Descending(a) && Descending(b) && forall x :: x in a <==> x in b
    ensures a == b
  {
    if a == [] || b == [] {
      if a != [] { HasMember(a); }
      if b != [] { HasMember(b); }
    } else {
      SameFirst(a, b);
      SameFirst(b, a);
      RestMembers(a);
      RestMembers(b);
      DescUnique(a[1..], b[1..]);
      assert a == [a[0]] + a[1..] && b == [b[0]] + b[1..];
    }
  }

  lemma SameFirst(a: seq<uint64>, b: seq<uint64>)
    requires a != [] && b != [] && Descending(b) && forall x :: x in a <==> x in b
    ensures a[0] <= b[0]
  {
    assert a[0] in a;
    var j :| 0 <= j < |b| && b[j] == a[0];
  }

  lemma RestMembers(a: seq<uint64>)
    requires a != [] && Descending(a)
    ensures forall x :: x in a[1..] <==> x in a && x != a[0]
  {
    forall x ensures x in a[1..] <==> x in a && x != a[0] {
      if x in a && x != a[0] {
        var i :| 0 <= i < |a| && a[i] == x;
        assert a[1..][i - 1] == x;
      }
    }
  }

  class ReverseIterator {
    const list: seq<uint64>
    var next: nat

    ghost predicate Valid()
      reads this
    {
      next <= |list|
    }

    constructor (bm: Bitmap)
      ensures Valid() && list == Desc(bm.ids) && next == 0
    {
      list := Desc(bm.ids);
      next := 0;
    }

    predicate HasNext()
      reads this
      requires Valid()
    {
      next < |list|
    }

    method Next() returns (id: uint64)
      requires Valid() && HasNext()
      modifies this
      ensures Valid() && next == old(next) + 1 && id == list[old(next)]
    {
      id := list[next];
      next := next + 1;
    }
  }

  // ---------- What a page holds ----------

  /** The resolvable IDs of a list, in order. */
  function Resolvable(list: seq<uint64>, found: map<uint64, Entity>): seq<uint64> {
    if list == [] then []
    else Resolvable(list[..|list| - 1], found) + if list[|list| - 1] in found then [list[|list| - 1]] else []
  }

  /** The data are the entities of the IDs, in the same order. */
  ghost predicate Fetched(ids: seq<uint64>, found: map<uint64, Entity>, data: seq<Entity>) {
    |data| == |ids| && forall i :: 0 <= i < |ids| ==> ids[i] in found && data[i] == found[ids[i]]
  }

  lemma {:induction false} ResolvableIn(list: seq<uint64>, found: map<uint64, Entity>)
    ensures |Resolvable(list, found)| <= |list|
    ensures forall x :: x in Resolvable(list, found) <==> x in list && x in found
  {
    if list != [] {
      ResolvableIn(list[..|list| - 1], found);
      assert list == list[..|list| - 1] + [list[|list| - 1]];
    }
  }

  /** How many IDs a page takes from the list: it stops with the ID that fills it, or at the end. */
  function Taken(list: seq<uint64>, limit: nat, found: map<uint64, Entity>): (k: nat)
    ensures k <= |list|
    ensures limit > 0 && list != [] ==> k > 0
  {
    if list == [] || limit == 0 then 0
    else 1 + Taken(list[1..], if list[0] in found then limit - 1 else limit, found)
  }

  /** The IDs on a page, and the last ID looked at when more are left. */
  datatype Page = Page(ids: seq<uint64>, cursor: Option<uint64>)

  function PageOf(list: seq<uint64>, limit: nat, found: map<uint64, Entity>): Page {
    var k := Taken(list, limit, found);
    Page(Resolvable(list[..k], found), if 0 < k < |list| then Some(list[k - 1]) else None)
  }

  function BelowCursor(ids: set<uint64>, cursor: Option<uint64>): set<uint64> {
    set x | x in ids && (cursor.Some? ==> x < cursor.value)
  }

  function PageAt(ids: set<uint64>, cursor: Option<uint64>, limit: nat, found: map<uint64, Entity>): Page {
    PageOf(Desc(BelowCursor(ids, cursor)), limit, found)
  }

  // ---------- The endpoint ----------

  datatype Response = Response(data: seq<Entity>, blockNumber: uint64, cursor: Option<uint64>)

  function ResultsPerPage(requested: Option<uint64>): (r: uint64)
    ensures r <= 200
    ensures requested.Some? && requested.value <= 200 <==> requested == Some(r)
    ensures requested != Some(r) ==> r == 200
  {
    if requested.None? || requested.value > QUERY_RESULT_COUNT_LIMIT then QUERY_RESULT_COUNT_LIMIT
    else requested.value
  }

  /** The entities that IDs lead to at block n. */
  ghost function Found(s: State, n: uint64): map<uint64, Entity> {
    if KnownBlock(s.chain, n) then
      var code := LedgerAt(s.chain, n).trie.code;
      map id | id in s.cache && s.cache[id] in code :: code[s.cache[id]]
    else map[]
  }

  /** ID to address to entity; whatever does not resolve is skipped. */
  method Fetch(s: Store, n: uint64, id: uint64) returns (r: Option<Entity>)
    requires s.Valid()
    ensures r == if id in Found(s.state, n) then Some(Found(s.state, n)[id]) else None
  {
    hide DiskInv, HeadOf, Replay;
    var a := IDToAddress(s, id);
    if a.None? {
      return None;
    }
    var e := GetEntity(s, n, a.value);
    return if e.Ok? then Some(e.value) else None;
  }

  /** What the loop has done after the first k IDs: the data so far, and how far the page will reach. */
  ghost predicate Reached(list: seq<uint64>, limit: nat, found: map<uint64, Entity>, k: nat, data: seq<Entity>) {
    && k <= |list| && |data| <= limit
    && Fetched(Resolvable(list[..k], found), found, data)
    && Taken(list, limit, found) == k + Taken(list[k..], limit - |data|, found)
  }

  lemma ReachedStart(list: seq<uint64>, limit: nat, found: map<uint64, Entity>)
    ensures Reached(list, limit, found, 0, [])
  {
    assert list[..0] == [] && list[0..] == list;
  }

  lemma ReachedStep(list: seq<uint64>, limit: nat, found: map<uint64, Entity>, k: nat, data: seq<Entity>)
    requires Reached(list, limit, found, k, data) && k < |list| && |data| < limit
    ensures Reached(list, limit, found, k + 1, if list[k] in found then data + [found[list[k]]] else data)
  {
    hide Taken, Resolvable;
    ResolvableNext(list, k, found);
    TakenNext(list, limit - |data|, found, k);
  }

  lemma ResolvableNext(list: seq<uint64>, k: nat, found: map<uint64, Entity>)
    requires k < |list|
    ensures Resolvable(list[..k + 1], found) ==
            Resolvable(list[..k], found) + if list[k] in found then [list[k]] else []
  {
    assert list[..k + 1][..k] == list[..k];
  }

  lemma TakenNext(list: seq<uint64>, limit: nat, found: map<uint64, Entity>, k: nat)
    requires k < |list| && limit >= 1
    ensures Taken(list[k..], limit, found) ==
            1 + Taken(list[k + 1..], if list[k] in found then limit - 1 else limit, found)
  {
    assert list[k..][1..] == list[k + 1..];
  }

  lemma ReachedEnd(list: seq<uint64>, limit: nat, found: map<uint64, Entity>, k: nat, data: seq<Entity>)
    requires Reached(list, limit, found, k, data) && (k == |list| || |data| == limit)
    ensures k == Taken(list, limit, found) && Fetched(PageOf(list, limit, found).ids, found, data)
  {
  }

  /** Takes up to ten IDs at a time, never more than the page still needs. */
  method NextBatch(it: ReverseIterator, size: nat) returns (ids: seq<uint64>)
    requires it.Valid()
    modifies it
    ensures it.Valid() && it.next == if old(it.next) + size <= |it.list| then old(it.next) + size else |it.list|
    ensures ids == it.list[old(it.next)..it.next]
  {
    ids := [];
    for i := 0 to size
      invariant it.Valid() && it.next == old(it.next) + i && ids == it.list[old(it.next)..it.next]
    {
      if !it.HasNext() {
        break;
      }
      var id := it.Next();
      ids := ids + [id];
    }
  }

  method CollectPage(s: Store, n: uint64, it: ReverseIterator, maxResults: nat)
    returns (data: seq<Entity>, lastID: Option<uint64>)
    requires s.Valid() && it.Valid() && it.next == 0
    modifies it
    ensures it.Valid() && Fetched(PageOf(it.list, maxResults, Found(s.state, n)).ids, Found(s.state, n), data)
    ensures PageOf(it.list, maxResults, Found(s.state, n)).cursor == if it.HasNext() then lastID else None
  {
    hide DiskInv, HeadOf, Replay, Found, Reached, Fetched, Taken, Resolvable;
    ghost var found := Found(s.state, n);
    data, lastID := [], None;
    ReachedStart(it.list, maxResults, found);
    while it.HasNext() && |data| < maxResults
      invariant it.Valid() && Reached(it.list, maxResults, found, it.next, data) && |data| <= maxResults
      invariant lastID == if it.next > 0 then Some(it.list[it.next - 1]) else None
      decreases |it.list| - it.next
    {
      var batchSize := if maxResults - |data| < 10 then maxResults - |data| else 10;
      ghost var k, before := it.next, |data|;
      var ids := NextBatch(it, batchSize);
      for i := 0 to |ids|
        invariant Reached(it.list, maxResults, found, k + i, data) && |data| <= before + i
        invariant it.Valid() && it.next == k + |ids|
        invariant lastID == if k + i > 0 then Some(it.list[k + i - 1]) else None
      {
        lastID := Some(ids[i]);
        var e := Fetch(s, n, ids[i]);
        ReachedStep(it.list, maxResults, found, k + i, data);
        if e.None? {
          continue;
        }
        data := data + [e.value];
      }
    }
    ReachedEnd(it.list, maxResults, found, it.next, data);
  }

  /** The page that a query, a cursor and a page size select in the current state. */
  ghost function QueryPage(s: State, q: TopLevel, n: uint64, cursor: Option<uint64>, limit: nat): Page {
    PageAt(AstSet(HistAnnot(s.chain, n), AnnotAt(s.chain, 0), Normal(q)), cursor, limit, Found(s, n))
  }

  /** Restricts the result to the IDs strictly below the cursor. */
  method ApplyCursor(ids: Bitmap, cursor: Option<uint64>)
    modifies ids
    ensures ids.ids == BelowCursor(old(ids.ids), cursor)
  {
    if cursor.Some? {
      var mask := new Bitmap(set x: uint64 | x in ids.ids && x < cursor.value);
      ids.And(mask);
    }
  }

  method Query(s: Store, q: TopLevel, atBlock: Option<uint64>, cursor: Option<uint64>, resultsPerPage: Option<uint64>)
    returns (r: Result<Response>)
    requires s.Valid()
    ensures var n := if atBlock.Some? then atBlock.value else 0;
            var page := QueryPage(s.state, q, n, cursor, ResultsPerPage(resultsPerPage));
            && (r.Err? <==> AstReads(Normal(q)) && !KnownBlock(s.state.chain, n))
            && (r.Ok? ==>
                  && Fetched(page.ids, Found(s.state, n), r.value.data)
                  && r.value.cursor == page.cursor
                  && (resultsPerPage != Some(0) ==>
                        IsPage(AstSet(HistAnnot(s.state.chain, n), AnnotAt(s.state.chain, 0), Normal(q)), cursor,
                               ResultsPerPage(resultsPerPage), Found(s.state, n), Page(page.ids, r.value.cursor)))
                  && r.value.blockNumber == if n == 0 then |s.state.chain| else n)
  {
    hide DiskInv, HeadOf, Replay, Found, AstSet, AstReads, Normal, HistAnnot, AnnotAt, Fetched, PageOf, Desc, LedgerAt,
         BelowCursor, IsPage;
    var n := if atBlock.Some? then atBlock.value else 0;
    var ast := NormalizeTopLevel(q);
    HeadIs(s);
    var responseBlockNumber := if n == 0 then s.headNumber else n;
    var ids := EvaluateAst(s, n, ast);
    if ids.Err? {
      return Err(ids.error);
    }
    ApplyCursor(ids.value, cursor);
    var it := new ReverseIterator(ids.value);
    var data, lastID := CollectPage(s, n, it, ResultsPerPage(resultsPerPage));
    if ResultsPerPage(resultsPerPage) >= 1 {
      PageIs(AstSet(HistAnnot(s.state.chain, n), AnnotAt(s.state.chain, 0), ast), cursor,
             ResultsPerPage(resultsPerPage), Found(s.state, n));
    }
    return Ok(Response(data, responseBlockNumber, if it.HasNext() then lastID else None));
  }

  lemma HeadIs(s: Store)
    requires s.Valid()
    ensures s.headNumber == |s.state.chain|
  {
    hide Inv, BlockIndex, Archive, TriesKept, AnnotSync, IdSync, RootAt;
  }

  // ---------- Following the cursors ----------

  /** A page with a cursor leaves exactly the rest of the list for the next page. */
  lemma CursorCuts(ids: set<uint64>, cursor: Option<uint64>, k: nat)
    requires 0 < k <= |Desc(BelowCursor(ids, cursor))|
    ensures var list := Desc(BelowCursor(ids, cursor));
            && Desc(BelowCursor(ids, Some(list[k - 1]))) == list[k..]
            && |BelowCursor(ids, Some(list[k - 1]))| == |list| - k
  {
    hide Desc;
    var list := Desc(BelowCursor(ids, cursor));
    var below := Desc(BelowCursor(ids, Some(list[k - 1])));
    assert list[k - 1] in list;
    forall x ensures x in below <==> x in list[k..] {
      if x in below {
        assert x in list;
        var i :| 0 <= i < |list| && list[i] == x;
        assert i >= k;
        assert list[k..][i - k] == x;
      }
      if x in list[k..] {
        var i :| 0 <= i < |list| - k && list[k..][i] == x;
        assert list[k + i] == x && x in list;
      }
    }
    DescUnique(below, list[k..]);
  }

  /** The ID lists of the pages that a client gets by following cursors. */
  ghost function Follow(
    ids: set<uint64>, cursor: Option<uint64>, limit: nat, found: map<uint64, Entity>): seq<seq<uint64>>
    requires limit >= 1
    decreases |BelowCursor(ids, cursor)|
  {
    var list := Desc(BelowCursor(ids, cursor));
    var k := Taken(list, limit, found);
    var p := PageAt(ids, cursor, limit, found);
    if p.cursor.None? then [p.ids]
    else
      CursorCuts(ids, cursor, k);
      [p.ids] + Follow(ids, p.cursor, limit, found)
  }

  lemma {:induction false} ResolvableConcat(a: seq<uint64>, b: seq<uint64>, found: map<uint64, Entity>)
    ensures Resolvable(a + b, found) == Resolvable(a, found) + Resolvable(b, found)
  {
    if b == [] {
      assert a + b == a;
    } else {
      assert (a + b)[..|a + b| - 1] == a + b[..|b| - 1];
      ResolvableConcat(a, b[..|b| - 1], found);
    }
  }

  lemma {:induction false} ResolvableDescends(list: seq<uint64>, found: map<uint64, Entity>)
    requires Descending(list)
    ensures Descending(Resolvable(list, found))
  {
    if list != [] {
      var init := list[..|list| - 1];
      var kept := Resolvable(init, found);
      ResolvableDescends(init, found);
      ResolvableIn(init, found);
      forall i | 0 <= i < |kept| ensures kept[i] > list[|list| - 1] {
        assert kept[i] in init;
      }
    }
  }

  lemma {:induction false} PageFits(list: seq<uint64>, limit: nat, found: map<uint64, Entity>)
    ensures |PageOf(list, limit, found).ids| <= limit
  {
    var k := Taken(list, limit, found);
    if k > 0 {
      PageFits(list[1..], if list[0] in found then limit - 1 else limit, found);
      assert list[..k] == [list[0]] + list[1..][..k - 1];
      ResolvableConcat([list[0]], list[1..][..k - 1], found);
      ResolvableFirst(list[0], found);
    }
  }

  lemma ResolvableFirst(x: uint64, found: map<uint64, Entity>)
    ensures Resolvable([x], found) == if x in found then [x] else []
  {
    assert [x][..0] == [];
  }

  lemma {:induction false} FollowCollects(
    ids: set<uint64>, cursor: Option<uint64>, limit: nat, found: map<uint64, Entity>)
    requires limit >= 1
    ensures Flatten(Follow(ids, cursor, limit, found)) == Resolvable(Desc(BelowCursor(ids, cursor)), found)
    ensures forall i :: 0 <= i < |Follow(ids, cursor, limit, found)| ==> |Follow(ids, cursor, limit, found)[i]| <= limit
    decreases |BelowCursor(ids, cursor)|
  {
    hide Desc, Resolvable, BelowCursor;
    var list := Desc(BelowCursor(ids, cursor));
    var k := Taken(list, limit, found);
    var p := PageAt(ids, cursor, limit, found);
    PageFits(list, limit, found);
    if p.cursor.None? {
      assert k == |list| && list[..k] == list;
      assert Flatten([p.ids]) == p.ids;
    } else {
      CursorCuts(ids, cursor, k);
      FollowCollects(ids, p.cursor, limit, found);
      ResolvableConcat(list[..k], list[k..], found);
      assert list == list[..k] + list[k..];
      FlattenCons(p.ids, Follow(ids, p.cursor, limit, found));
    }
  }

  predicate AllButLastFull(pages: seq<seq<uint64>>, limit: nat) {
    pages != [] && forall i :: 0 <= i < |pages| - 1 ==> |pages[i]| == limit
  }

  lemma {:induction false} FollowFills(ids: set<uint64>, cursor: Option<uint64>, limit: nat, found: map<uint64, Entity>)
    requires limit >= 1
    ensures AllButLastFull(Follow(ids, cursor, limit, found), limit)
    decreases |BelowCursor(ids, cursor)|
  {
    hide Desc, Resolvable, BelowCursor;
    var k := Taken(Desc(BelowCursor(ids, cursor)), limit, found);
    var p := PageAt(ids, cursor, limit, found);
    TakenFills(Desc(BelowCursor(ids, cursor)), limit, found);
    if p.cursor.Some? {
      CursorCuts(ids, cursor, k);
      FollowFills(ids, p.cursor, limit, found);
    }
  }

  // ---------- What a page is ----------

  /**
   * A page of at least one: the largest resolvable result IDs below the incoming cursor, in descending order, as many
   * as fit; with a cursor at its last ID exactly when it is full and result IDs are left below it.
   */
  ghost predicate IsPage(ids: set<uint64>, cursor: Option<uint64>, limit: nat, found: map<uint64, Entity>, p: Page) {
    && Descending(p.ids) && |p.ids| <= limit
    && (forall x :: x in p.ids ==> x in found && x in ids && Below(x, cursor))
    && (forall x :: x in found && x in ids && Below(x, cursor) ==> x in p.ids || (Full(p, limit) && x < Last(p)))
    && p.cursor == if Full(p, limit) && exists x :: x in ids && x < Last(p) then Some(Last(p)) else None
  }

  predicate Below(x: uint64, cursor: Option<uint64>) { cursor.Some? ==> x < cursor.value }

  predicate Full(p: Page, limit: nat) { p.ids != [] && |p.ids| == limit }

  function Last(p: Page): uint64
    requires p.ids != []
  {
    p.ids[|p.ids| - 1]
  }

  /** What is left when taking stops: nothing, unless the page is full; and the ID that filled it was the last taken. */
  lemma {:induction false} TakenFills(list: seq<uint64>, limit: nat, found: map<uint64, Entity>)
    requires limit >= 1
    ensures var k := Taken(list, limit, found);
            var ids := Resolvable(list[..k], found);
            && |ids| <= limit
            && (k < |list| ==> |ids| == limit)
            && (|ids| == limit ==> k >= 1 && ids[limit - 1] == list[k - 1])
    decreases |list|
  {
    hide Resolvable;
    ResolvableIn([], found);
    if list == [] {
      assert list[..0] == [];
    } else {
      var x, rest := list[0], list[1..];
      var left := if x in found then limit - 1 else limit;
      var j := Taken(rest, left, found);
      assert list[..j + 1] == [x] + rest[..j];
      ResolvableConcat([x], rest[..j], found);
      ResolvableFirst(x, found);
      if left >= 1 {
        TakenFills(rest, left, found);
      } else {
        assert rest[..0] == [];
      }
    }
  }

  lemma PageIs(ids: set<uint64>, cursor: Option<uint64>, limit: nat, found: map<uint64, Entity>)
    requires limit >= 1
    ensures IsPage(ids, cursor, limit, found, PageAt(ids, cursor, limit, found))
  {
    hide Desc, Taken, Resolvable, IsPage;
    var list := Desc(BelowCursor(ids, cursor));
    PageFromList(ids, cursor, list, limit, found);
  }

  lemma PageFromList(
    ids: set<uint64>, cursor: Option<uint64>, list: seq<uint64>, limit: nat, found: map<uint64, Entity>)
    requires limit >= 1 && Descending(list) && forall x :: x in list <==> x in ids && Below(x, cursor)
    ensures IsPage(ids, cursor, limit, found, PageOf(list, limit, found))
  {
    hide Taken, Resolvable;
    var k, p := Taken(list, limit, found), PageOf(list, limit, found);
    TakenFills(list, limit, found);
    ResolvableIn(list[..k], found);
    ResolvableDescends(list[..k], found);
    forall x | x in found && x in ids && Below(x, cursor)
      ensures x in p.ids || (Full(p, limit) && x < Last(p))
    {
      assert x in list;
      var i :| 0 <= i < |list| && list[i] == x;
      if i < k { assert list[..k][i] == x; }
    }
    if k < |list| {
      assert list[k] in list && list[k] < list[k - 1];
    }
    if Full(p, limit) {
      forall x | x in ids && x < Last(p) ensures k < |list| {
        assert list[k - 1] in list;
        assert x in list;
        var i :| 0 <= i < |list| && list[i] == x;
        assert i >= k;
      }
    }
  }

  /**
   * In a fixed state, following the cursors from the start ends, and the pages joined together are the resolvable
   * result IDs in strictly descending order, each once. Every page but the last is full.
   */
  lemma PagesPartition(ids: set<uint64>, limit: nat, found: map<uint64, Entity>)
    requires limit >= 1
    ensures var all := Flatten(Follow(ids, None, limit, found));
            && Descending(all)
            && forall x :: x in all <==> x in ids && x in found
    ensures forall i :: 0 <= i < |Follow(ids, None, limit, found)| ==> |Follow(ids, None, limit, found)[i]| <= limit
    ensures AllButLastFull(Follow(ids, None, limit, found), limit)
  {
    hide Follow, Resolvable, Desc;
    assert BelowCursor(ids, None) == ids;
    FollowCollects(ids, None, limit, found);
    FollowFills(ids, None, limit, found);
    ResolvableDescends(Desc(ids), found);
    ResolvableIn(Desc(ids), found);
  }

  /** A page size of zero gives an empty page and no cursor. */
  lemma EmptyPage(ids: set<uint64>, cursor: Option<uint64>, found: map<uint64, Entity>)
    ensures PageAt(ids, cursor, 0, found) == Page([], None)
  {
    var list := Desc(BelowCursor(ids, cursor));
    assert list[..0] == [];
  }

  /**
   * At the head, when every live entity's ID resolves, the pages of a query hold every live entity that satisfies
   * the query as written, and nothing else.
   */
  lemma PagesAnswerQuery(s: State, q: TopLevel, limit: nat, id: uint64)
    requires Inv(s) && Complete(ExecOf(s)) && limit >= 1
    ensures var t := Replay(s.chain).trie;
            var all := Flatten(Follow(AstSet(t.annot, t.annot, Normal(q)), None, limit, Found(s, 0)));
            && Descending(all)
            && (id in all <==> Live(t, id) && Satisfies(EntityOf(t, id), q))
            && (id in all ==> id in Found(s, 0) && Live(t, id) && Found(s, 0)[id] == EntityOf(t, id))
  {
    hide Follow, AstSet, Satisfies, Normal, LedgerInv, CacheSound, ChainOk, Replay;
    var t := Replay(s.chain).trie;
    InvChain(s);
    ReplayInv(s.chain);
    var ids := AstSet(t.annot, t.annot, Normal(q));
    PagesPartition(ids, limit, Found(s, 0));
    QueryExact(Replay(s.chain), q, id);
    if Live(t, id) {
      SoundEntry(ExecOf(s), id);
    }
  }

  // ---------- Pages at an earlier block ----------

  /** A query whose leaves answer every block exactly. */
  ghost predicate AnsweredAt(q: TopLevel) {
    q.Query? ==> EachLeaf(q.expr, (x: Leaf) => ExactBothWays(x))
  }

  lemma AnswerAt(chain: seq<Block>, q: TopLevel, n: uint64, id: uint64)
    requires ChainOk(chain) && KnownBlock(chain, n) && AnsweredAt(q)
    ensures var t := LedgerAt(chain, n).trie;
            id in AstSet(HistAnnot(chain, n), AnnotAt(chain, 0), Normal(q)) <==>
            Live(t, id) && Satisfies(EntityOf(t, id), q)
  {
    hide ChainOk, LedgerInv, OrSet, EachLeaf, ExprDnf, Means, LedgerAt, HistAnnot, AnnotAt;
    LedgerAtInv(chain, n);
    match q {
      case Everything => LiveIs(LedgerAt(chain, n), id);
      case Query(e) => HistoricalQueryExact(chain, n, e, id);
    }
  }

  /** Of the entities live at block n, those resolve whose IDs are cached, and to their own records. */
  lemma FoundLive(s: State, n: uint64, id: uint64)
    requires Inv(s) && KnownBlock(s.chain, n) && Live(LedgerAt(s.chain, n).trie, id)
    ensures id in Found(s, n) <==> id in s.cache
    ensures id in Found(s, n) ==> Found(s, n)[id] == EntityOf(LedgerAt(s.chain, n).trie, id)
  {
    hide ChainOk, Replay, IndexExact, EntitiesInv;
    InvChain(s);
    var k := if n == 0 then |s.chain| else n;
    ChainPrefix(s.chain, k);
    assert s.chain[..|s.chain|] == s.chain;
    LedgerAtInv(s.chain, n);
    ReplayInv(s.chain);
    if id in s.cache { SameAddress(LedgerAt(s.chain, n), ExecOf(s), id); }
  }

  lemma SameAddress(l: Ledger, x: Exec, id: uint64)
    requires LedgerInv(l) && LedgerInv(x.ledger) && Extends(l, x.ledger) && CacheSound(x)
    requires id in l.trie.ids && id in x.cache
    ensures x.cache[id] == l.trie.ids[id]
  {
    hide IndexExact, EntitiesInv;
    assert x.ledger.created[x.cache[id]] == id && x.ledger.created[l.trie.ids[id]] == id;
  }

  /**
   * At any canonical block, the pages of a query whose leaves answer that block exactly hold the entities that
   * satisfied it there and whose IDs are still cached; the others are silently skipped.
   */
  lemma PagesAnswerAt(s: State, q: TopLevel, n: uint64, limit: nat, id: uint64)
    requires Inv(s) && KnownBlock(s.chain, n) && AnsweredAt(q) && limit >= 1
    ensures var t := LedgerAt(s.chain, n).trie;
            var ids := AstSet(HistAnnot(s.chain, n), AnnotAt(s.chain, 0), Normal(q));
            var all := Flatten(Follow(ids, None, limit, Found(s, n)));
            && Descending(all)
            && (id in all <==> Live(t, id) && Satisfies(EntityOf(t, id), q) && id in s.cache)
            && (id in all ==> id in Found(s, n) && Live(t, id) && Found(s, n)[id] == EntityOf(t, id))
  {
    hide Follow, AstSet, Satisfies, Normal, ChainOk, CacheSound, Inv, LedgerAt, HistAnnot, AnnotAt, Found,
         AnsweredAt, Live;
    InvChain(s);
    var ids := AstSet(HistAnnot(s.chain, n), AnnotAt(s.chain, 0), Normal(q));
    PagesPartition(ids, limit, Found(s, n));
    AnswerAt(s.chain, q, n, id);
    if Live(LedgerAt(s.chain, n).trie, id) { FoundLive(s, n, id); }
  }

  /**
   * Along every run: the pages at block n hold an entity that satisfied the query there if and only if it was live at
   * the ancestor of every revert since the block that created it was last applied.
   */
  lemma PagesOnRuns(ss: seq<State>, es: seq<Event>, m: nat, q: TopLevel, n: uint64, limit: nat, j: nat, id: uint64)
    requires IsRun(ss, es) && m < |ss| && |ss| == |es| + 1 && KnownBlock(ss[m].chain, n)
    requires AnsweredAt(q) && limit >= 1 && Born(ss[m].chain, j, id)
    ensures var s := ss[m];
            var t := LedgerAt(s.chain, n).trie;
            var ids := AstSet(HistAnnot(s.chain, n), AnnotAt(s.chain, 0), Normal(q));
            id in Flatten(Follow(ids, None, limit, Found(s, n))) <==>
            Live(t, id) && Satisfies(EntityOf(t, id), q) && LiveAtEveryRevert(ss, es, m, j, id)
  {
    hide Follow, AstSet, Satisfies, Normal, Inv, LedgerAt, HistAnnot, AnnotAt, Found, AnsweredAt, Live,
         LiveAtEveryRevert;
    hide Born, IsRun;
    RunInv(ss, es, m);
    PagesAnswerAt(ss[m], q, n, limit, id);
    IdResolvesIff(ss, es, m, j, id);
  }

  /** When no ID resolves, the page is empty and is the last. */
  lemma NoneFound(ids: set<uint64>, cursor: Option<uint64>, limit: nat)
    requires limit > 0
    ensures PageAt(ids, cursor, limit, map[]) == Page([], None)
  {
    hide Desc, BelowCursor, Taken, Resolvable;
    var list := Desc(BelowCursor(ids, cursor));
    AllTaken(list, limit);
    assert list[..|list|] == list;
    NothingResolves(list);
  }

  lemma {:induction false} NothingResolves(list: seq<uint64>)
    ensures Resolvable(list, map[]) == []
  {
    if list != [] { NothingResolves(list[..|list| - 1]); }
  }

  lemma {:induction false} AllTaken(list: seq<uint64>, limit: nat)
    requires limit > 0
    ensures Taken(list, limit, map[]) == |list|
  {
    if list != [] { AllTaken(list[1..], limit); }
  }

  /**
   * A run with a single revert after which the pages at block 1 lose an entity that was live there: create, delete,
   * empty block, revert the last. The answer is {1}, the page is empty, and there is no cursor.
   */
  lemma PagesLoseEntity(c: CreateOp, h: seq<Hash32>) returns (ss: seq<State>, es: seq<Event>)
    requires |h| == 4 && h[0] != h[1] && h[0] != h[2] && h[0] != h[3] && h[1] != h[2] && h[1] != h[3] && h[2] != h[3]
    requires UserAddress(Addr(c.key)) && ValidAttributes(c.attributes)
    ensures IsRun(ss, es) && |ss| == 5 && |es| == 4 && RevertsClimb(ss, es, 4)
    ensures var s := ss[4];
            && KnownBlock(s.chain, 1) && Live(LedgerAt(s.chain, 1).trie, 1)
            && AstSet(HistAnnot(s.chain, 1), AnnotAt(s.chain, 0), Normal(Everything)) == {1}
            && QueryPage(s, Everything, 1, None, 200) == Page([], None)
  {
    hide Replay, Addr, ValidAttributes, LedgerInv, PageAt, IsRun, Inv, LedgerAt, HistAnnot, AnnotAt, Found, GapChain,
         Live;
    ss, es := GapRun(c, h);
    assert |ss[4].chain| == 2 by { GapTwo(c, h); }
    RunInv(ss, es, 4);
    GapAnswer(ss[4], c, h);
    NoneFound({1}, None, 200);
  }

  lemma GapTwo(c: CreateOp, h: seq<Hash32>)
    requires |h| == 4
    ensures |GapChain(c, h)[..2]| == 2 && GapChain(c, h)[..2][..1] == GapChain(c, h)[..1]
  {
  }

  lemma GapAnswer(s: State, c: CreateOp, h: seq<Hash32>)
    requires |h| == 4 && h[0] != h[1] && UserAddress(Addr(c.key)) && ValidAttributes(c.attributes)
    requires Inv(s) && s.chain == GapChain(c, h)[..2] && s.cache == map[] && KnownBlock(s.chain, 1)
    ensures Live(LedgerAt(s.chain, 1).trie, 1) && Bits(HistAnnot(s.chain, 1), ALL_PAIR) == {1} && Found(s, 1) == map[]
  {
    hide Replay, Addr, ValidAttributes, LedgerInv, ChainOk, CacheSound, GapChain, Live;
    GapFirst(c, h);
    GapTwo(c, h);
    InvChain(s);
    LedgerAtInv(s.chain, 1);
    AllBitmap(LedgerAt(s.chain, 1));
    LiveIs(LedgerAt(s.chain, 1), 1);
  }
}
