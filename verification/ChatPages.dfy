/** Cursor pagination of a user's chats, newest first with the id as tie-breaker. */
module ChatPages {
  import opened Wrappers

  datatype Chat = Chat(id: string, user: string, title: string, createdAt: int)

  datatype Cursor = Cursor(createdAt: int, id: string)

  datatype Page = Page(items: seq<Chat>, next: Option<Cursor>)

  // ------------------------------------------------------------------ order

  /** Go's < on strings. */
  predicate Less(a: string, b: string) {
    b != [] && (a == [] || a[0] < b[0] || (a[0] == b[0] && Less(a[1..], b[1..])))
  }

  lemma {:induction false} LessIsTotal(a: string, b: string)
    ensures Less(a, b) || Less(b, a) || a == b
    ensures !(Less(a, b) && Less(b, a)) && !Less(a, a)
    decreases |a|
  {
    if a != [] {
      if b != [] {
        LessIsTotal(a[1..], b[1..]);
        assert a == [a[0]] + a[1..] && b == [b[0]] + b[1..];
      }
      LessIsTotal(a[1..], a[1..]);
    }
  }

  lemma {:induction false} LessIsTransitive(a: string, b: string, c: string)
    requires Less(a, b) && Less(b, c)
    ensures Less(a, c)
    decreases |a|
  {
    if a != [] && a[0] == b[0] == c[0] {
      LessIsTransitive(a[1..], b[1..], c[1..]);
    }
  }

  /** Lexicographic order: at the first difference, smaller or at an end. */
  ghost predicate LexLess(a: string, b: string) {
    exists k :: 0 <= k <= |a| && k < |b| && a[..k] == b[..k] && (k == |a| || a[k] < b[k])
  }

  lemma {:induction false} LessIsLexicographic(a: string, b: string)
    ensures Less(a, b) <==> LexLess(a, b)
    decreases |a|
  {
    if a != [] && b != [] {
      LessIsLexicographic(a[1..], b[1..]);
      if LexLess(a[1..], b[1..]) && a[0] == b[0] {
        var k :| 0 <= k <= |a[1..]| && k < |b[1..]| && a[1..][..k] == b[1..][..k] && (k == |a[1..]| || a[1..][k] < b[1..][k]);
        assert a[..k + 1] == [a[0]] + a[1..][..k] && b[..k + 1] == [b[0]] + b[1..][..k];
      }
      if a[0] < b[0] {
        assert a[..0] == b[..0];
      }
      if LexLess(a, b) {
        var k :| 0 <= k <= |a| && k < |b| && a[..k] == b[..k] && (k == |a| || a[k] < b[k]);
        if k > 0 {
          assert a[0] == a[..k][0] == b[..k][0] == b[0];
          assert a[1..][..k - 1] == a[..k][1..] && b[1..][..k - 1] == b[..k][1..];
        }
      }
    } else if b != [] {
      assert a[..0] == b[..0];
    }
  }

  function Key(c: Chat): Cursor { Cursor(c.createdAt, c.id) }

  /** Strictly after the cursor in newest-first order. */
  predicate Below(k: Cursor, cursor: Cursor) {
    k.createdAt < cursor.createdAt || (k.createdAt == cursor.createdAt && Less(k.id, cursor.id))
  }

  lemma {:induction false} BelowIsTotal(a: Cursor, b: Cursor)
    ensures Below(a, b) || Below(b, a) || a == b
    ensures !(Below(a, b) && Below(b, a)) && !Below(a, a)
  {
    LessIsTotal(a.id, b.id);
    LessIsTotal(a.id, a.id);
  }

  lemma {:induction false} BelowIsTransitive(a: Cursor, b: Cursor, c: Cursor)
    requires Below(a, b) && Below(b, c)
    ensures Below(a, c)
  {
    if a.createdAt == b.createdAt == c.createdAt {
      LessIsTransitive(a.id, b.id, c.id);
    }
  }

  ghost predicate Sorted(s: seq<Chat>) {
    forall i, j :: 0 <= i < j < |s| ==> Below(Key(s[j]), Key(s[i]))
  }

  /** The user's chats, each once, in (CreatedAt, ID) descending order. */
  ghost predicate IsListing(chats: map<string, Chat>, user: string, s: seq<Chat>) {
    && Sorted(s)
    && (forall i :: 0 <= i < |s| ==> s[i].id in chats && chats[s[i].id] == s[i] && s[i].user == user)
    && (forall id :: id in chats && chats[id].user == user ==> chats[id] in s)
  }

  /** Newest first; among equals, the lexicographically greater id first. */
  lemma {:induction false} ListingIsNewestFirst(chats: map<string, Chat>, user: string, s: seq<Chat>, i: nat, j: nat)
    requires IsListing(chats, user, s) && i < j < |s|
    ensures s[j].createdAt < s[i].createdAt || (s[j].createdAt == s[i].createdAt && LexLess(s[j].id, s[i].id))
  {
    assert Below(Key(s[j]), Key(s[i]));
    LessIsLexicographic(s[j].id, s[i].id);
  }

  lemma {:induction false} EmptyOrInhabited(t: seq<Chat>)
    ensures t == [] || exists c :: c in t
  {
    if t != [] {
      assert t[0] in t;
    }
  }

  /** There is only one such order. */
  lemma {:induction false} SortedIsUnique(s: seq<Chat>, t: seq<Chat>)
    requires Sorted(s) && Sorted(t) && forall c :: c in s <==> c in t
    ensures s == t
    decreases |s|
  {
    if s == [] {
      EmptyOrInhabited(t);
    } else {
      assert s[0] in t;
      var j :| 0 <= j < |t| && t[j] == s[0];
      assert t[0] in s;
      var i :| 0 <= i < |s| && s[i] == t[0];
      BelowIsTotal(Key(s[0]), Key(t[0]));
      assert s[0] == t[0];
      forall c
        ensures c in s[1..] <==> c in t[1..]
      {
        BelowIsTotal(Key(s[0]), Key(s[0]));
        assert c in s[1..] <==> c in s && c != s[0] by {
          TailMembers(s, c);
        }
        assert c in t[1..] <==> c in t && c != t[0] by {
          TailMembers(t, c);
        }
      }
      SortedIsUnique(s[1..], t[1..]);
    }
  }

  lemma {:induction false} ListingIsUnique(chats: map<string, Chat>, user: string, s: seq<Chat>, t: seq<Chat>)
    requires IsListing(chats, user, s) && IsListing(chats, user, t)
    ensures s == t
  {
    SortedIsUnique(s, t);
  }

  lemma {:induction false} TailMembers(s: seq<Chat>, c: Chat)
    requires Sorted(s) && s != []
    ensures c in s[1..] <==> c in s && c != s[0]
  {
    if c in s[1..] {
      var i :| 0 <= i < |s[1..]| && s[1..][i] == c;
      assert s[i + 1] == c;
      BelowIsTotal(Key(c), Key(c));
    }
    if c in s && c != s[0] {
      var i :| 0 <= i < |s| && s[i] == c;
      assert s[1..][i - 1] == c;
    }
  }

  // ------------------------------------------------------------------ one page

  function Limit(requested: int): (n: nat)
    ensures 1 <= n <= 100
  {
    if requested <= 0 || requested > 100 then 20 else requested
  }

  /** Where the page after a cursor starts. */
  function StartOf(all: seq<Chat>, cursor: Option<Cursor>): (n: nat)
    ensures n <= |all|
    decreases |all|
  {
    if cursor.None? || all == [] || Below(Key(all[0]), cursor.value) then 0
    else 1 + StartOf(all[1..], cursor)
  }

  function Min(a: nat, b: nat): nat { if a < b then a else b }

  function PageOf(all: seq<Chat>, cursor: Option<Cursor>, limit: nat): Page
    requires limit > 0
  {
    var start := StartOf(all, cursor);
    var end := Min(start + limit, |all|);
    Page(all[start..end], if end < |all| then Some(Key(all[end - 1])) else None)
  }

  /** In a sorted listing, the page after a cursor starts at the first chat below it. */
  lemma {:induction false} StartSplits(all: seq<Chat>, cursor: Cursor, i: nat)
    requires Sorted(all) && i < |all|
    ensures i < StartOf(all, Some(cursor)) <==> !Below(Key(all[i]), cursor)
    decreases |all|
  {
    if Below(Key(all[0]), cursor) {
      if i > 0 {
        BelowIsTransitive(Key(all[i]), Key(all[0]), cursor);
      }
    } else if i > 0 {
      StartSplits(all[1..], cursor, i - 1);
    }
  }

  /** The cursor of the last item on a page leads to the item after it. */
  lemma {:induction false} NextStartsAfterLast(all: seq<Chat>, end: nat)
    requires Sorted(all) && 0 < end < |all|
    ensures StartOf(all, Some(Key(all[end - 1]))) == end
  {
    var cursor := Key(all[end - 1]);
    StartSplits(all, cursor, end);
    StartSplits(all, cursor, end - 1);
    BelowIsTotal(cursor, cursor);
  }

  /** A page after a cursor holds only chats that come after it, and misses none before its own end. */
  lemma {:induction false} PageIsAfterCursor(all: seq<Chat>, cursor: Cursor, limit: nat, i: nat)
    requires Sorted(all) && limit > 0 && i < |all|
    ensures var page := PageOf(all, Some(cursor), limit);
            var after := all[i].createdAt < cursor.createdAt || (all[i].createdAt == cursor.createdAt && LexLess(all[i].id, cursor.id));
            && (all[i] in page.items ==> after)
            && (after && page.next.None? ==> all[i] in page.items)
  {
    var start := StartOf(all, Some(cursor));
    var page := PageOf(all, Some(cursor), limit);
    StartSplits(all, cursor, i);
    LessIsLexicographic(all[i].id, cursor.id);
    if all[i] in page.items {
      var j :| 0 <= j < |page.items| && page.items[j] == all[i];
      assert all[start + j] == all[i];
      StartSplits(all, cursor, start + j);
    }
    if page.next.None? && start <= i {
      assert page.items[i - start] == all[i];
    }
  }

  // ------------------------------------------------------------------ all pages

  /** A page and what its cursor leads to make up everything after the page's start. */
  lemma {:induction false} PageSplits(all: seq<Chat>, cursor: Option<Cursor>, limit: nat)
    requires Sorted(all) && limit > 0
    ensures
      var page := PageOf(all, cursor, limit);
      var start := StartOf(all, cursor);
      if page.next.None? then page.items == all[start..]
      else start < StartOf(all, page.next) && page.items + all[StartOf(all, page.next)..] == all[start..]
  {
    var start := StartOf(all, cursor);
    if start + limit < |all| {
      NextStartsAfterLast(all, start + limit);
      SplitAt(all, start, start + limit);
    }
  }

  lemma {:induction false} SplitAt(s: seq<Chat>, a: nat, b: nat)
    requires a <= b <= |s|
    ensures s[a..b] + s[b..] == s[a..]
  {
  }

  /** The items met by following NextCursor until there is none. */
  ghost function Follow(all: seq<Chat>, cursor: Option<Cursor>, limit: nat): seq<Chat>
    requires Sorted(all) && limit > 0
    decreases |all| - StartOf(all, cursor)
  {
    var page := PageOf(all, cursor, limit);
    if page.next.None? then page.items
    else
      PageSplits(all, cursor, limit);
      page.items + Follow(all, page.next, limit)
  }

  /** Following cursors ends, and yields everything after the starting point, once, in order. */
  lemma {:induction false} FollowIsComplete(all: seq<Chat>, cursor: Option<Cursor>, limit: nat)
    requires Sorted(all) && limit > 0
    ensures Follow(all, cursor, limit) == all[StartOf(all, cursor)..]
    ensures cursor.None? ==> Follow(all, cursor, limit) == all
    decreases |all| - StartOf(all, cursor)
  {
    PageSplits(all, cursor, limit);
    var page := PageOf(all, cursor, limit);
    if page.next.Some? {
      FollowIsComplete(all, page.next, limit);
    }
  }

  /**
   * Whatever the page size, the pages of a user's chats concatenate to the one listing that
   * holds each of them exactly once in order.
   */
  lemma {:induction false} PagesListEachChatOnce(chats: map<string, Chat>, user: string, all: seq<Chat>, listing: seq<Chat>, requested: int)
    requires IsListing(chats, user, all) && IsListing(chats, user, listing)
    ensures Follow(all, None, Limit(requested)) == listing
  {
    FollowIsComplete(all, None, Limit(requested));
    ListingIsUnique(chats, user, all, listing);
  }

  // ------------------------------------------------------------------ the operation

  /** Inserts a chat with a key of its own into a sorted listing. */
  method InsertSorted(s: seq<Chat>, c: Chat) returns (r: seq<Chat>)
    requires Sorted(s) && forall i :: 0 <= i < |s| ==> s[i].id != c.id
    ensures Sorted(r) && forall x :: x in r <==> x == c || x in s
  {
    var p := 0;
    while p < |s| && Below(Key(c), Key(s[p]))
      invariant 0 <= p <= |s|
      invariant forall i :: 0 <= i < p ==> Below(Key(c), Key(s[i]))
    {
      p := p + 1;
    }
    r := s[..p] + [c] + s[p..];
    forall i | p <= i < |s|
      ensures Below(Key(s[i]), Key(c))
    {
      BelowIsTotal(Key(c), Key(s[p]));
      if i > p {
        BelowIsTransitive(Key(s[i]), Key(s[p]), Key(c));
      }
    }
    assert s == s[..p] + s[p..];
  }

  /** Collects and sorts the chats of one user. */
  method SortedChats(chats: map<string, Chat>, user: string) returns (all: seq<Chat>)
    requires forall id :: id in chats ==> chats[id].id == id
    ensures IsListing(chats, user, all)
  {
    all := [];
    var rest := chats.Keys;
    while rest != {}
      invariant rest <= chats.Keys && Sorted(all)
      invariant forall i :: 0 <= i < |all| ==> all[i].id in chats && chats[all[i].id] == all[i] && all[i].user == user && all[i].id !in rest
      invariant forall id :: id in chats && id !in rest && chats[id].user == user ==> chats[id] in all
      decreases |rest|
    {
      var id :| id in rest;
      if chats[id].user == user {
        ghost var before := all;
        all := InsertSorted(all, chats[id]);
        forall i | 0 <= i < |all|
          ensures all[i] == chats[id] || all[i] in before
        {
          assert all[i] in all;
        }
      }
      rest := rest - {id};
    }
  }

  /** Scans for the first chat below the cursor. */
  method SeekPast(sorted: seq<Chat>, cursor: Cursor) returns (start: nat)
    ensures start == StartOf(sorted, Some(cursor))
  {
    start := 0;
    var i := 0;
    assert sorted[0..] == sorted;
    while i < |sorted|
      invariant 0 <= i <= |sorted| && start == i
      invariant StartOf(sorted, Some(cursor)) == i + StartOf(sorted[i..], Some(cursor))
    {
      if Below(Key(sorted[i]), cursor) {
        start := i;
        break;
      }
      assert sorted[i..][1..] == sorted[i + 1..];
      start := i + 1;
      i := i + 1;
    }
  }

  lemma {:induction false} SliceOfSlice(s: seq<Chat>, a: nat, b: nat, n: nat)
    requires a <= b <= |s| && n <= b - a
    ensures s[a..b][..n] == s[a..a + n]
  {
  }

  /** Takes one chat more than the limit to learn whether more follow. */
  method TakePage(sorted: seq<Chat>, start: nat, limit: nat) returns (page: Page)
    requires start <= |sorted| && limit > 0
    ensures page.items == sorted[start..Min(start + limit, |sorted|)]
    ensures page.next == if start + limit < |sorted| then Some(Key(sorted[start + limit - 1])) else None
  {
    var end := start + limit + 1;
    if end > |sorted| { end := |sorted|; }
    var items := sorted[start..end];
    var hasMore := |items| > limit;
    if hasMore {
      SliceOfSlice(sorted, start, end, limit);
      items := items[..limit];
    }
    var next: Option<Cursor> := None;
    if hasMore && |items| > 0 { next := Some(Key(items[|items| - 1])); }
    page := Page(items, next);
  }

  method PageAfter(sorted: seq<Chat>, cursor: Option<Cursor>, limit: nat) returns (page: Page)
    requires limit > 0
    ensures page == PageOf(sorted, cursor, limit)
  {
    var start := 0;
    if cursor.Some? {
      start := SeekPast(sorted, cursor.value);
    }
    page := TakePage(sorted, start, limit);
  }

  /** One page of the user's listing: the chats right after the cursor, and a cursor if more follow. */
  method ListByUserID(chats: map<string, Chat>, user: string, cursor: Option<Cursor>, limit: int) returns (page: Page)
    requires forall id :: id in chats ==> chats[id].id == id
    ensures exists all :: IsListing(chats, user, all)
    ensures forall all :: IsListing(chats, user, all) ==> page == PageOf(all, cursor, Limit(limit))
    ensures var size := if 1 <= limit <= 100 then limit else 20;
            |page.items| <= size && (page.next.Some? ==> |page.items| == size)
    ensures forall c :: c in page.items ==> c.id in chats && chats[c.id] == c && c.user == user
  {
    var sorted := SortedChats(chats, user);
    page := PageAfter(sorted, cursor, Limit(limit));
    forall all | IsListing(chats, user, all)
      ensures all == sorted
    {
      ListingIsUnique(chats, user, all, sorted);
    }
  }
}
