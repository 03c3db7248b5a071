/**
 * The read side of the thread store: the inbox and sent queries, which
 * filter the stored threads, order them newest first and cut one page out
 * of the result.
 */
module MessageQuery {
  import opened Maybe
  import opened MessageModel

  /** The identifier the store assigns to a thread when it is created. */
  type ThreadId = nat

  /** A stored thread together with its identifier. */
  datatype Entry = Entry(id: ThreadId, thread: Message)

  /** One page of a listing, with the counts the response carries;
      `unreadCount` is present for the inbox only. */
  datatype ListPage = ListPage(
    messages: seq<Entry>,
    currentPage: nat,
    totalPages: nat,
    totalItems: nat,
    unreadCount: Option<nat>)

  const DefaultPage: nat := 1
  const DefaultLimit: nat := 20

  /** The listing order: later `createdAt` first; among equal times the
      later-created thread (the larger identifier) first. */
  predicate Newer(threads: map<ThreadId, Message>, a: ThreadId, b: ThreadId)
    requires a in threads && b in threads
  {
    || threads[a].createdAt > threads[b].createdAt
    || (threads[a].createdAt == threads[b].createdAt && a > b)
  }

  ghost predicate NewestFirst(threads: map<ThreadId, Message>, s: seq<ThreadId>) {
    && (forall i :: 0 <= i < |s| ==> s[i] in threads)
    && (forall i, j :: 0 <= i < j < |s| ==> Newer(threads, s[i], s[j]))
  }

  lemma NewerTransitive(threads: map<ThreadId, Message>, a: ThreadId, b: ThreadId, c: ThreadId)
    requires a in threads && b in threads && c in threads
    requires Newer(threads, a, b) && Newer(threads, b, c)
    ensures Newer(threads, a, c)
  {
  }

  /** Every non-empty set of stored threads has a newest one. */
  lemma {:induction false} NewestExists(threads: map<ThreadId, Message>, ids: set<ThreadId>)
    requires ids <= threads.Keys && ids != {}
    ensures exists m :: m in ids && forall x :: x in ids && x != m ==> Newer(threads, m, x)
    decreases |ids|
  {
    var x :| x in ids;
    if ids != {x} {
      var rest := ids - {x};
      NewestExists(threads, rest);
      var m :| m in rest && forall y :: y in rest && y != m ==> Newer(threads, m, y);
      if Newer(threads, m, x) {
        assert forall y :: y in ids && y != m ==> Newer(threads, m, y) by {
          forall y | y in ids && y != m ensures Newer(threads, m, y) {
            if y != x { assert y in rest; }
          }
        }
      } else {
        assert Newer(threads, x, m);
        assert forall y :: y in ids && y != x ==> Newer(threads, x, y) by {
          forall y | y in ids && y != x ensures Newer(threads, x, y) {
            assert y in rest;
            if y != m { NewerTransitive(threads, x, m, y); }
          }
        }
      }
    }
  }

  /** The newest thread among `ids`. */
  function Newest(threads: map<ThreadId, Message>, ids: set<ThreadId>): (m: ThreadId)
    requires ids <= threads.Keys && ids != {}
    ensures m in ids && forall x :: x in ids && x != m ==> Newer(threads, m, x)
  {
    NewestExists(threads, ids);
    var m :| m in ids && forall x :: x in ids && x != m ==> Newer(threads, m, x);
    m
  }

  /** The threads `ids` in listing order (the query's `sort({createdAt: -1})`). */
  function Ordered(threads: map<ThreadId, Message>, ids: set<ThreadId>): (s: seq<ThreadId>)
    requires ids <= threads.Keys
    ensures |s| == |ids|
    ensures forall i :: 0 <= i < |s| ==> s[i] in ids
    ensures forall x :: x in ids ==> x in s
    ensures NewestFirst(threads, s)
    decreases |ids|
  {
    if ids == {} then []
    else
      var m := Newest(threads, ids);
      [m] + Ordered(threads, ids - {m})
  }

  lemma SameMembersBothEmpty<T>(s: seq<T>, t: seq<T>)
    requires forall x :: x in s <==> x in t
    ensures s == [] <==> t == []
  {
    if s != [] { assert s[0] in t; }
    if t != [] { assert t[0] in s; }
  }

  lemma NewestFirstSameHead(threads: map<ThreadId, Message>, s: seq<ThreadId>, t: seq<ThreadId>)
    requires NewestFirst(threads, s) && NewestFirst(threads, t)
    requires forall x :: x in s <==> x in t
    requires s != [] && t != []
    ensures s[0] == t[0]
  {
    assert s[0] in t && t[0] in s;
  }

  /** There is only one way to list a set of threads newest first. */
  lemma {:induction false} NewestFirstUnique(threads: map<ThreadId, Message>, s: seq<ThreadId>, t: seq<ThreadId>)
    requires NewestFirst(threads, s) && NewestFirst(threads, t)
    requires forall x :: x in s <==> x in t
    ensures s == t
    decreases |s|
  {
    SameMembersBothEmpty(s, t);
    if s != [] {
      NewestFirstSameHead(threads, s, t);
      forall x ensures x in s[1..] <==> x in t[1..] {
        if x in s[1..] {
          var k :| 1 <= k < |s| && s[k] == x;
          assert Newer(threads, s[0], x);
          assert x in t;
          var i :| 0 <= i < |t| && t[i] == x;
          assert i != 0;
          assert t[1..][i - 1] == x;
        }
        if x in t[1..] {
          var k :| 1 <= k < |t| && t[k] == x;
          assert Newer(threads, t[0], x);
          assert x in s;
          var i :| 0 <= i < |s| && s[i] == x;
          assert i != 0;
          assert s[1..][i - 1] == x;
        }
      }
      NewestFirstUnique(threads, s[1..], t[1..]);
    }
  }

  /** Therefore the ordering of a set is the one newest-first listing of it. */
  lemma OrderedIsTheListing(threads: map<ThreadId, Message>, ids: set<ThreadId>, s: seq<ThreadId>)
    requires ids <= threads.Keys
    requires NewestFirst(threads, s) && forall x :: x in s <==> x in ids
    ensures Ordered(threads, ids) == s
  {
    NewestFirstUnique(threads, Ordered(threads, ids), s);
  }

  function Min(a: nat, b: nat): nat {
    if a <= b then a else b
  }

  /** `(page - 1) * limit`: how many threads come before the page. */
  function Skip(page: nat, limit: nat): nat
    requires page >= 1
  {
    (page - 1) * limit
  }

  /** `.skip(Skip(page, limit)).limit(limit)` applied to a listing. */
  function PageOf<T>(s: seq<T>, page: nat, limit: nat): (r: seq<T>)
    requires page >= 1 && limit >= 1
    ensures |r| == if Skip(page, limit) >= |s| then 0 else Min(limit, |s| - Skip(page, limit))
    ensures forall k :: 0 <= k < |r| ==> r[k] == s[Skip(page, limit) + k]
  {
    var skip := Skip(page, limit);
    s[Min(skip, |s|)..Min(skip + limit, |s|)]
  }

  /** `Math.ceil(total / limit)`, the least number of pages of `limit` that
      hold `total` threads. */
  function TotalPages(total: nat, limit: nat): (n: nat)
    requires limit >= 1
    ensures n * limit >= total
    ensures n == 0 || (n - 1) * limit < total
  {
    var q := (total + limit - 1) / limit;
    assert q * limit + (total + limit - 1) % limit == total + limit - 1;
    q
  }

  lemma MulMonotonic(a: nat, b: nat, c: nat)
    requires a <= b
    ensures a * c <= b * c
  {
  }

  /** A page has entries exactly when its number is one of the
      `TotalPages` pages. */
  lemma PageNonEmptyIff<T>(s: seq<T>, page: nat, limit: nat)
    requires page >= 1 && limit >= 1
    ensures |PageOf(s, page, limit)| > 0 <==> page <= TotalPages(|s|, limit)
  {
    var n := TotalPages(|s|, limit);
    if page <= n {
      MulMonotonic(page - 1, n - 1, limit);
    } else {
      MulMonotonic(n, page - 1, limit);
    }
  }

  /** The pages, taken in order, are the listing cut into consecutive
      pieces: page `p + 1` starts where page `p` ends. */
  lemma PagesAreConsecutive<T>(s: seq<T>, page: nat, limit: nat)
    requires page >= 1 && limit >= 1
    ensures Skip(page + 1, limit) == Skip(page, limit) + limit
    ensures |PageOf(s, page + 1, limit)| > 0 ==> |PageOf(s, page, limit)| == limit
  {
    assert page * limit == (page - 1) * limit + limit;
  }

  /** The listing's entries for a sequence of stored identifiers. */
  function EntriesOf(threads: map<ThreadId, Message>, ids: seq<ThreadId>): (es: seq<Entry>)
    requires forall i :: 0 <= i < |ids| ==> ids[i] in threads
    ensures |es| == |ids|
    ensures forall k :: 0 <= k < |es| ==> es[k] == Entry(ids[k], threads[ids[k]])
  {
    if ids == [] then [] else [Entry(ids[0], threads[ids[0]])] + EntriesOf(threads, ids[1..])
  }

  function IdsOf(es: seq<Entry>): (ids: seq<ThreadId>)
    ensures |ids| == |es|
    ensures forall k :: 0 <= k < |es| ==> ids[k] == es[k].id
  {
    seq(|es|, k requires 0 <= k < |es| => es[k].id)
  }

  /** The inbox filter: addressed to `caller`, and unread when `unreadOnly`. */
  function InboxIds(threads: map<ThreadId, Message>, caller: UserId, unreadOnly: bool): set<ThreadId> {
    set id | id in threads && threads[id].receiver == caller && (!unreadOnly || !threads[id].isRead)
  }

  /** The sent filter: written by `caller`. */
  function SentIds(threads: map<ThreadId, Message>, caller: UserId): set<ThreadId> {
    set id | id in threads && threads[id].sender == caller
  }

  /** Filter, sort newest first, skip and limit: one page of the threads
      `ids`, each entry the stored thread with that identifier, in
      listing order. */
  function Listing(threads: map<ThreadId, Message>, ids: set<ThreadId>, page: nat, limit: nat,
                   unreadCount: Option<nat>): (r: ListPage)
    requires ids <= threads.Keys
    requires page >= 1 && limit >= 1
    ensures IdsOf(r.messages) == PageOf(Ordered(threads, ids), page, limit)
    ensures NewestFirst(threads, IdsOf(r.messages))
    ensures forall k :: 0 <= k < |r.messages| ==>
      r.messages[k].id in ids && r.messages[k].thread == threads[r.messages[k].id]
    ensures r.totalItems == |ids| && r.currentPage == page
    ensures r.totalPages == TotalPages(|ids|, limit)
    ensures r.unreadCount == unreadCount
  {
    var ordered := Ordered(threads, ids);
    var shown := PageOf(ordered, page, limit);
    var es := EntriesOf(threads, shown);
    assert IdsOf(es) == shown;
    ListPage(es, page, TotalPages(|ids|, limit), |ids|, unreadCount)
  }
}
