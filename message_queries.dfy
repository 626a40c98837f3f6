/**
 * The store queries the handlers run: selection of messages and the
 * ascending sort on `createdAt` (src/app.js:37-42,
 * src/controllers/message.controller.js:13).
 */
module MessageQueries {
  import opened RoomIds
  import opened MessageModel

  /** The messages of `s` that satisfy `p`, in store order, each as often as in `s`. */
  function Filter(s: seq<Message>, p: Message -> bool): (r: seq<Message>)
    ensures forall m :: multiset(r)[m] == if p(m) then multiset(s)[m] else 0
    ensures forall m :: m in r <==> m in s && p(m)
    ensures |r| <= |s|
  {
    if s == [] then []
    else
      assert s == [s[0]] + s[1..];
      (if p(s[0]) then [s[0]] else []) + Filter(s[1..], p)
  }

  /** Selecting with two predicates that agree everywhere gives the same result. */
  lemma {:induction false} FilterSame(s: seq<Message>, p: Message -> bool, q: Message -> bool)
    requires forall m :: p(m) == q(m)
    ensures Filter(s, p) == Filter(s, q)
  {
    if s != [] {
      FilterSame(s[1..], p, q);
    }
  }

  /** Ordered by non-decreasing creation time. */
  predicate Ascending(s: seq<Message>)
  {
    forall i, j :: 0 <= i < j < |s| ==> s[i].createdAt <= s[j].createdAt
  }

  /** A message created no later than everything in a sorted sequence can go in front of it. */
  lemma AscendingCons(x: Message, rest: seq<Message>)
    requires Ascending(rest)
    requires forall m :: m in rest ==> x.createdAt <= m.createdAt
    ensures Ascending([x] + rest)
  {
    var r := [x] + rest;
    forall i, j | 0 <= i < j < |r| ensures r[i].createdAt <= r[j].createdAt {
      if i > 0 {
        assert r[i] == rest[i - 1] && r[j] == rest[j - 1];
      } else {
        assert r[j] in rest;
      }
    }
  }

  /** Selection keeps the relative order, so it keeps a sorted store sorted. */
  lemma {:induction false} FilterAscending(s: seq<Message>, p: Message -> bool)
    requires Ascending(s)
    ensures Ascending(Filter(s, p))
  {
    if s != [] {
      var t := s[1..];
      FilterAscending(t, p);
      var rest := Filter(t, p);
      forall m | m in rest ensures s[0].createdAt <= m.createdAt {
        var k :| 0 <= k < |t| && t[k] == m;
        assert s[k + 1] == m;
      }
      if p(s[0]) {
        AscendingCons(s[0], rest);
      }
    }
  }

  /** Inserts m before the first element created at or after it. */
  function Insert(m: Message, s: seq<Message>): (r: seq<Message>)
    ensures multiset(r) == multiset(s) + multiset{m}
    ensures forall x :: x in r <==> x == m || x in s
  {
    if s == [] || m.createdAt <= s[0].createdAt then [m] + s
    else
      assert s == [s[0]] + s[1..];
      [s[0]] + Insert(m, s[1..])
  }

  /** Inserting into a sorted sequence keeps it sorted. */
  lemma {:induction false} InsertAscending(m: Message, s: seq<Message>)
    requires Ascending(s)
    ensures Ascending(Insert(m, s))
  {
    if s != [] && m.createdAt > s[0].createdAt {
      InsertAscending(m, s[1..]);
      var rest := Insert(m, s[1..]);
      assert forall x :: x in s[1..] ==> s[0].createdAt <= x.createdAt;
      AscendingCons(s[0], rest);
    }
  }

  /** `.sort({ createdAt: 1 })`, as a stable insertion sort. */
  function SortByCreatedAt(s: seq<Message>): (r: seq<Message>)
    ensures multiset(r) == multiset(s)
    ensures Ascending(r)
  {
    if s == [] then []
    else
      assert s == [s[0]] + s[1..];
      var sorted := SortByCreatedAt(s[1..]);
      InsertAscending(s[0], sorted);
      Insert(s[0], sorted)
  }

  /** Sorting a sequence that is already in order changes nothing. */
  lemma {:induction false} SortKeepsSorted(s: seq<Message>)
    requires Ascending(s)
    ensures SortByCreatedAt(s) == s
  {
    if s != [] {
      SortKeepsSorted(s[1..]);
      assert s == [s[0]] + s[1..];
    }
  }

  /** The `$or` criterion: the message is between u and r, in either direction. */
  predicate Between(m: Message, u: UserId, r: UserId)
  {
    (m.senderId == u && m.receiverId == r) || (m.senderId == r && m.receiverId == u)
  }

  /** The history a joining socket receives (src/app.js:37-42). */
  function History(store: seq<Message>, u: UserId, r: UserId): (h: seq<Message>)
    ensures forall m :: m in h <==> m in store && Between(m, u, r)
    ensures forall m :: multiset(h)[m] == if Between(m, u, r) then multiset(store)[m] else 0
    ensures Ascending(h)
  {
    SortByCreatedAt(Filter(store, m => Between(m, u, r)))
  }

  /** A store holding one message between u and r has exactly that message as history. */
  lemma SingleMessageHistory(m: Message, u: UserId, r: UserId)
    requires Between(m, u, r)
    ensures History([m], u, r) == [m]
  {
    var h := History([m], u, r);
    assert multiset(h) == multiset{m};
    assert |h| == 1;
    assert h[0] in h;
  }

  /** The history of a pair does not depend on which of the two joins. */
  lemma HistorySymmetric(store: seq<Message>, u: UserId, r: UserId)
    ensures History(store, u, r) == History(store, r, u)
  {
    FilterSame(store, m => Between(m, u, r), m => Between(m, r, u));
  }

  /**
   * In a valid store, creation order is store order, so the history is the
   * pair's messages in the order they were saved.
   */
  lemma HistoryInSaveOrder(store: seq<Message>, clock: nat, u: UserId, r: UserId)
    requires StoreValid(store, clock)
    ensures History(store, u, r) == Filter(store, m => Between(m, u, r))
  {
    FilterAscending(store, m => Between(m, u, r));
    SortKeepsSorted(Filter(store, m => Between(m, u, r)));
  }
}
