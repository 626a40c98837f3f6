/**
 * The presence registry `onlineUsers` (src/app.js:14): a JavaScript Map from
 * user id to socket id, modelled as its entries in insertion order, because
 * the reverse lookup on disconnect (src/app.js:64) scans them in that order.
 */
module Presence {
  import opened Options
  import opened RoomIds

  /** A socket.io socket id. */
  type SocketId = JsString

  /** The Map's entries, oldest key first. */
  type Registry = seq<(UserId, SocketId)>

  /** A Map never holds a key twice. */
  predicate KeysDistinct(reg: Registry)
  {
    forall i, j :: 0 <= i < j < |reg| ==> reg[i].0 != reg[j].0
  }

  /** `onlineUsers.has(u)`. */
  predicate Has(reg: Registry, u: UserId)
  {
    exists i :: 0 <= i < |reg| && reg[i].0 == u
  }

  /** Has, one entry at a time. */
  lemma HasUnfold(reg: Registry, u: UserId)
    requires reg != []
    ensures Has(reg, u) <==> reg[0].0 == u || Has(reg[1..], u)
  {
    if Has(reg[1..], u) {
      var i :| 0 <= i < |reg[1..]| && reg[1..][i].0 == u;
      assert reg[i + 1].0 == u;
    }
  }

  /** A Map's entries are distinct exactly when the oldest key does not occur again and the rest are distinct. */
  lemma DistinctCons(e: (UserId, SocketId), t: Registry)
    ensures KeysDistinct([e] + t) <==> !Has(t, e.0) && KeysDistinct(t)
  {
    var reg := [e] + t;
    assert reg[1..] == t;
    HasUnfold(reg, e.0);
    if !Has(t, e.0) && KeysDistinct(t) {
      forall i, j | 0 <= i < j < |reg| ensures reg[i].0 != reg[j].0 {
        if i == 0 {
          assert t[j - 1].0 == reg[j].0;
        } else {
          assert reg[i] == t[i - 1] && reg[j] == t[j - 1];
        }
      }
    }
  }

  /** `onlineUsers.get(u)`: the socket recorded for u, if any. */
  function Get(reg: Registry, u: UserId): (r: Option<SocketId>)
    ensures r.Some? <==> Has(reg, u)
    ensures r.Some? ==> (u, r.value) in reg
    ensures KeysDistinct(reg) ==> forall i :: 0 <= i < |reg| && reg[i].0 == u ==> r == Some(reg[i].1)
  {
    if reg == [] then None
    else if reg[0].0 == u then Some(reg[0].1)
    else
      HasUnfold(reg, u);
      Get(reg[1..], u)
  }

  /**
   * `onlineUsers.set(u, s)`: an existing key keeps its place and gets the
   * new socket; a new key goes last.
   */
  function Set(reg: Registry, u: UserId, s: SocketId): (r: Registry)
    ensures Get(r, u) == Some(s)
    ensures forall k :: k != u ==> Get(r, k) == Get(reg, k)
    ensures Has(reg, u) ==> |r| == |reg| && forall i :: 0 <= i < |reg| ==> r[i].0 == reg[i].0
    ensures !Has(reg, u) ==> r == reg + [(u, s)]
  {
    if reg == [] then [(u, s)]
    else if reg[0].0 == u then [(u, s)] + reg[1..]
    else
      HasUnfold(reg, u);
      assert reg == [reg[0]] + reg[1..];
      [reg[0]] + Set(reg[1..], u, s)
  }

  /** `set` keeps the keys of the Map distinct. */
  lemma {:induction false} SetKeepsDistinct(reg: Registry, u: UserId, s: SocketId)
    requires KeysDistinct(reg)
    ensures KeysDistinct(Set(reg, u, s))
  {
    if reg != [] && reg[0].0 != u {
      var rest := Set(reg[1..], u, s);
      DistinctCons(reg[0], reg[1..]);
      SetKeepsDistinct(reg[1..], u, s);
      assert Has(rest, reg[0].0) <==> Has(reg[1..], reg[0].0) by {
        assert Get(rest, reg[0].0) == Get(reg[1..], reg[0].0);
      }
      DistinctCons(reg[0], rest);
      assert Set(reg, u, s) == [reg[0]] + rest;
    } else if reg != [] {
      DistinctCons(reg[0], reg[1..]);
      DistinctCons((u, s), reg[1..]);
    }
  }

  /** `onlineUsers.delete(u)`: drops u's entry, if there is one, and keeps the rest in order. */
  function Delete(reg: Registry, u: UserId): (r: Registry)
    ensures !Has(r, u)
    ensures forall k :: k != u ==> Get(r, k) == Get(reg, k)
    ensures !Has(reg, u) ==> r == reg
    ensures forall e :: e in r <==> e in reg && e.0 != u
  {
    if reg == [] then []
    else
      var rest := Delete(reg[1..], u);
      HasUnfold(reg, u);
      assert reg == [reg[0]] + reg[1..];
      if reg[0].0 == u then rest else [reg[0]] + rest
  }

  /** `delete` keeps the keys of the Map distinct. */
  lemma {:induction false} DeleteKeepsDistinct(reg: Registry, u: UserId)
    requires KeysDistinct(reg)
    ensures KeysDistinct(Delete(reg, u))
  {
    if reg != [] {
      var t := reg[1..];
      assert reg == [reg[0]] + t;
      DistinctCons(reg[0], t);
      DeleteKeepsDistinct(t, u);
      if reg[0].0 != u {
        DistinctCons(reg[0], Delete(t, u));
      }
    }
  }

  /** The position of u's entry, or the length of the Map when u is absent. */
  function KeyIndex(reg: Registry, u: UserId): (i: nat)
    ensures i <= |reg|
    ensures i < |reg| ==> reg[i].0 == u
    ensures forall j :: 0 <= j < i ==> reg[j].0 != u
  {
    if reg == [] then 0
    else if reg[0].0 == u then 0
    else 1 + KeyIndex(reg[1..], u)
  }

  /** `delete` passes over an entry with another key. */
  lemma DeleteCons(reg: Registry, u: UserId)
    requires reg != [] && reg[0].0 != u
    ensures Delete(reg, u) == [reg[0]] + Delete(reg[1..], u)
  {
  }

  /** `delete` leaves a run of entries with other keys in front untouched. */
  lemma {:induction false} DeleteAfterPrefix(p: Registry, rest: Registry, u: UserId)
    requires !Has(p, u)
    ensures Delete(p + rest, u) == p + Delete(rest, u)
  {
    if p == [] {
      assert p + rest == rest;
    } else {
      var q := p[1..];
      assert !Has(q, u) by { HasUnfold(p, u); }
      calc {
        Delete(p + rest, u);
        { assert (p + rest)[1..] == q + rest; DeleteCons(p + rest, u); }
        [p[0]] + Delete(q + rest, u);
        { DeleteAfterPrefix(q, rest, u); }
        [p[0]] + (q + Delete(rest, u));
        { assert [p[0]] + q == p; }
        p + Delete(rest, u);
      }
    }
  }

  /**
   * `delete` removes u's entry where it stands: the entries before and after
   * it keep their insertion order.
   */
  lemma DeleteKeepsOrder(reg: Registry, u: UserId)
    requires KeysDistinct(reg) && Has(reg, u)
    ensures KeyIndex(reg, u) < |reg|
    ensures Delete(reg, u) == reg[..KeyIndex(reg, u)] + reg[KeyIndex(reg, u) + 1..]
  {
    var i := KeyIndex(reg, u);
    var before, after := reg[..i], reg[i + 1..];
    assert i < |reg| by {
      var j :| 0 <= j < |reg| && reg[j].0 == u;
    }
    assert !Has(after, u) by {
      forall k | 0 <= k < |after| ensures after[k].0 != u {
        assert after[k] == reg[i + 1 + k];
      }
    }
    calc {
      Delete(reg, u);
      { assert reg == before + ([reg[i]] + after); }
      Delete(before + ([reg[i]] + after), u);
      { DeleteAfterPrefix(before, [reg[i]] + after, u); }
      before + Delete([reg[i]] + after, u);
      { assert ([reg[i]] + after)[1..] == after; }
      before + Delete(after, u);
      before + after;
    }
  }



  /**
   * `[...onlineUsers.entries()].find(([_, id]) => id === s)`: the position of
   * the first entry, in insertion order, whose socket is s.
   */
  function FirstWithSocket(reg: Registry, s: SocketId): (r: Option<nat>)
    ensures r.Some? ==> r.value < |reg| && reg[r.value].1 == s
    ensures r.Some? ==> forall j :: 0 <= j < r.value ==> reg[j].1 != s
    ensures r.None? <==> forall j :: 0 <= j < |reg| ==> reg[j].1 != s
  {
    if reg == [] then None
    else if reg[0].1 == s then Some(0)
    else
      match FirstWithSocket(reg[1..], s)
      case None => None
      case Some(i) => Some(i + 1)
  }

  /**
   * The user the 'disconnect' handler takes offline: the key of the first
   * entry with this socket, provided that key is truthy (`if (userId)`), so
   * an empty user id is found but never removed.
   */
  function DisconnectedUser(reg: Registry, s: SocketId): (u: Option<UserId>)
    ensures u.Some? <==> FirstWithSocket(reg, s).Some? && reg[FirstWithSocket(reg, s).value].0 != []
    ensures u.Some? ==> u.value == reg[FirstWithSocket(reg, s).value].0
    ensures u.Some? ==> u.value != [] && Get(reg, u.value).Some?
    ensures KeysDistinct(reg) && u.Some? ==> Get(reg, u.value) == Some(s)
    ensures (forall j :: 0 <= j < |reg| ==> reg[j].1 != s) ==> u.None?
  {
    match FirstWithSocket(reg, s)
    case None => None
    case Some(i) => if reg[i].0 == [] then None else Some(reg[i].0)
  }

  /** The registry after the 'disconnect' handler for socket s (src/app.js:63-68). */
  function AfterDisconnect(reg: Registry, s: SocketId): (r: Registry)
    ensures KeysDistinct(reg) ==> KeysDistinct(r)
    ensures DisconnectedUser(reg, s).None? ==> r == reg
    ensures DisconnectedUser(reg, s).Some? ==> r == Delete(reg, DisconnectedUser(reg, s).value)
  {
    match DisconnectedUser(reg, s)
    case None => reg
    case Some(u) =>
      assert KeysDistinct(reg) ==> KeysDistinct(Delete(reg, u)) by {
        if KeysDistinct(reg) { DeleteKeepsDistinct(reg, u); }
      }
      Delete(reg, u)
  }

  /**
   * The reverse lookup as the handler performs it: a linear scan of the
   * entries in insertion order.
   */
  method FindUserBySocket(reg: Registry, s: SocketId) returns (found: Option<UserId>)
    ensures found.Some? <==> FirstWithSocket(reg, s).Some?
    ensures found.Some? ==> found.value == reg[FirstWithSocket(reg, s).value].0
  {
    var i := 0;
    while i < |reg| && reg[i].1 != s
      invariant 0 <= i <= |reg|
      invariant forall j :: 0 <= j < i ==> reg[j].1 != s
    {
      i := i + 1;
    }
    if i < |reg| {
      found := Some(reg[i].0);
    } else {
      found := None;
    }
  }

  /** Last writer wins: a second `set` for the same user replaces the first. */
  lemma {:induction false} SetTwice(reg: Registry, u: UserId, s1: SocketId, s2: SocketId)
    ensures Set(Set(reg, u, s1), u, s2) == Set(reg, u, s2)
  {
    if reg != [] && reg[0].0 != u {
      SetTwice(reg[1..], u, s1, s2);
    }
  }

  /** A second `delete` of the same user changes nothing. */
  lemma DeleteTwice(reg: Registry, u: UserId)
    ensures Delete(Delete(reg, u), u) == Delete(reg, u)
  {
  }

  /**
   * Stale-handle safety: once u has been re-registered on another socket,
   * disconnecting the old socket leaves u's current entry in place.
   */
  lemma StaleHandleSafe(reg: Registry, u: UserId, old_s: SocketId, new_s: SocketId)
    requires KeysDistinct(reg)
    requires old_s != new_s
    ensures Get(AfterDisconnect(Set(reg, u, new_s), old_s), u) == Some(new_s)
  {
    var reg' := Set(reg, u, new_s);
    match DisconnectedUser(reg', old_s)
    case None =>
    case Some(v) =>
      assert Get(reg', v) == Some(old_s);
  }

  /**
   * The user of the first entry on socket s, in insertion order, is offline
   * after s disconnects, provided that user id is not empty.
   */
  lemma DisconnectTakesOwnerOffline(reg: Registry, s: SocketId, i: nat)
    requires KeysDistinct(reg)
    requires i < |reg| && reg[i].1 == s && reg[i].0 != []
    requires forall j :: 0 <= j < i ==> reg[j].1 != s
    ensures !Has(AfterDisconnect(reg, s), reg[i].0)
  {
    assert FirstWithSocket(reg, s) == Some(i);
  }

  /**
   * Disconnect removes at most one entry: when two users were announced on
   * the same socket, the later one stays registered after that socket leaves.
   */
  lemma DisconnectKeepsLaterSharer(reg: Registry, i: nat, j: nat)
    requires KeysDistinct(reg)
    requires i < j < |reg| && reg[i].1 == reg[j].1
    ensures Get(AfterDisconnect(reg, reg[i].1), reg[j].0) == Some(reg[j].1)
  {
    var s := reg[i].1;
    var k := FirstWithSocket(reg, s).value;
    assert k <= i;
    assert reg[k].0 != reg[j].0;
  }
}
