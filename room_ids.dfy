/**
 * The room resolver: a room id is the two user ids sorted with JavaScript's
 * default array sort and joined with "_" (src/app.js:33, src/app.js:48,
 * src/controllers/message.controller.js:11).
 */
module RoomIds {

  /** One element of a JavaScript string: a UTF-16 code unit. */
  newtype CodeUnit = x: int | 0 <= x < 0x1_0000

  /** A JavaScript string, as the sequence of its code units. */
  type JsString = seq<CodeUnit>

  type UserId = JsString
  type RoomId = JsString

  /** The code unit of "_". */
  const Underscore: CodeUnit := 0x5F

  /** The separator that `join('_')` puts between the two ids. */
  const Separator: JsString := [Underscore]

  /**
   * JavaScript's `<` on two strings, which the default comparator of
   * `Array.prototype.sort` uses: code unit by code unit, and a proper
   * prefix before any longer string.
   */
  predicate Below(a: JsString, b: JsString)
  {
    if b == [] then false
    else if a == [] then true
    else if a[0] != b[0] then a[0] < b[0]
    else Below(a[1..], b[1..])
  }

  /** `Below` never holds both ways, so in particular never of a string and itself. */
  lemma {:induction false} BelowAsymmetric(a: JsString, b: JsString)
    ensures !(Below(a, b) && Below(b, a))
  {
    if a != [] && b != [] && a[0] == b[0] {
      BelowAsymmetric(a[1..], b[1..]);
    }
  }

  /** Any two different strings are ordered one way or the other. */
  lemma {:induction false} BelowTotal(a: JsString, b: JsString)
    ensures a == b || Below(a, b) || Below(b, a)
  {
    if a != [] && b != [] && a[0] == b[0] {
      BelowTotal(a[1..], b[1..]);
      if a[1..] == b[1..] {
        assert a == [a[0]] + a[1..];
        assert b == [b[0]] + b[1..];
      }
    }
  }

  /**
   * `[a, b].sort().join('_')`. The sort is stable, so the pair is swapped
   * exactly when b sorts strictly before a.
   */
  function Room(a: UserId, b: UserId): (r: RoomId)
    ensures |r| == |a| + |b| + 1
    ensures Below(a, b) ==> r == a + Separator + b
    ensures Below(b, a) ==> r == b + Separator + a
  {
    BelowAsymmetric(a, b);
    if Below(b, a) then b + Separator + a else a + Separator + b
  }

  /** The room of a pair does not depend on which of the two asks. */
  lemma RoomSymmetric(a: UserId, b: UserId)
    ensures Room(a, b) == Room(b, a)
  {
    BelowTotal(a, b);
    BelowAsymmetric(a, b);
  }

  /** The room id is one id, the separator and the other id, smaller id first. */
  lemma RoomParts(a: UserId, b: UserId)
    ensures Room(a, b) == a + Separator + b || Room(a, b) == b + Separator + a
    ensures Room(a, b)[..|a|] == a || Room(a, b)[..|b|] == b
  {
    BelowTotal(a, b);
  }

  /** An id that does not contain the separator. */
  predicate NoSeparator(u: UserId)
  {
    Underscore !in u
  }

  /** In `x + "_" + y` the separator sits right after x. */
  lemma SeparatorAfter(x: JsString, y: JsString)
    ensures (x + Separator + y)[|x|] == Underscore
  {
  }

  /**
   * Splitting at the first separator: when the left parts hold no separator,
   * equal joins have equal parts.
   */
  lemma SplitAtSeparator(x: JsString, y: JsString, z: JsString, w: JsString)
    requires NoSeparator(x) && NoSeparator(z)
    requires x + Separator + y == z + Separator + w
    ensures x == z && y == w
  {
    var s := x + Separator + y;
    if |x| < |z| {
      SeparatorAfter(x, y);
      assert false;
    } else if |z| < |x| {
      SeparatorAfter(z, w);
      assert false;
    }
    assert x == s[..|x|] && z == s[..|z|];
    assert y == s[|x| + 1..] && w == s[|z| + 1..];
  }

  /**
   * For ids without "_" (such as Mongo object ids) the room determines the
   * unordered pair of participants.
   */
  lemma RoomDeterminesPair(a: UserId, b: UserId, c: UserId, d: UserId)
    requires NoSeparator(a) && NoSeparator(b) && NoSeparator(c) && NoSeparator(d)
    requires Room(a, b) == Room(c, d)
    ensures (a == c && b == d) || (a == d && b == c)
  {
    RoomParts(a, b);
    RoomParts(c, d);
    if Room(a, b) == a + Separator + b {
      if Room(c, d) == c + Separator + d {
        SplitAtSeparator(a, b, c, d);
      } else {
        SplitAtSeparator(a, b, d, c);
      }
    } else {
      if Room(c, d) == c + Separator + d {
        SplitAtSeparator(b, a, c, d);
      } else {
        SplitAtSeparator(b, a, d, c);
      }
    }
  }

  /**
   * The resolver is not injective once ids may contain "_":
   * the pairs ("a_b", "c") and ("a", "b_c") share the room "a_b_c".
   */
  lemma RoomCollision()
    ensures Room([0x61, 0x5F, 0x62], [0x63]) == Room([0x61], [0x62, 0x5F, 0x63])
    ensures Room([0x61], [0x62, 0x5F, 0x63]) == [0x61, 0x5F, 0x62, 0x5F, 0x63]
  {
    assert Below([0x61, 0x5F, 0x62], [0x63]);
    assert Below([0x61], [0x62, 0x5F, 0x63]);
  }
}
