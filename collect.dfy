/**
 * The bookkeeping of the collect-the-dot game of 2DBGC/game/script.js: the
 * bounding-box collision test, the removal of a collectible from the two
 * object arrays, the collision pass of `update`, and the spawn that appends a
 * new collectible to both arrays. Game objects are identified by number (the
 * identity JavaScript's `indexOf` compares by); their bounding boxes, which
 * depend on movement code outside this model, are supplied by the caller.
 */
module Collect {

  /** The identity of one game object: the player, a collectible or the points display. */
  type ObjectId = nat

  /** What `getBoundingBox` returns: a corner and a width and height. */
  datatype Box = Box(x: real, y: real, w: real, h: real)

  /** `checkCollisionBetween`: four strict inequalities, one per side. */
  predicate Collides(a: Box, b: Box) {
    a.x < b.x + b.w && a.x + a.w > b.x && a.y < b.y + b.h && a.y + a.h > b.y
  }

  lemma CollidesSymmetric(a: Box, b: Box)
    ensures Collides(a, b) == Collides(b, a)
  {
  }

  /** Boxes that only touch along an edge or at a corner do not collide. */
  lemma TouchingDoNotCollide(a: Box, b: Box)
    requires a.x + a.w == b.x || b.x + b.w == a.x || a.y + a.h == b.y || b.y + b.h == a.y
    ensures !Collides(a, b)
  {
  }

  lemma SideBySideExample()
    ensures !Collides(Box(0.0, 0.0, 10.0, 10.0), Box(10.0, 0.0, 10.0, 10.0))
  {
  }

  /** A box collides with itself exactly when it has positive width and height. */
  lemma SelfCollision(a: Box)
    ensures Collides(a, a) <==> a.w > 0.0 && a.h > 0.0
  {
  }

  /**
   * A box of zero width strictly between another box's sides still collides
   * with it, although the two share no area.
   */
  lemma ZeroWidthCollides()
    ensures Collides(Box(5.0, 0.0, 0.0, 10.0), Box(0.0, 0.0, 10.0, 10.0))
  {
  }

  /** The point lies strictly inside the box. */
  predicate Inside(a: Box, px: real, py: real) {
    a.x < px < a.x + a.w && a.y < py < a.y + a.h
  }

  function Max(p: real, q: real): (r: real) { if p < q then q else p }
  function Min(p: real, q: real): (r: real) { if p < q then p else q }

  /**
   * For boxes of positive size, the inequality test agrees with the geometric
   * meaning: the two boxes share an interior point.
   */
  lemma CollidesIffSharedInterior(a: Box, b: Box)
    requires a.w > 0.0 && a.h > 0.0 && b.w > 0.0 && b.h > 0.0
    ensures Collides(a, b) <==> exists px, py :: Inside(a, px, py) && Inside(b, px, py)
  {
    if Collides(a, b) {
      var px := (Max(a.x, b.x) + Min(a.x + a.w, b.x + b.w)) / 2.0;
      var py := (Max(a.y, b.y) + Min(a.y + a.h, b.y + b.h)) / 2.0;
      assert Inside(a, px, py) && Inside(b, px, py);
    }
  }

  predicate Distinct(s: seq<ObjectId>) {
    forall i, j :: 0 <= i < j < |s| ==> s[i] != s[j]
  }

  /** JavaScript's `indexOf`: the first position holding `x`, or -1 when there is none. */
  function IndexOf(s: seq<ObjectId>, x: ObjectId): (r: int)
    ensures r == -1 <==> x !in s
    ensures r != -1 ==> 0 <= r < |s| && s[r] == x && x !in s[..r]
  {
    if s == [] then -1
    else if s[0] == x then 0
    else
      var k := IndexOf(s[1..], x);
      if k == -1 then -1
      else
        assert s[..k + 1] == [s[0]] + s[1..][..k];
        k + 1
  }

  /**
   * JavaScript's `s.splice(start, 1)`: a negative start counts from the end
   * (clamped at 0), a start past the end deletes nothing.
   */
  function SpliceOne(s: seq<ObjectId>, start: int): (r: seq<ObjectId>)
    ensures start >= |s| ==> r == s
    ensures start < |s| && s != [] ==> |r| == |s| - 1
  {
    var k := if start < 0 then (if |s| + start < 0 then 0 else |s| + start)
             else (if start > |s| then |s| else start);
    if k < |s| then s[..k] + s[k + 1..] else s
  }

  /** The elements of `s` not in `gone`, in their original order. */
  function Without(s: seq<ObjectId>, gone: set<ObjectId>): (r: seq<ObjectId>)
    ensures |r| <= |s|
  {
    if s == [] then []
    else (if s[0] in gone then [] else [s[0]]) + Without(s[1..], gone)
  }

  /** Exactly the elements outside `gone` survive the filter. */
  lemma {:induction false} WithoutMembers(s: seq<ObjectId>, gone: set<ObjectId>, x: ObjectId)
    ensures x in Without(s, gone) <==> x in s && x !in gone
  {
    if s != [] {
      WithoutMembers(s[1..], gone, x);
      assert x in s <==> x == s[0] || x in s[1..];
    }
  }

  /** Filtering distributes over concatenation, so the survivors keep their relative order. */
  lemma {:induction false} WithoutAppend(a: seq<ObjectId>, b: seq<ObjectId>, gone: set<ObjectId>)
    ensures Without(a + b, gone) == Without(a, gone) + Without(b, gone)
  {
    if a == [] {
      assert a + b == b;
    } else {
      assert (a + b)[1..] == a[1..] + b;
      WithoutAppend(a[1..], b, gone);
    }
  }

  /** Two survivors of the filter keep their relative order. */
  lemma WithoutKeepsOrder(s: seq<ObjectId>, gone: set<ObjectId>, i: nat, j: nat)
    requires i < j < |s| && s[i] !in gone && s[j] !in gone
    ensures exists p, q ::
              0 <= p < q < |Without(s, gone)| && Without(s, gone)[p] == s[i] && Without(s, gone)[q] == s[j]
  {
    var a, b := s[..j], s[j..];
    assert s == a + b;
    assert s[i] in a && s[j] == b[0];
    WithoutAppend(a, b, gone);
    WithoutMembers(a, gone, s[i]);
    WithoutMembers(b, gone, s[j]);
    var wa, wb := Without(a, gone), Without(b, gone);
    var p :| 0 <= p < |wa| && wa[p] == s[i];
    var q :| 0 <= q < |wb| && wb[q] == s[j];
    var r := Without(s, gone);
    assert r == wa + wb;
    assert r[p] == s[i] && r[|wa| + q] == s[j];
  }

  /** Filtering out elements that do not occur changes nothing. */
  lemma {:induction false} WithoutNothing(s: seq<ObjectId>, gone: set<ObjectId>)
    requires forall x :: x in s ==> x !in gone
    ensures Without(s, gone) == s
  {
    if s != [] {
      WithoutNothing(s[1..], gone);
    }
  }

  /** Filtering twice is filtering once by both sets. */
  lemma {:induction false} WithoutTwice(s: seq<ObjectId>, first: set<ObjectId>, second: set<ObjectId>)
    ensures Without(Without(s, first), second) == Without(s, first + second)
  {
    if s != [] {
      WithoutTwice(s[1..], first, second);
      var head := if s[0] in first then [] else [s[0]];
      WithoutAppend(head, Without(s[1..], first), second);
    }
  }

  lemma {:induction false} WithoutDistinct(s: seq<ObjectId>, gone: set<ObjectId>)
    requires Distinct(s)
    ensures Distinct(Without(s, gone))
  {
    if s != [] {
      assert Distinct(s[1..]) by {
        forall i, j | 0 <= i < j < |s[1..]| ensures s[1..][i] != s[1..][j] {
          assert s[1..][i] == s[i + 1] && s[1..][j] == s[j + 1];
        }
      }
      WithoutDistinct(s[1..], gone);
      var rest := Without(s[1..], gone);
      assert s[0] !in s[1..] by {
        forall i | 0 <= i < |s[1..]| ensures s[1..][i] != s[0] {
          assert s[1..][i] == s[i + 1];
        }
      }
      var r := Without(s, gone);
      forall i, j | 0 <= i < j < |r| ensures r[i] != r[j] {
        if s[0] !in gone {
          assert r == [s[0]] + rest;
          if i == 0 {
            WithoutMembers(s[1..], gone, s[0]);
            assert r[j] == rest[j - 1] && r[j] in rest;
          } else {
            assert r[i] == rest[i - 1] && r[j] == rest[j - 1];
          }
        } else {
          assert r == rest;
        }
      }
    }
  }

  /**
   * `removeCollectible`'s splice at `indexOf`, on an array that holds the
   * object: exactly its first occurrence goes and the rest keep their order.
   */
  lemma RemovePresent(s: seq<ObjectId>, x: ObjectId)
    requires x in s
    ensures var i := IndexOf(s, x);
      SpliceOne(s, i) == s[..i] + s[i + 1..] && x !in s[..i] &&
      multiset(SpliceOne(s, i)) == multiset(s) - multiset{x}
  {
    var i := IndexOf(s, x);
    SpliceInside(s, i);
    CutMultiset(s, i);
  }

  /** Splicing at a position inside the array removes the element there. */
  lemma SpliceInside(s: seq<ObjectId>, i: nat)
    requires i < |s|
    ensures SpliceOne(s, i) == s[..i] + s[i + 1..]
  {
  }

  lemma CutMultiset(s: seq<ObjectId>, i: nat)
    requires i < |s|
    ensures multiset(s[..i] + s[i + 1..]) == multiset(s) - multiset{s[i]}
  {
    assert s == s[..i] + [s[i]] + s[i + 1..];
  }

  /**
   * On an array that does not hold the object, `indexOf` gives -1 and the
   * splice deletes the last element instead.
   */
  lemma RemoveAbsent(s: seq<ObjectId>, x: ObjectId)
    requires x !in s && s != []
    ensures SpliceOne(s, IndexOf(s, x)) == s[..|s| - 1]
  {
  }

  /** In an array without repetitions, the element at `i` does not occur after `i`. */
  lemma NotRepeatedAfter(s: seq<ObjectId>, i: nat)
    requires Distinct(s) && i < |s|
    ensures s[i] !in s[i + 1..]
  {
    var back := s[i + 1..];
    forall k | 0 <= k < |back| ensures back[k] != s[i] {
      assert back[k] == s[i + 1 + k];
    }
  }

  lemma WithoutOnly(x: ObjectId)
    ensures Without([x], {x}) == []
  {
    assert [x][1..] == [];
  }

  /** Cutting out the element at `i`, which occurs nowhere else, filters it out. */
  lemma CutIsWithout(s: seq<ObjectId>, i: nat)
    requires i < |s| && s[i] !in s[..i] && s[i] !in s[i + 1..]
    ensures Without(s, {s[i]}) == s[..i] + s[i + 1..]
  {
    var x, front, back := s[i], s[..i], s[i + 1..];
    assert s == front + [x] + back;
    calc {
      Without(front + [x] + back, {x});
      { WithoutAppend(front + [x], back, {x}); }
      Without(front + [x], {x}) + Without(back, {x});
      { WithoutAppend(front, [x], {x}); }
      Without(front, {x}) + Without([x], {x}) + Without(back, {x});
      { WithoutNothing(front, {x}); WithoutNothing(back, {x}); WithoutOnly(x); }
      front + [] + back;
      front + back;
    }
  }

  /** On an array without repetitions, removing a present object filters it out. */
  lemma RemoveDistinct(s: seq<ObjectId>, x: ObjectId)
    requires Distinct(s) && x in s
    ensures SpliceOne(s, IndexOf(s, x)) == Without(s, {x})
  {
    RemovePresent(s, x);
    NotRepeatedAfter(s, IndexOf(s, x));
    CutIsWithout(s, IndexOf(s, x));
  }

  /** The collectibles whose box overlaps the player's, in array order. */
  function Hits(cs: seq<ObjectId>, playerBox: Box, boxOf: ObjectId -> Box): (r: seq<ObjectId>)
    ensures forall c :: c in r <==> c in cs && Collides(playerBox, boxOf(c))
    ensures |r| <= |cs|
  {
    if cs == [] then []
    else
      var earlier := Hits(cs[..|cs| - 1], playerBox, boxOf);
      assert forall c :: c in cs <==> c in cs[..|cs| - 1] || c == cs[|cs| - 1];
      if Collides(playerBox, boxOf(cs[|cs| - 1])) then earlier + [cs[|cs| - 1]] else earlier
  }

  lemma {:induction false} HitsDistinct(cs: seq<ObjectId>, playerBox: Box, boxOf: ObjectId -> Box)
    requires Distinct(cs)
    ensures Distinct(Hits(cs, playerBox, boxOf))
  {
    if cs != [] {
      var front := cs[..|cs| - 1];
      assert Distinct(front) by {
        forall i, j | 0 <= i < j < |front| ensures front[i] != front[j] {
          assert front[i] == cs[i] && front[j] == cs[j];
        }
      }
      HitsDistinct(front, playerBox, boxOf);
      var last := cs[|cs| - 1];
      assert last !in front by {
        forall k | 0 <= k < |front| ensures front[k] != last {
          assert front[k] == cs[k];
        }
      }
    }
  }

  /** The set of values in a sequence. */
  function Elements(s: seq<ObjectId>): (r: set<ObjectId>) {
    set x | x in s
  }

  /** A sequence without repetitions has as many distinct values as positions. */
  lemma {:induction false} DistinctCardinality(s: seq<ObjectId>)
    requires Distinct(s)
    ensures |Elements(s)| == |s|
  {
    if s != [] {
      var front := s[..|s| - 1];
      var last := s[|s| - 1];
      assert Distinct(front) by {
        forall i, j | 0 <= i < j < |front| ensures front[i] != front[j] {
          assert front[i] == s[i] && front[j] == s[j];
        }
      }
      DistinctCardinality(front);
      assert last !in Elements(front) by {
        forall k | 0 <= k < |front| ensures front[k] != last {
          assert front[k] == s[k];
        }
      }
      assert s == front + [last];
      assert Elements(s) == Elements(front) + {last};
    }
  }

  /** Growing a prefix of a sequence without repetitions by one adds one new value. */
  lemma PrefixElements(s: seq<ObjectId>, j: nat)
    requires Distinct(s) && j < |s|
    ensures s[j] in s && s[j] !in Elements(s[..j])
    ensures Elements(s[..j + 1]) == Elements(s[..j]) + {s[j]}
  {
    assert s[..j + 1] == s[..j] + [s[j]];
  }

  /** The collectibles that overlap the player: the objects the collision pass removes. */
  function HitSet(cs: seq<ObjectId>, playerBox: Box, boxOf: ObjectId -> Box): (r: set<ObjectId>) {
    set c | c in cs && Collides(playerBox, boxOf(c))
  }

  /** The module globals of script.js that the collision pass and the spawner update. */
  class Game {
    /** The player object, pushed first by `init`. */
    const player: ObjectId
    /** The points display object, pushed by `init` after the player. */
    const pointsDisplay: ObjectId
    var collectibles: seq<ObjectId>
    var gameObjects: seq<ObjectId>
    /** The counter shown by the points display. */
    var points: nat

    /** Every collectible is also a game object; no object sits in an array twice. */
    ghost predicate Valid()
      reads this
    {
      Distinct(collectibles) && Distinct(gameObjects) &&
      (forall c :: c in collectibles ==> c in gameObjects) &&
      player in gameObjects && pointsDisplay in gameObjects && player != pointsDisplay &&
      player !in collectibles && pointsDisplay !in collectibles
    }

    /** The array set-up of `init`: the player, then the points display. */
    constructor (player: ObjectId, pointsDisplay: ObjectId)
      requires player != pointsDisplay
      ensures Valid()
      ensures this.player == player && this.pointsDisplay == pointsDisplay
      ensures gameObjects == [player, pointsDisplay] && collectibles == [] && points == 0
    {
      this.player := player;
      this.pointsDisplay := pointsDisplay;
      collectibles := [];
      gameObjects := [player];
      gameObjects := gameObjects + [pointsDisplay];
      points := 0;
    }

    /** The spawn callback of the random dispatcher: a new collectible joins both arrays. */
    method Spawn(c: ObjectId)
      requires Valid()
      requires c !in gameObjects
      modifies this`collectibles, this`gameObjects
      ensures Valid()
      ensures collectibles == old(collectibles) + [c]
      ensures gameObjects == old(gameObjects) + [c]
    {
      collectibles := collectibles + [c];
      gameObjects := gameObjects + [c];
    }

    /**
     * `removeCollectible`: splice each array at the object's `indexOf`. When
     * the object is a collectible, exactly it leaves both arrays.
     */
    method RemoveCollectible(c: ObjectId)
      requires Valid()
      modifies this`collectibles, this`gameObjects
      ensures collectibles == SpliceOne(old(collectibles), IndexOf(old(collectibles), c))
      ensures gameObjects == SpliceOne(old(gameObjects), IndexOf(old(gameObjects), c))
      ensures c in old(collectibles) ==>
        Valid() &&
        collectibles == Without(old(collectibles), {c}) &&
        gameObjects == Without(old(gameObjects), {c})
    {
      ghost var oldCollectibles, oldGameObjects := collectibles, gameObjects;
      collectibles := SpliceOne(collectibles, IndexOf(collectibles, c));
      gameObjects := SpliceOne(gameObjects, IndexOf(gameObjects, c));
      if c in oldCollectibles {
        RemoveDistinct(oldCollectibles, c);
        RemoveDistinct(oldGameObjects, c);
        WithoutDistinct(oldCollectibles, {c});
        WithoutDistinct(oldGameObjects, {c});
        forall y | y in collectibles ensures y in gameObjects {
          WithoutMembers(oldCollectibles, {c}, y);
          WithoutMembers(oldGameObjects, {c}, y);
        }
        WithoutMembers(oldGameObjects, {c}, player);
        WithoutMembers(oldGameObjects, {c}, pointsDisplay);
        WithoutMembers(oldCollectibles, {c}, player);
        WithoutMembers(oldCollectibles, {c}, pointsDisplay);
      }
    }

    /**
     * The last loop of `update`: `removeCollectible` for each object of a list
     * of distinct collectibles, which leave both arrays and nothing else does.
     */
    method RemoveAll(removeItems: seq<ObjectId>)
      requires Valid()
      requires Distinct(removeItems)
      requires forall c :: c in removeItems ==> c in collectibles
      modifies this`collectibles, this`gameObjects
      ensures Valid()
      ensures collectibles == Without(old(collectibles), Elements(removeItems))
      ensures gameObjects == Without(old(gameObjects), Elements(removeItems))
    {
      ghost var oldCollectibles, oldGameObjects := collectibles, gameObjects;
      ghost var gone: set<ObjectId> := {};
      WithoutNothing(oldCollectibles, gone);
      WithoutNothing(oldGameObjects, gone);
      for j := 0 to |removeItems|
        invariant Valid()
        invariant gone == Elements(removeItems[..j])
        invariant collectibles == Without(oldCollectibles, gone)
        invariant gameObjects == Without(oldGameObjects, gone)
      {
        var removeItem := removeItems[j];
        PrefixElements(removeItems, j);
        WithoutMembers(oldCollectibles, gone, removeItem);
        RemoveCollectible(removeItem);
        WithoutTwice(oldCollectibles, gone, {removeItem});
        WithoutTwice(oldGameObjects, gone, {removeItem});
        gone := gone + {removeItem};
      }
      assert removeItems[..|removeItems|] == removeItems;
    }

    /**
     * The middle loop of `update`: walk the collectibles, remember each one
     * whose box overlaps the player's and add one point for it.
     */
    method CollectHits(boxOf: ObjectId -> Box) returns (removeItems: seq<ObjectId>)
      modifies this`points
      ensures removeItems == Hits(collectibles, boxOf(player), boxOf)
      ensures points == old(points) + |removeItems|
    {
      removeItems := [];
      for i := 0 to |collectibles|
        invariant removeItems == Hits(collectibles[..i], boxOf(player), boxOf)
        invariant points == old(points) + |removeItems|
      {
        ghost var prefix := collectibles[..i + 1];
        assert prefix[..i] == collectibles[..i] && prefix[i] == collectibles[i];
        var collectible := collectibles[i];
        if Collides(boxOf(player), boxOf(collectible)) {
          removeItems := removeItems + [collectible];
          points := points + 1;
        }
      }
      assert collectibles[..|collectibles|] == collectibles;
    }

    /**
     * The collision half of `update`, after every object has moved and
     * `boxOf` gives its bounding box: each collectible overlapping the player
     * earns one point and leaves both arrays; everything else stays, in order.
     */
    method Update(boxOf: ObjectId -> Box)
      requires Valid()
      modifies this
      ensures Valid()
      ensures collectibles == Without(old(collectibles), HitSet(old(collectibles), boxOf(player), boxOf))
      ensures gameObjects == Without(old(gameObjects), HitSet(old(collectibles), boxOf(player), boxOf))
      ensures points == old(points) + |HitSet(old(collectibles), boxOf(player), boxOf)|
    {
      var removeItems := CollectHits(boxOf);
      HitsDistinct(collectibles, boxOf(player), boxOf);
      assert Elements(removeItems) == HitSet(collectibles, boxOf(player), boxOf);
      DistinctCardinality(removeItems);
      RemoveAll(removeItems);
    }
  }
}
