/**
 * Fruits in the playfield and the pure part of the collision handler: the
 * decision a collision of two dropped fruits leads to, the fusion product,
 * and the dropped group after the two inputs are destroyed and the product
 * is added.
 */
module Fusion {
  import opened Wrappers
  import opened Catalog

  /**
   * One fruit sprite. `id` stands for the sprite's object identity; `size`
   * is its display size in tenths of the base fruit size.
   */
  datatype Entity = Entity(id: nat, tier: Tier, x: real, y: real, size: nat)

  /** A fruit whose display size is the one its tier's table entry gives. */
  predicate WellSized(e: Entity) {
    e.size == SizeTenths(e.tier)
  }

  /** The identities of the fruits in `s`. */
  function Ids(s: seq<Entity>): set<nat> {
    set e | e in s :: e.id
  }

  /** Every sprite occurs at most once in the group. */
  predicate UniqueIds(s: seq<Entity>) {
    forall i, j :: 0 <= i < j < |s| ==> s[i].id != s[j].id
  }

  /** The point halfway between two coordinates. */
  function Midpoint(p: real, q: real): (m: real)
    ensures m - p == q - m
    ensures p <= q ==> p <= m <= q
    ensures q <= p ==> q <= m <= p
  {
    (p + q) / 2.0
  }

  /** The group after destroying the sprite `id`: every other member, in order. */
  function Without(s: seq<Entity>, id: nat): (r: seq<Entity>)
    ensures forall e :: e in r <==> e in s && e.id != id
    ensures |r| <= |s|
  {
    if s == [] then []
    else if s[0].id == id then Without(s[1..], id)
    else [s[0]] + Without(s[1..], id)
  }

  /** Destroying a sprite that is not in the group leaves the group as it was. */
  lemma {:induction false} WithoutAbsent(s: seq<Entity>, id: nat)
    requires id !in Ids(s)
    ensures Without(s, id) == s
  {
    if s != [] {
      assert s[0] in s;
      assert Ids(s[1..]) <= Ids(s) by {
        forall e | e in s[1..] ensures e in s { }
      }
      WithoutAbsent(s[1..], id);
    }
  }

  /**
   * Destroying a member of a group without repeated sprites removes exactly
   * that member and nothing else.
   */
  lemma {:induction false} WithoutMultiset(s: seq<Entity>, e: Entity)
    requires UniqueIds(s) && e in s
    ensures multiset(Without(s, e.id)) == multiset(s) - multiset{e}
    ensures |Without(s, e.id)| == |s| - 1
  {
    assert s == [s[0]] + s[1..];
    if s[0] == e {
      assert e.id !in Ids(s[1..]) by {
        forall k | 0 <= k < |s[1..]| ensures s[1..][k].id != e.id {
          assert s[1..][k] == s[k + 1];
        }
      }
      WithoutAbsent(s[1..], e.id);
    } else {
      assert s[0].id != e.id by {
        var k :| 0 <= k < |s| && s[k] == e;
        assert k != 0;
      }
      assert UniqueIds(s[1..]) by {
        forall i, j | 0 <= i < j < |s[1..]| ensures s[1..][i].id != s[1..][j].id {
          assert s[1..][i] == s[i + 1] && s[1..][j] == s[j + 1];
        }
      }
      WithoutMultiset(s[1..], e);
    }
  }

  /** Destroying a member keeps the group free of repeated sprites. */
  lemma {:induction false} WithoutUnique(s: seq<Entity>, id: nat)
    requires UniqueIds(s)
    ensures UniqueIds(Without(s, id))
  {
    if s != [] {
      assert UniqueIds(s[1..]) by {
        forall i, j | 0 <= i < j < |s[1..]| ensures s[1..][i].id != s[1..][j].id {
          assert s[1..][i] == s[i + 1] && s[1..][j] == s[j + 1];
        }
      }
      WithoutUnique(s[1..], id);
      if s[0].id != id {
        var r := Without(s, id);
        assert r == [s[0]] + Without(s[1..], id);
        forall k | 1 <= k < |r| ensures r[k].id != s[0].id {
          assert r[k] in Without(s[1..], id);
          assert r[k] in s[1..];
          var m :| 0 <= m < |s[1..]| && s[1..][m] == r[k];
          assert s[m + 1] == r[k];
        }
      }
    }
  }

  /** Adding a sprite that is not yet in the group keeps it free of repeated sprites. */
  lemma AppendUnique(s: seq<Entity>, e: Entity)
    requires UniqueIds(s) && e.id !in Ids(s)
    ensures UniqueIds(s + [e])
  {
    forall i | 0 <= i < |s| ensures s[i].id != e.id {
      assert s[i] in s;
    }
  }

  /** What a collision of two dropped fruits leads to. */
  datatype Resolution =
    | Ignored               // different tiers: the handler does nothing
    | SessionOver           // two top-tier fruits: the end screen is shown
    | Fused(product: Entity) // both inputs are destroyed and `product` is added

  /**
   * The decision of the collision handler for the fruits `a` and `b`, where
   * `id` is the identity the new sprite would get.
   */
  function Resolve(a: Entity, b: Entity, id: nat): (r: Resolution)
    ensures r.Ignored? <==> a.tier != b.tier
    ensures r.SessionOver? <==> a.tier == b.tier && a.tier == Watermelon
    ensures r.Fused? ==>
      && Successor(a.tier) == Some(r.product.tier)
      && Rank(r.product.tier) == Rank(a.tier) + 1
      && r.product.id == id
      && r.product.x - a.x == b.x - r.product.x
      && r.product.y - a.y == b.y - r.product.y
      && WellSized(r.product)
  {
    if a.tier != b.tier then Ignored
    else match Successor(a.tier)
      case None => SessionOver
      case Some(next) =>
        Fused(Entity(id, next, Midpoint(a.x, b.x), Midpoint(a.y, b.y), SizeTenths(next)))
  }

  /** The group after `a` and `b` are destroyed and `p` is added. */
  function Merge(s: seq<Entity>, a: Entity, b: Entity, p: Entity): (r: seq<Entity>)
    ensures |r| > 0 && r[|r| - 1] == p
    ensures forall k :: 0 <= k < |r| - 1 ==> r[k] in s && r[k].id != a.id && r[k].id != b.id
    ensures |r| <= |s| + 1
  {
    Without(Without(s, a.id), b.id) + [p]
  }

  /**
   * Fusion keeps every other fruit as it was, and the only fruit it adds is
   * the product.
   */
  lemma MergeMembers(s: seq<Entity>, a: Entity, b: Entity, p: Entity)
    ensures forall e :: e in Merge(s, a, b, p) <==>
      (e in s && e.id != a.id && e.id != b.id) || e == p
    ensures p in Merge(s, a, b, p)
  {
  }

  /**
   * Fusing two different members of a group removes exactly those two,
   * adds exactly one product, and so shrinks the group by one.
   */
  lemma MergeMultiset(s: seq<Entity>, a: Entity, b: Entity, p: Entity)
    requires UniqueIds(s) && a in s && b in s && a.id != b.id
    ensures multiset(Merge(s, a, b, p)) == multiset(s) - multiset{a, b} + multiset{p}
    ensures |Merge(s, a, b, p)| == |s| - 1
  {
    var s1 := Without(s, a.id);
    WithoutMultiset(s, a);
    WithoutUnique(s, a.id);
    assert b in s1;
    WithoutMultiset(s1, b);
    assert multiset(s) - multiset{a} - multiset{b} == multiset(s) - multiset{a, b};
  }

  /**
   * After a fusion neither input is in the group any more, so a later
   * collision report naming either of them cannot be resolved again, and the
   * group keeps having no repeated sprites.
   */
  lemma MergeConsumes(s: seq<Entity>, a: Entity, b: Entity, p: Entity)
    requires UniqueIds(s) && p.id !in Ids(s)
    ensures a.id in Ids(s) && b.id in Ids(s) ==>
      a.id !in Ids(Merge(s, a, b, p)) && b.id !in Ids(Merge(s, a, b, p))
    ensures UniqueIds(Merge(s, a, b, p))
    ensures Ids(Merge(s, a, b, p)) == Ids(s) - {a.id, b.id} + {p.id}
  {
    var m := Merge(s, a, b, p);
    WithoutUnique(s, a.id);
    WithoutUnique(Without(s, a.id), b.id);
    assert p.id !in Ids(Without(Without(s, a.id), b.id));
    AppendUnique(Without(Without(s, a.id), b.id), p);
    assert Ids(m) == Ids(s) - {a.id, b.id} + {p.id} by {
      forall i | i in Ids(m) ensures i in Ids(s) - {a.id, b.id} + {p.id} {
        var e :| e in m && e.id == i;
      }
      forall i | i in Ids(s) - {a.id, b.id} + {p.id} ensures i in Ids(m) {
        if i != p.id {
          var e :| e in s && e.id == i;
          assert e in m;
        } else {
          assert p in m;
        }
      }
    }
  }
}
