/**
 * The fruit catalog of the game: the eleven tiers in the order of the size
 * table, each tier's display size, the ascension (successor) table and the
 * spawnable subset, together with the rule that picks a spawn tier from a
 * random draw.
 */
module Catalog {
  import opened Wrappers

  datatype Tier =
    | Apple | Cherry | Cutie | Strawberry | Grapes | Mango
    | Orange | Peach | Pineapple | Honeydew | Watermelon

  /** All tiers, smallest first, in the order of the size table. */
  const Tiers: seq<Tier> :=
    [Apple, Cherry, Cutie, Strawberry, Grapes, Mango,
     Orange, Peach, Pineapple, Honeydew, Watermelon]

  /** The keys of the small-fruit image table, in declaration order. */
  const SpawnTiers: seq<Tier> := [Apple, Cherry, Cutie, Strawberry]

  /** The position of a tier in the size table. */
  function Rank(t: Tier): (k: nat)
    ensures k < |Tiers| && Tiers[k] == t
  {
    match t
    case Apple => 0
    case Cherry => 1
    case Cutie => 2
    case Strawberry => 3
    case Grapes => 4
    case Mango => 5
    case Orange => 6
    case Peach => 7
    case Pineapple => 8
    case Honeydew => 9
    case Watermelon => 10
  }

  /** The texture key under which a tier's image is requested. */
  function Key(t: Tier): (s: string)
    ensures |s| > 0
  {
    match t
    case Apple => "apple"
    case Cherry => "cherry"
    case Cutie => "cutie"
    case Strawberry => "strawberry"
    case Grapes => "grapes"
    case Mango => "mango"
    case Orange => "orange"
    case Peach => "peach"
    case Pineapple => "pineapple"
    case Honeydew => "honeydew"
    case Watermelon => "watermelon"
  }

  /**
   * The collision handler compares texture keys; comparing tiers is the same
   * test because distinct tiers have distinct keys.
   */
  lemma KeyInjective(a: Tier, b: Tier)
    ensures Key(a) == Key(b) <==> a == b
  {
  }

  /**
   * The display size of a tier, in tenths of the base fruit size (the source
   * multiplies the base size by 1.0, 1.3, ..., 2.8, 4.0).
   */
  function SizeTenths(t: Tier): (s: nat)
    ensures 10 <= s <= 40
    ensures s == 10 <==> t == Apple
    ensures s == 40 <==> t == Watermelon
  {
    match t
    case Apple => 10
    case Cherry => 13
    case Cutie => 15
    case Strawberry => 17
    case Grapes => 19
    case Mango => 20
    case Orange => 22
    case Peach => 24
    case Pineapple => 26
    case Honeydew => 28
    case Watermelon => 40
  }

  /**
   * The ascension table: the tier two equal fruits fuse into. It has no
   * entry for watermelon, and every successor is the next tier of the size
   * table.
   */
  function Successor(t: Tier): (r: Option<Tier>)
    ensures r.None? <==> t == Watermelon
    ensures r.Some? ==> Rank(r.value) == Rank(t) + 1
  {
    match t
    case Apple => Some(Cherry)
    case Cherry => Some(Cutie)
    case Cutie => Some(Strawberry)
    case Strawberry => Some(Grapes)
    case Grapes => Some(Mango)
    case Mango => Some(Orange)
    case Orange => Some(Peach)
    case Peach => Some(Pineapple)
    case Pineapple => Some(Honeydew)
    case Honeydew => Some(Watermelon)
    case Watermelon => None
  }

  /** No two tiers share a successor. */
  lemma SuccessorInjective(a: Tier, b: Tier)
    requires Successor(a) == Successor(b)
    ensures a == b
  {
    if Successor(a).Some? {
      assert Rank(a) == Rank(b);
      assert a == Tiers[Rank(a)] && b == Tiers[Rank(b)];
    }
  }

  /** Sizes grow strictly along the ascension table. */
  lemma SuccessorIsLarger(t: Tier)
    requires Successor(t).Some?
    ensures SizeTenths(t) < SizeTenths(Successor(t).value)
  {
  }

  /** The tiers visited by following successors from `t` until there is none. */
  function Chain(t: Tier): (c: seq<Tier>)
    ensures |c| > 0 && c[0] == t
    decreases |Tiers| - Rank(t)
  {
    match Successor(t)
    case None => [t]
    case Some(u) => [t] + Chain(u)
  }

  /** The chain from a tier is the rest of the size table from that tier on. */
  lemma {:induction false} ChainIsSuffix(t: Tier)
    ensures Chain(t) == Tiers[Rank(t)..]
    decreases |Tiers| - Rank(t)
  {
    match Successor(t)
    case None =>
      assert t == Watermelon;
    case Some(u) =>
      ChainIsSuffix(u);
      assert Tiers[Rank(t)..] == [t] + Tiers[Rank(u)..];
  }

  /**
   * Following successors from apple visits every tier exactly once, in size
   * order, and ends at watermelon.
   */
  lemma ChainFromApple()
    ensures Chain(Apple) == Tiers
    ensures |Chain(Apple)| == 11 && Chain(Apple)[10] == Watermelon
    ensures forall i, j :: 0 <= i < j < |Chain(Apple)| ==> Chain(Apple)[i] != Chain(Apple)[j]
    ensures forall t: Tier :: t in Chain(Apple)
  {
    ChainIsSuffix(Apple);
    forall i, j | 0 <= i < j < |Tiers| ensures Tiers[i] != Tiers[j] {
      RankOfIndex(i);
      RankOfIndex(j);
    }
    forall t: Tier ensures t in Tiers {
      assert Tiers[Rank(t)] == t;
    }
  }

  /** The rank of the tier at index `i` of the size table is `i`. */
  lemma RankOfIndex(i: nat)
    requires i < |Tiers|
    ensures Rank(Tiers[i]) == i
  {
  }

  /** The tier reached by `k` successor steps from `t`, if there is one. */
  function Climb(t: Tier, k: nat): Option<Tier>
    decreases k
  {
    if k == 0 then Some(t)
    else match Successor(t)
      case None => None
      case Some(u) => Climb(u, k - 1)
  }

  /** `k` steps from `t` exist exactly when they stay inside the table, and they go `k` ranks up. */
  lemma {:induction false} ClimbRank(t: Tier, k: nat)
    ensures Climb(t, k).Some? <==> Rank(t) + k < |Tiers|
    ensures Climb(t, k).Some? ==> Rank(Climb(t, k).value) == Rank(t) + k
    decreases k
  {
    if k > 0 {
      match Successor(t)
      case None =>
      case Some(u) => ClimbRank(u, k - 1);
    }
  }

  /** The successor relation has no cycle: no positive number of steps leads back. */
  lemma NoCycle(t: Tier, k: nat)
    requires k > 0
    ensures Climb(t, k) != Some(t)
  {
    ClimbRank(t, k);
  }

  /** Sizes grow strictly along any positive number of successor steps. */
  lemma {:induction false} ClimbIsLarger(t: Tier, k: nat)
    requires k > 0 && Climb(t, k).Some?
    ensures SizeTenths(t) < SizeTenths(Climb(t, k).value)
    decreases k
  {
    var u := Successor(t).value;
    SuccessorIsLarger(t);
    if k > 1 {
      ClimbIsLarger(u, k - 1);
    }
  }

  /** Sizes grow strictly with the position in the size table. */
  lemma SizesIncrease(a: Tier, b: Tier)
    requires Rank(a) < Rank(b)
    ensures 0 < SizeTenths(a) < SizeTenths(b)
  {
    var k := Rank(b) - Rank(a);
    ClimbRank(a, k);
    assert Climb(a, k).value == b by {
      assert Tiers[Rank(Climb(a, k).value)] == Tiers[Rank(b)];
    }
    ClimbIsLarger(a, k);
  }

  /**
   * The index of the spawn tier chosen by a draw `r` from [0, 1): the floor
   * of `r` times the number of spawnable tiers. Each index owns an equal
   * quarter of [0, 1).
   */
  function SpawnIndex(r: real): (i: nat)
    requires 0.0 <= r < 1.0
    ensures i < |SpawnTiers|
    ensures (i as real) / 4.0 <= r < (i as real + 1.0) / 4.0
  {
    (r * |SpawnTiers| as real).Floor
  }

  /** The tier of a freshly spawned fruit for the draw `r`. */
  function SpawnTier(r: real): (t: Tier)
    requires 0.0 <= r < 1.0
    ensures t in SpawnTiers
    ensures Rank(t) < 4
  {
    SpawnTiers[SpawnIndex(r)]
  }

  /** The spawnable tiers are exactly the four smallest tiers. */
  lemma SpawnTiersAreSmallest(t: Tier)
    ensures t in SpawnTiers <==> Rank(t) < |SpawnTiers|
  {
  }

  /** No spawnable tier is starved: every one of them is the outcome of some draw. */
  lemma SpawnReachesEvery(t: Tier)
    requires t in SpawnTiers
    ensures exists r: real :: 0.0 <= r < 1.0 && SpawnTier(r) == t
  {
    var r := Rank(t) as real / 4.0;
    assert SpawnIndex(r) == Rank(t);
    assert SpawnTier(r) == t;
  }

  /** A draw `r` yields tier `t` exactly when `r` lies in the quarter of [0, 1) that `t` owns. */
  lemma SpawnTierIff(r: real, t: Tier)
    requires 0.0 <= r < 1.0
    ensures SpawnTier(r) == t <==>
      Rank(t) < |SpawnTiers| && (Rank(t) as real) / 4.0 <= r < (Rank(t) as real + 1.0) / 4.0
  {
    var i := SpawnIndex(r);
    RankOfIndex(i);
    if SpawnTier(r) != t && Rank(t) < |SpawnTiers| {
      assert Rank(t) != i;
      if Rank(t) < i {
        assert (Rank(t) as real + 1.0) / 4.0 <= (i as real) / 4.0;
      } else {
        assert (i as real + 1.0) / 4.0 <= (Rank(t) as real) / 4.0;
      }
    }
  }
}
