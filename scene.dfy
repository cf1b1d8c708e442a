/**
 * The game scene: the aiming fruit, the group of dropped fruits, the
 * started / ended status and the mute flag, with the scene's handlers as
 * methods that update them in place.
 */
module Scene {
  import opened Wrappers
  import opened Catalog
  import opened Fusion

  /** A fruit that is being aimed: a spawnable tier, at the top edge, sized by its tier. */
  predicate Aiming(e: Entity) {
    e.tier in SpawnTiers && e.y == 0.0 && WellSized(e)
  }

  /** The fruit a spawn with draw `r` creates, with identity `id`, at (0, 0). */
  function Spawned(r: real, id: nat): (e: Entity)
    requires 0.0 <= r < 1.0
    ensures Aiming(e) && e.id == id && e.x == 0.0
    ensures e.tier == SpawnTier(r)
  {
    Entity(id, SpawnTier(r), 0.0, 0.0, SizeTenths(SpawnTier(r)))
  }

  class Game {
    /** The fruit following the pointer, if any. */
    var player: Option<Entity>
    /** The members of the dropped-fruit physics group, in the order they were added. */
    var dropped: seq<Entity>
    /** The identity the next created sprite gets. */
    var nextId: nat
    /** Whether the start button has resumed the scene. */
    var started: bool
    /** Whether the end screen has been shown. */
    var ended: bool
    var muted: bool
    /** Whether the background music has been asked to pause. */
    var musicPaused: bool

    ghost predicate Valid()
      reads this
    {
      && UniqueIds(dropped)
      && (forall e :: e in dropped ==> e.id < nextId && WellSized(e))
      && (player.Some? ==>
            Aiming(player.value) && player.value.id < nextId && player.value.id !in Ids(dropped))
      && musicPaused == muted
    }

    /**
     * The scene as `create` leaves it: paused until the start button is
     * pressed, music playing, one fruit spawned with draw `r`, no fruit
     * dropped.
     */
    constructor (r: real)
      requires 0.0 <= r < 1.0
      ensures Valid()
      ensures player == Some(Spawned(r, 0)) && dropped == [] && nextId == 1
      ensures !started && !ended && !muted && !musicPaused
    {
      player := Some(Spawned(r, 0));
      dropped := [];
      nextId := 1;
      started := false;
      ended := false;
      muted := false;
      musicPaused := false;
    }

    /** The start button resumes the scene. */
    method Start()
      requires Valid()
      modifies this
      ensures Valid() && started
      ensures player == old(player) && dropped == old(dropped) && nextId == old(nextId)
      ensures ended == old(ended) && muted == old(muted) && musicPaused == old(musicPaused)
    {
      started := true;
    }

    /** Flips the mute flag and pauses or resumes the music to match; nothing else changes. */
    method ToggleMute()
      requires Valid() && started
      modifies this
      ensures Valid()
      ensures muted == !old(muted) && musicPaused == muted
      ensures player == old(player) && dropped == old(dropped) && nextId == old(nextId)
      ensures started == old(started) && ended == old(ended)
    {
      muted := !muted;
      if muted {
        musicPaused := true;
      } else {
        musicPaused := false;
      }
    }

    /** Toggling the mute flag twice restores the whole scene. */
    method ToggleMuteTwice()
      requires Valid() && started
      modifies this
      ensures Valid()
      ensures muted == old(muted) && musicPaused == old(musicPaused)
      ensures player == old(player) && dropped == old(dropped) && nextId == old(nextId)
      ensures started == old(started) && ended == old(ended)
    {
      ToggleMute();
      ToggleMute();
    }

    /**
     * Makes a freshly created fruit of a spawnable tier, chosen by the draw
     * `r`, the aiming fruit at (0, 0), sized by its tier.
     */
    method SpawnPlayer(r: real)
      requires Valid() && 0.0 <= r < 1.0
      modifies this
      ensures Valid()
      ensures player == Some(Spawned(r, old(nextId))) && nextId == old(nextId) + 1
      ensures dropped == old(dropped)
      ensures started == old(started) && ended == old(ended)
      ensures muted == old(muted) && musicPaused == old(musicPaused)
    {
      player := Some(Spawned(r, nextId));
      nextId := nextId + 1;
    }

    /** Adds the aiming fruit, where it is, to the dropped group and clears the aiming fruit. */
    method DropPlayer()
      requires Valid() && player.Some?
      modifies this
      ensures Valid()
      ensures player == None && dropped == old(dropped) + [old(player).value]
      ensures nextId == old(nextId)
      ensures started == old(started) && ended == old(ended)
      ensures muted == old(muted) && musicPaused == old(musicPaused)
    {
      AppendUnique(dropped, player.value);
      dropped := dropped + [player.value];
      player := None;
    }

    /** The pointer moved to `px`: the aiming fruit, if any, follows it horizontally. */
    method PointerMove(px: real)
      requires Valid() && started
      modifies this
      ensures Valid()
      ensures old(player).Some? ==> player == Some(old(player).value.(x := px))
      ensures old(player).None? ==> player == None
      ensures dropped == old(dropped) && nextId == old(nextId)
      ensures started == old(started) && ended == old(ended)
      ensures muted == old(muted) && musicPaused == old(musicPaused)
    {
      if player.Some? {
        player := Some(player.value.(x := px));
      }
    }

    /**
     * A click: if a fruit is being aimed, it is dropped and a new one is
     * spawned with the draw `r`, so that again exactly one fruit is aimed.
     */
    method PointerDown(r: real)
      requires Valid() && started && 0.0 <= r < 1.0
      modifies this
      ensures Valid()
      ensures old(player).Some? ==>
        && dropped == old(dropped) + [old(player).value]
        && player == Some(Spawned(r, old(nextId)))
        && nextId == old(nextId) + 1
      ensures old(player).None? ==>
        player == None && dropped == old(dropped) && nextId == old(nextId)
      ensures started == old(started) && ended == old(ended)
      ensures muted == old(muted) && musicPaused == old(musicPaused)
    {
      if player.Some? {
        DropPlayer();
        SpawnPlayer(r);
      }
    }

    /**
     * The physics world moved the body of the dropped fruit at index `i` to
     * (`x`, `y`); nothing else about it or the scene changes.
     */
    method MoveBody(i: nat, x: real, y: real)
      requires Valid() && started && i < |dropped|
      modifies this
      ensures Valid()
      ensures dropped == old(dropped)[i := old(dropped)[i].(x := x, y := y)]
      ensures player == old(player) && nextId == old(nextId)
      ensures started == old(started) && ended == old(ended)
      ensures muted == old(muted) && musicPaused == old(musicPaused)
    {
      var moved := dropped[i].(x := x, y := y);
      assert Ids(dropped[i := moved]) == Ids(dropped) by {
        forall e | e in dropped[i := moved] ensures e.id in Ids(dropped) {
          var k :| 0 <= k < |dropped| && dropped[i := moved][k] == e;
          assert dropped[k] in dropped;
        }
        forall e | e in dropped ensures e.id in Ids(dropped[i := moved]) {
          var k :| 0 <= k < |dropped| && dropped[k] == e;
          assert dropped[i := moved][k] in dropped[i := moved];
        }
      }
      assert dropped[i] in dropped;
      dropped := dropped[i := moved];
    }

    /**
     * The physics group reported that the dropped fruits `a` and `b` touch.
     * Different tiers: nothing happens. Two watermelons: the end screen is
     * shown and nothing else changes. Otherwise both are destroyed and one
     * fruit of the next tier is added at their midpoint.
     */
    method OnCollision(a: Entity, b: Entity)
      requires Valid() && started
      requires a in dropped && b in dropped && a.id != b.id
      modifies this
      ensures Valid()
      ensures Resolve(a, b, old(nextId)).Ignored? ==>
        dropped == old(dropped) && nextId == old(nextId) && ended == old(ended)
      ensures Resolve(a, b, old(nextId)).SessionOver? ==>
        dropped == old(dropped) && nextId == old(nextId) && ended
      ensures Resolve(a, b, old(nextId)).Fused? ==>
        && dropped == Merge(old(dropped), a, b, Resolve(a, b, old(nextId)).product)
        && multiset(dropped) ==
             multiset(old(dropped)) - multiset{a, b} + multiset{Resolve(a, b, old(nextId)).product}
        && |dropped| == |old(dropped)| - 1
        && nextId == old(nextId) + 1
        && ended == old(ended)
      ensures player == old(player) && started == old(started)
      ensures muted == old(muted) && musicPaused == old(musicPaused)
    {
      match Resolve(a, b, nextId)
      case Ignored =>
      case SessionOver =>
        ended := true;
      case Fused(p) =>
        assert p.id !in Ids(dropped);
        MergeConsumes(dropped, a, b, p);
        MergeMembers(dropped, a, b, p);
        MergeMultiset(dropped, a, b, p);
        dropped := Merge(dropped, a, b, p);
        nextId := nextId + 1;
    }
  }

  /**
   * Two apples dropped at (0, 0) and (10, 0) fuse into one cherry at (5, 0);
   * afterwards neither apple is in the group.
   */
  method FusionScenario()
  {
    var game := new Game(0.0);
    game.Start();
    game.PointerDown(0.0);
    game.PointerMove(10.0);
    game.PointerDown(0.0);
    var a := Entity(0, Apple, 0.0, 0.0, 10);
    var b := Entity(1, Apple, 10.0, 0.0, 10);
    assert game.dropped == [a, b];
    game.OnCollision(a, b);
    assert game.dropped == [Entity(3, Cherry, 5.0, 0.0, 13)];
    assert a !in game.dropped && b !in game.dropped;
  }
}
