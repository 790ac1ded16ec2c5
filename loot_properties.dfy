/**
 * What a whole `LootSystem` pass leaves behind: the j-th entity that drops
 * loot gets its potion at the j-th fresh id, and nothing else is created.
 */
module LootProperties {
  import opened Common
  import K = Kinds
  import opened Components
  import opened Entities
  import opened LootSystem

  /**
   * With every id in the store below the length `n` of the live list, the
   * j-th dropping entity's loot is the fresh id `n + j`, at a copy of that
   * entity's Position.
   */
  lemma {:induction false} RunDropsLoot(s: State, order: seq<Entity>)
    requires IdsBelow(s.0, |s.1|)
    ensures forall j | 0 <= j < |Dropped(s.0, order)| ::
      IsLoot(Run(s, order).0, |s.1| + j, GetComponentMut(s.0, Dropped(s.0, order)[j], K.Position))
    decreases |order|
  {
    if order != [] {
      var prefix, last := order[..|order| - 1], order[|order| - 1];
      RunDropsLoot(s, prefix);
      LastStepSpawns(s, prefix, last);
      LastStepFrame(s, order);
      assert Dropped(s.0, order) == Dropped(s.0, prefix) + if Drops(s.0, last) then [last] else [];
      LootStep(s.0, Run(s, prefix).0, Run(s, order).0, |s.1|, Drops(s.0, last), last,
        Dropped(s.0, prefix), Dropped(s.0, order));
    }
  }

  /** The iteration after `prefix` puts the loot of a dropping `last` at the next fresh id. */
  lemma LastStepSpawns(s: State, prefix: seq<Entity>, last: Entity)
    requires IdsBelow(s.0, |s.1|)
    ensures Drops(s.0, last) ==>
      IsLoot(Step(Run(s, prefix), last).0, |s.1| + |Dropped(s.0, prefix)|, GetComponentMut(s.0, last, K.Position))
  {
    if Drops(s.0, last) {
      var m := Run(s, prefix);
      RunCountsIds(s, prefix);
      DropsUnchanged(s, prefix, last);
      StepSpawnsLoot(m, last);
    }
  }

  /**
   * The last iteration changes nothing outside the next fresh id's loot
   * kinds; when the last visited entity drops nothing, it changes nothing.
   */
  lemma LastStepFrame(s: State, order: seq<Entity>)
    requires IdsBelow(s.0, |s.1|) && order != []
    ensures SameOutsideLootOf(Run(s, order[..|order| - 1]).0, Run(s, order).0,
      |s.1| + |Dropped(s.0, order[..|order| - 1])|)
    ensures !Drops(s.0, order[|order| - 1]) ==> Run(s, order) == Run(s, order[..|order| - 1])
  {
    var prefix, last := order[..|order| - 1], order[|order| - 1];
    RunCountsIds(s, prefix);
    DropsUnchanged(s, prefix, last);
    StepSpawnsOne(Run(s, prefix), last);
  }

  /** The step of `RunDropsLoot`, on the tables alone; `drops` is whether `last` drops loot. */
  lemma LootStep(t0: Tables, m: Tables, r: Tables, n: int, drops: bool, last: Entity, d: seq<Entity>, d': seq<Entity>)
    requires SameOutsideLootOf(m, r, n + |d|)
    requires drops ==> IsLoot(r, n + |d|, GetComponentMut(t0, last, K.Position))
    requires d' == d + if drops then [last] else []
    requires forall j | 0 <= j < |d| :: IsLoot(m, n + j, GetComponentMut(t0, d[j], K.Position))
    ensures forall j | 0 <= j < |d'| :: IsLoot(r, n + j, GetComponentMut(t0, d'[j], K.Position))
  {
    forall j | 0 <= j < |d'| ensures IsLoot(r, n + j, GetComponentMut(t0, d'[j], K.Position)) {
      if j < |d| {
        assert d'[j] == d[j];
        KeepsLoot(m, r, n + |d|, n + j, GetComponentMut(t0, d[j], K.Position));
      } else {
        assert d'[j] == last;
      }
    }
  }

  /** Loot at an id other than the spawned one survives the spawn. */
  lemma KeepsLoot(m: Tables, r: Tables, id: Entity, other: Entity, pos: Option<Component>)
    requires SameOutsideLootOf(m, r, id)
    requires other != id && IsLoot(m, other, pos)
    ensures IsLoot(r, other, pos)
  {
  }

  /** The new ids hold the loot kinds only, and no id beyond them holds anything. */
  lemma {:induction false} RunCreatesNothingElse(s: State, order: seq<Entity>)
    requires IdsBelow(s.0, |s.1|)
    ensures forall k, x | x >= |s.1| && (x >= |s.1| + |Dropped(s.0, order)| || !LootKind(k)) ::
      GetComponentMut(Run(s, order).0, x, k) == None
    decreases |order|
  {
    if order == [] {
      forall k, x | x >= |s.1| ensures GetComponentMut(s.0, x, k) == None {
      }
    } else {
      var prefix, last := order[..|order| - 1], order[|order| - 1];
      RunCreatesNothingElse(s, prefix);
      LastStepFrame(s, order);
      NothingElseStep(Run(s, prefix).0, Run(s, order).0, |s.1|, |Dropped(s.0, prefix)|,
        |Dropped(s.0, order)|, Drops(s.0, last));
    }
  }

  /** The step of `RunCreatesNothingElse`, with the counts as plain numbers. */
  lemma NothingElseStep(m: Tables, r: Tables, n: int, c: int, c': int, drops: bool)
    requires SameOutsideLootOf(m, r, n + c)
    requires c' == if drops then c + 1 else c
    requires !drops ==> r == m
    requires forall k, x | x >= n && (x >= n + c || !LootKind(k)) :: GetComponentMut(m, x, k) == None
    ensures forall k, x | x >= n && (x >= n + c' || !LootKind(k)) :: GetComponentMut(r, x, k) == None
  {
  }
}
