/**
 * `Reaper`: every entity whose health has dropped to zero or below is
 * killed; if it has a Name, "<name> has died" is first appended to the Log
 * of the first entity listed in the Player table. The pass changes both the
 * tables and the live list, so its fold runs over the pair of them.
 */
module ReaperSystem {
  import opened Common
  import K = Kinds
  import opened Components
  import opened Entities
  import opened Systems

  /** The tables and the live list of the store. */
  type State = (Tables, seq<Entity>)

  /** The entity holds a Health of zero or below. */
  predicate Dies(t: Tables, e: Entity) {
    var h := GetComponentMutAs(t, e, K.Health);
    h.Some? && h.value.health <= 0
  }

  /** The Log line for a death. */
  function Obituary(name: string): (m: string)
    ensures |m| == |name| + 9 && m[..|name|] == name && m[|name|..] == " has died"
  {
    name + " has died"
  }

  /**
   * The first entity of `players` (the Player table's listing) that still
   * holds a Player component: the listing left once killed entities are gone.
   */
  function FirstPlayer(t: Tables, players: seq<Entity>): (r: Option<Entity>)
    ensures r.None? <==> forall p | p in players :: !HasComponent(t, p, K.Player)
    ensures r.Some? ==> exists i | 0 <= i < |players| ::
      (players[i] == r.value && HasComponent(t, r.value, K.Player) &&
       forall j | 0 <= j < i :: !HasComponent(t, players[j], K.Player))
  {
    if players == [] then None
    else if HasComponent(t, players[0], K.Player) then Some(players[0])
    else
      var r := FirstPlayer(t, players[1..]);
      assert forall p | p in players :: p == players[0] || p in players[1..];
      if r.Some? then
        var i :| 0 <= i < |players[1..]| && players[1..][i] == r.value &&
          HasComponent(t, r.value, K.Player) &&
          forall j | 0 <= j < i :: !HasComponent(t, players[1..][j], K.Player);
        assert players[i + 1] == r.value;
        r
      else r
  }

  /** The obituary line `e`'s iteration writes: one when it dies and is named. */
  function ObituaryLine(t: Tables, e: Entity): (ls: seq<string>)
    ensures |ls| <= 1
  {
    var name := GetComponentMutAs(t, e, K.Name);
    if Dies(t, e) && name.Some? then [Obituary(name.value.name)] else []
  }

  /** The obituary of a named `e`, pushed onto the first player's Log if it has one. */
  function Announced(t: Tables, players: seq<Entity>, e: Entity): Tables {
    var name := GetComponentMutAs(t, e, K.Name);
    var player := FirstPlayer(t, players);
    if name.Some? && player.Some? then Logged(t, player.value, Obituary(name.value.name)) else t
  }

  function Step(s: State, players: seq<Entity>, e: Entity): State {
    if Dies(s.0, e) then (Killed(Announced(s.0, players, e), e), RemoveFirst(s.1, e)) else s
  }

  function Run(s: State, players: seq<Entity>, order: seq<Entity>): State
    decreases |order|
  {
    if order == [] then s else Step(Run(s, players, order[..|order| - 1]), players, order[|order| - 1])
  }

  /** The visited entities that die, in visiting order. */
  function Dying(t: Tables, order: seq<Entity>): (d: seq<Entity>)
    ensures forall e :: e in d <==> e in order && Dies(t, e)
    decreases |order|
  {
    if order == [] then []
    else
      var last := order[|order| - 1];
      var prefix := order[..|order| - 1];
      assert forall e :: e in order <==> e in prefix || e == last by {
        assert order == prefix + [last];
      }
      Dying(t, prefix) + if Dies(t, last) then [last] else []
  }

  /** The obituaries of the named dying entities, in visiting order. */
  function Obituaries(t: Tables, order: seq<Entity>): (ms: seq<string>)
    ensures |ms| <= |Dying(t, order)|
    decreases |order|
  {
    if order == [] then [] else Obituaries(t, order[..|order| - 1]) + ObituaryLine(t, order[|order| - 1])
  }

  /** One iteration keeps the store well typed and its set of tables. */
  lemma StepKeepsTables(s: State, players: seq<Entity>, e: Entity)
    requires WellTyped(s.0)
    ensures WellTyped(Step(s, players, e).0) && Step(s, players, e).0.Keys == s.0.Keys
  {
  }

  /** One iteration removes a dying `e` from every table and changes nothing else but a Log. */
  lemma StepKillsOne(s: State, players: seq<Entity>, e: Entity)
    ensures forall k, x | k != K.Log ::
      GetComponentMut(Step(s, players, e).0, x, k) ==
      (if x == e && Dies(s.0, e) then None else GetComponentMut(s.0, x, k))
    ensures multiset(Step(s, players, e).1) == multiset(s.1) - if Dies(s.0, e) then multiset{e} else multiset{}
  {
    forall k, x | k != K.Log
      ensures GetComponentMut(Step(s, players, e).0, x, k) ==
        (if x == e && Dies(s.0, e) then None else GetComponentMut(s.0, x, k))
    {
      StepKillsOneAt(s, players, e, k, x);
    }
    StepRemovesOne(s, players, e);
  }

  /** `StepKillsOne`'s tables half, at one entity and kind. */
  lemma StepKillsOneAt(s: State, players: seq<Entity>, e: Entity, k: K.Kind, x: Entity)
    requires k != K.Log
    ensures GetComponentMut(Step(s, players, e).0, x, k) ==
      (if x == e && Dies(s.0, e) then None else GetComponentMut(s.0, x, k))
  {
    if Dies(s.0, e) {
      var a := Announced(s.0, players, e);
      AnnouncedKeepsTable(s.0, players, e, k);
      KilledAt(a, e, k, x);
    }
  }

  /** Announcing touches no table but the Log table. */
  lemma AnnouncedKeepsTable(t: Tables, players: seq<Entity>, e: Entity, k: K.Kind)
    requires k != K.Log
    ensures SameTable(t, Announced(t, players, e), k)
  {
  }

  /** `StepKillsOne`'s live-list half. */
  lemma StepRemovesOne(s: State, players: seq<Entity>, e: Entity)
    ensures multiset(Step(s, players, e).1) == multiset(s.1) - if Dies(s.0, e) then multiset{e} else multiset{}
  {
  }

  /** One iteration pushes `ObituaryLine` onto the first player's Log and no other. */
  lemma StepLogsOne(s: State, players: seq<Entity>, e: Entity)
    ensures forall x ::
      GetComponentMut(Step(s, players, e).0, x, K.Log) ==
      (if x == e && Dies(s.0, e) then None
       else if FirstPlayer(s.0, players) == Some(x) then Appended(GetComponentMut(s.0, x, K.Log), ObituaryLine(s.0, e))
       else GetComponentMut(s.0, x, K.Log))
  {
    var name := GetComponentMutAs(s.0, e, K.Name);
    var player := FirstPlayer(s.0, players);
    if player.Some? {
      if Dies(s.0, e) && name.Some? {
        LoggedAppends(s.0, player.value, Obituary(name.value.name));
      } else {
        AppendedNothing(GetComponentMut(s.0, player.value, K.Log));
      }
    }
  }

  /** What `e`'s iteration decides depends only on its own Health and Name. */
  lemma IterationReadsOwnRow(t: Tables, m: Tables, e: Entity)
    requires GetComponentMut(m, e, K.Health) == GetComponentMut(t, e, K.Health)
    requires GetComponentMut(m, e, K.Name) == GetComponentMut(t, e, K.Name)
    ensures Dies(m, e) == Dies(t, e)
    ensures GetComponentMutAs(m, e, K.Name) == GetComponentMutAs(t, e, K.Name)
    ensures ObituaryLine(m, e) == ObituaryLine(t, e)
  {
  }

  /** The pass keeps the store well typed and its set of tables. */
  lemma {:induction false} RunKeepsTables(s: State, players: seq<Entity>, order: seq<Entity>)
    requires WellTyped(s.0)
    ensures WellTyped(Run(s, players, order).0) && Run(s, players, order).0.Keys == s.0.Keys
    decreases |order|
  {
    if order != [] {
      RunKeepsTables(s, players, order[..|order| - 1]);
      StepKeepsTables(Run(s, players, order[..|order| - 1]), players, order[|order| - 1]);
    }
  }

  /**
   * After the pass: exactly the visited entities that die are gone from
   * every table; every other component except Logs is as before.
   */
  lemma RunKillsTheDead(s: State, players: seq<Entity>, order: seq<Entity>)
    requires Distinct(order)
    ensures forall k, x | k != K.Log ::
      GetComponentMut(Run(s, players, order).0, x, k) ==
      (if x in order && Dies(s.0, x) then None else GetComponentMut(s.0, x, k))
  {
    forall k, x | k != K.Log
      ensures GetComponentMut(Run(s, players, order).0, x, k) ==
        (if x in order && Dies(s.0, x) then None else GetComponentMut(s.0, x, k))
    {
      RunKillsTheDeadAt(s, players, order, k, x);
    }
  }

  /** `RunKillsTheDead` at one entity and kind. */
  lemma {:induction false} RunKillsTheDeadAt(s: State, players: seq<Entity>, order: seq<Entity>, k: K.Kind, x: Entity)
    requires Distinct(order) && k != K.Log
    ensures GetComponentMut(Run(s, players, order).0, x, k) ==
      (if x in order && Dies(s.0, x) then None else GetComponentMut(s.0, x, k))
    decreases |order|
  {
    if order != [] {
      var prefix, last := order[..|order| - 1], order[|order| - 1];
      DistinctPrefix(order);
      var m := Run(s, players, prefix);
      RunKillsTheDeadAt(s, players, prefix, k, x);
      RunKillsTheDeadAt(s, players, prefix, K.Health, last);
      RunKillsTheDeadAt(s, players, prefix, K.Name, last);
      IterationReadsOwnRow(s.0, m.0, last);
      StepKillsOneAt(m, players, last, k, x);
      MemberOfSnoc(order, x);
    }
  }

  /** The pass over the first i + 1 visited entities is one more iteration of the pass over the first i. */
  lemma RunSnoc(s: State, players: seq<Entity>, order: seq<Entity>, i: nat)
    requires i < |order|
    ensures Run(s, players, order[..i + 1]) == Step(Run(s, players, order[..i]), players, order[i])
  {
    assert order[..i + 1][..i] == order[..i];
  }

  /** The live list loses one occurrence of each visited entity that dies. */
  lemma {:induction false} RunRemovesTheDead(s: State, players: seq<Entity>, order: seq<Entity>)
    requires Distinct(order)
    ensures multiset(Run(s, players, order).1) == multiset(s.1) - multiset(Dying(s.0, order))
    decreases |order|
  {
    if order != [] {
      var prefix, last := order[..|order| - 1], order[|order| - 1];
      DistinctPrefix(order);
      var m := Run(s, players, prefix);
      var gone: multiset<Entity> := if Dies(s.0, last) then multiset{last} else multiset{};
      assert multiset(m.1) == multiset(s.1) - multiset(Dying(s.0, prefix)) by {
        RunRemovesTheDead(s, players, prefix);
      }
      assert Dies(m.0, last) == Dies(s.0, last) by {
        RunKillsTheDeadAt(s, players, prefix, K.Health, last);
        RunKillsTheDeadAt(s, players, prefix, K.Name, last);
        IterationReadsOwnRow(s.0, m.0, last);
      }
      assert multiset(Run(s, players, order).1) == multiset(m.1) - gone by {
        StepRemovesOne(m, players, last);
      }
      assert multiset(Dying(s.0, order)) == multiset(Dying(s.0, prefix)) + gone;
      SubtractTwice(multiset(s.1), multiset(Dying(s.0, prefix)), gone);
    }
  }

  /** Every visited entity whose health is zero or below is dead afterwards. */
  lemma NoVisitedEntityStaysDying(s: State, players: seq<Entity>, order: seq<Entity>)
    requires Distinct(order)
    ensures forall e | e in order :: !Dies(Run(s, players, order).0, e)
  {
    forall e | e in order ensures !Dies(Run(s, players, order).0, e) {
      RunKillsTheDeadAt(s, players, order, K.Health, e);
    }
  }

  /** Under `RunLogsDeaths`'s conditions, the first listed player is the one every obituary goes to. */
  lemma FirstPlayerSurvives(s: State, players: seq<Entity>, prefix: seq<Entity>)
    requires Distinct(prefix)
    requires players != [] && HasComponent(s.0, players[0], K.Player)
    requires !(players[0] in prefix && Dies(s.0, players[0]))
    ensures FirstPlayer(Run(s, players, prefix).0, players) == Some(players[0])
  {
    RunKillsTheDeadAt(s, players, prefix, K.Player, players[0]);
  }

  /**
   * While the first listed player survives the pass, its Log (if it has
   * one) gains the obituaries in visiting order; every other Log is kept,
   * except that the Logs of dying entities vanish with them.
   */
  lemma {:induction false} RunLogsDeaths(s: State, players: seq<Entity>, order: seq<Entity>)
    requires Distinct(order)
    requires players != [] && HasComponent(s.0, players[0], K.Player)
    requires !(players[0] in order && Dies(s.0, players[0]))
    ensures forall x ::
      GetComponentMut(Run(s, players, order).0, x, K.Log) ==
      (if x in order && Dies(s.0, x) then None
       else if x == players[0] then Appended(GetComponentMut(s.0, x, K.Log), Obituaries(s.0, order))
       else GetComponentMut(s.0, x, K.Log))
    decreases |order|
  {
    var p := players[0];
    if order == [] {
      AppendedNothing(GetComponentMut(s.0, p, K.Log));
    } else {
      var prefix, last := order[..|order| - 1], order[|order| - 1];
      DistinctPrefix(order);
      RunLogsDeaths(s, players, prefix);
      RunKillsTheDeadAt(s, players, prefix, K.Health, last);
      RunKillsTheDeadAt(s, players, prefix, K.Name, last);
      FirstPlayerSurvives(s, players, prefix);
      var m := Run(s, players, prefix);
      IterationReadsOwnRow(s.0, m.0, last);
      StepLogsOne(m, players, last);
      AppendedTwice(GetComponentMut(s.0, p, K.Log), Obituaries(s.0, prefix), ObituaryLine(s.0, last));
      var r := Run(s, players, order).0;
      forall x ensures GetComponentMut(r, x, K.Log) ==
        (if x in order && Dies(s.0, x) then None
         else if x == p then Appended(GetComponentMut(s.0, x, K.Log), Obituaries(s.0, order))
         else GetComponentMut(s.0, x, K.Log))
      {
        MemberOfSnoc(order, x);
      }
    }
  }

  /** The announcement half of the loop body, for a dying entity. */
  method Announce(em: EntityManager, players: seq<Entity>, e: Entity)
    requires em.Valid()
    requires GetComponentMutAs(em.tables, e, K.Name).Some? ==> FirstPlayer(em.tables, players).Some?
    modifies em
    ensures em.Valid()
    ensures em.tables == Announced(old(em.tables), players, e)
    ensures em.entities == old(em.entities) && em.names == old(em.names)
  {
    var name := GetComponentMutAs(em.tables, e, K.Name);
    if name.Some? {
      var message := Obituary(name.value.name);
      var player := FirstPlayer(em.tables, players).value;
      var log := GetComponentMutAs(em.tables, player, K.Log);
      if log.Some? {
        em.AddComponent(player, Log(log.value.history + [message]));
      }
    }
  }

  /**
   * `Reaper::process`'s loop body for one Health holder. The source unwraps
   * the Health, panics in `kill_entity` on an entity missing from the live
   * list, and indexes the Player listing when the dying entity is named.
   */
  method Reap(em: EntityManager, players: seq<Entity>, e: Entity)
    requires em.Valid() && HasComponent(em.tables, e, K.Health)
    requires Dies(em.tables, e) ==> e in em.entities
    requires Dies(em.tables, e) && GetComponentMutAs(em.tables, e, K.Name).Some? ==>
      FirstPlayer(em.tables, players).Some?
    modifies em
    ensures em.Valid()
    ensures (em.tables, em.entities) == Step((old(em.tables), old(em.entities)), players, e)
    ensures em.names == old(em.names)
  {
    var health := GetComponentMutAs(em.tables, e, K.Health).value;
    if health.health <= 0 {
      Announce(em, players, e);
      var ok := em.KillEntity(e);
    }
  }

  /**
   * The first player left after killing the dying entities of `visited`:
   * one of `players` that holds Player and does not die among them.
   */
  ghost predicate PlayerSurvives(t: Tables, players: seq<Entity>, visited: seq<Entity>) {
    exists p | p in players :: HasComponent(t, p, K.Player) && !(p in visited && Dies(t, p))
  }

  /** The state the i-th iteration starts from meets `Reap`'s preconditions. */
  lemma ReadyToReap(s0: State, players: seq<Entity>, order: seq<Entity>, i: nat)
    requires WellTyped(s0.0) && i < |order|
    requires IsEnumeration(order, TableOf(s0.0, K.Health).Keys)
    requires forall e | e in order && Dies(s0.0, e) :: e in s0.1
    requires Dies(s0.0, order[i]) && GetComponentMutAs(s0.0, order[i], K.Name).Some? ==>
      PlayerSurvives(s0.0, players, order[..i])
    ensures WellTyped(Run(s0, players, order[..i]).0)
    ensures HasComponent(Run(s0, players, order[..i]).0, order[i], K.Health)
    ensures Dies(Run(s0, players, order[..i]).0, order[i]) ==> order[i] in Run(s0, players, order[..i]).1
    ensures (Dies(Run(s0, players, order[..i]).0, order[i]) &&
             GetComponentMutAs(Run(s0, players, order[..i]).0, order[i], K.Name).Some?) ==>
      FirstPlayer(Run(s0, players, order[..i]).0, players).Some?
  {
    var e := order[i];
    DistinctPrefix(order[..i + 1]);
    assert order[..i + 1][..i] == order[..i];
    RunKeepsTables(s0, players, order[..i]);
    RunKillsTheDeadAt(s0, players, order[..i], K.Health, e);
    RunKillsTheDeadAt(s0, players, order[..i], K.Name, e);
    RunRemovesTheDead(s0, players, order[..i]);
    var s := Run(s0, players, order[..i]);
    assert e in TableOf(s0.0, K.Health).Keys;
    IterationReadsOwnRow(s0.0, s.0, e);
    if Dies(s0.0, e) {
      assert e !in Dying(s0.0, order[..i]);
      assert multiset(s.1)[e] == multiset(s0.1)[e];
      if GetComponentMutAs(s0.0, e, K.Name).Some? {
        var p :| p in players && HasComponent(s0.0, p, K.Player) && !(p in order[..i] && Dies(s0.0, p));
        RunKillsTheDeadAt(s0, players, order[..i], K.Player, p);
      }
    }
  }

  /**
   * `Reaper::process`, visiting the Health table in `order`; `players` is
   * the Player table's listing. Every dying entity must be live, its Name
   * lookup must return, and when it is named some player must still be
   * alive at that point of the pass.
   */
  method Process(em: EntityManager, order: seq<Entity>, players: seq<Entity>)
    requires em.Valid()
    requires IsEnumeration(order, TableOf(em.tables, K.Health).Keys)
    requires IsEnumeration(players, TableOf(em.tables, K.Player).Keys)
    requires forall e | e in order && Dies(em.tables, e) :: e in em.entities && Resolves(em.tables, e, K.Name)
    requires forall i | 0 <= i < |order| && Dies(em.tables, order[i]) &&
      GetComponentMutAs(em.tables, order[i], K.Name).Some? ::
        PlayerSurvives(em.tables, players, order[..i])
    modifies em
    ensures em.Valid()
    ensures (em.tables, em.entities) == Run((old(em.tables), old(em.entities)), players, order)
    ensures em.names == old(em.names)
  {
    ghost var s0: State := (em.tables, em.entities);
    var i := 0;
    while i < |order|
      invariant 0 <= i <= |order|
      invariant em.Valid()
      invariant (em.tables, em.entities) == Run(s0, players, order[..i])
      invariant em.names == old(em.names)
    {
      var e := order[i];
      ReadyToReap(s0, players, order, i);
      RunSnoc(s0, players, order, i);
      Reap(em, players, e);
      i := i + 1;
    }
    assert order[..i] == order;
  }
}
