/**
  Melee hit resolution of a combat controller (MeleeMechanics).

  The controller keeps the hitboxes that report to it, a per-attack registry
  of the characters already struck, the index of the active attack profile
  and the profile list itself.  A contact with a character that is not in the
  registry deals the active profile's damage once and records the character,
  so repeated contacts during one attack never hit the same character twice.
*/
module Melee {

  /** A nullable value: `None` stands for a null reference. */
  datatype Option<T> = None | Some(value: T)

  /** A hitbox of the attacker; only its identity matters here. */
  class Hitbox { }

  /** The stats component of a character that can be struck; only its identity matters here. */
  class CharacterStats { }

  /** A velocity curve of an attack; its evaluation is not part of this model. */
  class AnimationCurve { }

  /** One call of `TakeDamage` on a struck character. */
  datatype HitRecord = HitRecord(enemy: CharacterStats, damage: real)

  /** The serialisable description of one attack variant. */
  datatype MeleeProperties = MeleeProperties(
    attackName: string,
    attackIDValue: int,
    damageToBeDealt: real,
    hitStunInSeconds: real,
    velocityAnimationCurve: AnimationCurve?,
    propertyIsInitialized: bool)

  /** The profile that `new MeleeProperties()` produces: the field initialisers. */
  const FreshMeleeProperties := MeleeProperties("Attack_00", 0, 5.0, 1.0, null, false)

  // ---------------------------------------------------------------------------
  // List bookkeeping
  // ---------------------------------------------------------------------------

  ghost predicate NoDuplicates<T>(s: seq<T>) {
    forall i, j :: 0 <= i < j < |s| ==> s[i] != s[j]
  }

  /** Adds `x` at the end unless it is already contained (the guarded `List.Add`). */
  function AddUnique<T(==)>(s: seq<T>, x: T): (r: seq<T>)
    ensures x in r
    ensures forall y :: y in s ==> y in r
    ensures forall y :: y in r ==> y in s || y == x
    ensures x in s ==> r == s
    ensures x !in s ==> |r| == |s| + 1 && r[..|s|] == s
    ensures NoDuplicates(s) ==> NoDuplicates(r)
  {
    if x in s then s else s + [x]
  }

  /** `List.Remove`: drops the first occurrence of `x`, if any. */
  function RemoveFirst<T(==)>(s: seq<T>, x: T): seq<T>
  {
    if s == [] then []
    else if s[0] == x then s[1..]
    else [s[0]] + RemoveFirst(s[1..], x)
  }

  lemma {:induction false} RemoveFirstAbsent<T>(s: seq<T>, x: T)
    requires x !in s
    ensures RemoveFirst(s, x) == s
  {
    if s != [] {
      RemoveFirstAbsent(s[1..], x);
    }
  }

  /** `List.Remove` cuts out the first occurrence of `x` and keeps the other elements in order. */
  lemma {:induction false} RemoveFirstAt<T>(s: seq<T>, x: T, i: nat)
    requires i < |s| && s[i] == x && x !in s[..i]
    ensures RemoveFirst(s, x) == s[..i] + s[i + 1..]
  {
    if i > 0 {
      assert s[0] == s[..i][0];
      assert x !in s[1..][..i - 1] by {
        assert s[1..][..i - 1] == s[..i][1..];
      }
      RemoveFirstAt(s[1..], x, i - 1);
      assert s[..i] == [s[0]] + s[1..][..i - 1];
      assert s[i + 1..] == s[1..][i..];
    }
  }

  lemma {:induction false} RemoveFirstElements<T>(s: seq<T>, x: T)
    ensures multiset(RemoveFirst(s, x)) == multiset(s) - multiset{x}
  {
    if s != [] && s[0] != x {
      RemoveFirstElements(s[1..], x);
      assert s == [s[0]] + s[1..];
    } else if s != [] {
      assert s == [s[0]] + s[1..];
    }
  }

  /** Removing from a duplicate-free list deletes exactly `x` and keeps the list duplicate-free. */
  lemma RemoveFirstNoDuplicates<T>(s: seq<T>, x: T)
    requires NoDuplicates(s)
    ensures x !in RemoveFirst(s, x)
    ensures forall y :: y in RemoveFirst(s, x) <==> y in s && y != x
    ensures NoDuplicates(RemoveFirst(s, x))
  {
    var r := RemoveFirst(s, x);
    RemoveFirstElements(s, x);
    assert forall y :: y in r <==> multiset(r)[y] > 0;
    assert forall y :: y in s <==> multiset(s)[y] > 0;
    NoDuplicatesMultiplicity(s);
    MultiplicityNoDuplicates(r);
  }

  lemma {:induction false} NoDuplicatesMultiplicity<T>(s: seq<T>)
    requires NoDuplicates(s)
    ensures forall y :: multiset(s)[y] <= 1
  {
    if s != [] {
      assert s == [s[0]] + s[1..];
      NoDuplicatesMultiplicity(s[1..]);
      assert s[0] !in s[1..];
    }
  }

  lemma {:induction false} MultiplicityNoDuplicates<T>(s: seq<T>)
    requires forall y :: multiset(s)[y] <= 1
    ensures NoDuplicates(s)
  {
    if s != [] {
      assert s == [s[0]] + s[1..];
      assert multiset(s) == multiset{s[0]} + multiset(s[1..]);
      assert forall y :: multiset(s[1..])[y] <= multiset(s)[y];
      MultiplicityNoDuplicates(s[1..]);
      assert multiset(s[1..])[s[0]] == 0;
      forall i, j | 0 <= i < j < |s| ensures s[i] != s[j] {
        if i == 0 {
          assert s[j] in s[1..];
        } else {
          assert s[i] == s[1..][i - 1] && s[j] == s[1..][j - 1];
        }
      }
    }
  }

  // ---------------------------------------------------------------------------
  // Hit resolution on values
  // ---------------------------------------------------------------------------

  /**
    One contact with `enemy` while an attack dealing `damage` is active:
    the registry afterwards and the damage calls it makes.
  */
  function Strike(registry: seq<CharacterStats?>, enemy: CharacterStats, damage: real)
    : (r: (seq<CharacterStats?>, seq<HitRecord>))
    ensures enemy in r.0
    ensures enemy in registry ==> r == (registry, [])
    ensures enemy !in registry ==> r.0 == registry + [enemy] && r.1 == [HitRecord(enemy, damage)]
  {
    if enemy in registry then (registry, [])
    else (AddUnique(registry, enemy), [HitRecord(enemy, damage)])
  }

  /** A series of contacts during one attack, with no reset in between. */
  function StrikeAll(registry: seq<CharacterStats?>, enemies: seq<CharacterStats>, damage: real)
    : (r: (seq<CharacterStats?>, seq<HitRecord>))
    ensures forall x :: x in registry ==> x in r.0
    ensures forall x :: x in enemies ==> x in r.0
    ensures forall x :: x in r.0 ==> x in registry || x in enemies
    ensures NoDuplicates(registry) ==> NoDuplicates(r.0)
    ensures forall i :: 0 <= i < |r.1| ==>
              r.1[i].damage == damage && r.1[i].enemy in enemies && r.1[i].enemy !in registry
    decreases |enemies|
  {
    if enemies == [] then (registry, [])
    else
      var first := Strike(registry, enemies[0], damage);
      var rest := StrikeAll(first.0, enemies[1..], damage);
      (rest.0, first.1 + rest.1)
  }

  /** The number of damage calls made on `enemy`. */
  function HitsOn(hits: seq<HitRecord>, enemy: CharacterStats): nat
  {
    if hits == [] then 0
    else (if hits[0].enemy == enemy then 1 else 0) + HitsOn(hits[1..], enemy)
  }

  lemma {:induction false} HitsOnConcat(a: seq<HitRecord>, b: seq<HitRecord>, enemy: CharacterStats)
    ensures HitsOn(a + b, enemy) == HitsOn(a, enemy) + HitsOn(b, enemy)
  {
    if a != [] {
      assert (a + b)[0] == a[0] && (a + b)[1..] == a[1..] + b;
      HitsOnConcat(a[1..], b, enemy);
    } else {
      assert a + b == b;
    }
  }

  /**
    The central property: across any series of contacts within one attack,
    a character already in the registry is never damaged, and any other
    character is damaged exactly once if it is contacted at all.
  */
  lemma {:induction false} AtMostOneHitPerAttack(
    registry: seq<CharacterStats?>, enemies: seq<CharacterStats>, damage: real, enemy: CharacterStats)
    ensures HitsOn(StrikeAll(registry, enemies, damage).1, enemy)
            == if enemy in registry || enemy !in enemies then 0 else 1
    decreases |enemies|
  {
    if enemies != [] {
      var first := Strike(registry, enemies[0], damage);
      AtMostOneHitPerAttack(first.0, enemies[1..], damage, enemy);
      var rest := StrikeAll(first.0, enemies[1..], damage);
      HitsOnConcat(first.1, rest.1, enemy);
      assert enemies == [enemies[0]] + enemies[1..];
      if first.1 != [] {
        assert HitsOn(first.1, enemy) == (if enemies[0] == enemy then 1 else 0);
      }
    }
  }

  // ---------------------------------------------------------------------------
  // Profile validation on values
  // ---------------------------------------------------------------------------

  /** Reseeds a profile with the default values and marks it initialised. */
  function InitializeMeleeProperties(p: MeleeProperties): (r: MeleeProperties)
    ensures r.propertyIsInitialized
    ensures r == FreshMeleeProperties.(velocityAnimationCurve := p.velocityAnimationCurve,
                                       propertyIsInitialized := true)
  {
    p.(propertyIsInitialized := true, attackName := "Attack_00", attackIDValue := 0,
       damageToBeDealt := 5.0, hitStunInSeconds := 1.0)
  }

  /** What the validation pass leaves in slot `index`. */
  function ValidatedSlot(slot: Option<MeleeProperties>, index: int): (p: MeleeProperties)
    ensures p.propertyIsInitialized && p.attackIDValue == index
    ensures slot.Some? && slot.value.propertyIsInitialized ==>
              p == slot.value.(attackIDValue := index)
    ensures slot.Some? && !slot.value.propertyIsInitialized ==>
              p == InitializeMeleeProperties(slot.value).(attackIDValue := index)
    ensures slot.None? ==> p == InitializeMeleeProperties(FreshMeleeProperties).(attackIDValue := index)
  {
    var present := if slot.None? then FreshMeleeProperties else slot.value;
    var initialized := if !present.propertyIsInitialized then InitializeMeleeProperties(present) else present;
    initialized.(attackIDValue := index)
  }

  /** Every slot holds an initialised profile whose id is its position. */
  ghost predicate ProfilesValid(slots: seq<Option<MeleeProperties>>) {
    forall i :: 0 <= i < |slots| ==>
      slots[i].Some? && slots[i].value.propertyIsInitialized && slots[i].value.attackIDValue == i
  }

  /** The profile list after the validation pass. */
  function Validated(slots: seq<Option<MeleeProperties>>): (r: seq<Option<MeleeProperties>>)
    ensures |r| == |slots|
    ensures ProfilesValid(r)
  {
    seq(|slots|, i requires 0 <= i < |slots| => Some(ValidatedSlot(slots[i], i)))
  }

  /** A list that is already valid is left exactly as it is. */
  lemma ValidatedKeepsValid(slots: seq<Option<MeleeProperties>>)
    requires ProfilesValid(slots)
    ensures Validated(slots) == slots
  {
  }

  /** Running the validation pass twice changes nothing more than running it once. */
  lemma ValidatedIdempotent(slots: seq<Option<MeleeProperties>>)
    ensures Validated(Validated(slots)) == Validated(slots)
  {
  }

  // ---------------------------------------------------------------------------
  // The controller
  // ---------------------------------------------------------------------------

  class MeleeMechanics {
    var meleePropertyList: array<Option<MeleeProperties>>
    var allAssociatedHitboxes: seq<Hitbox?>
    var hitboxManagerCollection: seq<CharacterStats?>
    var currentMeleeState: int
    /** Every `TakeDamage` call this controller has made, in order. */
    ghost var damageLog: seq<HitRecord>

    /** Both lists stay free of duplicates. */
    ghost predicate Valid()
      reads this
    {
      NoDuplicates(allAssociatedHitboxes) && NoDuplicates(hitboxManagerCollection)
    }

    /** An attack is selected and its profile can be read. */
    ghost predicate AttackIsActive()
      reads this, meleePropertyList
    {
      0 <= currentMeleeState < meleePropertyList.Length && meleePropertyList[currentMeleeState].Some?
    }

    constructor ()
      ensures Valid()
      ensures meleePropertyList.Length == 0 && fresh(meleePropertyList)
      ensures allAssociatedHitboxes == [] && hitboxManagerCollection == []
      ensures currentMeleeState == -1 && damageLog == []
    {
      meleePropertyList := new Option<MeleeProperties>[0];
      allAssociatedHitboxes := [];
      hitboxManagerCollection := [];
      currentMeleeState := -1;
      damageLog := [];
    }

    /** The validation pass run whenever the profile list is edited. */
    method OnValidate()
      requires Valid()
      modifies this`currentMeleeState, meleePropertyList
      ensures Valid()
      ensures currentMeleeState == -1
      ensures meleePropertyList[..] == Validated(old(meleePropertyList[..]))
      ensures ProfilesValid(meleePropertyList[..])
    {
      currentMeleeState := -1;
      for i := 0 to meleePropertyList.Length
        invariant currentMeleeState == -1
        invariant forall j :: 0 <= j < i ==>
                    meleePropertyList[j] == Some(ValidatedSlot(old(meleePropertyList[j]), j))
        invariant forall j :: i <= j < meleePropertyList.Length ==>
                    meleePropertyList[j] == old(meleePropertyList[j])
      {
        if meleePropertyList[i].None? {
          meleePropertyList[i] := Some(FreshMeleeProperties);
        }
        if !meleePropertyList[i].value.propertyIsInitialized {
          meleePropertyList[i] := Some(InitializeMeleeProperties(meleePropertyList[i].value));
        }
        meleePropertyList[i] := Some(meleePropertyList[i].value.(attackIDValue := i));
      }
      assert meleePropertyList[..] == Validated(old(meleePropertyList[..]));
    }

    method AddAssociatedHitbox(hitbox: Hitbox?)
      requires Valid()
      modifies this`allAssociatedHitboxes
      ensures Valid()
      ensures allAssociatedHitboxes == AddUnique(old(allAssociatedHitboxes), hitbox)
    {
      if hitbox in allAssociatedHitboxes {
        // A warning is logged.
        return;
      }
      allAssociatedHitboxes := allAssociatedHitboxes + [hitbox];
    }

    method RemoveAssociatedHitbox(hitbox: Hitbox?)
      requires Valid()
      modifies this`allAssociatedHitboxes
      ensures Valid()
      ensures hitbox !in allAssociatedHitboxes
      ensures forall h :: h in allAssociatedHitboxes <==> h in old(allAssociatedHitboxes) && h != hitbox
      ensures hitbox !in old(allAssociatedHitboxes) ==> allAssociatedHitboxes == old(allAssociatedHitboxes)
      ensures allAssociatedHitboxes == RemoveFirst(old(allAssociatedHitboxes), hitbox)
    {
      if hitbox !in allAssociatedHitboxes {
        // A warning is logged.
        RemoveFirstAbsent(allAssociatedHitboxes, hitbox);
        return;
      }
      RemoveFirstNoDuplicates(allAssociatedHitboxes, hitbox);
      allAssociatedHitboxes := RemoveFirst(allAssociatedHitboxes, hitbox);
    }

    /** Selects the attack to use; the registry starts over. */
    method SetMeleeStats(meleeStatsToUse: int)
      requires Valid()
      modifies this`currentMeleeState, this`hitboxManagerCollection
      ensures Valid()
      ensures currentMeleeState == meleeStatsToUse && hitboxManagerCollection == []
    {
      currentMeleeState := meleeStatsToUse;
      ResetHitboxManagerCollection();
    }

    method ResetHitboxManagerCollection()
      requires Valid()
      modifies this`hitboxManagerCollection
      ensures Valid()
      ensures hitboxManagerCollection == []
    {
      hitboxManagerCollection := [];
    }

    /** Records a struck character; a null argument only draws a warning and is recorded too. */
    method AddHitboxManagerToCollection(characterThatWasHit: CharacterStats?)
      requires Valid()
      modifies this`hitboxManagerCollection
      ensures Valid()
      ensures hitboxManagerCollection == AddUnique(old(hitboxManagerCollection), characterThatWasHit)
    {
      if characterThatWasHit in hitboxManagerCollection {
        return;
      }
      hitboxManagerCollection := hitboxManagerCollection + [characterThatWasHit];
    }

    method RemoveHitboxManagerFromCollection(characterStatsToRemove: CharacterStats?)
      requires Valid()
      modifies this`hitboxManagerCollection
      ensures Valid()
      ensures characterStatsToRemove !in hitboxManagerCollection
      ensures forall c :: c in hitboxManagerCollection <==>
                c in old(hitboxManagerCollection) && c != characterStatsToRemove
      ensures characterStatsToRemove !in old(hitboxManagerCollection) ==>
                hitboxManagerCollection == old(hitboxManagerCollection)
      ensures hitboxManagerCollection == RemoveFirst(old(hitboxManagerCollection), characterStatsToRemove)
    {
      if characterStatsToRemove in hitboxManagerCollection {
        RemoveFirstNoDuplicates(hitboxManagerCollection, characterStatsToRemove);
        hitboxManagerCollection := RemoveFirst(hitboxManagerCollection, characterStatsToRemove);
      } else {
        RemoveFirstAbsent(hitboxManagerCollection, characterStatsToRemove);
      }
    }

    method HitboxManagerCollectionContainsHitboxManager(characterStatsToCheck: CharacterStats?)
      returns (contained: bool)
      ensures contained <==> characterStatsToCheck in hitboxManagerCollection
    {
      contained := characterStatsToCheck in hitboxManagerCollection;
    }

    /** The profile of the active attack; the array is indexed without a range check. */
    function GetCurrentMeleeProperties(): (p: Option<MeleeProperties>)
      reads this, meleePropertyList
      requires 0 <= currentMeleeState < meleePropertyList.Length
      ensures ProfilesValid(meleePropertyList[..]) ==>
                p.Some? && p.value.attackIDValue == currentMeleeState
    {
      meleePropertyList[currentMeleeState]
    }

    /**
      A hitbox of this controller touched the hurtbox of `enemyStats`.
      Reading the active profile fails unless an attack is active, so the
      caller must have selected one before an unseen character is touched.
    */
    method OnHitboxEnteredEnemyHurtbox(enemyStats: CharacterStats)
      requires Valid()
      requires enemyStats !in hitboxManagerCollection ==> AttackIsActive()
      modifies this`hitboxManagerCollection, this`damageLog
      ensures Valid()
      ensures enemyStats in old(hitboxManagerCollection) ==>
                hitboxManagerCollection == old(hitboxManagerCollection) && damageLog == old(damageLog)
      ensures enemyStats !in old(hitboxManagerCollection) ==>
                var outcome := Strike(old(hitboxManagerCollection), enemyStats,
                                      meleePropertyList[currentMeleeState].value.damageToBeDealt);
                hitboxManagerCollection == outcome.0 && damageLog == old(damageLog) + outcome.1
    {
      var alreadyHit := HitboxManagerCollectionContainsHitboxManager(enemyStats);
      if alreadyHit {
        return;
      }
      var meleeProperties := GetCurrentMeleeProperties();
      // enemyStats.TakeDamage(...)
      damageLog := damageLog + [HitRecord(enemyStats, meleeProperties.value.damageToBeDealt)];
      AddHitboxManagerToCollection(enemyStats);
    }
  }
}
