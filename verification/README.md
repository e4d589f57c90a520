# Melee hit resolution, jump counter and inventory counts

This project models the integer and collection bookkeeping of a 2D action game written for Unity.

- **Melee hit resolution** (`Melee`, `melee_mechanics.dfy`). `MeleeMechanics` is a class that holds four pieces of state:
  - the list of hitboxes that report to it;
  - a per-attack registry of the `CharacterStats` already struck;
  - the index of the active attack, `currentMeleeState`;
  - the array of attack profiles, `meleePropertyList`.

  A contact with a character that is not in the registry deals the active profile's damage once. It then records that character, so repeated contacts during one attack never hit the same character twice. The validation pass fills null slots and initialises every profile once. It also resyncs each profile's `attackIDValue` to its position. Damage calls are appended to a ghost `damageLog`.
- **Jump counter** (`Movement`, `movement_mechanics.dfy`). `Jump`, `OnGroundedEvent` and `OnAirborneEvent` update `currentJumpsAvailable`. `OnValidate` raises a negative `maxAvailableJumps` to 0.
- **Inventory counts** (`Inventory`, `inventory_manager.dfy`). A map from item to count. Adding caps the count at the item's maximum and removing floors it at 0. An absent item reads as 0.

Where the code's behaviour may surprise a reader, the model follows the code:
- `SetMeleeStats` (MeleeMechanics.cs:73-77) does not reject an index that is out of range. The index is only used, without a check, when an unseen character is struck.
- `OnAirborneEvent` (MovementMechanics.cs:207) decrements the counter with no floor at 0. With `maxAvailableJumps == 0`, leaving the ground makes the counter −1. So the counter is not always non-negative.
- The tooltip on `maxAvailableJumps` (MovementMechanics.cs:34) says that 0 forbids jumping "in any situation". `Jump` (MovementMechanics.cs:175-178) still grants a jump from the ground whatever the counter holds.
- `AddHitboxManagerToCollection(null)` (MeleeMechanics.cs:111-119) only logs a warning, then records the null reference like any other value. It does not skip it.
- The hit registry is a list guarded by `Contains`, not a set. The model proves that it stays free of duplicates, so it behaves as a set.

Every hitbox and character is an object identity (an empty class). `MeleeProperties` is a value stored in the slot of an `array<Option<MeleeProperties>>`, where `None` is a null slot. Damage, hit-stun and velocities are `real` values that are only passed through.

## Model

| member | source | states |
|---|---|---|
| `Melee.AddUnique` | Assets/Scripts/GameMechanics/CombatMechanics/MeleeMechanics.cs:63-71 | The guarded add. The result always contains the argument and keeps every old element. It adds nothing else. If the argument was present, the list is unchanged; otherwise exactly it is appended. A duplicate-free list stays duplicate-free |
| `Melee.RemoveFirstAbsent` | Assets/Scripts/GameMechanics/CombatMechanics/MeleeMechanics.cs:128-131 | Removing an element that is not in the list leaves the list unchanged |
| `Melee.RemoveFirstAt` | Assets/Scripts/GameMechanics/CombatMechanics/MeleeMechanics.cs:90 | `List.Remove` cuts out the first occurrence of the element and keeps every other element in its order |
| `Melee.RemoveFirstElements` | Assets/Scripts/GameMechanics/CombatMechanics/MeleeMechanics.cs:90 | `List.Remove` deletes one occurrence of the element and keeps every other element |
| `Melee.RemoveFirstNoDuplicates` | Assets/Scripts/GameMechanics/CombatMechanics/MeleeMechanics.cs:83-91 | On a duplicate-free list, the removed element is absent afterwards and the other elements all remain. The list stays duplicate-free |
| `Melee.Strike` | Assets/Scripts/GameMechanics/CombatMechanics/MeleeMechanics.cs:150-159 | One contact. A character already in the registry changes nothing and records no damage. An unseen character is appended to the registry, which keeps its old entries, and gets exactly one damage record with the active damage. Either way the character is in the registry afterwards |
| `Melee.StrikeAll` | Assets/Scripts/GameMechanics/CombatMechanics/MeleeMechanics.cs:150-159 | A series of contacts with no reset in between. The registry afterwards holds exactly the old entries plus the contacted characters, and it has no duplicates when the starting registry had none. Every damage record carries the active damage and names a contacted character that was not registered before |
| `Melee.AtMostOneHitPerAttack` | Assets/Scripts/GameMechanics/CombatMechanics/MeleeMechanics.cs:150-159 | Across any series of contacts within one attack, a character is damaged exactly once if it was contacted and unregistered. Otherwise it is never damaged |
| `Melee.InitializeMeleeProperties` | Assets/Scripts/GameMechanics/CombatMechanics/MeleeMechanics.cs:163-171 | The profile becomes a freshly constructed one that is marked initialised. It keeps its own velocity curve |
| `Melee.ValidatedSlot` | Assets/Scripts/GameMechanics/CombatMechanics/MeleeMechanics.cs:37-45 | A slot after validation holds an initialised profile whose id is the slot index. A profile that was already initialised keeps all its other fields. A present profile that is not yet initialised is reseeded by `InitializeMeleeProperties` and keeps its curve. A null slot becomes the default profile |
| `Melee.Validated` | Assets/Scripts/GameMechanics/CombatMechanics/MeleeMechanics.cs:35-46 | The list after validation has the same length. No slot is null, every profile is initialised, and every id equals its position |
| `Melee.ValidatedKeepsValid` | Assets/Scripts/GameMechanics/CombatMechanics/MeleeMechanics.cs:35-46 | Validating a list that is already valid changes nothing |
| `Melee.ValidatedIdempotent` | Assets/Scripts/GameMechanics/CombatMechanics/MeleeMechanics.cs:32-47 | Running the validation pass twice gives the same list as running it once |
| `Melee.MeleeMechanics.constructor` | Assets/Scripts/GameMechanics/CombatMechanics/MeleeMechanics.cs:10-29 | The initial state: an empty profile array, empty hitbox and registry lists, and no active attack (−1) |
| `Melee.MeleeMechanics.OnValidate` | Assets/Scripts/GameMechanics/CombatMechanics/MeleeMechanics.cs:32-47 | The active attack becomes −1 and the array becomes the validated list, slot by slot, in place |
| `Melee.MeleeMechanics.AddAssociatedHitbox` | Assets/Scripts/GameMechanics/CombatMechanics/MeleeMechanics.cs:63-71 | The hitbox list becomes the guarded add of the argument and stays duplicate-free |
| `Melee.MeleeMechanics.RemoveAssociatedHitbox` | Assets/Scripts/GameMechanics/CombatMechanics/MeleeMechanics.cs:83-91 | The list becomes `List.Remove` of the argument, so the other hitboxes keep their order. The argument is absent afterwards and every other hitbox remains. An absent argument leaves the list unchanged |
| `Melee.MeleeMechanics.SetMeleeStats` | Assets/Scripts/GameMechanics/CombatMechanics/MeleeMechanics.cs:73-77 | The active attack becomes the argument, with no range check, and the registry is empty |
| `Melee.MeleeMechanics.ResetHitboxManagerCollection` | Assets/Scripts/GameMechanics/CombatMechanics/MeleeMechanics.cs:99-102 | The registry is empty and the active attack is untouched |
| `Melee.MeleeMechanics.AddHitboxManagerToCollection` | Assets/Scripts/GameMechanics/CombatMechanics/MeleeMechanics.cs:109-120 | The argument, null included, is in the registry afterwards, and the registry stays duplicate-free |
| `Melee.MeleeMechanics.RemoveHitboxManagerFromCollection` | Assets/Scripts/GameMechanics/CombatMechanics/MeleeMechanics.cs:122-132 | The registry becomes `List.Remove` of the argument, so the other entries keep their order. The argument is absent afterwards and every other entry remains. An absent argument is a no-op |
| `Melee.MeleeMechanics.HitboxManagerCollectionContainsHitboxManager` | Assets/Scripts/GameMechanics/CombatMechanics/MeleeMechanics.cs:134-141 | Returns whether the argument is in the registry |
| `Melee.MeleeMechanics.GetCurrentMeleeProperties` | Assets/Scripts/GameMechanics/CombatMechanics/MeleeMechanics.cs:173-176 | Requires the active index to be in range, because the array is indexed directly. After validation it returns a present profile whose id is the active index |
| `Melee.MeleeMechanics.OnHitboxEnteredEnemyHurtbox` | Assets/Scripts/GameMechanics/CombatMechanics/MeleeMechanics.cs:150-159 | A registered character changes nothing and logs no damage. Otherwise the registry and damage log advance exactly as `Strike` says, with the active profile's damage. That requires an active, non-null profile |
| `Movement.JumpStep` | Assets/Scripts/GameMechanics/MovementMechanics.cs:173-190 | A jump is granted exactly when the character is grounded or has a jump left. Only an airborne grant spends one jump. A non-negative counter stays non-negative |
| `Movement.AirborneJumpsGrantFirstK` | Assets/Scripts/GameMechanics/MovementMechanics.cs:179-187 | Starting airborne with `k` jumps left, exactly the first `k` requests are granted, or none when `k <= 0`. The final counter is `k` when `k <= 0`, `k - n` when `0 < n <= k`, and 0 when `0 < k < n`, so it never falls below 0 from a non-negative start |
| `Movement.MovementMechanics.constructor` | Assets/Scripts/GameMechanics/MovementMechanics.cs:35-45 | The designer values are stored and the private counter starts at 0 |
| `Movement.MovementMechanics.Awake` | Assets/Scripts/GameMechanics/MovementMechanics.cs:55-63 | The counter becomes the maximum |
| `Movement.MovementMechanics.OnValidate` | Assets/Scripts/GameMechanics/MovementMechanics.cs:82-85 | A negative maximum is raised to 0 and a non-negative one is kept |
| `Movement.MovementMechanics.Jump` | Assets/Scripts/GameMechanics/MovementMechanics.cs:173-190 | The result and the new counter are those of `JumpStep`. A granted jump sets the vertical velocity to the launch speed and keeps the horizontal velocity. A refused jump changes nothing. The counter never exceeds the maximum |
| `Movement.MovementMechanics.OnGroundedEvent` | Assets/Scripts/GameMechanics/MovementMechanics.cs:196-200 | The counter becomes the maximum, whatever it held before |
| `Movement.MovementMechanics.OnAirborneEvent` | Assets/Scripts/GameMechanics/MovementMechanics.cs:205-208 | The counter drops by exactly 1, with no floor |
| `Inventory.InventoryManager.constructor` | Assets/Scripts/InventoryScripts/InventoryManager.cs:16 | The inventory starts empty |
| `Inventory.InventoryManager.GetItemsRemaining` | Assets/Scripts/InventoryScripts/InventoryManager.cs:47-54 | Returns the stored count for a present item and 0 for an absent one. It is never negative while the counts are in range |
| `Inventory.InventoryManager.ContainsItem` | Assets/Scripts/InventoryScripts/InventoryManager.cs:61-64 | True exactly when the item has an entry with a positive count |
| `Inventory.InventoryManager.AddItemToInventory` | Assets/Scripts/InventoryScripts/InventoryManager.cs:30-39 | The item gains an entry whose count is the old count plus `n`, capped at the item's maximum. Every other entry is unchanged. The in-range invariant is kept when `n >= 0` and the item's maximum is non-negative |
| `Inventory.InventoryManager.RemoveItemFromInventory` | Assets/Scripts/InventoryScripts/InventoryManager.cs:71-78 | A contained item's count becomes `max(0, old - n)`, which is never negative. An item that is not contained changes nothing. Every other entry is unchanged |
| `Inventory.InventoryManager.UseItem` | Assets/Scripts/InventoryScripts/InventoryManager.cs:84-89 | Same as discarding one: a contained item loses exactly one, and otherwise nothing changes |

## Left out

- `MoveCharacterWhileAnimating` (MeleeMechanics.cs:200-216) is not modelled. It is a coroutine that evaluates an `AnimationCurve` on float time scaled by `CustomTime`, and `CustomTime` is not part of this model.
- `StopTimeForHitImpact` (MeleeMechanics.cs:224-227) is not modelled, because it is an empty virtual hook with no behaviour.
- The `OnDestroy` methods of both components are not modelled. They only unsubscribe events, and the subscriptions in `Awake` are left out for the same reason.
- `Debug.LogWarning` calls are no-ops.
- Unity's "destroyed object compares equal to null" semantics are not modelled. Only a plain null reference is.
- Movement floats are not modelled: `Update`, `UpdateCurrentSpeedOnGround`, and the gravity and `jumpVelocity` derivation in `OnValidate` (MovementMechanics.cs:65-80, 109-123). `jumpVelocity` is a designer value that is passed through unchanged.
- Sprite and animator code is not modelled: `SetHorizontalInput`, `FlipSpriteBasedOnInput` and `SetSpriteFlipped`. Neither are the `GetComponent` lookups in `Awake` and `OnValidate`. The physics body is a constructor argument instead.
- Hurtbox.cs is not modelled. It registers with a `HitboxManager`, and `HitboxManager` is not part of this model.
- `CharacterStats.TakeDamage` is not modelled as a call. Each call appears as one `HitRecord` in the ghost damage log.
- `associatedCharacterStats` is not modelled, because only the motion coroutine uses it. Neither are `InventoryManager.associateCharacterstats` or its empty `Start`.
- Melee.MeleeMechanics.OnHitboxEnteredEnemyHurtbox: the enemy is a non-null reference. A null enemy that is not registered would throw when damage is applied, so it is not modelled. The unused `pointOfImpact` parameter is dropped.
- Melee.MeleeMechanics.OnValidate: each profile is a value in its slot. Two slots that share one `MeleeProperties` object are not modelled. Unity's by-value serialisation of these profiles does not produce that sharing.
- Inventory.InventoryManager.AddItemToInventory: counts are unbounded integers, so 32-bit overflow of `count + n` is not modelled.
- Inventory.InventoryManager.AddItemToInventory: the default argument `numberOfItemsToAdd = 1` (InventoryManager.cs:30) is not modelled. Callers always pass the count.
- Movement.MovementMechanics.OnAirborneEvent: the counter is an unbounded integer, so the 32-bit wrap of `currentJumpsAvailable--` at the smallest `int` (MovementMechanics.cs:207) is not modelled.
- Melee.MeleeMechanics.OnHitboxEnteredEnemyHurtbox: reading the damage of a null active slot throws a NullReferenceException (MeleeMechanics.cs:157). The model requires the active slot to be present whenever an unseen character is struck, so this failure is not modelled.
- Inventory.InventoryManager.RemoveItemFromInventory: counts are unbounded integers, so 32-bit overflow of `count - n` is not modelled.
