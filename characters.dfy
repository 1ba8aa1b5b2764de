/** A combatant's statistics. The record is built once and never changes: the only
    operation meant to change it, takeDamage, has an empty body. */
module Characters {

  datatype Character = Character(
    hitPoints: int,
    maxHitPoints: int,
    attackPoints: int,
    defense: int,
    speed: int,
    isAlive: bool)

  /** At full health and alive. */
  predicate Unhurt(c: Character)
  {
    c.hitPoints == c.maxHitPoints && c.isAlive
  }

  /** The constructor: health starts at its maximum, the character is alive, and the
      other statistics are kept as given. */
  function NewCharacter(maxHitPoints: int, attackPoints: int, defense: int, speed: int): (c: Character)
    ensures Unhurt(c) && c.maxHitPoints == maxHitPoints
    ensures c.attackPoints == attackPoints && c.defense == defense && c.speed == speed
  {
    Character(maxHitPoints, maxHitPoints, attackPoints, defense, speed, true)
  }

  /** Takes no damage: the body changes no field. */
  function TakeDamage(c: Character): (r: Character)
    ensures r.hitPoints == c.hitPoints && r.maxHitPoints == c.maxHitPoints && r.isAlive == c.isAlive
    ensures r.attackPoints == c.attackPoints && r.defense == c.defense && r.speed == c.speed
  {
    c
  }

  /** The character after takeDamage has been called n times. */
  function TakeDamageRepeatedly(c: Character, n: nat): Character
    decreases n
  {
    if n == 0 then c else TakeDamage(TakeDamageRepeatedly(c, n - 1))
  }

  /** However often it is hit, a new character keeps its full health, stays alive and
      keeps every statistic it was built with. */
  lemma {:induction false} AlwaysUnhurt(maxHitPoints: int, attackPoints: int, defense: int, speed: int, n: nat)
    ensures var c := TakeDamageRepeatedly(NewCharacter(maxHitPoints, attackPoints, defense, speed), n);
      && Unhurt(c) && c.hitPoints == maxHitPoints
      && c == NewCharacter(maxHitPoints, attackPoints, defense, speed)
    decreases n
  {
    if n > 0 {
      AlwaysUnhurt(maxHitPoints, attackPoints, defense, speed, n - 1);
    }
  }
}
