/**
 * XP and level arithmetic (lib/gamification.ts). The level formula uses a square
 * root of XP / 100; on integers that is the largest `n` with `100 * n * n <= xp`.
 */
module Gamification {
  import opened Wrappers

  /** The four actions that earn XP. */
  datatype Action = Watch | Chat | Donate | Clip

  /** The action's name as clients send it. */
  function ActionName(a: Action): string
  {
    match a
    case Watch => "watch"
    case Chat => "chat"
    case Donate => "donate"
    case Clip => "clip"
  }

  /** `validActions.includes(action)`: the exact lower-case names are accepted. */
  function ParseAction(s: string): (a: Option<Action>)
    ensures a.Some? ==> ActionName(a.value) == s
  {
    if s == "watch" then Some(Watch)
    else if s == "chat" then Some(Chat)
    else if s == "donate" then Some(Donate)
    else if s == "clip" then Some(Clip)
    else None
  }

  /**
   * `getXPReward`: the `XP_REWARDS` entry for the action. Every action has a positive
   * entry, so the `|| 0` default never applies.
   */
  function XpReward(a: Action): (xp: nat)
    ensures xp > 0
    ensures xp <= 50
  {
    match a
    case Watch => 10
    case Chat => 5
    case Donate => 50
    case Clip => 25
  }

  function Max(a: int, b: int): int
  {
    if a >= b then a else b
  }

  function Sq(n: int): int
  {
    n * n
  }

  /** The integer square root: `floor(sqrt(n))`. */
  function Isqrt(n: nat): (r: nat)
    ensures Sq(r) <= n < Sq(r + 1)
  {
    if n == 0 then 0
    else
      var s := Isqrt(n - 1);
      if Sq(s + 1) <= n then s + 1 else s
  }

  /** `calculateLevel(xp) = floor(sqrt(max(xp, 0) / 100)) + 1`. */
  function CalculateLevel(xp: int): (level: int)
    ensures level >= 1
    ensures 100 * Sq(level - 1) <= Max(xp, 0) < 100 * Sq(level)
  {
    var x := Max(xp, 0);
    var n := Isqrt(x / 100);
    n + 1
  }

  /** `xpForLevel(level) = max(level - 1, 0)^2 * 100`. */
  function XpForLevel(level: int): (xp: nat)
    ensures xp % 100 == 0
    ensures xp == 0 <==> level <= 1
  {
    var n := Max(level - 1, 0);
    assert Sq(n) >= 0 by { SquareMonotone(0, n); }
    100 * Sq(n)
  }

  /**
   * `xpForNextLevel(level) = xpForLevel(level + 1)`: for a level of at least 1, the XP
   * the next level starts at, `100 (2L - 1)` above where the level starts.
   */
  function XpForNextLevel(level: int): (xp: nat)
    ensures level >= 0 ==> CalculateLevel(xp) == level + 1
    ensures level >= 1 ==> xp == XpForLevel(level) + 100 * (2 * level - 1)
  {
    SquareStep(level - 1);
    if level >= 0 then
      LevelRoundTrip(level + 1);
      XpForLevel(level + 1)
    else
      XpForLevel(level + 1)
  }

  /** The integer part of `xpProgress` (the percentage is left out): XP earned inside the level and XP the level spans. */
  datatype Progress = Progress(current: int, required: int)

  /**
   * A level of at least 1 spans `100 (2L - 1)` XP, and for a total whose level it is,
   * the progress inside it lies between 0 and the span.
   */
  function XpProgress(currentXp: int, currentLevel: int): (p: Progress)
    ensures currentLevel >= 1 ==> p.required == 100 * (2 * currentLevel - 1)
    ensures currentXp >= 0 && currentLevel == CalculateLevel(currentXp) ==> 0 <= p.current < p.required
    ensures currentXp - p.current == XpForLevel(currentLevel)
  {
    var p := Progress(currentXp - XpForLevel(currentLevel), XpForNextLevel(currentLevel) - XpForLevel(currentLevel));
    SquareStep(currentLevel - 1);
    if currentXp >= 0 then
      XpWithinLevel(currentXp);
      p
    else
      p
  }

  // Properties.

  /** Parsing a name gives back the action it names. */
  lemma ParseActionNames(a: Action)
    ensures ParseAction(ActionName(a)) == Some(a)
  {
  }

  /** The reward table: watch 10, chat 5, donate 50, clip 25. */
  lemma RewardTable()
    ensures XpReward(Watch) == 10 && XpReward(Chat) == 5 && XpReward(Donate) == 50 && XpReward(Clip) == 25
  {
  }

  lemma SquareMonotone(a: int, b: int)
    requires 0 <= a <= b
    ensures Sq(a) <= Sq(b)
  {
    assert a * a <= a * b <= b * b;
  }

  lemma SquareStep(n: int)
    ensures Sq(n + 1) == Sq(n) + 2 * n + 1
  {
  }

  /** The bracket `100 (L-1)^2 <= x < 100 L^2` fixes the level. */
  lemma {:induction false} LevelBracketUnique(x: int, a: int, b: int)
    requires a >= 1 && b >= 1
    requires 100 * Sq(a - 1) <= x < 100 * Sq(a)
    requires 100 * Sq(b - 1) <= x < 100 * Sq(b)
    ensures a == b
  {
    if a < b {
      SquareMonotone(a, b - 1);
    } else if b < a {
      SquareMonotone(b, a - 1);
    }
  }

  /** Every non-positive XP total is level 1. */
  lemma NonPositiveXpIsLevelOne(xp: int)
    requires xp <= 0
    ensures CalculateLevel(xp) == 1
  {
    LevelBracketUnique(0, CalculateLevel(xp), 1);
  }

  /** More XP never means a lower level. */
  lemma {:induction false} CalculateLevelMonotone(x: int, y: int)
    requires x <= y
    ensures CalculateLevel(x) <= CalculateLevel(y)
  {
    var a, b := CalculateLevel(x), CalculateLevel(y);
    if b < a {
      SquareMonotone(b, a - 1);
    }
  }

  /** A higher level never needs less XP. */
  lemma XpForLevelMonotone(a: int, b: int)
    requires a <= b
    ensures XpForLevel(a) <= XpForLevel(b)
  {
    SquareMonotone(Max(a - 1, 0), Max(b - 1, 0));
  }

  /** The XP a level starts at is at that level: `calculateLevel(xpForLevel(L)) == L`. */
  lemma {:induction false} LevelRoundTrip(level: int)
    requires level >= 1
    ensures CalculateLevel(XpForLevel(level)) == level
  {
    var x := XpForLevel(level);
    SquareStep(level - 1);
    SquareMonotone(0, level - 1);
    LevelBracketUnique(x, CalculateLevel(x), level);
  }

  /** An XP total lies between the start of its level and the start of the next. */
  lemma {:induction false} XpWithinLevel(xp: int)
    requires xp >= 0
    ensures XpForLevel(CalculateLevel(xp)) <= xp < XpForLevel(CalculateLevel(xp) + 1)
  {
  }
}
