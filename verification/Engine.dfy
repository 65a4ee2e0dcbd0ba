/** The notification engine's cooldown, tied to the history of attempts it has judged. */
module Engines {
  import opened Types
  import opened Cooldowns

  /** The cooldown table, and for each key the attempts it has judged. */
  class Engine {
    var cooldown: map<string, Time>
    ghost var seen: map<string, seq<Tick>>

    constructor ()
      ensures Valid() && seen == map[]
    {
      cooldown, seen := map[], map[];
    }

    ghost function Seen(key: string): seq<Tick>
      reads this
    {
      if key in seen then seen[key] else []
    }

    ghost predicate Valid()
      reads this
    {
      forall key :: Cell(Seen(key)) == if key in cooldown then Some(cooldown[key]) else None
    }

    /** The clock is read twice: when the last pass is compared, and when this one is recorded. */
    method Allow(rule: string, ruleCooldown: Time, dedupKey: string, check: Time, mark: Time) returns (ok: bool)
      requires Valid()
      modifies this
      ensures Valid()
      ensures ruleCooldown <= 0 ==> ok && seen == old(seen)
      ensures ruleCooldown > 0 ==>
                var key := rule + "|" + dedupKey;
                && seen == old(seen)[key := old(Seen(key)) + [Try(check, mark, ruleCooldown)]]
                && (ok <==> Fired(Seen(key), |Seen(key)| - 1))
      ensures var key := rule + "|" + dedupKey;
              ok <==> ruleCooldown <= 0 || key !in old(cooldown) || check - old(cooldown)[key] >= ruleCooldown
      ensures var key := rule + "|" + dedupKey;
              cooldown == if ruleCooldown > 0 && ok then old(cooldown)[key := mark] else old(cooldown)
    {
      hide Cell, Fired;
      if ruleCooldown <= 0 {
        return true;
      }
      var key := rule + "|" + dedupKey;
      ghost var before := Seen(key);
      ghost var tick := Try(check, mark, ruleCooldown);
      seen := seen[key := before + [tick]];
      OneMoreTick(before, tick);
      if key in cooldown && check - cooldown[key] < ruleCooldown {
        return false;
      }
      cooldown := cooldown[key := mark];
      return true;
    }
  }
}
