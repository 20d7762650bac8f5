/** Choosing among velocities by norm: the fold that the collision monitor's loop over its zones amounts to. */
module MostRestrictive {
  import opened CollisionTime

  /** The commanded velocity, replaced by each candidate that is strictly slower than what was chosen before. */
  function Best(cmd: Velocity, candidates: seq<Velocity>): Velocity {
    if candidates == [] then cmd
    else
      var b, c := Best(cmd, candidates[..|candidates| - 1]), candidates[|candidates| - 1];
      if c.NormSquared() < b.NormSquared() then c else b
  }

  /** Nobody is slower than `v`. */
  ghost predicate Slowest(v: Velocity, cmd: Velocity, candidates: seq<Velocity>) {
    v.NormSquared() <= cmd.NormSquared() && forall c :: c in candidates ==> v.NormSquared() <= c.NormSquared()
  }

  /** The choice is the commanded velocity or a candidate, and none of them is slower. */
  lemma {:induction false} BestIsSlowest(cmd: Velocity, candidates: seq<Velocity>)
    ensures Slowest(Best(cmd, candidates), cmd, candidates)
    ensures Best(cmd, candidates) == cmd || Best(cmd, candidates) in candidates
  {
    if candidates != [] {
      var n := |candidates| - 1;
      BestIsSlowest(cmd, candidates[..n]);
      forall c | c in candidates ensures c in candidates[..n] || c == candidates[n] {
      }
    }
  }

  /** More candidates never give a faster choice, and the order of candidates does not change its norm. */
  lemma BestIsMonotone(cmd: Velocity, candidates: seq<Velocity>, more: seq<Velocity>)
    requires forall c :: c in candidates ==> exists d :: d in more && d.NormSquared() <= c.NormSquared()
    ensures Best(cmd, more).NormSquared() <= Best(cmd, candidates).NormSquared()
  {
    BestIsSlowest(cmd, candidates);
    BestIsSlowest(cmd, more);
  }

  /** The norm of the choice does not depend on the order. */
  lemma NormIgnoresOrder(cmd: Velocity, candidates: seq<Velocity>, permuted: seq<Velocity>)
    requires multiset(candidates) == multiset(permuted)
    ensures Best(cmd, permuted).NormSquared() == Best(cmd, candidates).NormSquared()
  {
    forall c | c in candidates ensures c in permuted {
      assert c in multiset(candidates);
    }
    forall c | c in permuted ensures c in candidates {
      assert c in multiset(permuted);
    }
    BestIsMonotone(cmd, candidates, permuted);
    BestIsMonotone(cmd, permuted, candidates);
  }

  /** A slowest candidate that comes first, and is slower than the command, is the choice. */
  lemma {:induction false} FirstSlowestWins(cmd: Velocity, first: Velocity, rest: seq<Velocity>)
    requires first.NormSquared() < cmd.NormSquared() && forall c :: c in rest ==> first.NormSquared() <= c.NormSquared()
    ensures Best(cmd, [first] + rest) == first
  {
    var all := [first] + rest;
    if rest == [] {
      assert all[..0] == [];
    } else {
      assert all[..|all| - 1] == [first] + rest[..|rest| - 1];
      FirstSlowestWins(cmd, first, rest[..|rest| - 1]);
    }
  }

  /** All slowest candidates are the same velocity, or none is slower than the command. */
  ghost predicate Unambiguous(cmd: Velocity, candidates: seq<Velocity>) {
    || (forall c :: c in candidates ==> cmd.NormSquared() <= c.NormSquared())
    || (forall c, d ::
          c in candidates && d in candidates && Slowest(c, cmd, candidates) && Slowest(d, cmd, candidates) ==> c == d)
  }

  lemma {:induction false} CommandStands(cmd: Velocity, candidates: seq<Velocity>)
    requires forall c :: c in candidates ==> cmd.NormSquared() <= c.NormSquared()
    ensures Best(cmd, candidates) == cmd
  {
    if candidates != [] {
      CommandStands(cmd, candidates[..|candidates| - 1]);
    }
  }

  /** The chosen velocity itself, unlike its norm, ignores the order exactly when it is unambiguous. */
  lemma OrderMattersExactly(cmd: Velocity, candidates: seq<Velocity>)
    ensures Unambiguous(cmd, candidates) <==>
            forall q :: multiset(q) == multiset(candidates) ==> Best(cmd, q) == Best(cmd, candidates)
  {
    if Unambiguous(cmd, candidates) {
      forall q | multiset(q) == multiset(candidates) ensures Best(cmd, q) == Best(cmd, candidates) {
        SameChoice(cmd, candidates, q);
      }
    } else {
      var c, d :| c in candidates && d in candidates && Slowest(c, cmd, candidates) && Slowest(d, cmd, candidates)
                  && c != d;
      var e :| e in candidates && !(cmd.NormSquared() <= e.NormSquared());
      var q := ToFront(cmd, candidates, c);
      var q' := ToFront(cmd, candidates, d);
      assert Best(cmd, q) != Best(cmd, q');
    }
  }

  lemma SameChoice(cmd: Velocity, candidates: seq<Velocity>, q: seq<Velocity>)
    requires Unambiguous(cmd, candidates) && multiset(q) == multiset(candidates)
    ensures Best(cmd, q) == Best(cmd, candidates)
  {
    forall c ensures c in q <==> c in candidates {
      assert c in multiset(q) <==> c in multiset(candidates);
    }
    if forall c :: c in candidates ==> cmd.NormSquared() <= c.NormSquared() {
      CommandStands(cmd, candidates);
      CommandStands(cmd, q);
    } else {
      BestIsSlowest(cmd, candidates);
      BestIsSlowest(cmd, q);
      assert Slowest(Best(cmd, q), cmd, candidates);
    }
  }

  /** Some order makes a given slowest candidate the choice. */
  lemma ToFront(cmd: Velocity, candidates: seq<Velocity>, c: Velocity) returns (q: seq<Velocity>)
    requires c in candidates && Slowest(c, cmd, candidates)
    requires exists e :: e in candidates && !(cmd.NormSquared() <= e.NormSquared())
    ensures multiset(q) == multiset(candidates) && Best(cmd, q) == c
  {
    var i :| 0 <= i < |candidates| && candidates[i] == c;
    var rest := candidates[..i] + candidates[i + 1..];
    q := [c] + rest;
    assert candidates == candidates[..i] + [c] + candidates[i + 1..];
    forall e | e in rest ensures c.NormSquared() <= e.NormSquared() {
      assert e in candidates;
    }
    FirstSlowestWins(cmd, c, rest);
  }

  /** Slowing down by a ratio and limiting the turn alone can be equally slow and yet differ. */
  lemma OrderCanMatter(slowdown: Velocity, limit: Velocity, cmd: Velocity)
    requires cmd == Velocity(3.0, 0.0, 4.0) && slowdown == cmd.Scaled(0.6) && limit == Velocity(3.0, 0.0, 0.0)
    ensures Best(cmd, [slowdown, limit]) != Best(cmd, [limit, slowdown])
  {
    assert slowdown == Velocity(1.8, 0.0, 2.4);
    assert slowdown.NormSquared() == 9.0 && limit.NormSquared() == 9.0 && cmd.NormSquared() == 25.0;
    FirstSlowestWins(cmd, slowdown, [limit]);
    FirstSlowestWins(cmd, limit, [slowdown]);
    assert [slowdown] + [limit] == [slowdown, limit] && [limit] + [slowdown] == [limit, slowdown];
  }
}
