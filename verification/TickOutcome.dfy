/** When a tick ends and with which outcome, round by round. */
module TickOutcome {
  import opened Netlist
  import opened Graph
  import opened TickSpec
  import opened TickTheorems

  /** The state after m rounds of phase 2b. */
  ghost function Rounds(k: Circuit, s: State, p: Plan, m: nat): (t: State)
    requires Fits(k, s) && PlanFits(k, p)
    ensures Fits(k, t)
  {
    if m == 0 then s else Round(k, Rounds(k, s, p, m - 1), p.sorted, p.affected)
  }

  lemma {:induction false} RoundFirst(k: Circuit, s: State, p: Plan, m: nat)
    requires Fits(k, s) && PlanFits(k, p)
    ensures Rounds(k, Round(k, s, p.sorted, p.affected), p, m) == Rounds(k, s, p, m + 1)
  {
    hide Round, Fits, PlanFits;
    if m > 0 {
      RoundFirst(k, s, p, m - 1);
    }
  }

  /** Phase 2b ends after m rounds: the first in which no watched net moved, or the last allowed. */
  ghost predicate EndsAfter(k: Circuit, s: State, p: Plan, fuel: nat, m: nat, settled: bool)
    requires Fits(k, s) && PlanFits(k, p)
  {
    && m <= fuel && (forall i :: 0 < i < m ==> Rounds(k, s, p, i).changed)
    && (if settled then m > 0 && !Rounds(k, s, p, m).changed else m == fuel && (m > 0 ==> Rounds(k, s, p, m).changed))
  }

  lemma {:induction false} SettleEnds(k: Circuit, s: State, p: Plan, fuel: nat) returns (m: nat)
    requires Fits(k, s) && PlanFits(k, p)
    ensures EndsAfter(k, s, p, fuel, m, Settle(k, s, p.sorted, p.affected, fuel).1)
    ensures Settle(k, s, p.sorted, p.affected, fuel).0 == Rounds(k, s, p, m)
    decreases fuel
  {
    SettleUnfolds(k, s, p, fuel);
    hide Settle, Round, Fits, PlanFits;
    if fuel == 0 {
      m := 0;
      SettleOfZero(k, s, p);
    } else {
      var t := Round(k, s, p.sorted, p.affected);
      RoundFirst(k, s, p, 0);
      assert Rounds(k, t, p, 0) == t;
      if !t.changed {
        m := 1;
      } else {
        var l := SettleEnds(k, t, p, fuel - 1);
        RoundFirst(k, s, p, l);
        forall i | 0 < i < l + 1 ensures Rounds(k, s, p, i).changed {
          RoundFirst(k, s, p, i - 1);
        }
        m := l + 1;
      }
    }
  }

  lemma SettleOfZero(k: Circuit, s: State, p: Plan)
    requires Fits(k, s) && PlanFits(k, p)
    ensures Settle(k, s, p.sorted, p.affected, 0) == (s, false)
  {
  }

  /** Two tri-state outputs of one net are enabled. */
  ghost predicate Clash(k: Circuit, s: State)
    requires Fits(k, s)
  {
    exists net: int, d, e :: net >= 0 && d != e && EnabledOn(k, s, d, net) && EnabledOn(k, s, e, net)
  }

  lemma SameDrivesClash(k: Circuit, s: State, t: State)
    requires Fits(k, s) && Fits(k, t) && s.c == t.c
    ensures Clash(k, s) <==> Clash(k, t)
  {
    forall d, net ensures EnabledOn(k, s, d, net) <==> EnabledOn(k, t, d, net) {}
  }

  lemma ResolveClashes(k: Circuit, s: State, track: bool)
    requires Fits(k, s) && Checked(k)
    ensures Resolve(k, s, track).conflict <==> s.conflict || Clash(k, Resolve(k, s, track))
  {
    ConflictMeans(k, s, track);
    SameDrivesClash(k, s, Resolve(k, s, track));
    hide EnabledOn;
  }

  lemma RoundClashes(k: Circuit, s: State, p: Plan)
    requires Fits(k, s) && PlanFits(k, p) && Checked(k)
    ensures Round(k, s, p.sorted, p.affected).conflict <==> s.conflict || Clash(k, Round(k, s, p.sorted, p.affected))
  {
    var s0 := s.(changed := false);
    ConflictGrows(k, s0, p.sorted, p.affected, true, |p.sorted|);
    ResolveClashes(k, Stage(k, s0, p.sorted, p.affected, true, |p.sorted|), true);
    hide Resolve, Stage, Clash;
  }

  lemma {:induction false} RoundsClash(k: Circuit, s: State, p: Plan, m: nat)
    requires Fits(k, s) && PlanFits(k, p) && Checked(k) && (s.conflict <==> Clash(k, s))
    ensures Rounds(k, s, p, m).conflict <==> exists i: nat :: i <= m && Clash(k, Rounds(k, s, p, i))
  {
    hide Clash, Round, Checked, Fits, PlanFits;
    if m > 0 {
      RoundsClash(k, s, p, m - 1);
      RoundClashes(k, Rounds(k, s, p, m - 1), p);
      if i: nat :| i <= m - 1 && Clash(k, Rounds(k, s, p, i)) {
        assert i <= m;
      }
    } else {
      assert Rounds(k, s, p, 0) == s;
    }
  }

  /** The tick ends after m rounds of phase 2b, of which there are none after a conflict in phase 2 or without a re-run set,
      and at most one more than components. */
  ghost predicate TickEndsAfter(k: Circuit, s: State, p: Plan, m: nat)
    requires Fits(k, s) && PlanFits(k, p)
  {
    var t := Phases12(k, s.(conflict := false), p);
    && m <= |k.comps| + 1
    && Tick(k, s, p).0 == Rounds(k, t, p, m)
    && (Clash(k, t) || p.affected == {} ==> m == 0)
    && (forall i :: 0 < i < m ==> Rounds(k, t, p, i).changed)
  }

  /** Main result: a tick reports a conflict exactly when two drivers of a net were enabled in phase 2 or in a round before
      the end, and an oscillation exactly when there was no conflict and a watched net still moved in the last of |comps| + 1
      rounds. Else it is settled: there was no round, or no watched net moved in the last one. */
  lemma OutcomeMeans(k: Circuit, s: State, p: Plan) returns (m: nat)
    requires Fits(k, s) && PlanFits(k, p) && Checked(k)
    ensures TickEndsAfter(k, s, p, m)
    ensures var t := Phases12(k, s.(conflict := false), p);
      var clashed := exists i: nat :: i <= m && Clash(k, Rounds(k, t, p, i));
      && (Tick(k, s, p).1 == BusConflict <==> clashed)
      && (Tick(k, s, p).1 == BusOscillation <==> !clashed && p.affected != {} && m == |k.comps| + 1 && Rounds(k, t, p, m).changed)
      && (Tick(k, s, p).1 == Settled <==> !clashed && (p.affected == {} || (m > 0 && !Rounds(k, t, p, m).changed)))
  {
    var s0 := s.(conflict := false);
    var t := Phases12(k, s0, p);
    Phases12Clash(k, s0, p);
    TickUnfolds(k, s, p);
    hide Phases12, Settle, Tick, Clash, Checked, Round, Fits, PlanFits;
    if t.conflict || p.affected == {} {
      m := 0;
      assert Rounds(k, t, p, 0) == t;
    } else {
      m := SettleEnds(k, t, p, |k.comps| + 1);
    }
    RoundsClash(k, t, p, m);
  }

  lemma Phases12Clash(k: Circuit, s: State, p: Plan)
    requires Fits(k, s) && PlanFits(k, p) && Checked(k) && !s.conflict
    ensures Phases12(k, s, p).conflict <==> Clash(k, Phases12(k, s, p))
  {
    var t := Stage(k, s, p.joint, Nodes(|k.comps|), false, |p.joint|);
    ConflictGrows(k, s, p.joint, Nodes(|k.comps|), false, |p.joint|);
    ResolveClashes(k, t, false);
    hide Resolve, Stage, Clash;
  }

  lemma TickUnfolds(k: Circuit, s: State, p: Plan)
    requires Fits(k, s) && PlanFits(k, p)
    ensures var t := Phases12(k, s.(conflict := false), p);
      var (u, settled) := Settle(k, t, p.sorted, p.affected, |k.comps| + 1);
      Tick(k, s, p) ==
        if t.conflict then (t, BusConflict)
        else if p.affected == {} then (t, Settled)
        else (u, if u.conflict then BusConflict else if settled then Settled else BusOscillation)
  {
    hide Phases12, Settle, PlanFits;
  }
}
