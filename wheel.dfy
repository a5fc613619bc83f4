/**
 * The timing wheel itself (later.go: `timeWheel`, `timePanel`): the cursors
 * and slots of all levels live in two arrays owned by the wheel, level k's
 * `prev` being level k - 1 and its `next` level k + 1. Running a callback is
 * recorded by appending its id to `fired`.
 */
module Wheel {
  import opened Coordinates
  import opened Cascade

  class TimeWheel {
    /** Slot count of each level, finest first (the `slots ...int` of NewTimeWheel). */
    const num: seq<nat>
    /** The length of one tick, in the unit of the delays. */
    const interval: nat
    /** The cursor (`idx`) of each level. */
    const idx: array<nat>
    /** The slots of each level: one queue per slot. */
    const slots: array<seq<Queue>>
    /** The callbacks run so far, in the order they ran. */
    var fired: seq<Callback>

    /** The wheel's contents as a value. */
    ghost function State(): WheelState
      reads this, idx, slots
    {
      WheelState(idx[..], slots[..], fired)
    }

    ghost predicate Valid()
      reads this, idx, slots
    {
      interval > 0 && Inv(num, State())
    }

    /**
     * NewTimeWheel: one level per slot count, each with every slot empty and
     * its cursor at 0.
     */
    constructor (interval: nat, slotCounts: seq<nat>)
      requires interval > 0 && Positive(slotCounts)
      ensures Valid() && fresh(idx) && fresh(slots)
      ensures num == slotCounts && this.interval == interval && fired == []
      ensures forall k :: 0 <= k < |num| ==> idx[k] == 0
      ensures forall k, s :: 0 <= k < |num| && 0 <= s < |slots[k]| ==> slots[k][s] == []
    {
      var cursors := new nat[|slotCounts|];
      var panels := new seq<Queue>[|slotCounts|];
      var k := 0;
      while k < |slotCounts|
        invariant 0 <= k <= |slotCounts|
        invariant forall j :: 0 <= j < k ==> cursors[j] == 0
        invariant forall j :: 0 <= j < k ==> panels[j] == seq(slotCounts[j], _ => [])
      {
        cursors[k] := 0;
        panels[k] := seq(slotCounts[k], _ => []);
        k := k + 1;
      }
      num := slotCounts;
      this.interval := interval;
      idx := cursors;
      slots := panels;
      fired := [];
    }

    /**
     * calcAccurateNextTime: the slot index on each level needed to place a
     * delay of d, finest first.
     */
    method CalcAccurateNextTime(d: nat) returns (res: seq<nat>)
      requires interval > 0 && Positive(num) && idx.Length == |num|
      ensures res == Coords(num, idx[..], d / interval)
      ensures |num| > 0 ==> 1 <= |res| <= |num|
      ensures forall i :: 0 <= i < |res| ==> res[i] < num[i]
    {
      DivModBounds(d, interval);
      var v: nat := d / interval;
      ghost var cur := idx[..];
      ghost var target := Coords(num, cur, v);
      res := [];
      var k := 0;
      while k < |num|
        invariant 0 <= k <= |num|
        invariant Positive(num[k..])
        invariant res + Coords(num[k..], cur[k..], v) == target
      {
        ghost var ticksAt := v;
        var c := idx[k];
        var n := num[k];
        DivModBounds(c + v, n);
        DivModBounds(v, n);
        var m: nat := (c + v) % n;
        ghost var below := res;
        res := res + [m];
        v := v / n;
        if v == 0 {
          CoordsStep(num, cur, ticksAt, k, c, n, m, v, below, target);
          break;
        }
        CoordsStep(num, cur, ticksAt, k, c, n, m, v, below, target);
        k := k + 1;
      }
      if k == |num| {
        assert num[k..] == [] && cur[k..] == [];
      }
    }

    /** register: place callback cb, due in d, on the wheel. */
    method Register(d: nat, cb: Callback)
      requires Valid() && |num| > 0
      modifies slots
      ensures Valid()
      ensures State() == Registered(num, old(State()), d / interval, cb)
    {
      var rest := CalcAccurateNextTime(d);
      var n := |rest| - 1;
      var j := rest[n];
      if n > 0 {
        slots[n] := slots[n][j := slots[n][j] + [Pending(rest[..n], cb)]];
      } else {
        slots[n] := slots[n][j := slots[n][j] + [Ready(cb)]];
      }
    }

    /**
     * timePanel.process on level k: advance the cursor (processing the level
     * above on a wrap), then drain the slot under the cursor.
     */
    method Process(k: nat)
      requires Valid() && k < |num|
      modifies this, idx, slots
      ensures Valid()
      ensures State() == Processed(num, old(State()), k)
      decreases |num| - k, 1
    {
      Advance(k);
      var i := idx[k];
      if k == 0 {
        DrainFinest(i);
      } else {
        DrainedCoarse(num, State(), k);
        DrainCoarse(k, i);
      }
    }

    /**
     * The first half of timePanel.process on level k: move the cursor one
     * slot on; on reaching the level's size set it back to 0 and process the
     * level above, if there is one.
     */
    method Advance(k: nat)
      requires Valid() && k < |num|
      modifies this, idx, slots
      ensures Valid()
      ensures State() == BeforeDrain(num, old(State()), k)
      decreases |num| - k, 0
    {
      ghost var w := State();
      idx[k] := idx[k] + 1;
      if idx[k] == num[k] {
        idx[k] := 0;
        assert State() == w.(idx := w.idx[k := 0]);
        InvCursor(num, w, k, 0);
        if k + 1 < |num| {
          Process(k + 1);
        }
      } else {
        assert State() == w.(idx := w.idx[k := w.idx[k] + 1]);
        InvCursor(num, w, k, w.idx[k] + 1);
      }
    }

    /**
     * Draining slot i of the finest level: each element is taken off the
     * front and, when it is a bare callback, run; the slot ends up empty.
     */
    method DrainFinest(i: nat)
      requires Valid() && 0 < |num| && i == idx[0]
      modifies this, slots
      ensures Valid()
      ensures State() == Drained(num, old(State()), 0)
    {
      ghost var q := slots[0][i];
      assert old(slots[0])[i := slots[0][i]] == old(slots[0]);
      while slots[0][i] != []
        invariant forall j :: 0 < j < slots.Length ==> slots[j] == old(slots[j])
        invariant |slots[0]| == |old(slots[0])|
        invariant slots[0] == old(slots[0])[i := slots[0][i]]
        invariant fired + Fire(slots[0][i]) == old(fired) + Fire(q)
        decreases |slots[0][i]|
      {
        var e := slots[0][i][0];
        slots[0] := slots[0][i := slots[0][i][1..]];
        if e.Ready? {
          fired := fired + [e.cb];
        }
      }
      assert forall j :: 0 <= j < slots.Length ==> slots[..][j] == old(slots[..])[0 := old(slots[0])[i := []]][j];
      assert State() == Drained(num, old(State()), 0);
    }

    /**
     * Draining slot i of a coarser level k into level k - 1: each element
     * is taken off the front and, when it is a task, put at the back of the
     * slot of level k - 1 that its last index names, with that index
     * removed (a bare callback once no index is left).
     */
    method DrainCoarse(k: nat, i: nat)
      requires 0 < k < |num| == slots.Length && i < |slots[k]|
      requires Demotable(|slots[k - 1]|, slots[k][i])
      modifies slots
      ensures slots[..] == old(slots[..])[k := old(slots[k])[i := []]][k - 1 := Demote(old(slots[k - 1]), old(slots[k][i]))]
    {
      ghost var q := slots[k][i];
      assert old(slots[k])[i := slots[k][i]] == old(slots[k]);
      while slots[k][i] != []
        invariant forall j :: 0 <= j < slots.Length && j != k && j != k - 1 ==> slots[j] == old(slots[j])
        invariant |slots[k]| == |old(slots[k])|
        invariant slots[k] == old(slots[k])[i := slots[k][i]]
        invariant |slots[k - 1]| == |old(slots[k - 1])|
        invariant Demotable(|slots[k - 1]|, slots[k][i])
        invariant Demote(slots[k - 1], slots[k][i]) == Demote(old(slots[k - 1]), q)
        decreases |slots[k][i]|
      {
        var e := slots[k][i][0];
        slots[k] := slots[k][i := slots[k][i][1..]];
        if e.Pending? {
          var n := |e.rest| - 1;
          var j := e.rest[n];
          if n == 0 {
            slots[k - 1] := slots[k - 1][j := slots[k - 1][j] + [Ready(e.cb)]];
          } else {
            slots[k - 1] := slots[k - 1][j := slots[k - 1][j] + [Pending(e.rest[..n], e.cb)]];
          }
        }
      }
      assert forall j :: 0 <= j < slots.Length ==>
        slots[..][j] == old(slots[..])[k := old(slots[k])[i := []]][k - 1 := Demote(old(slots[k - 1]), q)][j];
    }
  }
}
