// Unit-slot interval scheduling: the combinatorial fact behind the ordinal accounting.
//
// Each window asks for `need` distinct free slots inside [first, last]. Hall's condition over
// intervals is necessary and sufficient; sufficiency is the earliest-deadline-first argument,
// run over the smallest free slot.
module IntervalSchedule {
  import opened Collections

  datatype Window = Window(first: int, last: int, need: nat)

  predicate Contains(w: Window, lo: int, hi: int) {
    lo <= w.first && w.last <= hi
  }

  // Slots demanded by the windows lying wholly inside [lo, hi].
  function Load(ws: seq<Window>, lo: int, hi: int): nat {
    if ws == [] then 0
    else Load(ws[..|ws| - 1], lo, hi) + if Contains(ws[|ws| - 1], lo, hi) then ws[|ws| - 1].need else 0
  }

  function Within(slots: set<int>, lo: int, hi: int): set<int> {
    set x | x in slots && lo <= x <= hi
  }

  ghost predicate Hall(ws: seq<Window>, free: set<int>) {
    forall lo, hi :: Load(ws, lo, hi) <= |Within(free, lo, hi)|
  }

  ghost predicate PairwiseDisjoint(parts: seq<set<int>>) {
    forall i, j :: 0 <= i < j < |parts| ==> parts[i] !! parts[j]
  }

  // A schedule hands every window exactly its need, inside the window, no slot twice.
  ghost predicate IsSchedule(ws: seq<Window>, free: set<int>, picks: seq<set<int>>) {
    && |picks| == |ws|
    && PairwiseDisjoint(picks)
    && forall k :: 0 <= k < |ws| ==> picks[k] <= Within(free, ws[k].first, ws[k].last) && |picks[k]| == ws[k].need
  }

  lemma {:induction false} LoadShrinks(ws: seq<Window>, lo: int, hi: int, lo': int, hi': int)
    requires forall k :: 0 <= k < |ws| && ws[k].need > 0 && Contains(ws[k], lo, hi) ==> Contains(ws[k], lo', hi')
    ensures Load(ws, lo, hi) <= Load(ws, lo', hi')
  {
    if ws != [] {
      LoadShrinks(ws[..|ws| - 1], lo, hi, lo', hi');
    }
  }

  lemma {:induction false} LoadGap(ws: seq<Window>, lo: int, lo': int, hi: int, k: nat)
    requires k < |ws| && lo' <= lo
    requires Contains(ws[k], lo', hi) && !Contains(ws[k], lo, hi)
    ensures Load(ws, lo, hi) + ws[k].need <= Load(ws, lo', hi)
  {
    var n := |ws| - 1;
    if k == n {
      LoadShrinks(ws[..n], lo, hi, lo', hi);
    } else {
      LoadGap(ws[..n], lo, lo', hi, k);
    }
  }

  lemma {:induction false} LoadAtLeast(ws: seq<Window>, k: nat)
    requires k < |ws|
    ensures ws[k].need <= Load(ws, ws[k].first, ws[k].last)
  {
    var n := |ws| - 1;
    if k < n {
      LoadAtLeast(ws[..n], k);
    }
  }

  function Served(ws: seq<Window>, k: nat): seq<Window>
    requires k < |ws| && ws[k].need > 0
  {
    ws[k := ws[k].(need := ws[k].need - 1)]
  }

  lemma {:induction false} LoadServed(ws: seq<Window>, k: nat, lo: int, hi: int)
    requires k < |ws| && ws[k].need > 0
    ensures Load(Served(ws, k), lo, hi) == Load(ws, lo, hi) - if Contains(ws[k], lo, hi) then 1 else 0
  {
    var n := |ws| - 1;
    if k == n {
      assert Served(ws, k)[..n] == ws[..n];
    } else {
      LoadServed(ws[..n], k, lo, hi);
      assert Served(ws, k)[..n] == Served(ws[..n], k);
    }
  }

  lemma {:induction false} LeastSlot(free: set<int>) returns (p: int)
    requires free != {}
    ensures p in free && forall x :: x in free ==> p <= x
    decreases |free|
  {
    InhabitedInts(free);
    var some :| some in free;
    p := some;
    var rest := free - {some};
    if rest != {} {
      var least := LeastSlot(rest);
      p := if least < some then least else some;
    }
    assert forall x :: x in free ==> x == some || x in rest;
  }

  // Removing the least slot from an interval that holds it.
  lemma {:induction false} WithinWithoutLeast(free: set<int>, p: int, lo: int, hi: int)
    requires p in free && forall x :: x in free ==> p <= x
    ensures lo <= p <= hi ==> |Within(free - {p}, lo, hi)| == |Within(free, lo, hi)| - 1
    ensures lo <= p <= hi ==> Within(free, p + 1, hi) == Within(free - {p}, lo, hi)
    ensures !(lo <= p <= hi) ==> Within(free - {p}, lo, hi) == Within(free, lo, hi)
  {
    if lo <= p <= hi {
      assert Within(free - {p}, lo, hi) == Within(free, lo, hi) - {p};
    }
  }

  predicate Released(ws: seq<Window>, p: int, k: nat)
    requires k < |ws|
  {
    ws[k].need > 0 && ws[k].first <= p
  }

  // The released window with the earliest deadline, if any window is released.
  lemma {:induction false} EarliestDeadline(ws: seq<Window>, p: int) returns (found: bool, k: nat)
    ensures found ==> k < |ws| && Released(ws, p, k)
    ensures found ==> forall j :: 0 <= j < |ws| && Released(ws, p, j) ==> ws[k].last <= ws[j].last
    ensures !found ==> forall j :: 0 <= j < |ws| ==> !Released(ws, p, j)
  {
    found, k := false, 0;
    for i := 0 to |ws|
      invariant found ==> k < i && Released(ws, p, k)
      invariant found ==> forall j :: 0 <= j < i && Released(ws, p, j) ==> ws[k].last <= ws[j].last
      invariant !found ==> forall j :: 0 <= j < i ==> !Released(ws, p, j)
    {
      if Released(ws, p, i) && (!found || ws[i].last < ws[k].last) {
        found, k := true, i;
      }
    }
  }

  // Nobody is released at the least slot: dropping it keeps Hall's condition.
  lemma {:induction false} HallAfterSkip(ws: seq<Window>, free: set<int>, p: int)
    requires Hall(ws, free) && p in free && forall x :: x in free ==> p <= x
    requires forall j :: 0 <= j < |ws| ==> !Released(ws, p, j)
    ensures Hall(ws, free - {p})
  {
    forall lo, hi
      ensures Load(ws, lo, hi) <= |Within(free - {p}, lo, hi)|
    {
      WithinWithoutLeast(free, p, lo, hi);
      if lo <= p <= hi {
        assert forall j :: 0 <= j < |ws| && ws[j].need > 0 ==> !Released(ws, p, j);
        LoadShrinks(ws, lo, hi, p + 1, hi);
        assert Load(ws, p + 1, hi) <= |Within(free, p + 1, hi)|;
      } else {
        assert Load(ws, lo, hi) <= |Within(free, lo, hi)|;
      }
    }
  }

  // Giving the least slot to the released window of earliest deadline keeps Hall's condition.
  lemma {:induction false} HallAfterServe(ws: seq<Window>, free: set<int>, p: int, k: nat)
    requires Hall(ws, free) && p in free && forall x :: x in free ==> p <= x
    requires k < |ws| && Released(ws, p, k)
    requires forall j :: 0 <= j < |ws| && Released(ws, p, j) ==> ws[k].last <= ws[j].last
    ensures Hall(Served(ws, k), free - {p})
  {
    forall lo, hi
      ensures Load(Served(ws, k), lo, hi) <= |Within(free - {p}, lo, hi)|
    {
      WithinWithoutLeast(free, p, lo, hi);
      LoadServed(ws, k, lo, hi);
      assert Load(ws, lo, hi) <= |Within(free, lo, hi)|;
      if lo <= p <= hi && !Contains(ws[k], lo, hi) {
        if hi < ws[k].last {
          LoadShrinks(ws, lo, hi, p + 1, hi);
          assert Load(ws, p + 1, hi) <= |Within(free, p + 1, hi)|;
        } else {
          LoadGap(ws, lo, ws[k].first, hi, k);
          assert Within(free, ws[k].first, hi) == Within(free, lo, hi);
          assert Load(ws, ws[k].first, hi) <= |Within(free, ws[k].first, hi)|;
        }
      }
    }
  }

  // Sufficiency: Hall's condition over intervals yields a schedule.
  lemma {:induction false} Schedule(ws: seq<Window>, free: set<int>) returns (picks: seq<set<int>>)
    requires Hall(ws, free)
    ensures IsSchedule(ws, free, picks)
    decreases |free|
  {
    if free == {} {
      picks := seq(|ws|, _ => {});
      forall k | 0 <= k < |ws| ensures ws[k].need == 0 {
        LoadAtLeast(ws, k);
        assert Load(ws, ws[k].first, ws[k].last) <= |Within(free, ws[k].first, ws[k].last)|;
      }
      return;
    }
    var p := LeastSlot(free);
    var rest := free - {p};
    var found, k := EarliestDeadline(ws, p);
    if !found {
      HallAfterSkip(ws, free, p);
      picks := Schedule(ws, rest);
    } else {
      HallAfterServe(ws, free, p, k);
      picks := Schedule(Served(ws, k), rest);
      LoadAtLeast(ws, k);
      assert |Within(free, ws[k].first, ws[k].last)| > 0;
      var x :| x in Within(free, ws[k].first, ws[k].last);
      assert p !in picks[k];
      picks := picks[k := picks[k] + {p}];
    }
  }

  // Necessity: a schedule meets Hall's condition on every interval.
  lemma {:induction false} ScheduleMeetsHall(ws: seq<Window>, free: set<int>, picks: seq<set<int>>, lo: int, hi: int)
    requires IsSchedule(ws, free, picks)
    ensures Load(ws, lo, hi) <= |Within(free, lo, hi)|
  {
    if ws != [] {
      var n := |ws| - 1;
      var rest := free - picks[n];
      forall k | 0 <= k < n ensures picks[k] <= Within(rest, ws[k].first, ws[k].last) {
        assert picks[k] !! picks[n];
      }
      ScheduleMeetsHall(ws[..n], rest, picks[..n], lo, hi);
      if Contains(ws[n], lo, hi) {
        assert Within(free, lo, hi) == Within(rest, lo, hi) + picks[n];
      } else {
        SubsetSize(Within(rest, lo, hi), Within(free, lo, hi));
      }
    }
  }

}
