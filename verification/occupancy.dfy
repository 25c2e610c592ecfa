/** Occupancy maps: for each faculty or classroom name, the set of occupied
    slot indices on each of the five days. One map of each kind is shared by
    every department and semester of a run. */
module Occupancy {
  import opened Calendar

  /** Per-day sets of occupied slots, indexed by day. */
  type Week = seq<set<nat>>

  function EmptyWeek(): (w: Week)
    ensures |w| == NumDays
  {
    seq(NumDays, _ => {})
  }

  /** Every recorded name has exactly the five day entries. */
  predicate WellFormed(m: map<string, Week>) {
    forall k :: k in m ==> |m[k]| == NumDays
  }

  /** The week recorded for `name`, or the empty week if it was never seen. */
  function WeekOf(m: map<string, Week>, name: string): (w: Week)
    requires WellFormed(m)
    ensures |w| == NumDays
  {
    if name in m then m[name] else EmptyWeek()
  }

  /** Records `slot` as occupied for `name` on `day`, creating the empty
      five-day entry for a name seen for the first time. */
  function Mark(m: map<string, Week>, name: string, day: nat, slot: nat): (r: map<string, Week>)
    requires WellFormed(m) && day < NumDays
    ensures WellFormed(r)
  {
    var w := WeekOf(m, name);
    m[name := w[day := w[day] + {slot}]]
  }

  /** Marks `slot` for each name in turn, in list order. */
  function MarkAll(m: map<string, Week>, names: seq<string>, day: nat, slot: nat): (r: map<string, Week>)
    requires WellFormed(m) && day < NumDays
    ensures WellFormed(r)
    decreases |names|
  {
    if names == [] then m
    else Mark(MarkAll(m, names[..|names| - 1], day, slot), names[|names| - 1], day, slot)
  }

  /** Marking for a single name is marking that name. */
  lemma MarkAllOne(m: map<string, Week>, name: string, day: nat, slot: nat)
    requires WellFormed(m) && day < NumDays
    ensures MarkAll(m, [name], day, slot) == Mark(m, name, day, slot)
  {
    assert [name][..0] == [];
  }

  /** Marking for one more name of a list marks that name last. */
  lemma MarkAllStep(m: map<string, Week>, names: seq<string>, j: nat, day: nat, slot: nat)
    requires WellFormed(m) && day < NumDays && j < |names|
    ensures MarkAll(m, names[..j + 1], day, slot) == Mark(MarkAll(m, names[..j], day, slot), names[j], day, slot)
  {
    assert names[..j + 1][..j] == names[..j];
  }

  /** Marks slots lo, lo + 1, .., hi - 1 in turn, each for every name. */
  function MarkRange(m: map<string, Week>, names: seq<string>, day: nat, lo: nat, hi: nat): (r: map<string, Week>)
    requires WellFormed(m) && day < NumDays
    ensures WellFormed(r)
    decreases hi - lo
  {
    if hi <= lo then m else MarkAll(MarkRange(m, names, day, lo, hi - 1), names, day, hi - 1)
  }

  /** An empty range marks nothing. */
  lemma MarkRangeEmpty(m: map<string, Week>, names: seq<string>, day: nat, lo: nat)
    requires WellFormed(m) && day < NumDays
    ensures MarkRange(m, names, day, lo, lo) == m
  {
  }

  /** Marking one more slot of a range marks it for every name, last. */
  lemma MarkRangeStep(m: map<string, Week>, names: seq<string>, day: nat, lo: nat, hi: nat)
    requires WellFormed(m) && day < NumDays && lo <= hi
    ensures MarkRange(m, names, day, lo, hi + 1) == MarkAll(MarkRange(m, names, day, lo, hi), names, day, hi)
  {
  }

  /** For a single name, one more slot of a range is one more mark. */
  lemma MarkRangeOneStep(m: map<string, Week>, name: string, day: nat, lo: nat, hi: nat)
    requires WellFormed(m) && day < NumDays && lo <= hi
    ensures MarkRange(m, [name], day, lo, hi + 1) == Mark(MarkRange(m, [name], day, lo, hi), name, day, hi)
  {
    MarkAllOne(MarkRange(m, [name], day, lo, hi), name, day, hi);
  }

  /** The slot indices lo, lo + 1, .., hi - 1. */
  function SlotsBetween(lo: nat, hi: nat): (r: set<nat>)
    ensures forall t :: t in r <==> lo <= t < hi
    decreases hi - lo
  {
    if hi <= lo then {} else SlotsBetween(lo, hi - 1) + {hi - 1}
  }

  /** Marking one slot for a list of names adds that slot to the day's set
      of each listed name (creating the entry if needed) and changes nothing
      else. */
  lemma {:induction false} MarkAllEffect(m: map<string, Week>, names: seq<string>, day: nat, slot: nat)
    requires WellFormed(m) && day < NumDays
    ensures var r := MarkAll(m, names, day, slot);
      && (forall k :: k in r <==> k in m || k in names)
      && (forall k, d :: k in r && 0 <= d < NumDays ==>
            r[k][d] == WeekOf(m, k)[d] + (if d == day && k in names then {slot} else {}))
    decreases |names|
  {
    if names != [] {
      var front := names[..|names| - 1];
      var last := names[|names| - 1];
      MarkAllEffect(m, front, day, slot);
      assert forall k :: k in names <==> k in front || k == last by {
        assert names == front + [last];
      }
    }
  }

  /** Marking the slots [lo, hi) for a list of names adds exactly those
      slots to the day's set of each listed name, creates the entries of
      names not seen before (only when the range is non-empty), and leaves
      every other day and every other name as it was. */
  lemma {:induction false} MarkRangeEffect(m: map<string, Week>, names: seq<string>, day: nat, lo: nat, hi: nat)
    requires WellFormed(m) && day < NumDays
    ensures var r := MarkRange(m, names, day, lo, hi);
      && (forall k :: k in r <==> k in m || (lo < hi && k in names))
      && (forall k, d :: k in r && 0 <= d < NumDays ==>
            r[k][d] == WeekOf(m, k)[d] + (if d == day && k in names then SlotsBetween(lo, hi) else {}))
    decreases hi - lo
  {
    if lo < hi {
      var prev := MarkRange(m, names, day, lo, hi - 1);
      MarkRangeEffect(m, names, day, lo, hi - 1);
      MarkAllEffect(prev, names, day, hi - 1);
      var r := MarkRange(m, names, day, lo, hi);
      forall k, d | k in r && 0 <= d < NumDays
        ensures r[k][d] == WeekOf(m, k)[d] + (if d == day && k in names then SlotsBetween(lo, hi) else {})
      {
        assert WeekOf(prev, k)[d] == WeekOf(m, k)[d] + (if d == day && k in names then SlotsBetween(lo, hi - 1) else {});
      }
    }
  }

  /** `m` only gained slots: every slot recorded in `m0` for a name and a
      day is still recorded. */
  ghost predicate Grows(m0: map<string, Week>, m: map<string, Week>)
    requires WellFormed(m0) && WellFormed(m)
  {
    forall k, d, t :: 0 <= d < NumDays && t in WeekOf(m0, k)[d] ==> t in WeekOf(m, k)[d]
  }

  /** Every listed name holds every slot of [lo, hi) on `day`. */
  predicate Holds(m: map<string, Week>, names: seq<string>, day: nat, lo: nat, hi: nat)
    requires WellFormed(m) && day < NumDays
  {
    forall k, t :: k in names && lo <= t < hi ==> t in WeekOf(m, k)[day]
  }

  /** Marking a range only adds slots, and every listed name gets every
      slot of the range. */
  lemma MarkRangeGrows(m: map<string, Week>, names: seq<string>, day: nat, lo: nat, hi: nat, r: map<string, Week>)
    requires WellFormed(m) && day < NumDays && r == MarkRange(m, names, day, lo, hi)
    ensures WellFormed(r) && Grows(m, r) && Holds(r, names, day, lo, hi)
  {
    MarkRangeEffect(m, names, day, lo, hi);
    forall k, d, t | 0 <= d < NumDays && t in WeekOf(m, k)[d] ensures t in WeekOf(r, k)[d] {
      assert k in m;
    }
  }

  lemma {:induction false} SlotsBetweenSize(lo: nat, hi: nat)
    requires lo <= hi
    ensures |SlotsBetween(lo, hi)| == hi - lo
    decreases hi - lo
  {
    if lo < hi {
      SlotsBetweenSize(lo, hi - 1);
      var last: set<nat> := {hi - 1};
      DisjointUnionSize(SlotsBetween(lo, hi - 1), last);
    }
  }

  /** A set that is `booked` plus a run of slots none of which it held
      is larger by the length of the run. */
  lemma GrowsByRun(after: set<nat>, booked: set<nat>, lo: nat, hi: nat)
    requires lo <= hi && forall t :: lo <= t < hi ==> t !in booked
    requires after == booked + SlotsBetween(lo, hi)
    ensures |after| == |booked| + (hi - lo)
  {
    SlotsBetweenSize(lo, hi);
    DisjointUnionSize(booked, SlotsBetween(lo, hi));
  }

  /** Disjoint sets add up. */
  lemma DisjointUnionSize(a: set<nat>, b: set<nat>)
    requires forall x :: x in b ==> x !in a
    ensures |a + b| == |a| + |b|
  {
    assert a * b == {};
  }

  /** Marking a range none of whose slots a listed name occupied grows that
      name's set for the day by exactly the length of the range. */
  lemma MarkRangeGrowsListed(m: map<string, Week>, names: seq<string>, name: string, day: nat, lo: nat, hi: nat)
    requires WellFormed(m) && day < NumDays && name in names && lo < hi
    requires forall t :: lo <= t < hi ==> t !in WeekOf(m, name)[day]
    ensures var r := MarkRange(m, names, day, lo, hi);
      name in r && |r[name][day]| == |WeekOf(m, name)[day]| + (hi - lo)
  {
    var r := MarkRange(m, names, day, lo, hi);
    MarkRangeOfListed(m, names, name, day, lo, hi);
    GrowsByRun(r[name][day], WeekOf(m, name)[day], lo, hi);
  }

  /** A listed name gets the whole range added to its set for the day. */
  lemma MarkRangeOfListed(m: map<string, Week>, names: seq<string>, name: string, day: nat, lo: nat, hi: nat)
    requires WellFormed(m) && day < NumDays && name in names && lo < hi
    ensures var r := MarkRange(m, names, day, lo, hi);
      name in r && r[name][day] == WeekOf(m, name)[day] + SlotsBetween(lo, hi)
  {
    MarkRangeEffect(m, names, day, lo, hi);
  }
}
