/** Maximal runs of set flags: the streaks that a left-to-right scan reports. */
module Runs {

  /** The indices `start` to `end - 1`. */
  datatype Run = Run(start: nat, end: nat)

  ghost predicate IsMaximal(flags: seq<bool>, r: Run) {
    && r.start < r.end <= |flags|
    && (forall i | r.start <= i < r.end :: flags[i])
    && (r.start == 0 || !flags[r.start - 1])
    && (r.end == |flags| || !flags[r.end])
  }

  /** The length of the streak that ends just before index `i`. */
  function Streak(flags: seq<bool>, i: nat): (n: nat)
    requires i <= |flags|
    ensures n <= i && (forall j | i - n <= j < i :: flags[j])
    ensures n < i ==> !flags[i - n - 1]
  {
    if i == 0 || !flags[i - 1] then 0 else Streak(flags, i - 1) + 1
  }

  /** The streaks of at least `min` flags that a scan up to index `upto` has seen end;
      the scan goes one index past the last flag. */
  function Scan(flags: seq<bool>, min: nat, upto: nat): (runs: seq<Run>)
    requires 1 <= min && upto <= |flags| + 1
  {
    if upto == 0 then []
    else
      var i := upto - 1;
      Scan(flags, min, i) +
      if (i == |flags| || !flags[i]) && Streak(flags, i) >= min
      then [Run(i - Streak(flags, i), i)] else []
  }

  function All(flags: seq<bool>, min: nat): seq<Run>
    requires 1 <= min
  {
    Scan(flags, min, |flags| + 1)
  }

  /** `r` is a maximal run of at least `min` flags that ends before `upto`. */
  ghost predicate Reportable(flags: seq<bool>, min: nat, upto: nat, r: Run) {
    IsMaximal(flags, r) && r.end - r.start >= min && r.end < upto
  }

  ghost predicate Separated(runs: seq<Run>) {
    forall k, l | 0 <= k < l < |runs| :: runs[k].end < runs[l].start
  }

  /** `n` flags in a row are set just before index `i`, and no more than `n`. */
  ghost predicate EndsStreak(flags: seq<bool>, i: nat, n: nat) {
    n <= i <= |flags| && (forall j | i - n <= j < i :: flags[j]) && (n < i ==> !flags[i - n - 1])
  }

  lemma StreakIsMaximal(flags: seq<bool>, i: nat, n: nat)
    requires EndsStreak(flags, i, n) && n > 0 && (i == |flags| || !flags[i])
    ensures IsMaximal(flags, Run(i - n, i))
  {
  }

  lemma MaximalIsStreak(flags: seq<bool>, r: Run, n: nat)
    requires IsMaximal(flags, r) && EndsStreak(flags, r.end, n)
    ensures r.start == r.end - n
  {
  }

  lemma {:induction false} ScanSound(flags: seq<bool>, min: nat, upto: nat)
    requires 1 <= min && upto <= |flags| + 1
    ensures forall r | r in Scan(flags, min, upto) :: Reportable(flags, min, upto, r)
    ensures Separated(Scan(flags, min, upto))
  {
    if upto == 0 {
    } else {
      var i := upto - 1;
      ScanSound(flags, min, i);
      var runs, n := Scan(flags, min, i), Streak(flags, i);
      forall k | 0 <= k < |runs| ensures runs[k].end < i - n {
        assert Reportable(flags, min, i, runs[k]);
      }
      if (i == |flags| || !flags[i]) && n >= min {
        StreakIsMaximal(flags, i, n);
        assert Scan(flags, min, upto) == runs + [Run(i - n, i)];
      } else {
        assert Scan(flags, min, upto) == runs;
      }
    }
  }

  lemma {:induction false} ScanComplete(flags: seq<bool>, min: nat, upto: nat, r: Run)
    requires 1 <= min && upto <= |flags| + 1 && Reportable(flags, min, upto, r)
    ensures r in Scan(flags, min, upto)
  {
    if r.end < upto - 1 {
      ScanComplete(flags, min, upto - 1, r);
    } else {
      MaximalIsStreak(flags, r, Streak(flags, r.end));
    }
  }

  /** The scan reports exactly the maximal runs of at least `min` flags, each once, in
      ascending order with a gap between neighbours. */
  lemma ScanExact(flags: seq<bool>, min: nat)
    requires 1 <= min
    ensures forall r :: r in All(flags, min) <==> IsMaximal(flags, r) && r.end - r.start >= min
    ensures Separated(All(flags, min))
  {
    ScanSound(flags, min, |flags| + 1);
    forall r ensures r in All(flags, min) <==> IsMaximal(flags, r) && r.end - r.start >= min {
      if IsMaximal(flags, r) && r.end - r.start >= min {
        ScanComplete(flags, min, |flags| + 1, r);
      }
    }
  }
}
