/** The ready-gated scan of the background rotation service: starting at the
    current index, skip slots whose tabs have not finished loading until a ready
    slot turns up, or until the scan reaches the last slot while no slot at all is
    ready, which is where the service backs off. */
module ReadyScan {
  import opened Models

  /** A slot can be shown when its primary or its replacement tab has loaded. */
  predicate IsReady(t: TabConfig) {
    t.tabIdReady || t.nextTabIdReady
  }

  /** An index holding a ready slot (indices past the end hold nothing). */
  predicate ReadyAt(tabs: seq<TabConfig>, i: nat) {
    i < |tabs| && IsReady(tabs[i])
  }

  /** Some slot of the rotation can be shown. */
  predicate AnyReady(tabs: seq<TabConfig>) {
    exists j :: 0 <= j < |tabs| && IsReady(tabs[j])
  }

  /** The index after `i` in a rotation of `len` slots. */
  function Advance(i: nat, len: nat): (r: nat)
    requires len > 0
    ensures r < len
    ensures i < len ==> r == if i + 1 < len then i + 1 else 0
  {
    (i + 1) % len
  }

  /** Number of advances that take index `i` to index `j` going round a rotation of `len` slots. */
  function Dist(len: nat, i: nat, j: nat): nat
    requires i < len && j < len
  {
    if i <= j then j - i else len - i + j
  }

  datatype ScanResult =
      /** the slot at `index` is ready; reached after `advances` advances */
    | Found(index: nat, advances: nat)
      /** nothing is ready and the scan stands on the last slot: wait, then scan again */
    | BackOff(index: nat, advances: nat)
      /** a full lap passed without either; never the case (ScanCompletesWithinLap) */
    | LapExhausted(index: nat)

  /** The scan from index `i`, after `k` advances already made. */
  function Scan(tabs: seq<TabConfig>, i: nat, k: nat): (r: ScanResult)
    requires |tabs| > 0 && k <= |tabs|
    decreases |tabs| - k
    ensures r.index < |tabs|
    ensures r.Found? ==> ReadyAt(tabs, r.index) && k <= r.advances <= |tabs|
    ensures r.Found? && i < |tabs| ==> r.advances == k + Dist(|tabs|, i, r.index)
    ensures r.Found? && i < |tabs| ==>
              forall m :: 0 <= m < |tabs| && Dist(|tabs|, i, m) < Dist(|tabs|, i, r.index) ==> !IsReady(tabs[m])
    ensures r.BackOff? ==> r.index == |tabs| - 1 && !AnyReady(tabs) && k < r.advances <= |tabs| + 1
    ensures r.BackOff? && i < |tabs| ==> r.advances == k + 1 + Dist(|tabs|, Advance(i, |tabs|), |tabs| - 1)
  {
    if ReadyAt(tabs, i) then Found(i, k)
    else
      var next := Advance(i, |tabs|);
      if next + 1 == |tabs| && !AnyReady(tabs) then BackOff(next, k + 1)
      else if k == |tabs| then LapExhausted(next)
      else Scan(tabs, next, k + 1)
  }

  /** When some slot is ready, the scan finds one within the advances left. */
  lemma {:induction false} ScanFindsReady(tabs: seq<TabConfig>, i: nat, k: nat, j: nat)
    requires |tabs| > 0 && k <= |tabs|
    requires i < |tabs| && ReadyAt(tabs, j)
    requires Dist(|tabs|, i, j) <= |tabs| - k
    ensures Scan(tabs, i, k).Found?
    decreases |tabs| - k
  {
    if !ReadyAt(tabs, i) {
      var next := Advance(i, |tabs|);
      assert AnyReady(tabs) by { assert IsReady(tabs[j]); }
      assert Dist(|tabs|, next, j) == Dist(|tabs|, i, j) - 1;
      ScanFindsReady(tabs, next, k + 1, j);
    }
  }

  /** When no slot is ready, the scan reaches the back-off point within the advances left. */
  lemma {:induction false} ScanBacksOff(tabs: seq<TabConfig>, i: nat, k: nat)
    requires |tabs| > 0 && k <= |tabs|
    requires i < |tabs| && !AnyReady(tabs)
    requires Dist(|tabs|, Advance(i, |tabs|), |tabs| - 1) <= |tabs| - k
    ensures Scan(tabs, i, k).BackOff?
    decreases |tabs| - k
  {
    var next := Advance(i, |tabs|);
    if next + 1 != |tabs| {
      assert Dist(|tabs|, Advance(next, |tabs|), |tabs| - 1) == Dist(|tabs|, next, |tabs| - 1) - 1;
      ScanBacksOff(tabs, next, k + 1);
    }
  }

  /** From any start index one lap suffices: the scan lands on a ready slot exactly
      when some slot is ready, and otherwise on the back-off point. */
  lemma ScanCompletesWithinLap(tabs: seq<TabConfig>, i: nat)
    requires |tabs| > 0
    ensures AnyReady(tabs) <==> Scan(tabs, i, 0).Found?
    ensures !AnyReady(tabs) <==> Scan(tabs, i, 0).BackOff?
    ensures !Scan(tabs, i, 0).LapExhausted?
  {
    var len := |tabs|;
    if AnyReady(tabs) {
      var j :| 0 <= j < len && IsReady(tabs[j]);
      if i < len {
        ScanFindsReady(tabs, i, 0, j);
      } else {
        ScanFindsReady(tabs, Advance(i, len), 1, j);
      }
    } else {
      if i < len {
        ScanBacksOff(tabs, i, 0);
      } else if Advance(i, len) + 1 != len {
        ScanBacksOff(tabs, Advance(i, len), 1);
      }
    }
  }
}
