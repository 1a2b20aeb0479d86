/** The sliced condition wait of a generated UI Automator test (`bajutsu/codegen/uiautomator.py`), on API 34 and up:
    a deadline loop over a clock and a poll it does not control. */
module SlicedWait {

  /** The longest time one poll may take. */
  const SLICE := 500

  /** What the loop meets: the clock at the start, before and after poll `k`, and what poll `k` found. */
  datatype Device = Device(start: int, before: nat -> int, after: nat -> int, holds: nat -> bool)

  function Clamp(x: int): (y: nat)
    ensures y <= SLICE
  {
    if x < 0 then 0 else if x > SLICE then SLICE else x
  }

  /** What poll `k` is asked to wait for at most: the rest of the budget, up to a slice. */
  function Asked(d: Device, deadline: int, k: nat): nat {
    Clamp(deadline - d.before(k))
  }

  /** The clock never goes back, and a poll that fails has spent its slice. */
  ghost predicate Fair(d: Device, deadline: int) {
    && d.start <= d.before(0)
    && (forall k: nat :: d.before(k) <= d.after(k) <= d.before(k + 1))
    && (forall k: nat :: !d.holds(k) ==> d.after(k) >= d.before(k) + Asked(d, deadline, k))
  }

  /** Poll `k` failed, with time left before it. */
  ghost predicate FailedEarly(d: Device, deadline: int, k: nat) {
    !d.holds(k) && d.after(k) < deadline && d.after(k) >= d.start + (k + 1) * SLICE
  }

  /** A poll that fails without reaching the deadline has spent a whole slice. */
  lemma WholeSlice(d: Device, deadline: int, k: nat)
    requires Fair(d, deadline) && !d.holds(k) && d.after(k) < deadline
    requires k > 0 ==> FailedEarly(d, deadline, k - 1)
    ensures FailedEarly(d, deadline, k)
  {
    assert d.after(k) >= d.before(k) + Asked(d, deadline, k);
    if k > 0 {
      assert d.after(k - 1) <= d.before(k - 1 + 1);
    }
  }

  /** `waitSliced`: polls before it looks at the deadline, returns at the first poll that holds, gives up only at or
      past the deadline, and polls at most once for each slice begun. */
  method WaitSliced(d: Device, timeout: nat) returns (ok: bool, polls: nat)
    requires Fair(d, d.start + timeout)
    ensures polls >= 1
    ensures ok <==> d.holds(polls - 1)
    ensures forall k :: 0 <= k < polls - 1 ==> !d.holds(k) && d.after(k) < d.start + timeout
    ensures !ok ==> d.after(polls - 1) >= d.start + timeout
    ensures polls == 1 || (polls - 1) * SLICE < timeout
  {
    var deadline := d.start + timeout;
    polls := 0;
    while true
      invariant forall k :: 0 <= k < polls ==> !d.holds(k) && d.after(k) < deadline
      invariant polls > 0 ==> FailedEarly(d, deadline, polls - 1)
      decreases timeout - polls * SLICE
    {
      var remaining := deadline - d.before(polls);
      polls := polls + 1;
      if d.holds(polls - 1) {
        return true, polls;
      }
      if d.after(polls - 1) >= deadline {
        return false, polls;
      }
      WholeSlice(d, deadline, polls - 1);
    }
  }

  /** No poll is asked for more than what is left of the budget. */
  lemma NeverBeyondBudget(d: Device, timeout: nat, k: nat)
    requires Fair(d, d.start + timeout)
    ensures Asked(d, d.start + timeout, k) <= timeout
    ensures d.before(k) <= d.start + timeout ==> d.before(k) + Asked(d, d.start + timeout, k) <= d.start + timeout
  {
    NotBeforeStart(d, d.start + timeout, k);
  }

  lemma {:induction false} NotBeforeStart(d: Device, deadline: int, k: nat)
    requires Fair(d, deadline)
    ensures d.start <= d.before(k)
  {
    if k > 0 {
      NotBeforeStart(d, deadline, k - 1);
      assert d.after(k - 1) <= d.before(k - 1 + 1);
    }
  }
}
