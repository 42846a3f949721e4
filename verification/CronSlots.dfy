/** A cron expression as an unbounded, strictly increasing set of instants, and the iterator that the
    cron library offers over it. */
module CronSlots {
  import opened Basics

  predicate Rises(c: nat -> Instant, i: nat) {
    c(i) < c(i + 1)
  }

  ghost predicate Increasing(c: nat -> Instant) {
    forall i: nat :: Rises(c, i)
  }

  /** The slots in order. */
  type Cron = c: nat -> Instant | Increasing(c) witness ((i: nat) => i)

  lemma {:induction false} Ordered(c: Cron, i: nat, j: nat)
    ensures i < j ==> c(i) < c(j)
  {
    if i < j {
      assert Rises(c, j - 1);
      Ordered(c, i, j - 1);
    }
  }

  function FirstLater(c: Cron, t: Instant, from: nat): (n: nat)
    requires from > 0 ==> c(from - 1) <= t
    ensures from <= n && c(n) > t && (n > 0 ==> c(n - 1) <= t)
    decreases t - c(from)
  {
    if c(from) > t then from
    else
      assert Rises(c, from);
      FirstLater(c, t, from + 1)
  }

  /** The number of slots up to and including `t`; the index of the first slot after it. */
  function UpTo(c: Cron, t: Instant): (n: nat)
    ensures c(n) > t && (n > 0 ==> c(n - 1) <= t)
  {
    FirstLater(c, t, 0)
  }

  lemma UpToCounts(c: Cron, t: Instant, i: nat)
    ensures c(i) <= t <==> i < UpTo(c, t)
  {
    var n := UpTo(c, t);
    if i < n {
      Ordered(c, i, n - 1);
    } else {
      Ordered(c, n, i);
    }
  }

  lemma UpToUnique(c: Cron, t: Instant, n: nat)
    requires c(n) > t && (n > 0 ==> c(n - 1) <= t)
    ensures UpTo(c, t) == n
  {
    UpToCounts(c, t, n);
    if n > 0 {
      UpToCounts(c, t, n - 1);
    }
  }

  lemma UpToSlot(c: Cron, i: nat)
    ensures UpTo(c, c(i)) == i + 1
  {
    Ordered(c, i, i + 1);
    UpToUnique(c, c(i), i + 1);
  }

  lemma UpToBeforeSlot(c: Cron, i: nat)
    ensures UpTo(c, c(i) - 1) == i
  {
    if i > 0 {
      Ordered(c, i - 1, i);
    }
    UpToUnique(c, c(i) - 1, i);
  }

  lemma UpToMonotone(c: Cron, t: Instant, u: Instant)
    requires t <= u
    ensures UpTo(c, t) <= UpTo(c, u)
  {
    if UpTo(c, t) > 0 {
      UpToCounts(c, u, UpTo(c, t) - 1);
    }
  }

  /** `c.after(t).next()` */
  function After(c: Cron, t: Instant): (next: Instant)
    ensures next > t
  {
    c(UpTo(c, t))
  }

  /** It is the least slot after `t`. */
  lemma AfterIsLeast(c: Cron, t: Instant, i: nat)
    requires c(i) > t
    ensures After(c, t) <= c(i)
  {
    UpToCounts(c, t, i);
    Ordered(c, UpTo(c, t), i);
  }

  /** `c.after(t).take_while(|s| *s <= now)` */
  function TakeUpTo(c: Cron, t: Instant, now: Instant): seq<Instant>
    decreases now - t
  {
    var next := After(c, t);
    if next <= now then [next] + TakeUpTo(c, next, now) else []
  }

  /** `c.after(t).nth(n)` */
  function Nth(c: Cron, t: Instant, n: nat): Instant
    decreases n
  {
    if n == 0 then After(c, t) else Nth(c, After(c, t), n - 1)
  }

  /** Slots `from` (inclusive) to `to` (exclusive), by index. */
  function Range(c: Cron, from: nat, to: nat): (r: seq<Instant>)
    ensures |r| == if from <= to then to - from else 0
    ensures forall k :: 0 <= k < |r| ==> r[k] == c(from + k)
  {
    if from < to then seq(to - from, k requires 0 <= k => c(from + k)) else []
  }

  lemma RangeHead(c: Cron, from: nat, to: nat)
    requires from < to
    ensures Range(c, from, to) == [c(from)] + Range(c, from + 1, to)
  {
  }

  lemma RangeJoin(c: Cron, from: nat, mid: nat, to: nat)
    requires from <= mid <= to
    ensures Range(c, from, mid) + Range(c, mid, to) == Range(c, from, to)
  {
  }

  lemma {:induction false} TakeIsRange(c: Cron, t: Instant, now: Instant)
    ensures TakeUpTo(c, t, now) == Range(c, UpTo(c, t), UpTo(c, now))
    decreases now - t
  {
    var n := UpTo(c, t);
    UpToCounts(c, now, n);
    if After(c, t) <= now {
      UpToSlot(c, n);
      TakeIsRange(c, After(c, t), now);
      RangeHead(c, n, UpTo(c, now));
    }
  }

  lemma {:induction false} NthIsIndexed(c: Cron, t: Instant, n: nat)
    ensures Nth(c, t, n) == c(UpTo(c, t) + n)
    decreases n
  {
    if n > 0 {
      UpToSlot(c, UpTo(c, t));
      NthIsIndexed(c, After(c, t), n - 1);
    }
  }

  /** The slots in [from, now], in order. */
  function Backlog(c: Cron, from: Instant, now: Instant): seq<Instant> {
    TakeUpTo(c, from - 1, now)
  }

  lemma BacklogFromSlot(c: Cron, i: nat, now: Instant)
    ensures Backlog(c, c(i), now) == Range(c, i, UpTo(c, now))
  {
    TakeIsRange(c, c(i) - 1, now);
    UpToBeforeSlot(c, i);
  }
}
