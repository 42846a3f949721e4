/** Catch-up of one schedule template: what a coordinator tick does to (available_at, last_fired_at),
    and what holds over every history of ticks, pauses, resumes and upserts. */
module Catchup {
  import opened Basics
  import opened CronSlots

  datatype Template = Template(
    scheduled: bool,
    availableAt: Instant,
    lastFiredAt: Option<Instant>,
    createdAt: Option<Instant>,
    maxCatchup: int)

  datatype Outcome = SkippedAll | SkippedExcess | RateLimited | Fired(slot: Instant)

  /** `max_catchup as usize`: a negative limit becomes a huge one. */
  function Limit(maxCatchup: int): int {
    if maxCatchup < 0 then maxCatchup + 0x1_0000_0000_0000_0000 else maxCatchup
  }

  /** `last_fired_at.or(created_at).unwrap_or(current_fire_at)` */
  function Cursor(t: Template): Instant {
    t.lastFiredAt.Or(t.createdAt).GetOr(t.availableAt)
  }

  function Missed(c: Cron, t: Template, now: Instant): nat {
    |TakeUpTo(c, Cursor(t), now)|
  }

  function TickOutcome(c: Cron, t: Template, now: Instant, allowed: bool): Outcome {
    if t.maxCatchup == 0 then SkippedAll
    else if Missed(c, t, now) > Limit(t.maxCatchup) then SkippedExcess
    else if !allowed then RateLimited
    else Fired(t.availableAt)
  }

  /** A database i32; the limit is at least 1 unless it is exactly 0. */
  predicate ValidLimit(maxCatchup: int) {
    -0x8000_0000 <= maxCatchup < 0x8000_0000
  }

  /** One processing of a due template. */
  function Tick(c: Cron, t: Template, now: Instant, allowed: bool): Template
    requires ValidLimit(t.maxCatchup)
  {
    match TickOutcome(c, t, now, allowed)
    case SkippedAll => t.(availableAt := After(c, now), lastFiredAt := Some(now))
    case SkippedExcess =>
      t.(availableAt := Nth(c, Cursor(t), Missed(c, t, now) - Limit(t.maxCatchup)), lastFiredAt := Some(now))
    case RateLimited => t
    case Fired(slot) => t.(availableAt := After(c, slot), lastFiredAt := Some(slot))
  }

  /** The other writers: pause keeps the times, resume and upsert look ahead from now and keep
      last_fired_at. */
  function PausedTemplate(t: Template): Template {
    t.(scheduled := false)
  }

  function ResumedTemplate(c: Cron, t: Template, now: Instant): Template {
    t.(scheduled := true, availableAt := After(c, now))
  }

  function UpsertedTemplate(c: Cron, t: Template, now: Instant, maxCatchup: int, enabled: bool): Template {
    t.(scheduled := enabled, availableAt := After(c, now), maxCatchup := maxCatchup)
  }

  function CreatedTemplate(c: Cron, now: Instant, maxCatchup: int, enabled: bool): Template {
    Template(enabled, After(c, now), None, Some(now), maxCatchup)
  }

  // ----- Skip precision -----

  /** A skip lands on one of the missed slots, after the cursor and not after now, and leaves exactly
      the most recent `max_catchup` of them to be caught up. */
  lemma SkipPrecision(c: Cron, t: Template, now: Instant, allowed: bool)
    requires ValidLimit(t.maxCatchup) && TickOutcome(c, t, now, allowed).SkippedExcess?
    ensures var missed := TakeUpTo(c, Cursor(t), now);
            var skipTo := Tick(c, t, now, allowed).availableAt;
            var kept := Limit(t.maxCatchup);
            && 1 <= kept < |missed|
            && skipTo == missed[|missed| - kept]
            && Cursor(t) < skipTo <= now
            && Backlog(c, skipTo, now) == missed[|missed| - kept..]
  {
    var kept := Limit(t.maxCatchup);
    var target := SkipTarget(c, t, now, allowed);
    BacklogFromSlot(c, target, now);
    UpToCounts(c, now, target);
    UpToCounts(c, Cursor(t), target);
  }

  lemma SkipTarget(c: Cron, t: Template, now: Instant, allowed: bool) returns (target: nat)
    requires ValidLimit(t.maxCatchup) && TickOutcome(c, t, now, allowed).SkippedExcess?
    ensures TakeUpTo(c, Cursor(t), now) == Range(c, UpTo(c, Cursor(t)), UpTo(c, now))
    ensures target == UpTo(c, now) - Limit(t.maxCatchup) > UpTo(c, Cursor(t))
    ensures Tick(c, t, now, allowed).availableAt == c(target)
  {
    TakeIsRange(c, Cursor(t), now);
    target := UpTo(c, now) - Limit(t.maxCatchup);
    NthIsIndexed(c, Cursor(t), Missed(c, t, now) - Limit(t.maxCatchup));
  }

  /** A negative limit skips only beyond some 2^64 missed slots: it stands for no limit. */
  lemma NegativeLimitSkipsBeyondItsImage(c: Cron, t: Template, now: Instant, allowed: bool)
    requires ValidLimit(t.maxCatchup) && t.maxCatchup < 0
    ensures var outcome := TickOutcome(c, t, now, allowed);
            && !outcome.SkippedAll?
            && (outcome.SkippedExcess? <==> Missed(c, t, now) > 0x1_0000_0000_0000_0000 + t.maxCatchup)
    ensures 0x1_0000_0000_0000_0000 + t.maxCatchup >= 0xFFFF_FFFF_8000_0000
  {
  }

  // ----- Pause and resume -----

  /** Resuming looks ahead from now but keeps last_fired_at, so the slots of the pause still count as
      missed. The first tick after it goes back to a slot of the pause if and only if the missed slots,
      those of the pause included, exceed the limit and those since the resume fall short of it. */
  lemma ResumeReplaysThePause(c: Cron, t: Template, resumedAt: Instant, now: Instant, allowed: bool)
    requires ValidLimit(t.maxCatchup) && t.maxCatchup != 0 && t.createdAt.Some?
    requires Cursor(t) <= resumedAt && ResumedTemplate(c, t, resumedAt).availableAt <= now
    ensures var resumed := ResumedTemplate(c, t, resumedAt);
            Tick(c, resumed, now, allowed).availableAt <= resumedAt
            <==> Missed(c, resumed, now) > Limit(t.maxCatchup) > |TakeUpTo(c, resumedAt, now)|
  {
    var resumed := ResumedTemplate(c, t, resumedAt);
    var n := UpTo(c, now);
    TakeIsRange(c, Cursor(t), now);
    TakeIsRange(c, resumedAt, now);
    UpToMonotone(c, Cursor(t), resumedAt);
    UpToMonotone(c, resumedAt, now);
    if TickOutcome(c, resumed, now, allowed).SkippedExcess? {
      NthIsIndexed(c, Cursor(t), Missed(c, resumed, now) - Limit(t.maxCatchup));
      UpToCounts(c, resumedAt, n - Limit(t.maxCatchup));
    }
  }

  // ----- Histories -----

  datatype Mark = FiredSlot(slot: Instant) | SkippedSlot(slot: Instant)

  /** One template through time. `fired` and `passed` record the instances asked for and every slot
      that available_at moved over in a tick. */
  datatype World = World(cron: Cron, template: Template, now: Instant, fired: seq<Instant>, passed: seq<Mark>)

  datatype Event =
    | Wait(micros: nat)
    | CoordinatorTick(allowed: bool)
    | Pause
    | Resume
    | Upsert(cron: Cron, maxCatchup: int, enabled: bool)

  predicate Processes(w: World) {
    w.template.scheduled && w.template.availableAt <= w.now
  }

  function SkipMarks(slots: seq<Instant>): (marks: seq<Mark>)
    ensures |marks| == |slots|
    ensures forall i :: 0 <= i < |slots| ==> marks[i] == SkippedSlot(slots[i])
  {
    seq(|slots|, i requires 0 <= i < |slots| => SkippedSlot(slots[i]))
  }

  function Apply(w: World, e: Event): World
    requires ValidLimit(w.template.maxCatchup)
  {
    match e
    case Wait(micros) => w.(now := w.now + micros)
    case CoordinatorTick(allowed) =>
      if !Processes(w) then w
      else
        var t' := Tick(w.cron, w.template, w.now, allowed);
        (match TickOutcome(w.cron, w.template, w.now, allowed)
         case RateLimited => w
         case Fired(slot) =>
           w.(template := t', fired := w.fired + [slot], passed := w.passed + [FiredSlot(slot)])
         case _ =>
           w.(template := t',
           passed := w.passed + SkipMarks(TakeUpTo(w.cron, w.template.availableAt - 1, t'.availableAt - 1))))
    case Pause => w.(template := PausedTemplate(w.template))
    case Resume => w.(template := ResumedTemplate(w.cron, w.template, w.now))
    case Upsert(cron, maxCatchup, enabled) =>
      w.(cron := cron, template := UpsertedTemplate(cron, w.template, w.now, maxCatchup, enabled))
  }

  ghost predicate ValidEvents(es: seq<Event>) {
    forall i :: 0 <= i < |es| && es[i].Upsert? ==> ValidLimit(es[i].maxCatchup)
  }

  /** No pause, resume or upsert. */
  predicate OnlyTicks(es: seq<Event>) {
    forall i :: 0 <= i < |es| ==> es[i].Wait? || es[i].CoordinatorTick?
  }

  ghost function Final(w: World, es: seq<Event>): World
    requires ValidLimit(w.template.maxCatchup) && ValidEvents(es)
    decreases |es|
  {
    if es == [] then w
    else
      assert es[0].Upsert? ==> ValidLimit(es[0].maxCatchup);
      assert ValidEvents(es[1..]) by {
        assert forall i :: 0 <= i < |es[1..]| ==> es[1..][i] == es[i + 1];
      }
      Final(Apply(w, es[0]), es[1..])
  }

  function Start(c: Cron, created: Instant, maxCatchup: int, enabled: bool): World {
    World(c, CreatedTemplate(c, created, maxCatchup, enabled), created, [], [])
  }

  // ----- No slot fires twice -----

  predicate StrictlyIncreasing(s: seq<Instant>) {
    forall i, j :: 0 <= i < j < |s| ==> s[i] < s[j]
  }

  /** Everything fired lies before available_at, and not after now or last_fired_at. */
  predicate FiredBehind(w: World) {
    && StrictlyIncreasing(w.fired)
    && forall i :: 0 <= i < |w.fired| ==>
         && w.fired[i] < w.template.availableAt
         && w.fired[i] <= w.now
         && w.template.lastFiredAt.Some? && w.fired[i] <= w.template.lastFiredAt.value
  }

  lemma FiredBehindStep(w: World, e: Event)
    requires ValidLimit(w.template.maxCatchup) && FiredBehind(w)
    ensures FiredBehind(Apply(w, e))
  {
    if e.CoordinatorTick? && Processes(w) && TickOutcome(w.cron, w.template, w.now, e.allowed).SkippedExcess? {
      SkipPrecision(w.cron, w.template, w.now, e.allowed);
    }
  }

  /** Over every history, cron changes included, the slots asked for strictly increase: none fires twice. */
  lemma {:induction false} NoSlotFiresTwice(w: World, es: seq<Event>)
    requires ValidLimit(w.template.maxCatchup) && ValidEvents(es) && FiredBehind(w)
    ensures FiredBehind(Final(w, es))
    ensures StrictlyIncreasing(Final(w, es).fired)
    decreases |es|
  {
    if es != [] {
      FiredBehindStep(w, es[0]);
      assert es[0].Upsert? ==> ValidLimit(es[0].maxCatchup);
      assert forall i :: 0 <= i < |es[1..]| ==> es[1..][i] == es[i + 1];
      NoSlotFiresTwice(Apply(w, es[0]), es[1..]);
    }
  }

  /** While nobody resumes or upserts it, a paused schedule asks for nothing and stays where it was. */
  lemma {:induction false} PausedFiresNothing(w: World, es: seq<Event>)
    requires ValidLimit(w.template.maxCatchup) && ValidEvents(es) && !w.template.scheduled
    requires forall i :: 0 <= i < |es| ==> !es[i].Resume? && !es[i].Upsert?
    ensures Final(w, es).fired == w.fired && Final(w, es).template == w.template
    decreases |es|
  {
    if es != [] {
      assert !es[0].Resume? && !es[0].Upsert?;
      assert forall i :: 0 <= i < |es[1..]| ==> es[1..][i] == es[i + 1];
      PausedFiresNothing(Apply(w, es[0]), es[1..]);
    }
  }

  // ----- Slot accounting -----

  function SlotsOf(marks: seq<Mark>): (r: seq<Instant>)
    ensures |r| == |marks|
    ensures forall i :: 0 <= i < |marks| ==> r[i] == marks[i].slot
  {
    seq(|marks|, i requires 0 <= i < |marks| => marks[i].slot)
  }

  function FiredOf(marks: seq<Mark>): seq<Instant> {
    if marks == [] then []
    else
      var last := marks[|marks| - 1];
      FiredOf(marks[..|marks| - 1]) + if last.FiredSlot? then [last.slot] else []
  }

  /** Index of available_at. */
  function Position(w: World): nat {
    UpTo(w.cron, w.template.availableAt - 1)
  }

  /** Two phases: either the cursor stands right before available_at, or a skip has set it `Limit`
      slots ahead. Every slot from `first` up to available_at is accounted for, in order. */
  predicate AccountedAt(w: World, first: nat, a: nat) {
    var k := UpTo(w.cron, Cursor(w.template));
    && w.template.availableAt == w.cron(a)
    && w.template.createdAt.Some?
    && first <= a
    && (k == a || k == a + Limit(w.template.maxCatchup))
    && SlotsOf(w.passed) == Range(w.cron, first, a)
    && FiredOf(w.passed) == w.fired
  }

  predicate Accounted(w: World, first: nat) {
    AccountedAt(w, first, Position(w))
  }

  lemma AccountedFrom(w: World, first: nat, a: nat)
    requires AccountedAt(w, first, a)
    ensures Position(w) == a && Accounted(w, first)
  {
    UpToBeforeSlot(w.cron, a);
  }

  lemma StartIsAccounted(c: Cron, created: Instant, maxCatchup: int, enabled: bool)
    ensures Accounted(Start(c, created, maxCatchup, enabled), UpTo(c, created))
  {
    UpToBeforeSlot(c, UpTo(c, created));
  }

  /** Where one processing of a template in either phase takes it. */
  lemma TickMoves(c: Cron, t: Template, now: Instant, allowed: bool, a: nat)
    requires ValidLimit(t.maxCatchup) && t.availableAt == c(a) && t.availableAt <= now
    requires UpTo(c, Cursor(t)) == a || UpTo(c, Cursor(t)) == a + Limit(t.maxCatchup)
    ensures var t' := Tick(c, t, now, allowed);
            var n := UpTo(c, now);
            var u := Limit(t.maxCatchup);
            match TickOutcome(c, t, now, allowed)
            case RateLimited => t' == t
            case SkippedAll => u == 0 && a < n && t'.availableAt == c(n) && UpTo(c, Cursor(t')) == n
            case SkippedExcess => u >= 1 && a + u < n && t'.availableAt == c(n - u) && UpTo(c, Cursor(t')) == n
            case Fired(slot) => u >= 1 && slot == c(a) && n <= a + u + u
                                && t'.availableAt == c(a + 1) && UpTo(c, Cursor(t')) == a + 1
  {
    var n := UpTo(c, now);
    TakeIsRange(c, Cursor(t), now);
    UpToCounts(c, now, a);
    match TickOutcome(c, t, now, allowed)
    case SkippedExcess =>
      NthIsIndexed(c, Cursor(t), Missed(c, t, now) - Limit(t.maxCatchup));
    case Fired(slot) =>
      UpToSlot(c, a);
    case _ =>
  }

  lemma {:induction false} FiredOfAppend(marks: seq<Mark>, more: seq<Mark>)
    requires forall i :: 0 <= i < |more| ==> more[i].SkippedSlot?
    ensures FiredOf(marks + more) == FiredOf(marks)
    decreases |more|
  {
    if more == [] {
      assert marks + more == marks;
    } else {
      var init := more[..|more| - 1];
      assert (marks + more)[..|marks + more| - 1] == marks + init;
      FiredOfAppend(marks, init);
    }
  }

  lemma SlotsOfAppend(marks: seq<Mark>, more: seq<Mark>)
    ensures SlotsOf(marks + more) == SlotsOf(marks) + SlotsOf(more)
  {
  }

  lemma SkipMarksSlots(slots: seq<Instant>)
    ensures SlotsOf(SkipMarks(slots)) == slots
  {
  }

  /** Passing over the slots from a to a' keeps the account. */
  lemma AccountedSkip(c: Cron, passed: seq<Mark>, first: nat, a: nat, a': nat, passed': seq<Mark>)
    requires first <= a <= a' && SlotsOf(passed) == Range(c, first, a)
    requires passed' == passed + SkipMarks(TakeUpTo(c, c(a) - 1, c(a') - 1))
    ensures SlotsOf(passed') == Range(c, first, a') && FiredOf(passed') == FiredOf(passed)
  {
    var slots := TakeUpTo(c, c(a) - 1, c(a') - 1);
    TakeIsRange(c, c(a) - 1, c(a') - 1);
    UpToBeforeSlot(c, a);
    UpToBeforeSlot(c, a');
    FiredOfAppend(passed, SkipMarks(slots));
    SlotsOfAppend(passed, SkipMarks(slots));
    SkipMarksSlots(slots);
    RangeJoin(c, first, a, a');
  }

  lemma FiredOfFire(marks: seq<Mark>, slot: Instant)
    ensures FiredOf(marks + [FiredSlot(slot)]) == FiredOf(marks) + [slot]
  {
    assert (marks + [FiredSlot(slot)])[..|marks|] == marks;
  }

  lemma OneSlot(c: Cron, a: nat)
    ensures SlotsOf([FiredSlot(c(a))]) == Range(c, a, a + 1)
  {
  }

  lemma AccountedFire(c: Cron, passed: seq<Mark>, first: nat, a: nat)
    requires first <= a && SlotsOf(passed) == Range(c, first, a)
    ensures SlotsOf(passed + [FiredSlot(c(a))]) == Range(c, first, a + 1)
    ensures FiredOf(passed + [FiredSlot(c(a))]) == FiredOf(passed) + [c(a)]
  {
    FiredOfFire(passed, c(a));
    SlotsOfAppend(passed, [FiredSlot(c(a))]);
    OneSlot(c, a);
    RangeJoin(c, first, a, a + 1);
  }

  lemma FireMoves(w: World, allowed: bool, first: nat)
    requires ValidLimit(w.template.maxCatchup) && Processes(w) && Accounted(w, first)
    requires TickOutcome(w.cron, w.template, w.now, allowed).Fired?
    ensures var a, t' := Position(w), Tick(w.cron, w.template, w.now, allowed);
            && TickOutcome(w.cron, w.template, w.now, allowed).slot == w.cron(a) && first <= a
            && t'.availableAt == w.cron(a + 1) && t'.createdAt.Some? && UpTo(w.cron, Cursor(t')) == a + 1
  {
    TickMoves(w.cron, w.template, w.now, allowed, Position(w));
  }

  lemma FireIsAccounted(w: World, allowed: bool, first: nat)
    requires ValidLimit(w.template.maxCatchup) && Processes(w) && Accounted(w, first)
    requires TickOutcome(w.cron, w.template, w.now, allowed).Fired?
    ensures Accounted(Apply(w, CoordinatorTick(allowed)), first)
  {
    var a, w' := Position(w), Apply(w, CoordinatorTick(allowed));
    FireMoves(w, allowed, first);
    assert w' == w.(template := Tick(w.cron, w.template, w.now, allowed), fired := w.fired + [w.cron(a)],
                    passed := w.passed + [FiredSlot(w.cron(a))]);
    AccountedFire(w.cron, w.passed, first, a);
    AccountedFrom(w', first, a + 1);
  }

  lemma SkipMoves(w: World, allowed: bool, first: nat) returns (a': nat)
    requires ValidLimit(w.template.maxCatchup) && Processes(w) && Accounted(w, first)
    requires var o := TickOutcome(w.cron, w.template, w.now, allowed); o.SkippedAll? || o.SkippedExcess?
    ensures var t' := Tick(w.cron, w.template, w.now, allowed);
            var k := UpTo(w.cron, Cursor(t'));
            && Position(w) <= a' && t'.availableAt == w.cron(a') && t'.createdAt.Some?
            && (k == a' || k == a' + Limit(t'.maxCatchup))
  {
    TickMoves(w.cron, w.template, w.now, allowed, Position(w));
    a' := UpTo(w.cron, w.now) - Limit(w.template.maxCatchup);
  }

  lemma SkipIsAccounted(w: World, allowed: bool, first: nat)
    requires ValidLimit(w.template.maxCatchup) && Processes(w) && Accounted(w, first)
    requires var o := TickOutcome(w.cron, w.template, w.now, allowed); o.SkippedAll? || o.SkippedExcess?
    ensures Accounted(Apply(w, CoordinatorTick(allowed)), first)
  {
    var a := Position(w);
    var a' := SkipMoves(w, allowed, first);
    var t' := Tick(w.cron, w.template, w.now, allowed);
    var w' := Apply(w, CoordinatorTick(allowed));
    assert w'.cron == w.cron && w'.template == t' && w'.fired == w.fired;
    AccountedSkip(w.cron, w.passed, first, a, a', w'.passed);
    AccountedFrom(w', first, a');
  }

  lemma AccountedTick(w: World, allowed: bool, first: nat)
    requires ValidLimit(w.template.maxCatchup) && Processes(w) && Accounted(w, first)
    ensures Accounted(Apply(w, CoordinatorTick(allowed)), first)
  {
    match TickOutcome(w.cron, w.template, w.now, allowed)
    case RateLimited =>
    case Fired(_) => FireIsAccounted(w, allowed, first);
    case _ => SkipIsAccounted(w, allowed, first);
  }

  lemma AccountedStep(w: World, e: Event, first: nat)
    requires ValidLimit(w.template.maxCatchup) && (e.Wait? || e.CoordinatorTick?) && Accounted(w, first)
    ensures Accounted(Apply(w, e), first) && Apply(w, e).template.maxCatchup == w.template.maxCatchup
  {
    if e.CoordinatorTick? && Processes(w) {
      AccountedTick(w, e.allowed, first);
    }
  }

  /** Without pause, resume or upsert, every slot between creation and available_at was either asked for
      or passed over by a skip, exactly once and in order. */
  lemma {:induction false} SlotAccounting(w: World, es: seq<Event>, first: nat)
    requires ValidLimit(w.template.maxCatchup) && OnlyTicks(es) && ValidEvents(es) && Accounted(w, first)
    ensures Accounted(Final(w, es), first)
    decreases |es|
  {
    if es != [] {
      AccountedStep(w, es[0], first);
      assert forall i :: 0 <= i < |es[1..]| ==> es[1..][i] == es[i + 1];
      SlotAccounting(Apply(w, es[0]), es[1..], first);
    }
  }

  lemma {:induction false} AllFired(marks: seq<Mark>)
    requires forall i :: 0 <= i < |marks| ==> marks[i].FiredSlot?
    ensures FiredOf(marks) == SlotsOf(marks)
  {
    if marks != [] {
      AllFired(marks[..|marks| - 1]);
      assert SlotsOf(marks) == SlotsOf(marks[..|marks| - 1]) + [marks[|marks| - 1].slot];
    }
  }

  /** No processed tick finds more missed slots than the limit allows. */
  ghost predicate KeepsUp(w: World, es: seq<Event>)
    requires ValidLimit(w.template.maxCatchup) && OnlyTicks(es)
    decreases |es|
  {
    es != [] ==>
      && (es[0].CoordinatorTick? && Processes(w) ==>
            w.template.maxCatchup != 0 && Missed(w.cron, w.template, w.now) <= Limit(w.template.maxCatchup))
      && (assert es[0].Wait? || es[0].CoordinatorTick?;
          assert forall i :: 0 <= i < |es[1..]| ==> es[1..][i] == es[i + 1];
          KeepsUp(Apply(w, es[0]), es[1..]))
  }

  lemma {:induction false} NothingSkipped(w: World, es: seq<Event>)
    requires ValidLimit(w.template.maxCatchup) && OnlyTicks(es) && ValidEvents(es) && KeepsUp(w, es)
    requires forall i :: 0 <= i < |w.passed| ==> w.passed[i].FiredSlot?
    ensures forall i :: 0 <= i < |Final(w, es).passed| ==> Final(w, es).passed[i].FiredSlot?
    decreases |es|
  {
    if es != [] {
      assert es[0].Wait? || es[0].CoordinatorTick?;
      assert forall i :: 0 <= i < |es[1..]| ==> es[1..][i] == es[i + 1];
      NothingSkipped(Apply(w, es[0]), es[1..]);
    }
  }

  /** A template that keeps up asks for every slot from its creation to available_at, each once, in order.
      Whether a slot gets its run is for the tables to say. */
  lemma NoSlotIsLost(c: Cron, created: Instant, maxCatchup: int, enabled: bool, es: seq<Event>)
    requires ValidLimit(maxCatchup) && OnlyTicks(es) && ValidEvents(es)
    requires KeepsUp(Start(c, created, maxCatchup, enabled), es)
    ensures var w := Final(Start(c, created, maxCatchup, enabled), es);
            && w.template.availableAt == w.cron(Position(w))
            && w.fired == Range(w.cron, UpTo(c, created), Position(w))
  {
    var start := Start(c, created, maxCatchup, enabled);
    StartIsAccounted(c, created, maxCatchup, enabled);
    SlotAccounting(start, es, UpTo(c, created));
    NothingSkipped(start, es);
    AllFired(Final(start, es).passed);
  }

  // ----- Backlog bound -----

  /** After any tick that processes the template, at most 2 * limit - 1 slots are still waiting, and
      none when the limit is zero. */
  lemma BacklogBound(c: Cron, created: Instant, maxCatchup: int, enabled: bool, es: seq<Event>, allowed: bool)
    requires ValidLimit(maxCatchup) && OnlyTicks(es) && ValidEvents(es)
    requires var w := Final(Start(c, created, maxCatchup, enabled), es);
             ValidLimit(w.template.maxCatchup) && Processes(w)
             && !TickOutcome(w.cron, w.template, w.now, allowed).RateLimited?
    ensures var w := Final(Start(c, created, maxCatchup, enabled), es);
            var left := Backlog(w.cron, Tick(w.cron, w.template, w.now, allowed).availableAt, w.now);
            if Limit(w.template.maxCatchup) == 0 then left == [] else |left| <= 2 * Limit(w.template.maxCatchup) - 1
  {
    var start := Start(c, created, maxCatchup, enabled);
    StartIsAccounted(c, created, maxCatchup, enabled);
    SlotAccounting(start, es, UpTo(c, created));
    BacklogAfterTick(Final(start, es), UpTo(c, created), allowed);
  }

  lemma BacklogAfterTick(w: World, first: nat, allowed: bool)
    requires ValidLimit(w.template.maxCatchup) && Processes(w) && Accounted(w, first)
    requires !TickOutcome(w.cron, w.template, w.now, allowed).RateLimited?
    ensures var left := Backlog(w.cron, Tick(w.cron, w.template, w.now, allowed).availableAt, w.now);
            if Limit(w.template.maxCatchup) == 0 then left == [] else |left| <= 2 * Limit(w.template.maxCatchup) - 1
  {
    var a, n, u := Position(w), UpTo(w.cron, w.now), Limit(w.template.maxCatchup);
    TickMoves(w.cron, w.template, w.now, allowed, a);
    match TickOutcome(w.cron, w.template, w.now, allowed)
    case SkippedAll => BacklogFromSlot(w.cron, n, w.now);
    case SkippedExcess => BacklogFromSlot(w.cron, n - u, w.now);
    case Fired(slot) => BacklogFromSlot(w.cron, a + 1, w.now);
  }
}
