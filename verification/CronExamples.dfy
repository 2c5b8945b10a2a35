/** Schedules that fire at given minutes of every hour, and two runs that show what the cron protocol does and does not do. */
module CronExamples {
  import opened Wrappers
  import opened Calendar
  import opened CronExpression
  import opened CronSearch
  import opened CronStore
  import opened CronProtocol

  function Range(from: int, count: nat): seq<int> {
    seq(count, i => from + i)
  }

  /** `m,m,... * * * *` */
  function EveryHourAt(minutes: seq<int>): Schedule {
    Schedule(Field(minutes, false), Field(Range(0, 24), true), Field(Range(1, 31), true),
             Field(Range(1, 12), true), Field(Range(0, 7), true))
  }

  lemma InRange(from: int, count: nat, v: int)
    requires from <= v < from + count
    ensures v in Range(from, count)
  {
    assert Range(from, count)[v - from] == v;
  }

  lemma EveryHourValid(minutes: seq<int>)
    requires minutes != [] && Ascending(minutes) && forall m :: m in minutes ==> 0 <= m < 60
    ensures ValidSchedule(EveryHourAt(minutes))
  {
    forall from, count: nat, v | from <= v < from + count ensures v in Range(from, count) { InRange(from, count, v); }
  }

  lemma EveryHourFires(minutes: seq<int>, t: int)
    ensures Fires(EveryHourAt(minutes), t) <==> t % MS_PER_MINUTE == 0 && t / MS_PER_MINUTE % 60 in minutes
  {
    var k := t / MS_PER_MINUTE;
    InRange(1, 12, CivilOf(k / MINUTES_PER_DAY).month);
    InRange(0, 24, HourOf(k));
  }

  /** The instant of minute `m`, counted from the start of hour `base`. */
  function MinuteOf(base: int, m: int): int {
    MS_PER_MINUTE * (60 * base + m)
  }

  lemma FiresAtMinute(minutes: seq<int>, base: int, m: int)
    requires 0 <= m < 60
    ensures Fires(EveryHourAt(minutes), MinuteOf(base, m)) <==> m in minutes
  {
    EveryHourFires(minutes, MinuteOf(base, m));
    assert MinuteOf(base, m) / MS_PER_MINUTE == 60 * base + m;
    DivMod60(base, m);
  }

  /** Within an hour the next listed minute is the next fire. */
  lemma NextInHour(minutes: seq<int>, base: int, m: int, n: int)
    requires 0 <= m < n < 60 && n in minutes && forall v :: m < v < n ==> v !in minutes
    ensures IsNextFire(EveryHourAt(minutes), MinuteOf(base, m), MinuteOf(base, n))
  {
    FiresAtMinute(minutes, base, n);
    forall u | MinuteOf(base, m) < u < MinuteOf(base, n) ensures !Fires(EveryHourAt(minutes), u) {
      if u % MS_PER_MINUTE == 0 {
        var v := u / MS_PER_MINUTE - 60 * base;
        assert u == MinuteOf(base, v);
        FiresAtMinute(minutes, base, v);
      }
    }
  }

  /** A minute of the next hour is the next fire after the last one listed. */
  lemma NextHour(m: int, base: int)
    requires 0 <= m < 60
    ensures IsNextFire(EveryHourAt([m]), MinuteOf(base, m), MinuteOf(base + 1, m))
  {
    FiresAtMinute([m], base + 1, m);
    forall u | MinuteOf(base, m) < u < MinuteOf(base + 1, m) ensures !Fires(EveryHourAt([m]), u) {
      if u % MS_PER_MINUTE == 0 {
        var v := u / MS_PER_MINUTE - 60 * base;
        if v < 60 {
          assert u == MinuteOf(base, v);
          FiresAtMinute([m], base, v);
        } else {
          assert u == MinuteOf(base + 1, v - 60);
          FiresAtMinute([m], base + 1, v - 60);
        }
      }
    }
  }

  /** The instant of an hour and minute of a day. */
  function At(day: int, hour: int, minute: int): int {
    MinuteOf(24 * day + hour, minute)
  }

  const QUARTERS := [0, 15, 30, 45]

  lemma IsQuarter(v: int)
    ensures v in QUARTERS <==> v == 0 || v == 15 || v == 30 || v == 45
  {
    assert QUARTERS[0] == 0 && QUARTERS[1] == 15 && QUARTERS[2] == 30 && QUARTERS[3] == 45;
  }

  lemma QuartersValid()
    ensures ValidSchedule(EveryHourAt(QUARTERS))
  {
    EveryHourValid(QUARTERS);
  }

  lemma NextQuarter(base: int, m: int)
    requires m == 0 || m == 15 || m == 30
    ensures IsNextFire(EveryHourAt(QUARTERS), MinuteOf(base, m), MinuteOf(base, m + 15))
  {
    hide EveryHourAt;
    hide IsNextFire;
    hide QUARTERS;
    forall v ensures v in QUARTERS <==> v == 0 || v == 15 || v == 30 || v == 45 { IsQuarter(v); }
    NextInHour(QUARTERS, base, m, m + 15);
  }

  /**
   A quarter-hourly schedule on any day, after the 10:00 run, with the process down from 10:05 to 10:25:
   its stored slot is 10:15, which is what fires at 10:25. The 10:30 slot fires as well, at 10:30.
   */
  lemma OutageFiresTheMissedSlot(day: int)
    ensures ValidSchedule(EveryHourAt(QUARTERS))
    ensures IsNextFire(EveryHourAt(QUARTERS), At(day, 10, 0), At(day, 10, 15))
    ensures IsWindow(EveryHourAt(QUARTERS), At(day, 10, 15), At(day, 10, 25), At(day, 10, 15), At(day, 10, 30))
    ensures IsWindow(EveryHourAt(QUARTERS), At(day, 10, 30), At(day, 10, 30), At(day, 10, 30), At(day, 10, 45))
  {
    QuartersValid();
    hide ValidSchedule;
    hide IsNextFire;
    hide EveryHourAt;
    hide QUARTERS;
    var base := 24 * day + 10;
    NextQuarter(base, 0);
    NextQuarter(base, 15);
    NextQuarter(base, 30);
    assert MinuteOf(base, 25) < MinuteOf(base, 30) < MinuteOf(base, 45);
  }

  // ----- a re-sync that writes what it read long before -----

  const HOURLY := Expression("0 * * * *", EveryHourAt([0]))
  const HALF_PAST := Expression("30 * * * *", EveryHourAt([30]))
  const ONE_O_CLOCK := System(Db(map[], {}, []), MinuteOf(1, 0), 0, map[])

  /** Two syncs that both read the clock at 0:00: the first stores an hourly schedule, the second one at half past. */
  function FirstFire(): seq<Step> {
    SyncAndFire(1, "x", HOURLY, 0, MinuteOf(1, 0), 1, MinuteOf(1, 0), MinuteOf(2, 0))
  }

  function SecondFire(): seq<Step> {
    SyncAndFire(1, "x", HALF_PAST, 0, MinuteOf(0, 30), 1, MinuteOf(0, 30), MinuteOf(1, 30))
  }

  /** When a schedule that was just written is the first one due, it can be fired at once. */
  lemma CanSyncAndFire(
    s: System, w: nat, name: string, registered: Expression, readAt: int, written: int, leaseMs: int, fireAt: int, next: int)
    requires w !in s.workers && readAt <= s.clock && IsNextFire(registered.schedule, readAt, written)
    requires IsCandidate(Upsert(s.db, name, registered, written), s.clock, name)
    requires IsWindow(registered.schedule, written, s.clock, fireAt, next)
    ensures CanRun(s, SyncAndFire(w, name, registered, readAt, written, leaseMs, fireAt, next))
    ensures var t := RunSteps(s, SyncAndFire(w, name, registered, readAt, written, leaseMs, fireAt, next));
      && t.clock == s.clock && t.workers == s.workers
      && t.db.schedules.Keys == s.db.schedules.Keys + {name}
  {
    hide IsNextFire;
    hide IsWindow;
    hide IsCandidate;
    var a, b := SyncUpsert(name, registered, readAt, written), Claim(w, name, leaseMs);
    var c, d := Resolve(w, registered.schedule, fireAt, next), CommitWindow(w);
    var s1 := Apply(s, a);
    var s2 := Apply(s1, b);
    var s3 := Apply(s2, c);
    assert CanAdvance(s3.db, s3.workers[w].claimed);
    assert Apply(s3, d).workers == s.workers;
    CanRunOne(s3, d, []);
    CanRunOne(s2, c, [d]);
    CanRunOne(s1, b, [c, d]);
    CanRunOne(s, a, [b, c, d]);
    RunFour(s, a, b, c, d);
  }

  lemma CanRunOne(s: System, step: Step, more: seq<Step>)
    requires Enabled(s, step) && CanRun(Apply(s, step), more)
    ensures CanRun(s, [step] + more)
  {
    assert ([step] + more)[1..] == more;
  }

  lemma {:induction false} RunAppend(s: System, a: seq<Step>, b: seq<Step>)
    requires CanRun(s, a) && CanRun(RunSteps(s, a), b)
    ensures CanRun(s, a + b) && RunSteps(s, a + b) == RunSteps(RunSteps(s, a), b)
    decreases |a|
  {
    hide Apply;
    hide Enabled;
    if a == [] {
      assert a + b == b;
    } else {
      RunAppend(Apply(s, a[0]), a[1..], b);
      assert a + b == [a[0]] + (a[1..] + b);
      CanRunOne(s, a[0], a[1..] + b);
      RunOne(s, a[0], a[1..] + b);
    }
  }

  lemma OnlyCandidate(db: Db, expression: Expression, written: int, now: int)
    requires db.schedules.Keys <= {"x"} && written <= now
    ensures IsCandidate(Upsert(db, "x", expression, written), now, "x")
  {
  }

  lemma FirstFires()
    ensures CanRun(ONE_O_CLOCK, FirstFire())
    ensures var once := RunSteps(ONE_O_CLOCK, FirstFire());
      && once.db.jobs == [Run("x", MinuteOf(1, 0))] && once.db.schedules.Keys <= {"x"}
      && once.clock == MinuteOf(1, 0) && once.workers == map[]
  {
    FirstHour();
    NextHour(0, 1);
    hide MinuteOf;
    hide EveryHourAt;
    hide IsNextFire;
    hide CanRun;
    hide RunSteps;
    OnlyCandidate(ONE_O_CLOCK.db, HOURLY, MinuteOf(1, 0), MinuteOf(1, 0));
    CanSyncAndFire(ONE_O_CLOCK, 1, "x", HOURLY, 0, MinuteOf(1, 0), 1, MinuteOf(1, 0), MinuteOf(2, 0));
    SyncAndFireRecords(ONE_O_CLOCK, 1, "x", HOURLY, 0, MinuteOf(1, 0), 1, MinuteOf(1, 0), MinuteOf(2, 0));
  }

  lemma SecondFires(once: System)
    requires once.db.jobs == [Run("x", MinuteOf(1, 0))] && once.db.schedules.Keys <= {"x"}
    requires once.clock == MinuteOf(1, 0) && once.workers == map[] && OneJobPerRun(once.db)
    ensures CanRun(once, SecondFire()) && !Ascends(RunSteps(once, SecondFire()).db.jobs)
  {
    FirstHour();
    FirstHalfPast();
    NextHour(30, 0);
    hide MinuteOf;
    hide EveryHourAt;
    hide IsNextFire;
    hide CanRun;
    hide RunSteps;
    OnlyCandidate(once.db, HALF_PAST, MinuteOf(0, 30), once.clock);
    CanSyncAndFire(once, 1, "x", HALF_PAST, 0, MinuteOf(0, 30), 1, MinuteOf(0, 30), MinuteOf(1, 30));
    assert Run("x", MinuteOf(1, 0)) in once.db.jobs;
    ResyncThenFire(once, 1, "x", HALF_PAST, 0, MinuteOf(0, 30), 1, MinuteOf(0, 30), MinuteOf(1, 30));
  }

  /** A re-sync from an old clock reading makes fire times go back: 1:00 is enqueued first, 0:30 after it. */
  lemma StaleSyncGoesBack()
    ensures Initial(ONE_O_CLOCK) && CanRun(ONE_O_CLOCK, FirstFire() + SecondFire())
    ensures !Ascends(RunSteps(ONE_O_CLOCK, FirstFire() + SecondFire()).db.jobs)
    ensures ValidSchedule(HOURLY.schedule) && ValidSchedule(HALF_PAST.schedule)
  {
    EveryHourValid([0]);
    EveryHourValid([30]);
    FirstFires();
    EachSlotAtMostOnce(ONE_O_CLOCK, FirstFire());
    SecondFires(RunSteps(ONE_O_CLOCK, FirstFire()));
    hide CanRun;
    hide RunSteps;
    RunAppend(ONE_O_CLOCK, FirstFire(), SecondFire());
  }

  lemma FirstHour()
    ensures 0 <= MinuteOf(1, 0) < MinuteOf(1, 30) && MinuteOf(0, 30) < MinuteOf(1, 0) < MinuteOf(2, 0)
    ensures IsNextFire(HOURLY.schedule, 0, MinuteOf(1, 0))
  {
    NextHour(0, 0);
  }

  lemma FirstHalfPast()
    ensures IsNextFire(HALF_PAST.schedule, 0, MinuteOf(0, 30))
  {
    NextInHour([30], 0, 0, 30);
  }
}
