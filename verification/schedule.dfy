/**
 * The `schedule` command: maps a sync interval in minutes to a crontab
 * schedule and appends a `<schedule> <exe> sync` line to the user's crontab
 * unless one is already there.
 *
 * A crontab schedule is kept as a structured value (`CronExpr`) whose text
 * is `CronText`; the last three fields (day of month, month, day of week)
 * are always `*` here. `Fires` gives its meaning: whether it runs at a
 * given minute of a day.
 */
module Schedule {
  import opened Types

  // ---------------------------------------------------------------------------
  // Decimal formatting (Rust's `{}` on an unsigned integer)
  // ---------------------------------------------------------------------------

  predicate IsDigit(c: char)
  {
    '0' <= c <= '9'
  }

  function DigitChar(d: nat): (c: char)
    requires d < 10
    ensures IsDigit(c) && c as int - '0' as int == d
  {
    ('0' as int + d) as char
  }

  /** The decimal text of `n`: digits only, with no leading zero. */
  function NatToString(n: nat): (s: string)
    ensures |s| >= 1
    ensures forall i :: 0 <= i < |s| ==> IsDigit(s[i])
    ensures s[0] == '0' ==> n == 0
    decreases n
  {
    if n < 10 then [DigitChar(n)] else NatToString(n / 10) + [DigitChar(n % 10)]
  }

  /** The value of a string of decimal digits. */
  function DecimalValue(s: string): int
    requires forall i :: 0 <= i < |s| ==> IsDigit(s[i])
  {
    if s == [] then 0
    else 10 * DecimalValue(s[..|s| - 1]) + (s[|s| - 1] as int - '0' as int)
  }

  /** Reading back the formatted number gives the number: formatting is injective. */
  lemma {:induction false} DecimalValueOfNatToString(n: nat)
    ensures DecimalValue(NatToString(n)) == n
    decreases n
  {
    var s := NatToString(n);
    if n >= 10 {
      DecimalValueOfNatToString(n / 10);
      assert s[..|s| - 1] == NatToString(n / 10);
    }
  }

  // ---------------------------------------------------------------------------
  // Crontab schedules and their meaning
  // ---------------------------------------------------------------------------

  // One time field of a crontab line: `*`, a step `*/n`, or a fixed value `n`.
  datatype Field = Every | Step(n: nat) | At(n: nat)

  /** A crontab schedule `<minute> <hour> * * *`. */
  datatype CronExpr = CronExpr(minute: Field, hour: Field)

  function FieldText(f: Field): string
  {
    match f
    case Every => "*"
    case Step(n) => "*/" + NatToString(n)
    case At(n) => NatToString(n)
  }

  /** The five-field text of a schedule, as written into the crontab. */
  function CronText(c: CronExpr): string
  {
    FieldText(c.minute) + " " + FieldText(c.hour) + " * * *"
  }

  /** Whether the field admits value `v` (cron's step and fixed-value rules). */
  predicate Matches(f: Field, v: nat)
  {
    match f
    case Every => true
    case Step(n) => n > 0 && v % n == 0
    case At(n) => v == n
  }

  /** Whether the schedule runs at minute `t` of a day (`0 <= t < 1440`). */
  predicate Fires(c: CronExpr, t: nat)
  {
    Matches(c.minute, t % 60) && Matches(c.hour, t / 60)
  }

  // ---------------------------------------------------------------------------
  // minutes_to_crontab_schedule
  // ---------------------------------------------------------------------------

  /** The largest accepted interval: one day. */
  const MAX_SCHEDULE_MINUTES: nat := 1440

  datatype ScheduleError = InvalidMinutes | AboveMaximum

  /**
   * The text an interval error is displayed with. The model carries the
   * error as a `ScheduleError` value; this is its message: both texts name
   * the bound, at their end, and only the "invalid" one starts with
   * "Invalid".
   */
  function ErrorMessage(e: ScheduleError): (r: string)
    ensures EndsWith(r, NatToString(MAX_SCHEDULE_MINUTES))
    ensures |r| >= 7 && (r[..7] == "Invalid" <==> e.InvalidMinutes?)
  {
    var bound := NatToString(MAX_SCHEDULE_MINUTES);
    match e
    case InvalidMinutes =>
      var text := "Invalid schedule minutes, must be between 1 and ";
      assert text[..7] == "Invalid" by {
        assert forall i :: 0 <= i < 7 ==> text[i] == "Invalid"[i];
      }
      assert (text + bound)[..7] == text[..7];
      text + bound
    case AboveMaximum =>
      var text := "Maximum schedule minutes is ";
      assert (text + bound)[..7] == text[..7] == "Maximum";
      text + bound
  }

  /** The intervals the mapping accepts. */
  predicate Schedulable(minutes: nat)
  {
    (1 <= minutes <= 59) || (minutes % 60 == 0 && 60 <= minutes <= MAX_SCHEDULE_MINUTES)
  }

  // The mapping as written: 1..=59 becomes `*/m * * * *`, 60 becomes
  // `0 * * * *`, and a larger multiple of 60 up to a day becomes
  // `{m/60} * * * *` -- the hour count lands in the MINUTE field, so such a
  // schedule runs once an hour at minute m/60. Everything else is rejected.
  function MinutesToCrontabSchedule(minutes: U32): (r: Result<(CronExpr, string), ScheduleError>)
    ensures r.Ok? <==> Schedulable(minutes)
    ensures minutes == 0 ==> r == Err(InvalidMinutes)
    ensures minutes > MAX_SCHEDULE_MINUTES ==> r == Err(AboveMaximum)
    ensures r.Err? && minutes <= MAX_SCHEDULE_MINUTES ==> r.error == InvalidMinutes
    ensures 1 <= minutes <= 59 ==>
              r.value.1 == "every " + NatToString(minutes) + " minutes"
              && forall t :: 0 <= t < 1440 ==> (Fires(r.value.0, t) <==> (t % 60) % minutes == 0)
    ensures minutes == 60 ==>
              r.value.1 == "every hour"
              && forall t :: 0 <= t < 1440 ==> (Fires(r.value.0, t) <==> t % 60 == 0)
    ensures Schedulable(minutes) && minutes > 60 ==>
              r.value.1 == "every " + NatToString(minutes / 60) + " hours"
              && forall t :: 0 <= t < 1440 ==> (Fires(r.value.0, t) <==> t % 60 == minutes / 60)
  {
    if minutes == 0 then Err(InvalidMinutes)
    else if minutes <= 59 then
      Ok((CronExpr(Step(minutes), Every), "every " + NatToString(minutes) + " minutes"))
    else if minutes == 60 then Ok((CronExpr(At(0), Every), "every hour"))
    else if minutes <= MAX_SCHEDULE_MINUTES && minutes % 60 == 0 then
      var hrs := minutes / 60;
      Ok((CronExpr(At(hrs), Every), "every " + NatToString(hrs) + " hours"))
    else if minutes > MAX_SCHEDULE_MINUTES then Err(AboveMaximum)
    else Err(InvalidMinutes)
  }

  /** The concrete mappings the command documents. */
  lemma MappingExamples()
    ensures MinutesToCrontabSchedule(30) == Ok((CronExpr(Step(30), Every), "every 30 minutes"))
    ensures CronText(CronExpr(Step(30), Every)) == "*/30 * * * *"
    ensures MinutesToCrontabSchedule(60) == Ok((CronExpr(At(0), Every), "every hour"))
    ensures CronText(CronExpr(At(0), Every)) == "0 * * * *"
    ensures MinutesToCrontabSchedule(120) == Ok((CronExpr(At(2), Every), "every 2 hours"))
    ensures CronText(CronExpr(At(2), Every)) == "2 * * * *"
    ensures MinutesToCrontabSchedule(0) == Err(InvalidMinutes)
    ensures MinutesToCrontabSchedule(90) == Err(InvalidMinutes)
    ensures MinutesToCrontabSchedule(1441) == Err(AboveMaximum)
  {
    assert NatToString(30) == "30";
    assert "every " + "30" + " minutes" == "every 30 minutes";
    assert NatToString(2) == "2";
    assert "every " + "2" + " hours" == "every 2 hours";
    assert NatToString(0) == "0";
  }

  /**
   * The as-written mapping of 120 minutes ("every 2 hours") runs at 00:02
   * and again at 01:02: one hour apart, not two.
   */
  lemma TwoHourScheduleRunsHourly()
    ensures MinutesToCrontabSchedule(120).Ok?
    ensures Fires(MinutesToCrontabSchedule(120).value.0, 2)
    ensures Fires(MinutesToCrontabSchedule(120).value.0, 62)
    ensures 62 % 120 != 0
  {
  }

  /** Division by `d` has a unique quotient and remainder. */
  lemma DivModUnique(t: int, d: int, q: int, rem: int)
    requires d > 0 && 0 <= rem < d && t == d * q + rem
    ensures t / d == q && t % d == rem
  {
    var q', r' := t / d, t % d;
    assert d * q' + r' == d * q + rem;
    assert d * (q' - q) == rem - r';
    NoSmallMultiple(d, q' - q);
  }

  /** The only multiple of `d` strictly between `-d` and `d` is zero. */
  lemma NoSmallMultiple(d: int, x: int)
    requires d > 0 && -d < d * x < d
    ensures x == 0
  {
  }

  /** Being on the hour of an hour count divisible by `h` is being divisible by `60 * h` minutes. */
  lemma OnHourStep(t: nat, h: nat)
    requires h > 0
    ensures (t % 60 == 0 && (t / 60) % h == 0) <==> t % (60 * h) == 0
  {
    var q, r := t / 60, t % 60;
    var a, b := q / h, q % h;
    assert q == h * a + b;
    assert t == (60 * h) * a + (60 * b + r) by {
      assert t == 60 * q + r;
      assert 60 * q == 60 * (h * a) + 60 * b;
      assert 60 * (h * a) == (60 * h) * a;
    }
    assert 60 * b + r < 60 * h by {
      assert b <= h - 1;
      assert 60 * b <= 60 * (h - 1);
    }
    DivModUnique(t, 60 * h, a, 60 * b + r);
  }

  // The evidently intended mapping: a multiple of 60 above 60 becomes
  // `0 */{m/60} * * *`, which within a day runs exactly at the minutes
  // divisible by the interval.
  function CorrectedMinutesToCrontabSchedule(minutes: U32): (r: Result<(CronExpr, string), ScheduleError>)
    ensures r.Ok? <==> Schedulable(minutes)
    ensures minutes > MAX_SCHEDULE_MINUTES ==> r == Err(AboveMaximum)
    ensures r.Err? && minutes <= MAX_SCHEDULE_MINUTES ==> r.error == InvalidMinutes
    ensures r.Ok? && minutes >= 60 ==>
              forall t :: 0 <= t < 1440 ==> (Fires(r.value.0, t) <==> t % minutes == 0)
    ensures r.Ok? && minutes < 60 ==>
              forall t :: 0 <= t < 1440 ==> (Fires(r.value.0, t) <==> (t % 60) % minutes == 0)
    ensures r.Ok? ==> r.value.1 == MinutesToCrontabSchedule(minutes).value.1
  {
    if Schedulable(minutes) && minutes > 60 then
      var hrs := minutes / 60;
      assert minutes == 60 * hrs;
      forall t | 0 <= t < 1440
        ensures Fires(CronExpr(At(0), Step(hrs)), t) <==> t % minutes == 0
      {
        OnHourStep(t, hrs);
      }
      Ok((CronExpr(At(0), Step(hrs)), "every " + NatToString(hrs) + " hours"))
    else
      MinutesToCrontabSchedule(minutes)
  }

  // ---------------------------------------------------------------------------
  // The crontab update of `schedule`
  // ---------------------------------------------------------------------------

  /** Whether `s` ends with `suffix`. */
  predicate EndsWith(s: string, suffix: string)
  {
    |suffix| <= |s| && s[|s| - |suffix|..] == suffix
  }

  /**
   * The crontab text with `line` appended as a new entry: a newline is put
   * first only when the text is non-empty and does not end in one.
   */
  function WithEntry(existing: string, line: string): string
  {
    (if existing != [] && existing[|existing| - 1] != '\n' then existing + "\n" else existing) + line
  }

  /**
   * Builds the new crontab text: `None` when the sync command already
   * occurs in the existing text (nothing is written), otherwise the
   * existing text, a newline only if that text is non-empty and does not
   * end in one, and the line `<schedule> <command>\n`. The new text always
   * contains the command, so scheduling again is skipped.
   */
  method UpdateCrontab(existing: string, schedule: string, command: string) returns (r: Option<string>)
    ensures Contains(existing, command) <==> r.None?
    ensures r.Some? ==> r.value == WithEntry(existing, schedule + " " + command + "\n")
    ensures r.Some? ==> existing <= r.value
    ensures r.Some? ==> |schedule + " " + command + "\n"| <= |r.value|
    ensures r.Some? ==>
              var line := schedule + " " + command + "\n";
              var kept := r.value[..|r.value| - |line|];
              && r.value[|r.value| - |line|..] == line
              && (kept == existing || (kept == existing + "\n" && existing != [] && existing[|existing| - 1] != '\n'))
              && (kept == [] || kept[|kept| - 1] == '\n')
    ensures r.Some? ==> Contains(r.value, command)
    ensures r.Some? ==> EndsWith(r.value, schedule + " " + command + "\n")
  {
    if Contains(existing, command) {
      return None;
    }
    var newCrontab := existing;
    if newCrontab != [] && newCrontab[|newCrontab| - 1] != '\n' {
      newCrontab := newCrontab + "\n";
    }
    var kept := newCrontab;
    var line := schedule + " " + command + "\n";
    newCrontab := newCrontab + line;
    assert newCrontab[..|newCrontab| - |line|] == kept;
    assert command <= newCrontab[|kept| + |schedule| + 1..];
    r := Some(newCrontab);
  }

  /**
   * The text with a new entry keeps the old text as a prefix, contains the
   * command and ends with the entry.
   */
  lemma WithEntryKeeps(existing: string, schedule: string, command: string)
    ensures var updated := WithEntry(existing, schedule + " " + command + "\n");
            && existing <= updated
            && Contains(updated, command)
            && EndsWith(updated, schedule + " " + command + "\n")
  {
    var line := schedule + " " + command + "\n";
    var kept := if existing != [] && existing[|existing| - 1] != '\n' then existing + "\n" else existing;
    var updated := kept + line;
    assert updated[|updated| - |line|..] == line;
    assert command <= updated[|kept| + |schedule| + 1..];
  }

  /** What `crontab -l` produced. */
  datatype CrontabListing =
    | Listed(stdout: string)      // exit status success
    | ListFailed(stderr: string)  // exit status failure
    | NotInstalled                // the program could not be found
    | SpawnFailed                 // any other error starting it

  datatype ScheduleCommandError =
    | NoExecutablePath
    | InvalidSchedule(error: ScheduleError)
    | CrontabNotInstalled
    | CrontabFailed(stderr: string)
    | CrontabSpawnFailed

  /** What the command does once its checks pass. */
  datatype ScheduleAction = AlreadyScheduled | Install(crontab: string, human: string)

  /** The current crontab text: a failed listing that says "no crontab" counts as empty. */
  function CurrentCrontab(listing: CrontabListing): (r: Result<string, ScheduleCommandError>)
    ensures r.Ok? <==> listing.Listed? || (listing.ListFailed? && Contains(listing.stderr, "no crontab"))
    ensures listing.Listed? ==> r == Ok(listing.stdout)
    ensures listing.ListFailed? && r.Ok? ==> r.value == ""
    ensures r.Err? ==> (r.error.CrontabFailed? <==> listing.ListFailed?)
    ensures listing.ListFailed? && r.Err? ==> r == Err(CrontabFailed(listing.stderr))
    ensures listing.NotInstalled? ==> r == Err(CrontabNotInstalled)
    ensures listing.SpawnFailed? ==> r == Err(CrontabSpawnFailed)
  {
    match listing
    case Listed(stdout) => Ok(stdout)
    case ListFailed(stderr) =>
      if Contains(stderr, "no crontab") then Ok("") else Err(CrontabFailed(stderr))
    case NotInstalled => Err(CrontabNotInstalled)
    case SpawnFailed => Err(CrontabSpawnFailed)
  }

  /**
   * `schedule` for a given interval mapping: the executable path is needed
   * first, then a valid interval, then the current crontab. If the sync
   * command already occurs in it nothing is installed; otherwise the crontab
   * to install is the current one with the entry `<cron> <exe> sync` added.
   */
  method ScheduleWith(exePath: Option<string>, mapped: Result<(CronExpr, string), ScheduleError>, listing: CrontabListing)
    returns (r: Result<ScheduleAction, ScheduleCommandError>)
    ensures exePath.None? ==> r == Err(NoExecutablePath)
    ensures exePath.Some? && mapped.Err? ==> r == Err(InvalidSchedule(mapped.error))
    ensures exePath.Some? && mapped.Ok? && CurrentCrontab(listing).Err? ==> r == Err(CurrentCrontab(listing).error)
    ensures r == Ok(AlreadyScheduled) <==>
              && exePath.Some? && mapped.Ok? && CurrentCrontab(listing).Ok?
              && Contains(CurrentCrontab(listing).value, exePath.value + " sync")
    ensures exePath.Some? && mapped.Ok? && CurrentCrontab(listing).Ok?
            && !Contains(CurrentCrontab(listing).value, exePath.value + " sync") ==>
              r == Ok(Install(WithEntry(CurrentCrontab(listing).value,
                                        CronText(mapped.value.0) + " " + exePath.value + " sync\n"),
                              mapped.value.1))
  {
    if exePath.None? {
      return Err(NoExecutablePath);
    }
    if mapped.Err? {
      return Err(InvalidSchedule(mapped.error));
    }
    var (cron, human) := mapped.value;
    var syncCommand := exePath.value + " sync";
    var current := CurrentCrontab(listing);
    if current.Err? {
      return Err(current.error);
    }
    var updated := UpdateCrontab(current.value, CronText(cron), syncCommand);
    match updated {
      case None =>
        r := Ok(AlreadyScheduled);
      case Some(text) =>
        assert CronText(cron) + " " + syncCommand + "\n" == CronText(cron) + " " + exePath.value + " sync\n";
        r := Ok(Install(text, human));
    }
  }

  /**
   * `schedule` as written: the entry's schedule is `MinutesToCrontabSchedule`,
   * so for a multiple of 60 above 60 the installed line runs hourly (see
   * `TwoHourScheduleRunsHourly`).
   */
  method Schedule(exePath: Option<string>, minutes: U32, listing: CrontabListing)
    returns (r: Result<ScheduleAction, ScheduleCommandError>)
    ensures exePath.None? ==> r == Err(NoExecutablePath)
    ensures exePath.Some? && !Schedulable(minutes) ==>
              r == Err(InvalidSchedule(MinutesToCrontabSchedule(minutes).error))
    ensures exePath.Some? && Schedulable(minutes) && CurrentCrontab(listing).Err? ==>
              r == Err(CurrentCrontab(listing).error)
    ensures r == Ok(AlreadyScheduled) <==>
              && exePath.Some? && Schedulable(minutes) && CurrentCrontab(listing).Ok?
              && Contains(CurrentCrontab(listing).value, exePath.value + " sync")
    ensures exePath.Some? && Schedulable(minutes) && CurrentCrontab(listing).Ok?
            && !Contains(CurrentCrontab(listing).value, exePath.value + " sync") ==>
              r == Ok(Install(WithEntry(CurrentCrontab(listing).value,
                                        CronText(MinutesToCrontabSchedule(minutes).value.0) + " " + exePath.value + " sync\n"),
                              MinutesToCrontabSchedule(minutes).value.1))
    ensures r.Ok? && r.value.Install? ==>
              && CurrentCrontab(listing).Ok? && CurrentCrontab(listing).value <= r.value.crontab
              && Contains(r.value.crontab, exePath.value + " sync")
              && EndsWith(r.value.crontab, CronText(MinutesToCrontabSchedule(minutes).value.0) + " " + (exePath.value + " sync") + "\n")
  {
    r := ScheduleWith(exePath, MinutesToCrontabSchedule(minutes), listing);
    if r.Ok? && r.value.Install? {
      var cron := CronText(MinutesToCrontabSchedule(minutes).value.0);
      assert cron + " " + exePath.value + " sync\n" == cron + " " + (exePath.value + " sync") + "\n";
      WithEntryKeeps(CurrentCrontab(listing).value, cron, exePath.value + " sync");
    }
  }

  /**
   * `schedule` with the corrected mapping: the same checks and messages, but
   * an accepted interval of an hour or more installs an entry that fires
   * exactly at the minutes of the day divisible by the interval.
   */
  method CorrectedSchedule(exePath: Option<string>, minutes: U32, listing: CrontabListing)
    returns (r: Result<ScheduleAction, ScheduleCommandError>)
    ensures exePath.None? ==> r == Err(NoExecutablePath)
    ensures exePath.Some? && !Schedulable(minutes) ==>
              r == Err(InvalidSchedule(MinutesToCrontabSchedule(minutes).error))
    ensures exePath.Some? && Schedulable(minutes) && CurrentCrontab(listing).Err? ==>
              r == Err(CurrentCrontab(listing).error)
    ensures r == Ok(AlreadyScheduled) <==>
              && exePath.Some? && Schedulable(minutes) && CurrentCrontab(listing).Ok?
              && Contains(CurrentCrontab(listing).value, exePath.value + " sync")
    ensures exePath.Some? && Schedulable(minutes) && CurrentCrontab(listing).Ok?
            && !Contains(CurrentCrontab(listing).value, exePath.value + " sync") ==>
              r == Ok(Install(WithEntry(CurrentCrontab(listing).value,
                                        CronText(CorrectedMinutesToCrontabSchedule(minutes).value.0) + " " + exePath.value + " sync\n"),
                              MinutesToCrontabSchedule(minutes).value.1))
    ensures r.Ok? && r.value.Install? && minutes >= 60 ==>
              forall t :: 0 <= t < 1440 ==> (Fires(CorrectedMinutesToCrontabSchedule(minutes).value.0, t) <==> t % minutes == 0)
  {
    r := ScheduleWith(exePath, CorrectedMinutesToCrontabSchedule(minutes), listing);
  }
}
