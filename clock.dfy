/** The clock bar module: shows the time in a configurable timezone and
    refreshes at the next multiple of its granularity. Times are integer
    nanoseconds since Go's zero time (January 1, year 1, UTC); durations are
    integer nanoseconds. */
module Clock {
  import opened Shared

  /** A `*time.Location` that loaded successfully. */
  datatype Location = Local | UTC | Named(name: string)

  /** A `time.Time`: an absolute instant and the location it is presented in. */
  datatype Instant = Instant(nanos: int, loc: Location)

  /** A `bar.Output`. The text `time.Format` would produce is not modelled:
      an output is the layout together with the instant it formats. */
  datatype Output = FormattedTime(layout: string, at: Instant)

  /** What the module asks of the bar through its embedded `base.Base`. */
  datatype Effect =
    | UpdateRequested         // UnlockAndUpdate / Update: run `update` again
    | ErrorShown(err: string) // Error(err) with a non-nil error
    | Shown(out: Output)      // Output(out)
    | ScheduledAt(nanos: int) // Schedule().At(next)

  /** `now.Add(g).Truncate(g)`: Truncate rounds down to a multiple of `g`
      counted from the zero time and leaves the time alone when `g <= 0`.
      For a positive granularity the result is the first multiple of `g`
      strictly after `now`: the one before it is not after `now`. */
  function NextTick(now: int, g: int): (next: int)
    ensures g <= 0 ==> next == now + g
    ensures g > 0 ==> next % g == 0 && now < next <= now + g
    ensures g > 0 ==> next - g <= now
  {
    if g <= 0 then now + g
    else
      var t := now + g;
      MultipleOfDivisor(t / g, g);
      t - t % g
  }

  lemma MulAtLeast(m: int, g: int)
    requires m >= 1 && g >= 1
    ensures m * g >= g
  {
    assert m * g == (m - 1) * g + g;
  }

  /** A multiple of `g` leaves no remainder. */
  lemma MultipleOfDivisor(q: int, g: int)
    requires g > 0
    ensures (q * g) % g == 0
  {
    var x := q * g;
    var m := q - x / g;
    assert x == (x / g) * g + x % g;
    assert m * g == x % g;
    if m >= 1 {
      MulAtLeast(m, g);
    }
  }

  /** The clock module's configuration. */
  class ClockModule {
    var granularity: int
    var outputFunc: Instant -> Output
    /** nil when the last `Timezone` call failed to load its location. */
    var timezone: Option<Location>
    /** Everything the module asked of the bar so far, oldest first. */
    var effects: seq<Effect>

    /** `New`: one-second granularity, the machine's timezone, and the
        output format "15:04". */
    constructor New()
      ensures granularity == Second && timezone == Some(Local)
      ensures forall t :: outputFunc(t) == FormattedTime("15:04", t)
      ensures effects == [UpdateRequested]
    {
      granularity := Second;
      timezone := Some(Local);
      effects := [];
      outputFunc := t => FormattedTime("15:04", t);
      effects := effects + [UpdateRequested];
    }

    /** `OutputFunc` replaces the output function and requests an update. */
    method OutputFunc(f: Instant -> Output)
      modifies this`outputFunc, this`effects
      ensures outputFunc == f
      ensures effects == old(effects) + [UpdateRequested]
    {
      outputFunc := f;
      effects := effects + [UpdateRequested];
    }

    /** `OutputFormat` shows the time formatted with `layout`. */
    method OutputFormat(layout: string)
      modifies this`outputFunc, this`effects
      ensures forall t :: outputFunc(t) == FormattedTime(layout, t)
      ensures effects == old(effects) + [UpdateRequested]
    {
      OutputFunc(t => FormattedTime(layout, t));
    }

    /** `Timezone` stores the result of `time.LoadLocation`, which the caller
        supplies as `loaded` (a location, or the error it reported); a failed
        load stores nil and shows the error instead of requesting an update. */
    method Timezone(loaded: Option<Location>, loadError: string)
      modifies this`timezone, this`effects
      ensures timezone == loaded
      ensures loaded.None? ==> effects == old(effects) + [ErrorShown(loadError)]
      ensures loaded.Some? ==> effects == old(effects) + [UpdateRequested]
    {
      timezone := loaded;
      if loaded.None? {
        effects := effects + [ErrorShown(loadError)];
      } else {
        effects := effects + [UpdateRequested];
      }
    }

    /** `Granularity` replaces the refresh granularity and requests an update. */
    method Granularity(g: int)
      modifies this`granularity, this`effects
      ensures granularity == g
      ensures effects == old(effects) + [UpdateRequested]
    {
      granularity := g;
      effects := effects + [UpdateRequested];
    }

    /** `update` at time `now` (the scheduler's clock): does nothing without a
        timezone; otherwise shows the output for `now` in the timezone and
        asks to run again at the next tick. */
    method Update(now: int)
      modifies this`effects
      ensures timezone.None? ==> effects == old(effects)
      ensures timezone.Some? ==>
        effects == old(effects) + [Shown(outputFunc(Instant(now, timezone.value))), ScheduledAt(NextTick(now, granularity))]
    {
      var tz := timezone;
      if tz.None? {
        return;
      }
      var out := outputFunc(Instant(now, tz.value));
      var next := NextTick(now, granularity);
      effects := effects + [Shown(out), ScheduledAt(next)];
    }
  }
}
