/** The in-memory counter behind `/api/test/count` and
    `/api/test/settings`: module state `{ value, step }`. Numbers are
    modelled as integers; an input that is absent, not a number, or not
    finite is `None`. */
module CounterStore {
  import opened Js

  datatype CounterSettings = CounterSettings(value: int, step: int)

  /** `Partial<CounterSettings>` as `updateSettings` reads it. */
  datatype SettingsUpdate = SettingsUpdate(value: Option<int>, step: Option<int>)

  /** What `readAndIncrement` returns. */
  datatype Count = Count(current: int, next: int)

  /** The settings at module load, from `COUNTER_INITIAL` and
      `COUNTER_STEP` parsed by `Number(...)`: 0 and 1 when the variable is
      not a finite number. Only finiteness is checked here, so a step of 0
      is accepted from the environment. */
  function InitialSettings(envInitial: Option<int>, envStep: Option<int>): (s: CounterSettings)
    ensures envInitial.None? ==> s.value == 0
    ensures envStep.None? ==> s.step == 1
    ensures envInitial.Some? ==> s.value == envInitial.value
    ensures envStep.Some? ==> s.step == envStep.value
  {
    CounterSettings(if envInitial.Some? then envInitial.value else 0,
                    if envStep.Some? then envStep.value else 1)
  }

  /** The settings after `n` calls of `readAndIncrement`. */
  function AfterCounts(s: CounterSettings, n: nat): CounterSettings
  {
    if n == 0 then s else AfterCounts(s, n - 1).(value := AfterCounts(s, n - 1).value + s.step)
  }

  /** After `n` counts the value has moved by `n` steps and the step is
      unchanged. */
  lemma {:induction false} AfterCountsMovesBySteps(s: CounterSettings, n: nat)
    ensures AfterCounts(s, n) == CounterSettings(s.value + n * s.step, s.step)
  {
    if n > 0 {
      AfterCountsMovesBySteps(s, n - 1);
      assert (n - 1) * s.step + s.step == n * s.step;
    }
  }

  /** With a non-zero step no count is ever handed out twice. */
  lemma CountsAreDistinct(s: CounterSettings, i: nat, j: nat)
    requires s.step != 0 && i != j
    ensures AfterCounts(s, i).value != AfterCounts(s, j).value
  {
    AfterCountsMovesBySteps(s, i);
    AfterCountsMovesBySteps(s, j);
    assert i * s.step - j * s.step == (i - j) * s.step;
  }

  class Counter {
    var value: int
    var step: int

    function Settings(): CounterSettings
      reads this
    {
      CounterSettings(value, step)
    }

    /** The module-level `settings` as initialised at load. */
    constructor (envInitial: Option<int>, envStep: Option<int>)
      ensures Settings() == InitialSettings(envInitial, envStep)
    {
      var s := InitialSettings(envInitial, envStep);
      value := s.value;
      step := s.step;
    }

    /** `getSettings()`: a copy, a value the caller cannot use to change
        the stored settings. */
    method GetSettings() returns (s: CounterSettings)
      ensures s.value == value && s.step == step
    {
      s := CounterSettings(value, step);
    }

    /** `updateSettings(partial)`: replaces `value` only with a finite
        number, `step` only with a finite non-zero number, and returns the
        new settings. */
    method UpdateSettings(partial: SettingsUpdate) returns (s: CounterSettings)
      modifies this
      ensures value == (if partial.value.Some? then partial.value.value else old(value))
      ensures step == (if partial.step.Some? && partial.step.value != 0 then partial.step.value else old(step))
      ensures step != old(step) ==> step != 0
      ensures partial == SettingsUpdate(None, None) ==> Settings() == old(Settings())
      ensures s == Settings()
    {
      if partial.value.Some? {
        value := partial.value.value;
      }
      if partial.step.Some? && partial.step.value != 0 {
        step := partial.step.value;
      }
      s := GetSettings();
    }

    /** `readAndIncrement()`: hands out the current value and advances it
        by one step. */
    method ReadAndIncrement() returns (c: Count)
      modifies this
      ensures c.current == old(value) && c.next == old(value) + old(step)
      ensures value == c.next && step == old(step)
      ensures Settings() == AfterCounts(old(Settings()), 1)
    {
      var current := value;
      var next := current + step;
      value := next;
      c := Count(current, next);
    }
  }

  /** Two consecutive `readAndIncrement` calls: the second hands out the
      count the first announced as `next`. */
  method CountTwice(counter: Counter) returns (first: Count, second: Count)
    modifies counter
    ensures second.current == first.next
    ensures second.next == first.next + old(counter.step)
    ensures counter.Settings() == AfterCounts(old(counter.Settings()), 2)
  {
    first := counter.ReadAndIncrement();
    second := counter.ReadAndIncrement();
  }
}
