/** Cron schedules: when an action is due. Instants are whole seconds. */
module Scheduling {
  import opened Common

  /** The cron parser as an oracle: which expressions it accepts, and the first instant
      after a given one at which such a schedule fires. `None` is the parser's zero time,
      for a schedule whose date does not come in its horizon, such as 30 February. */
  datatype Cron = Cron(parses: string -> bool, next: (string, int) -> Option<int>)
  {
    /** The next fire lies ahead, and is the same from every instant before it. */
    ghost predicate Sound() {
      && (forall expr, from | next(expr, from).Some? :: next(expr, from).value > from)
      && (forall expr, from, between | next(expr, from).Some? && from <= between < next(expr, from).value ::
            next(expr, between) == next(expr, from))
    }

    predicate Fires(expr: string) {
      expr != "" && parses(expr)
    }

    /** Whether the schedule was due at or before `now`, given when the action last ran.
        An action that never ran is due for a minute after each fire. The zero time is
        not after any instant. */
    predicate Due(expr: string, last: Option<int>, now: int) {
      && Fires(expr)
      && var fire := next(expr, if last.Some? then last.value else now - 60);
         fire.None? || fire.value <= now
    }

    predicate FiresAt(expr: string, t: int) {
      next(expr, t - 1) == Some(t)
    }

    /** There is always a next fire. */
    ghost predicate Endless(expr: string) {
      forall from :: next(expr, from).Some?
    }

    /** There never is one. */
    ghost predicate Hopeless(expr: string) {
      Fires(expr) && forall from :: next(expr, from).None?
    }
  }

  /** An action is due exactly when its schedule has fired since it last ran, or in the
      last minute if it never did. */
  lemma DueIffFired(cron: Cron, expr: string, last: Option<int>, now: int)
    requires cron.Sound() && cron.Fires(expr) && cron.Endless(expr)
    ensures var since := if last.Some? then last.value else now - 60;
            cron.Due(expr, last, now) <==> exists t :: since < t <= now && cron.FiresAt(expr, t)
  {
    var since := if last.Some? then last.value else now - 60;
    var fire := cron.next(expr, since).value;
    assert cron.next(expr, since).Some? && fire > since;
    assert cron.next(expr, fire - 1) == cron.next(expr, since);
    assert cron.FiresAt(expr, fire);
    if t :| since < t <= now && cron.FiresAt(expr, t) {
      assert t - 1 < fire ==> cron.next(expr, t - 1) == cron.next(expr, since);
    }
  }

  /** Once due, always due, until the action runs. */
  lemma DueStays(cron: Cron, expr: string, last: int, now: int, later: int)
    requires cron.Due(expr, Some(last), now) && now <= later
    ensures cron.Due(expr, Some(last), later)
  {
  }

  /** An action that has just run is not due, unless there is no next fire. */
  lemma NotDueAtOnce(cron: Cron, expr: string, now: int)
    requires cron.Sound() && (cron.Fires(expr) ==> cron.Endless(expr))
    ensures !cron.Due(expr, Some(now), now)
  {
  }
}
