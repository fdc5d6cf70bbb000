/**
 * The alert-polling engine of the web application: the alert store, the
 * registry of scraping threads, the reconciling tick of the background
 * manager, the per-alert scraping loop, and the toggle and delete routes.
 *
 * Threads are abstracted away. Every tick, every worker run and every route
 * call is one atomic step on the shared state. A registry entry maps an alert
 * id to the liveness (`is_alive()`) of the thread registered for it. A
 * worker run is driven by a finite sequence of rounds. Each round supplies
 * the page that round's check fetches, and the net change other actors made
 * to the alert's record during the sleep that follows a no-match check.
 */
module Alerts {
  import opened Wrappers
  import opened Scraper

  type AlertId = int

  /** Default polling interval of a new alert, in seconds (new alerts also default to active). */
  const DEFAULT_INTERVAL := 300

  /**
   * The longest sleep CPython's `time.sleep` accepts, in whole seconds: it
   * converts the length to a signed 64-bit count of nanoseconds and raises
   * when that overflows.
   */
  const MAX_SLEEP := 9223372036

  /** `time.sleep(interval)` raises: a negative length, or one too long to convert. */
  predicate SleepFails(interval: int) {
    interval < 0 || interval > MAX_SLEEP
  }

  /** The columns of an alert record that the engine reads or writes. */
  datatype Alert = Alert(status: bool, interval: int, emails: string)

  /** What other actors did to the record while the worker slept. */
  datatype Write =
    | Untouched               // nobody wrote the record
    | Written(status: bool)   // its status was set (toggle, edit, or the delete route's deactivation)
    | Erased                  // the record was deleted

  /** One round of the scraping loop: the page its check sees, and the write seen by the refresh after the sleep. */
  datatype Round = Round(page: Page, write: Write)

  /** How a worker run ended. */
  datatype Exit =
    | AlertMissing   // the alert was gone when the worker loaded it
    | FoundResults   // a check matched; the worker deactivated the alert
    | Deactivated    // the worker saw status false at the head of its loop
    | Crashed        // the refresh raised because the record had been deleted
    | SleepFailed    // the sleep after a no-match check raised on an interval it rejects
    | StillPolling   // the rounds ran out while the alert was still active

  /** A worker run: how many checks it made, how it ended, and the alert's status afterwards (`None`: the record is gone). */
  datatype Run = Run(checks: nat, exit: Exit, final: Option<bool>)

  /** The response of a route. */
  datatype RouteResult =
    | Redirect            // back to the index page
    | NotFound            // the 404 of `get_or_404`
    | KeyError(key: AlertId)  // an unhandled KeyError: a server error

  /** The status the refresh after a sleep reads, or `None` when it raises because the record was deleted. */
  function Refresh(w: Write, status: bool): Option<bool> {
    match w
    case Untouched => Some(status)
    case Written(b) => Some(b)
    case Erased => None
  }

  /** A run that follows `k` earlier checks. */
  function After(k: nat, r: Run): Run {
    r.(checks := k + r.checks)
  }

  /**
   * The scraping loop of an alert whose status is `status` and whose
   * interval is `interval` when the worker loads it. A check is made in
   * exactly the rounds at whose head the status is true. The loop stops at
   * the first check that matches; that check leaves the status false and no
   * check follows it. After a non-matching check the worker sleeps, which
   * raises on an interval it rejects and ends the worker with the record as it
   * was; otherwise the status is the one the refresh reads. The loop ends
   * when it reads false, and the worker crashes when the refresh raises.
   */
  function Poll(status: bool, interval: int, rounds: seq<Round>): (r: Run)
    ensures r.checks <= |rounds|
    ensures r.exit != AlertMissing
    ensures r.checks > 0 ==> status
    ensures forall j :: 0 <= j < r.checks ==>
              (Matches(rounds[j].page) <==> r.exit == FoundResults && j == r.checks - 1)
    ensures forall j :: 0 <= j < r.checks - 1 ==> Refresh(rounds[j].write, true) == Some(true)
    ensures r.exit == FoundResults ==> r.checks > 0 && r.final == Some(false)
    ensures r.exit == Deactivated ==>
              && r.final == Some(false)
              && (r.checks == 0 ==> !status)
              && (r.checks > 0 ==> Refresh(rounds[r.checks - 1].write, true) == Some(false))
    ensures r.exit == Crashed ==>
              r.checks > 0 && r.final == None && Refresh(rounds[r.checks - 1].write, true) == None
    ensures r.exit == SleepFailed <==> status && SleepFails(interval) && |rounds| > 0 && !Matches(rounds[0].page)
    ensures r.exit == SleepFailed ==> r.checks == 1 && r.final == Some(true)
    ensures SleepFails(interval) ==> r.checks <= 1
    ensures r.exit == StillPolling ==>
              && r.checks == |rounds| && r.final == Some(true)
              && (r.checks == 0 ==> status)
              && (r.checks > 0 ==> Refresh(rounds[r.checks - 1].write, true) == Some(true))
    decreases |rounds|
  {
    if !status then Run(0, Deactivated, Some(false))
    else if rounds == [] then Run(0, StillPolling, Some(true))
    else if Matches(rounds[0].page) then Run(1, FoundResults, Some(false))
    else if SleepFails(interval) then Run(1, SleepFailed, Some(true))
    else match Refresh(rounds[0].write, true)
      case None => Run(1, Crashed, None)
      case Some(s) =>
        var rest := Poll(s, interval, rounds[1..]);
        assert forall j :: 1 <= j < 1 + rest.checks ==> rounds[j] == rounds[1..][j - 1];
        After(1, rest)
  }

  /**
   * The run of an active alert is its first round followed by the run from
   * the status that round leaves, unless that round already ended the loop.
   */
  lemma PollFirstRound(interval: int, rounds: seq<Round>)
    requires |rounds| > 0
    ensures var first := Poll(true, interval, rounds[..1]);
            Poll(true, interval, rounds) ==
              if first.exit == StillPolling || first.exit == Deactivated
              then After(1, Poll(first.final.value, interval, rounds[1..]))
              else first
  {
    assert rounds[..1][0] == rounds[0] && rounds[..1][1..] == [];
  }

  /**
   * A worker caught in a check of the page `inflight` (`None`: not in a
   * check) dies in the sleep after it: the check does not match and the
   * sleep rejects the interval.
   */
  predicate DiesInSleep(inflight: Option<Page>, interval: int) {
    inflight.Some? && !Matches(inflight.value) && SleepFails(interval)
  }

  /** The registry holds a thread for `id` that is still alive. */
  predicate Live(threads: map<AlertId, bool>, id: AlertId) {
    id in threads && threads[id]
  }

  /** The ids the tick's query returns: the alerts whose status is true. */
  function ActiveIds(alerts: map<AlertId, Alert>): set<AlertId> {
    set id | id in alerts && alerts[id].status
  }

  /**
   * The ids in `ids` a tick starts a thread for: those with no entry or
   * with a dead one. A live worker is never started a second time.
   */
  function Started(threads: map<AlertId, bool>, ids: set<AlertId>): (s: set<AlertId>)
    ensures s <= ids
    ensures forall id :: Live(threads, id) ==> id !in s
    ensures forall id :: id in ids && !Live(threads, id) ==> id in s
  {
    set id | id in ids && !Live(threads, id)
  }

  /**
   * The registry after a tick has handled the ids in `ids`. Every one of
   * them has a live thread. An entry whose thread is alive is left as it is.
   * A dead entry counts as absent and is replaced. Entries outside `ids` are
   * untouched, and no entry is removed.
   */
  function StartMissing(threads: map<AlertId, bool>, ids: set<AlertId>): (r: map<AlertId, bool>)
    ensures r.Keys == threads.Keys + ids
    ensures forall id :: id in ids ==> Live(r, id)
    ensures forall id :: Live(threads, id) ==> r[id]
    ensures forall id :: id in threads && id !in ids ==> r[id] == threads[id]
  {
    threads + map id | id in Started(threads, ids) :: true
  }

  /**
   * A second tick over the same active alerts starts no thread and leaves
   * the registry as it was: ticks do not stack up threads.
   */
  lemma StartMissingIdempotent(threads: map<AlertId, bool>, ids: set<AlertId>)
    ensures Started(StartMissing(threads, ids), ids) == {}
    ensures StartMissing(StartMissing(threads, ids), ids) == StartMissing(threads, ids)
  {
    var once := StartMissing(threads, ids);
    var twice := StartMissing(once, ids);
    assert twice.Keys == once.Keys;
    forall id | id in once ensures twice[id] == once[id] {
    }
  }

  /** Handling one more id, whose entry is in the state the tick finds it in. */
  lemma StartMissingStep(threads: map<AlertId, bool>, done: set<AlertId>, id: AlertId)
    requires id !in done
    ensures Live(StartMissing(threads, done), id) <==> Live(threads, id)
    ensures StartMissing(threads, done + {id}) ==
              (if Live(threads, id) then StartMissing(threads, done)
               else StartMissing(threads, done)[id := true])
    ensures Started(threads, done + {id}) ==
              (if Live(threads, id) then Started(threads, done) else Started(threads, done) + {id})
  {
    var before := StartMissing(threads, done);
    var after := StartMissing(threads, done + {id});
    assert Live(before, id) <==> Live(threads, id);
    if Live(before, id) {
      assert after.Keys == before.Keys;
      forall k | k in after ensures after[k] == before[k] {
      }
    } else {
      var expected := before[id := true];
      assert after.Keys == expected.Keys;
      forall k | k in after ensures after[k] == expected[k] {
      }
    }
  }

  /** A set of ids is empty or has a member: what lets the tick's loop pick its next alert. */
  lemma EmptyOrHasMember(ids: set<AlertId>)
    ensures ids == {} || exists id :: id in ids
  {
    if forall id :: id !in ids {
      assert ids == {};
    }
  }

  /** The alert store and the thread registry of the running application. */
  class Monitor {
    /** The alert table, by id. */
    var alerts: map<AlertId, Alert>
    /** The thread registry: for each id, whether the thread registered for it is alive. */
    var threads: map<AlertId, bool>

    /** No live thread is registered for an alert that no longer exists. */
    ghost predicate Valid()
      reads this
    {
      forall id :: Live(threads, id) ==> id in alerts
    }

    /** The application starts with the stored alerts and an empty registry. */
    constructor (stored: map<AlertId, Alert>)
      ensures Valid()
      ensures alerts == stored && threads == map[]
    {
      alerts := stored;
      threads := map[];
    }

    /**
     * One pass of the background manager: start and register a thread for
     * every active alert that has no entry, or whose entry's thread is dead.
     */
    method ManageAlertsTick() returns (started: set<AlertId>)
      requires Valid()
      modifies this
      ensures Valid()
      ensures alerts == old(alerts)
      ensures started == Started(old(threads), ActiveIds(alerts))
      ensures threads == StartMissing(old(threads), ActiveIds(alerts))
    {
      var active := ActiveIds(alerts);
      var pending := active;
      started := {};
      while pending != {}
        invariant pending <= active
        invariant alerts == old(alerts)
        invariant threads == StartMissing(old(threads), active - pending)
        invariant started == Started(old(threads), active - pending)
        decreases pending
      {
        EmptyOrHasMember(pending);
        var id :| id in pending;
        StartMissingStep(old(threads), active - pending, id);
        assert active - pending + {id} == active - (pending - {id});
        if !(id in threads && threads[id]) {
          threads := threads[id := true];
          started := started + {id};
        }
        pending := pending - {id};
      }
      assert active - pending == active;
    }

    /** The exit path of a worker: drop its own entry if there is one. */
    method Unregister(id: AlertId)
      modifies this
      ensures alerts == old(alerts)
      ensures threads == old(threads) - {id}
    {
      if id in threads {
        threads := threads - {id};
      }
    }

    /**
     * The thread of `id` ends without running its exit path: its entry, if
     * any, stays in the registry with a dead thread.
     */
    method ThreadDies(id: AlertId)
      modifies this
      ensures alerts == old(alerts)
      ensures threads == if id in old(threads) then old(threads)[id := false] else old(threads)
    {
      if id in threads {
        threads := threads[id := false];
      }
    }

    /**
     * The scraping thread of one alert, run over `rounds`. A missing alert
     * ends the thread at once: no check, no write, no registry change other
     * than its thread being dead. Otherwise the run is the one `Poll`
     * describes. The alert's record ends up as the run leaves it. One email
     * is sent exactly when a check matched, and it is the notification for
     * the page that check saw. The entry is dropped when the loop ends, is
     * left dead when the thread crashes (in the refresh or in the sleep), and
     * is left alive while the thread still polls.
     */
    method StartScraping(id: AlertId, rounds: seq<Round>) returns (run: Run, sent: seq<Email>)
      requires Valid()
      requires id in threads ==> threads[id]
      modifies this
      ensures Valid()
      ensures id !in old(alerts) ==>
                && run == Run(0, AlertMissing, None) && sent == []
                && alerts == old(alerts)
      ensures id in old(alerts) ==> run == Poll(old(alerts)[id].status, old(alerts)[id].interval, rounds)
      ensures id in old(alerts) && run.final.None? ==> alerts == old(alerts) - {id}
      ensures id in old(alerts) && run.final.Some? ==>
                alerts == old(alerts)[id := old(alerts)[id].(status := run.final.value)]
      ensures run.exit == FoundResults || run.exit == Deactivated ==> threads == old(threads) - {id}
      ensures run.exit == AlertMissing || run.exit == Crashed || run.exit == SleepFailed ==>
                threads == if id in old(threads) then old(threads)[id := false] else old(threads)
      ensures run.exit == StillPolling ==> threads == old(threads)
      ensures |sent| == if run.exit == FoundResults then 1 else 0
      ensures forall m :: m in sent ==> id in old(alerts) && m.recipients == Recipients(old(alerts)[id].emails)
      ensures run.exit == FoundResults ==>
                id in old(alerts) && MailFor(sent[0], rounds[run.checks - 1].page, old(alerts)[id].emails)
    {
      if id !in alerts {
        ThreadDies(id);
        return Run(0, AlertMissing, None), [];
      }
      run, sent := PollLoop(id, rounds);
      if run.exit == Crashed || run.exit == SleepFailed {
        ThreadDies(id);
      } else if run.exit != StillPolling {
        Unregister(id);
      }
    }

    /**
     * The `while` loop of the worker of a stored alert: check, and after a
     * check that does not match, sleep and re-read the status. It stops at
     * the first match, at a status that reads false, when the sleep raises on
     * an interval it rejects, when the re-read raises because the record is
     * gone, or when the rounds run out. The registry is not touched.
     */
    method PollLoop(id: AlertId, rounds: seq<Round>) returns (run: Run, sent: seq<Email>)
      requires id in alerts
      modifies this
      ensures threads == old(threads)
      ensures run == Poll(old(alerts)[id].status, old(alerts)[id].interval, rounds)
      ensures run.final.None? ==> alerts == old(alerts) - {id}
      ensures run.final.Some? ==> alerts == old(alerts)[id := old(alerts)[id].(status := run.final.value)]
      ensures |sent| == if run.exit == FoundResults then 1 else 0
      ensures forall m :: m in sent ==> m.recipients == Recipients(old(alerts)[id].emails)
      ensures run.exit == FoundResults ==> MailFor(sent[0], rounds[run.checks - 1].page, old(alerts)[id].emails)
    {
      sent := [];
      var alert := alerts[id];
      var status := alert.status;
      var k := 0;
      while status && k < |rounds|
        invariant k <= |rounds|
        invariant Poll(alert.status, alert.interval, rounds) == After(k, Poll(status, alert.interval, rounds[k..]))
        invariant alerts == old(alerts)[id := alert.(status := status)]
        invariant threads == old(threads)
        invariant sent == []
      {
        assert rounds[k..][..1] == [rounds[k]] && rounds[k..][1..] == rounds[k + 1..];
        PollFirstRound(alert.interval, rounds[k..]);
        var step, mail := PollRound(id, alert, rounds[k]);
        if step.exit != StillPolling && step.exit != Deactivated {
          if mail.Some? {
            sent := [mail.value];
          }
          return After(k, step), sent;
        }
        k, status := k + 1, step.final.value;
      }
      run := Run(k, if status then StillPolling else Deactivated, Some(status));
    }

    /**
     * One pass of the loop body for a stored alert, by a worker holding the
     * record as `alert` with its status true: the check, then, after a check
     * that does not match, the sleep and the refresh. The step is the run
     * `Poll` gives over that one round. A match writes the worker's record
     * back with status false, a failed sleep writes nothing, the refresh of a
     * deleted record crashes, and otherwise the record takes the status the
     * refresh reads. The notification is sent exactly when the check matched.
     */
    method PollRound(id: AlertId, alert: Alert, round: Round) returns (step: Run, mail: Option<Email>)
      requires id in alerts
      modifies this
      ensures threads == old(threads)
      ensures step == Poll(true, alert.interval, [round])
      ensures step.exit == SleepFailed ==> alerts == old(alerts)
      ensures step.exit == Crashed ==> alerts == old(alerts) - {id}
      ensures step.exit != SleepFailed && step.final.Some? ==>
                alerts == old(alerts)[id := alert.(status := step.final.value)]
      ensures mail.Some? <==> step.exit == FoundResults
      ensures mail.Some? ==> MailFor(mail.value, round.page, alert.emails)
    {
      var found;
      found, mail := CheckForResults(round.page, alert.emails);
      if found {
        alerts := alerts[id := alert.(status := false)];
        return Run(1, FoundResults, Some(false)), mail;
      }
      if SleepFails(alert.interval) {
        // `time.sleep` raises
        return Run(1, SleepFailed, Some(true)), None;
      }
      var refreshed := Refresh(round.write, true);
      if refreshed.None? {
        alerts := alerts - {id};
        return Run(1, Crashed, None), None;
      }
      alerts := alerts[id := alert.(status := refreshed.value)];
      return Run(1, if refreshed.value then StillPolling else Deactivated, refreshed), None;
    }

    /** The toggle route: flip the status of an existing alert, or answer 404. */
    method ToggleAlertStatus(id: AlertId) returns (r: RouteResult)
      requires Valid()
      modifies this
      ensures Valid()
      ensures threads == old(threads)
      ensures id !in old(alerts) ==> r == NotFound && alerts == old(alerts)
      ensures id in old(alerts) ==>
                r == Redirect && alerts == old(alerts)[id := old(alerts)[id].(status := !old(alerts)[id].status)]
    {
      if id !in alerts {
        return NotFound;
      }
      alerts := alerts[id := alerts[id].(status := !alerts[id].status)];
      return Redirect;
    }

    /**
     * The wait for the alert's live thread to finish. Its status has already
     * been written false. A worker that is sleeping or has not loaded the
     * alert yet (`inflight` is `None`) next reads that false status and leaves
     * its loop without another check. A worker caught in a check of the page
     * `inflight` finishes that round, which ends the loop too: a match sends
     * its notification, a failed sleep kills the thread, and otherwise the
     * refresh reads false. The exit path then removes the worker's entry,
     * except after a failed sleep, which leaves it dead. The record is as the
     * route left it.
     */
    method AwaitWorker(id: AlertId, inflight: Option<Page>) returns (sent: seq<Email>)
      requires Valid()
      requires Live(threads, id) && id in alerts && !alerts[id].status
      modifies this
      ensures Valid()
      ensures alerts == old(alerts)
      ensures threads == if DiesInSleep(inflight, old(alerts)[id].interval)
                         then old(threads)[id := false] else old(threads) - {id}
      ensures |sent| == if inflight.Some? && Matches(inflight.value) then 1 else 0
      ensures inflight.Some? && Matches(inflight.value) ==>
                |sent| == 1 && MailFor(sent[0], inflight.value, old(alerts)[id].emails)
    {
      if inflight.None? {
        var run;
        run, sent := StartScraping(id, []);
        assert run.exit == Deactivated;
        return;
      }
      var loaded := alerts[id].(status := true);
      var step, mail := PollRound(id, loaded, Round(inflight.value, Written(false)));
      if step.exit == SleepFailed {
        ThreadDies(id);
      } else {
        Unregister(id);
      }
      sent := if mail.Some? then [mail.value] else [];
    }

    /**
     * The delete route as written, while a live thread's worker is in the
     * state `inflight` describes. With a live thread it deactivates the
     * alert, waits for the thread, then deletes the registry key. A thread
     * that ran its exit path has already removed that key, so the route fails
     * with a KeyError and the record is never deleted; only a thread that
     * died in its sleep leaves the key, and then the record is deleted.
     * Without a live thread the record is deleted.
     */
    method DeleteAlertAsWritten(id: AlertId, inflight: Option<Page>) returns (r: RouteResult)
      requires Valid()
      modifies this
      ensures Valid()
      ensures id !in old(alerts) ==> r == NotFound && alerts == old(alerts) && threads == old(threads)
      ensures id in old(alerts) && Live(old(threads), id) && !DiesInSleep(inflight, old(alerts)[id].interval) ==>
                && r == KeyError(id)
                && alerts == old(alerts)[id := old(alerts)[id].(status := false)]
                && threads == old(threads) - {id}
      ensures id in old(alerts) && Live(old(threads), id) && DiesInSleep(inflight, old(alerts)[id].interval) ==>
                r == Redirect && alerts == old(alerts) - {id} && threads == old(threads) - {id}
      ensures id in old(alerts) && !Live(old(threads), id) ==>
                r == Redirect && alerts == old(alerts) - {id} && threads == old(threads)
    {
      if id !in alerts {
        return NotFound;
      }
      var registry := threads;
      if id in threads && threads[id] {
        alerts := alerts[id := alerts[id].(status := false)];
        var sent := AwaitWorker(id, inflight);
        // `del` of the key the finished thread may have removed
        if id !in threads {
          return KeyError(id);
        }
        registry := threads - {id};
      }
      threads := registry;
      alerts := alerts - {id};
      return Redirect;
    }

    /**
     * The delete route with the registry key removed only if present, while
     * a live thread's worker is in the state `inflight` describes. With
     * a live thread it deactivates the alert, waits for the thread to finish
     * and deregister, and only then deletes the record. Any existing alert is
     * deleted, and no live thread is left for it.
     */
    method DeleteAlert(id: AlertId, inflight: Option<Page>) returns (r: RouteResult)
      requires Valid()
      modifies this
      ensures Valid()
      ensures id !in old(alerts) ==> r == NotFound && alerts == old(alerts) && threads == old(threads)
      ensures id in old(alerts) ==> r == Redirect && alerts == old(alerts) - {id}
      ensures threads == if Live(old(threads), id) then old(threads) - {id} else old(threads)
    {
      if id !in alerts {
        return NotFound;
      }
      if id in threads && threads[id] {
        alerts := alerts[id := alerts[id].(status := false)];
        var sent := AwaitWorker(id, inflight);
        Unregister(id);
      }
      assert !Live(threads, id);
      alerts := alerts - {id};
      return Redirect;
    }
  }

  /**
   * An active alert, a tick that starts its thread, then the delete route
   * as written: the route fails with a KeyError, and the alert stays stored,
   * deactivated.
   */
  method DeleteLiveAlertAsWritten() returns (r: RouteResult, kept: bool, status: bool)
    ensures r == KeyError(1) && kept && !status
  {
    var m := new Monitor(map[1 := Alert(true, DEFAULT_INTERVAL, "a@example.org")]);
    var started := m.ManageAlertsTick();
    assert 1 in ActiveIds(m.alerts);
    r := m.DeleteAlertAsWritten(1, None);
    kept := 1 in m.alerts;
    status := kept && m.alerts[1].status;
  }

  /** The same steps with the corrected delete route: the alert is gone and so is its entry. */
  method DeleteLiveAlert() returns (r: RouteResult, kept: bool, registered: bool)
    ensures r == Redirect && !kept && !registered
  {
    var m := new Monitor(map[1 := Alert(true, DEFAULT_INTERVAL, "a@example.org")]);
    var started := m.ManageAlertsTick();
    assert 1 in ActiveIds(m.alerts);
    r := m.DeleteAlert(1, None);
    kept := 1 in m.alerts;
    registered := 1 in m.threads;
  }

  /**
   * An active alert and two manager passes: the first starts its thread,
   * the second finds that thread alive and starts nothing.
   */
  method TickTwice() returns (first: set<AlertId>, second: set<AlertId>)
    ensures first == {1} && second == {}
  {
    var m := new Monitor(map[1 := Alert(true, DEFAULT_INTERVAL, "a@example.org")]);
    assert ActiveIds(m.alerts) == {1};
    first := m.ManageAlertsTick();
    second := m.ManageAlertsTick();
    StartMissingIdempotent(map[], {1});
  }

  /**
   * An active alert with a negative interval. Its worker makes one check,
   * finds nothing, and dies in the sleep that follows; the alert stays
   * active, its entry is left with a dead thread, and the next manager pass
   * starts a new thread for it.
   */
  method NegativeIntervalRestart() returns (run: Run, active: bool, restarted: set<AlertId>)
    ensures run == Run(1, SleepFailed, Some(true)) && active && restarted == {1}
  {
    var m := new Monitor(map[1 := Alert(true, -1, "a@example.org")]);
    assert ActiveIds(m.alerts) == {1};
    var started := m.ManageAlertsTick();
    var empty := Response(200, None, []);
    var sent;
    run, sent := m.StartScraping(1, [Round(empty, Untouched), Round(empty, Untouched)]);
    active := 1 in m.alerts && m.alerts[1].status;
    assert ActiveIds(m.alerts) == {1};
    restarted := m.ManageAlertsTick();
  }

  /**
   * An active alert with a negative interval, a tick that starts its
   * thread, then the delete route as written while the worker is in a check
   * that finds nothing. The worker dies in the sleep and keeps its key, so
   * the route's `del` succeeds and the alert is deleted.
   */
  method DeleteDuringFailingCheck() returns (r: RouteResult, kept: bool, registered: bool)
    ensures r == Redirect && !kept && !registered
  {
    var m := new Monitor(map[1 := Alert(true, -1, "a@example.org")]);
    assert ActiveIds(m.alerts) == {1};
    var started := m.ManageAlertsTick();
    r := m.DeleteAlertAsWritten(1, Some(Response(200, None, [])));
    kept := 1 in m.alerts;
    registered := 1 in m.threads;
  }
}
