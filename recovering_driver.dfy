/**
 * The database driver wrapper that recovers from a fatal error once: it
 * closes the broken driver, reports the error, opens a new driver and runs
 * the failed operation again; a second failure is wrapped in a
 * `CacheDatabaseException`.
 */
module RecoveringDrivers {
  import opened Wrappers

  /** An exception thrown by a driver, a callback or the driver provider. */
  datatype Exception = Exception(message: string)

  /** What an operation of the wrapper ends with when it fails. */
  datatype Thrown =
    | DriverException(e: Exception)
    | CacheDatabaseException(message: string, cause: Exception)

  const UNRECOVERABLE: string := "Unrecoverable cache database error"

  /**
   * What happens during a recovery besides the retried operation: what
   * closing the broken driver, the error callback and the driver provider
   * throw, if anything.
   */
  datatype RecoveryFaults = RecoveryFaults(closeThrows: Option<Exception>, onFatalErrorThrows: Option<Exception>, providerThrows: Option<Exception>)

  /**
   * The wrapper's state. Drivers are numbered in the order the provider
   * created them; `driver` is the current one, `provided` how many exist.
   * `fatalErrors` lists the arguments the error callback received and
   * `closed` the drivers the wrapper tried to close, in order; `logged`
   * the exceptions whose stack trace was printed.
   */
  datatype DriverState = DriverState(driver: nat, provided: nat, isRecovering: bool, fatalErrors: seq<Exception>, closed: seq<nat>, logged: seq<Exception>)

  /** `runCatching { close() }.onFailure { printStackTrace() }`: a close failure only goes to the log. */
  function CaughtClose(logged: seq<Exception>, closeThrows: Option<Exception>): (r: seq<Exception>)
    ensures closeThrows.None? ==> r == logged
    ensures closeThrows.Some? ==> r == logged + [closeThrows.value]
  {
    match closeThrows
    case None => logged
    case Some(e) => logged + [e]
  }

  /** The current driver was provided, and so was every closed one. */
  predicate ValidState(st: DriverState) {
    st.driver < st.provided && !st.isRecovering && forall k :: 0 <= k < |st.closed| ==> st.closed[k] < st.provided
  }

  /** The state after an operation and its value or the exception it ends with. */
  datatype Outcome<R> = Outcome(state: DriverState, result: Result<R, Thrown>)

  /**
   * `runRecovering(block)` run by one caller at a time. `block(d)` is what
   * the operation gives on driver `d`.
   */
  function RunRecoveringOutcome<R>(st: DriverState, block: nat -> Result<R, Exception>, faults: RecoveryFaults): (o: Outcome<R>)
    ensures block(st.driver).Ok? ==> o == Outcome(st, Ok(block(st.driver).value))
    ensures block(st.driver).Fail? ==>
      && o.state.fatalErrors == st.fatalErrors + [block(st.driver).error]
      && o.state.closed == st.closed + [st.driver]
      && !o.state.isRecovering
    ensures o.result.Fail? ==> o.result.error.CacheDatabaseException? && o.result.error.message == UNRECOVERABLE
  {
    match block(st.driver)
    case Ok(v) => Outcome(st, Ok(v))
    case Fail(e) =>
      var reported := st.(closed := st.closed + [st.driver], logged := CaughtClose(st.logged, faults.closeThrows),
                          fatalErrors := st.fatalErrors + [e], isRecovering := false);
      if faults.onFatalErrorThrows.Some? then
        Outcome(reported, Fail(CacheDatabaseException(UNRECOVERABLE, faults.onFatalErrorThrows.value)))
      else if faults.providerThrows.Some? then
        Outcome(reported, Fail(CacheDatabaseException(UNRECOVERABLE, faults.providerThrows.value)))
      else
        var renewed := reported.(driver := st.provided, provided := st.provided + 1);
        match block(renewed.driver)
        case Ok(v) => Outcome(renewed, Ok(v))
        case Fail(e2) => Outcome(renewed, Fail(CacheDatabaseException(UNRECOVERABLE, e2)))
  }

  /** Recovery keeps the state valid, and a successful recovery runs on a driver never used before. */
  lemma RecoveryKeepsValid<R>(st: DriverState, block: nat -> Result<R, Exception>, faults: RecoveryFaults)
    requires ValidState(st)
    ensures ValidState(RunRecoveringOutcome(st, block, faults).state)
    ensures var o := RunRecoveringOutcome(st, block, faults);
            o.state.driver != st.driver ==> o.state.driver == st.provided && o.state.driver !in st.closed
  {
    var o := RunRecoveringOutcome(st, block, faults);
    forall k | 0 <= k < |o.state.closed|
      ensures o.state.closed[k] < o.state.provided
    {
      if k < |st.closed| {
        assert o.state.closed[k] == st.closed[k];
      }
    }
  }

  /**
   * A failure to close the broken driver is only logged: the result and
   * every other part of the state are those of a close that succeeds.
   */
  lemma CloseFailureSwallowed<R>(st: DriverState, block: nat -> Result<R, Exception>, faults: RecoveryFaults, e: Exception)
    requires block(st.driver).Fail?
    ensures var failing := RunRecoveringOutcome(st, block, faults.(closeThrows := Some(e)));
            var closing := RunRecoveringOutcome(st, block, faults.(closeThrows := None));
            && failing.result == closing.result
            && failing.state == closing.state.(logged := closing.state.logged + [e])
            && closing.state.logged == st.logged
  {
  }

  /**
   * An operation that fails on every driver ends in a CacheDatabaseException
   * whose cause is the retry's error, after exactly one report to the error
   * callback.
   */
  lemma PersistentFailure<R>(st: DriverState, block: nat -> Result<R, Exception>)
    requires forall d :: block(d).Fail?
    ensures var o := RunRecoveringOutcome(st, block, RecoveryFaults(None, None, None));
            && o.result == Fail(CacheDatabaseException(UNRECOVERABLE, block(st.provided).error))
            && |o.state.fatalErrors| == |st.fatalErrors| + 1
  {
  }

  /** One retry is enough when the new driver works. */
  lemma RecoveryRetriesOnNewDriver<R>(st: DriverState, block: nat -> Result<R, Exception>)
    requires block(st.driver).Fail? && block(st.provided).Ok?
    ensures RunRecoveringOutcome(st, block, RecoveryFaults(None, None, None)).result == Ok(block(st.provided).value)
  {
  }

  /** The driver operations. */
  datatype Operation =
    | CurrentTransaction
    | Execute(sql: string)
    | ExecuteQuery(sql: string)
    | NewTransaction
    | AddListener(keys: seq<string>)
    | NotifyListeners(keys: seq<string>)
    | RemoveListener(keys: seq<string>)
    | Close

  /** The four statement and transaction operations are protected; the listener operations and `close` delegate directly. */
  predicate GoesThroughRecovery(op: Operation) {
    op.CurrentTransaction? || op.Execute? || op.ExecuteQuery? || op.NewTransaction?
  }

  class RecoveringDriver {
    var driver: nat
    var provided: nat
    var isRecovering: bool
    var fatalErrors: seq<Exception>
    var closed: seq<nat>
    var logged: seq<Exception>

    function State(): DriverState
      reads this
    {
      DriverState(driver, provided, isRecovering, fatalErrors, closed, logged)
    }

    /** The wrapper starts on the first driver the provider creates. */
    constructor ()
      ensures State() == DriverState(0, 1, false, [], [], []) && ValidState(State())
    {
      driver := 0;
      provided := 1;
      isRecovering := false;
      fatalErrors := [];
      closed := [];
      logged := [];
    }

    /** Obtains a new driver from the provider, or the exception it throws. */
    method ProvideDriver(throws: Option<Exception>) returns (failure: Option<Exception>)
      modifies this
      ensures failure == throws
      ensures throws.None? ==> State() == old(State()).(driver := old(provided), provided := old(provided) + 1)
      ensures throws.Some? ==> State() == old(State())
    {
      failure := throws;
      if throws.None? {
        driver := provided;
        provided := provided + 1;
      }
    }

    method RunRecovering<R>(block: nat -> Result<R, Exception>, faults: RecoveryFaults) returns (r: Result<R, Thrown>)
      modifies this
      ensures var o := RunRecoveringOutcome(old(State()), block, faults);
              State() == o.state && r == o.result
    {
      var first := block(driver);
      if first.Ok? {
        return Ok(first.value);
      }
      isRecovering := true;
      // one caller at a time: no other recovery can have cleared the flag
      if isRecovering {
        closed := closed + [driver];
        if faults.closeThrows.Some? {
          logged := logged + [faults.closeThrows.value];
        }
        fatalErrors := fatalErrors + [first.error];
        if faults.onFatalErrorThrows.Some? {
          isRecovering := false;
          return Fail(CacheDatabaseException(UNRECOVERABLE, faults.onFatalErrorThrows.value));
        }
        var failure := ProvideDriver(faults.providerThrows);
        if failure.Some? {
          isRecovering := false;
          return Fail(CacheDatabaseException(UNRECOVERABLE, failure.value));
        }
      }
      var second := block(driver);
      isRecovering := false;
      if second.Ok? {
        r := Ok(second.value);
      } else {
        r := Fail(CacheDatabaseException(UNRECOVERABLE, second.error));
      }
    }

    /**
     * One operation of the driver interface. Protected operations go through
     * recovery; the others run on the current driver and let its exception
     * through; `close` closes the current driver.
     */
    method Perform<R>(op: Operation, block: nat -> Result<R, Exception>, faults: RecoveryFaults) returns (r: Result<R, Thrown>)
      modifies this
      ensures GoesThroughRecovery(op) ==>
        var o := RunRecoveringOutcome(old(State()), block, faults);
        State() == o.state && r == o.result
      ensures !GoesThroughRecovery(op) ==>
        && r == (if block(old(driver)).Ok? then Ok(block(old(driver)).value) else Fail(DriverException(block(old(driver)).error)))
        && State() == (if op.Close? then old(State()).(closed := old(closed) + [old(driver)]) else old(State()))
    {
      if GoesThroughRecovery(op) {
        r := RunRecovering(block, faults);
      } else {
        var outcome := block(driver);
        if op.Close? {
          closed := closed + [driver];
        }
        r := if outcome.Ok? then Ok(outcome.value) else Fail(DriverException(outcome.error));
      }
    }
  }
}
