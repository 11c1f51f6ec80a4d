/** Sending a transaction: the steps of one attempt, and the daemon's retries while fees are high. */
module Execution {
  import opened Wrappers
  import FeeHistory

  type Chain = FeeHistory.Chain

  type History = FeeHistory.History

  datatype Settings = Settings(
    fees: FeeHistory.Settings, percentile: nat, feeCap: Option<nat>,
    gasLimitCap: nat, gasBufferPercent: nat, hasSigner: bool, dryRun: bool, maxRetries: nat)

  ghost predicate ValidSettings(c: Settings) {
    c.fees.maxBlockCount > 0 && c.percentile <= 100
  }

  datatype Thrown = EmulatedCall | NoSigner | DryRun | HighGasFee | SendTransaction | Other

  // What an attempt meets: which of its calls succeed, and what they answer.
  datatype Env = Env(
    priorityFeeOk: bool, populateOk: bool, emulationOk: bool, estimatedGas: nat, signerPopulateOk: bool,
    feeReadsOk: bool, latestBlock: nat, currentFee: Option<nat>, signOk: bool, sendOk: bool, receiptStatus: nat)

  // How an attempt ends, if it handed a transaction to the network, and the fee history after it.
  datatype Attempted = Attempted(thrown: Option<Thrown>, submitted: bool, history: History)

  function GasLimit(c: Settings, env: Env): nat {
    env.estimatedGas * (100 + c.gasBufferPercent) / 100
  }

  // The fee check of an attempt, and the history it leaves.
  function CheckFees(c: Settings, chain: Chain, h: History, env: Env): (Option<bool>, History)
    requires ValidSettings(c)
  {
    if !env.feeReadsOk then (None, h)
    else
      (FeeHistory.FeeCheck(c.fees, chain, h, env.latestBlock, env.currentFee, c.feeCap, c.percentile),
       var updated := FeeHistory.Step(c.fees, chain, h, FeeHistory.Update(env.latestBlock));
       FeeHistory.Step(c.fees, chain, updated, FeeHistory.Query))
  }

  // One attempt, in the order of its steps.
  function Attempt(c: Settings, chain: Chain, h: History, env: Env): Attempted
    requires ValidSettings(c)
  {
    if !env.priorityFeeOk || !env.populateOk then Attempted(Some(Other), false, h)
    else if !env.emulationOk || GasLimit(c, env) > c.gasLimitCap then Attempted(Some(EmulatedCall), false, h)
    else if !c.hasSigner then Attempted(Some(NoSigner), false, h)
    else if !env.signerPopulateOk then Attempted(Some(Other), false, h)
    else
      var (acceptable, after) := CheckFees(c, chain, h, env);
      if acceptable.None? then Attempted(Some(Other), false, after)
      else if c.dryRun then Attempted(Some(DryRun), false, after)
      else if !acceptable.value then Attempted(Some(HighGasFee), false, after)
      else if !env.signOk then Attempted(Some(Other), false, after)
      else if !env.sendOk || env.receiptStatus != 1 then Attempted(Some(SendTransaction), true, after)
      else Attempted(None, true, after)
  }

  // The pending base fee is at most the absolute cap and the percentile of the updated history.
  ghost predicate FeesAreLow(c: Settings, history: seq<nat>, currentFee: nat)
    requires c.percentile <= 100
  {
    && history != []
    && (c.feeCap.Some? ==> currentFee <= c.feeCap.value)
    && currentFee <= FeeHistory.Percentile(history, c.percentile)
  }

  // The estimated gas and its buffer, in whole units, are within the cap.
  ghost predicate WithinGasCap(c: Settings, env: Env) {
    env.estimatedGas * (100 + c.gasBufferPercent) < 100 * (c.gasLimitCap + 1)
  }

  lemma GasLimitIs(c: Settings, env: Env)
    ensures GasLimit(c, env) <= c.gasLimitCap <==> WithinGasCap(c, env)
  {
  }

  // The call is built and can be emulated within the gas cap.
  ghost predicate Emulated(c: Settings, env: Env) {
    env.priorityFeeOk && env.populateOk && env.emulationOk && WithinGasCap(c, env)
  }

  // The attempt has a signer and reads the fees.
  ghost predicate ReadsFees(c: Settings, env: Env) {
    Emulated(c, env) && c.hasSigner && env.signerPopulateOk && env.feeReadsOk
  }

  // The fee history an attempt compares with.
  ghost function Updated(c: Settings, chain: Chain, h: History, env: Env): History
    requires ValidSettings(c)
  {
    FeeHistory.Step(c.fees, chain, h, FeeHistory.Update(env.latestBlock))
  }

  ghost predicate LowNow(c: Settings, chain: Chain, h: History, env: Env)
    requires ValidSettings(c)
  {
    FeesAreLow(c, Updated(c, chain, h, env).cache, if env.currentFee.Some? then env.currentFee.value else 0)
  }

  // An attempt gets as far as its fee check, which has a history to compare with.
  ghost predicate ChecksFees(c: Settings, chain: Chain, h: History, env: Env)
    requires ValidSettings(c)
  {
    ReadsFees(c, env) && Updated(c, chain, h, env).cache != []
  }

  // High fees are all that is in the way.
  ghost predicate OnlyFeesAreHigh(c: Settings, chain: Chain, h: History, env: Env)
    requires ValidSettings(c)
  {
    ChecksFees(c, chain, h, env) && !c.dryRun && !LowNow(c, chain, h, env)
  }

  // A transaction is handed to the network if and only if nothing fails on the way, there is a
  // signer, it is no dry run, the gas limit is within the cap and fees are low. An attempt succeeds
  // exactly if it handed one over that was mined with status 1.
  lemma SubmitsIffSafe(c: Settings, chain: Chain, h: History, env: Env)
    requires ValidSettings(c)
    ensures var a := Attempt(c, chain, h, env);
      && (a.submitted <==> ReadsFees(c, env) && !c.dryRun && LowNow(c, chain, h, env) && env.signOk)
      && (a.thrown.None? <==> a.submitted && env.sendOk && env.receiptStatus == 1)
  {
    GasLimitIs(c, env);
    hide FeeHistory.Step, FeeHistory.Percentile, GasLimit, WithinGasCap;
  }

  // When an attempt ends in each of the ways it can: in high fees if and only if they are all that is
  // in the way.
  lemma ThrowsIff(c: Settings, chain: Chain, h: History, env: Env)
    requires ValidSettings(c)
    ensures var a := Attempt(c, chain, h, env);
      && (a.thrown == Some(HighGasFee) <==> OnlyFeesAreHigh(c, chain, h, env))
      && (a.thrown == Some(DryRun) <==> ChecksFees(c, chain, h, env) && c.dryRun)
      && (a.thrown == Some(NoSigner) <==> Emulated(c, env) && !c.hasSigner)
      && (a.thrown == Some(EmulatedCall) <==> env.priorityFeeOk && env.populateOk && !Emulated(c, env))
      && (a.thrown == Some(SendTransaction) <==> a.submitted && !(env.sendOk && env.receiptStatus == 1))
  {
    GasLimitIs(c, env);
    hide FeeHistory.Step, FeeHistory.Percentile, GasLimit, WithinGasCap;
  }

  // An attempt that reads the fees leaves the history updated and sorted, any other as it was.
  lemma HistoryAfter(c: Settings, chain: Chain, h: History, env: Env)
    requires ValidSettings(c)
    ensures Attempt(c, chain, h, env).history ==
      if ReadsFees(c, env) then FeeHistory.Step(c.fees, chain, Updated(c, chain, h, env), FeeHistory.Query) else h
  {
    GasLimitIs(c, env);
    hide FeeHistory.Step, FeeHistory.Percentile, GasLimit, WithinGasCap;
  }

  // ---- The daemon's retries ----

  // What each attempt meets, by its number.
  datatype Envs = Envs(at: nat -> Env)

  // A run makes one attempt and its retries.
  datatype Run = Run(retries: nat, submissions: nat, last: Option<Thrown>, history: History)

  // A run from its attempt number `made` on.
  function DaemonRun(c: Settings, chain: Chain, h: History, envs: Envs, made: nat): Run
    requires ValidSettings(c) && made <= c.maxRetries
    decreases c.maxRetries - made
  {
    var a := Attempt(c, chain, h, envs.at(made));
    var submissions := if a.submitted then 1 else 0;
    if a.thrown == Some(HighGasFee) && made < c.maxRetries then
      var rest := DaemonRun(c, chain, a.history, envs, made + 1);
      Run(1 + rest.retries, submissions + rest.submissions, rest.last, rest.history)
    else Run(0, submissions, a.thrown, a.history)
  }

  // The fee history before attempt number made + k.
  ghost function HistoryAt(c: Settings, chain: Chain, h: History, envs: Envs, made: nat, k: nat): History
    requires ValidSettings(c)
    decreases k
  {
    if k == 0 then h
    else HistoryAt(c, chain, Attempt(c, chain, h, envs.at(made)).history, envs, made + 1, k - 1)
  }

  ghost function AttemptAt(c: Settings, chain: Chain, h: History, envs: Envs, made: nat, k: nat): Attempted
    requires ValidSettings(c)
  {
    Attempt(c, chain, HistoryAt(c, chain, h, envs, made, k), envs.at(made + k))
  }

  // Attempt number made + k meets nothing but high fees.
  ghost predicate HighAt(c: Settings, chain: Chain, h: History, envs: Envs, made: nat, k: nat)
    requires ValidSettings(c)
  {
    OnlyFeesAreHigh(c, chain, HistoryAt(c, chain, h, envs, made, k), envs.at(made + k))
  }

  // Attempts are retried as long as they meet nothing but high fees and may be retried; then the run
  // ends as its last attempt does, the only one that hands over a transaction.
  ghost predicate Outcome(c: Settings, chain: Chain, h: History, envs: Envs, made: nat, run: Run)
    requires ValidSettings(c) && made <= c.maxRetries
  {
    && run.retries <= c.maxRetries - made
    && (forall k: nat :: k < run.retries ==> HighAt(c, chain, h, envs, made, k))
    && (run.retries < c.maxRetries - made ==> !HighAt(c, chain, h, envs, made, run.retries))
    && run.last == AttemptAt(c, chain, h, envs, made, run.retries).thrown
    && run.submissions == (if AttemptAt(c, chain, h, envs, made, run.retries).submitted then 1 else 0)
    && run.history == HistoryAt(c, chain, h, envs, made, run.retries + 1)
  }

  lemma NextAttempt(c: Settings, chain: Chain, h: History, envs: Envs, made: nat, k: nat)
    requires ValidSettings(c)
    ensures var h' := Attempt(c, chain, h, envs.at(made)).history;
      && HistoryAt(c, chain, h, envs, made, k + 1) == HistoryAt(c, chain, h', envs, made + 1, k)
      && AttemptAt(c, chain, h, envs, made, k + 1) == AttemptAt(c, chain, h', envs, made + 1, k)
      && (HighAt(c, chain, h, envs, made, k + 1) <==> HighAt(c, chain, h', envs, made + 1, k))
  {
    hide Attempt, OnlyFeesAreHigh;
  }

  lemma FirstAttempt(c: Settings, chain: Chain, h: History, envs: Envs, made: nat)
    requires ValidSettings(c)
    ensures AttemptAt(c, chain, h, envs, made, 0) == Attempt(c, chain, h, envs.at(made))
    ensures HistoryAt(c, chain, h, envs, made, 1) == Attempt(c, chain, h, envs.at(made)).history
    ensures HighAt(c, chain, h, envs, made, 0) <==> Attempt(c, chain, h, envs.at(made)).thrown == Some(HighGasFee)
  {
    ThrowsIff(c, chain, h, envs.at(made));
    hide Attempt, OnlyFeesAreHigh;
    var h' := Attempt(c, chain, h, envs.at(made)).history;
    assert HistoryAt(c, chain, h', envs, made + 1, 0) == h';
  }

  ghost predicate Retried(c: Settings, a: Attempted, made: nat) {
    a.thrown == Some(HighGasFee) && made < c.maxRetries
  }

  // An attempt that ended on high fees before a run.
  lemma OneMoreAttempt(c: Settings, chain: Chain, h: History, envs: Envs, made: nat, rest: Run)
    requires ValidSettings(c) && Retried(c, Attempt(c, chain, h, envs.at(made)), made)
    requires Outcome(c, chain, Attempt(c, chain, h, envs.at(made)).history, envs, made + 1, rest)
    ensures Outcome(c, chain, h, envs, made, rest.(retries := 1 + rest.retries))
  {
    hide Attempt, AttemptAt, HistoryAt, HighAt;
    NextAttempt(c, chain, h, envs, made, rest.retries);
    NextAttempt(c, chain, h, envs, made, rest.retries + 1);
    forall k: nat | k < rest.retries + 1
      ensures HighAt(c, chain, h, envs, made, k)
    {
      if k > 0 {
        NextAttempt(c, chain, h, envs, made, k - 1);
      } else {
        FirstAttempt(c, chain, h, envs, made);
      }
    }
  }

  // One step of a run: an attempt that is retried hands over nothing.
  lemma RunUnfolds(c: Settings, chain: Chain, h: History, envs: Envs, made: nat)
    requires ValidSettings(c) && made <= c.maxRetries
    ensures var a := Attempt(c, chain, h, envs.at(made));
      if Retried(c, a, made) then
        var rest := DaemonRun(c, chain, a.history, envs, made + 1);
        !a.submitted && DaemonRun(c, chain, h, envs, made) == rest.(retries := 1 + rest.retries)
      else DaemonRun(c, chain, h, envs, made) == Run(0, if a.submitted then 1 else 0, a.thrown, a.history)
  {
    SubmitsIffSafe(c, chain, h, envs.at(made));
    ThrowsIff(c, chain, h, envs.at(made));
    hide Attempt, LowNow, ReadsFees;
  }

  lemma LastAttempt(c: Settings, chain: Chain, h: History, envs: Envs, made: nat)
    requires ValidSettings(c) && made <= c.maxRetries && !Retried(c, Attempt(c, chain, h, envs.at(made)), made)
    ensures var a := Attempt(c, chain, h, envs.at(made));
      Outcome(c, chain, h, envs, made, Run(0, if a.submitted then 1 else 0, a.thrown, a.history))
  {
    FirstAttempt(c, chain, h, envs, made);
    hide Attempt, AttemptAt, HistoryAt, HighAt;
  }

  lemma {:induction false} RunIs(c: Settings, chain: Chain, h: History, envs: Envs, made: nat)
    requires ValidSettings(c) && made <= c.maxRetries
    ensures Outcome(c, chain, h, envs, made, DaemonRun(c, chain, h, envs, made))
    decreases c.maxRetries - made
  {
    RunUnfolds(c, chain, h, envs, made);
    hide Attempt, DaemonRun, Outcome, HighAt, HistoryAt, OnlyFeesAreHigh;
    var a := Attempt(c, chain, h, envs.at(made));
    if Retried(c, a, made) {
      RunIs(c, chain, a.history, envs, made + 1);
      OneMoreAttempt(c, chain, h, envs, made, DaemonRun(c, chain, a.history, envs, made + 1));
    } else {
      LastAttempt(c, chain, h, envs, made);
    }
  }

  // Main result: whatever the attempts meet, a run makes at most max-retries + 1 of them, hands over
  // at most one transaction and that only in its last attempt, makes another attempt exactly when one
  // that may be retried met nothing but high fees, and ends as its last attempt does.
  lemma RetriesAreSafe(c: Settings, chain: Chain, h: History, envs: Envs)
    requires ValidSettings(c)
    ensures var run := DaemonRun(c, chain, h, envs, 0);
      && run.submissions <= 1 && Outcome(c, chain, h, envs, 0, run)
      && (run.last.None? ==> run.submissions == 1)
  {
    RunIs(c, chain, h, envs, 0);
    hide DaemonRun, HistoryAt, HighAt;
    var run := DaemonRun(c, chain, h, envs, 0);
    SubmitsIffSafe(c, chain, HistoryAt(c, chain, h, envs, 0, run.retries), envs.at(0 + run.retries));
  }

  // A run has made some attempts, all ended on high fees, and goes on from there.
  ghost predicate GoesOn(c: Settings, chain: Chain, envs: Envs, run: Run, h: History, made: nat) {
    && ValidSettings(c) && made <= c.maxRetries
    && var rest := DaemonRun(c, chain, h, envs, made);
       run == rest.(retries := made + rest.retries)
  }

  lemma GoesOnAfter(c: Settings, chain: Chain, envs: Envs, run: Run, h: History, made: nat)
    requires GoesOn(c, chain, envs, run, h, made)
    ensures var a := Attempt(c, chain, h, envs.at(made));
      if Retried(c, a, made) then GoesOn(c, chain, envs, run, a.history, made + 1)
      else run == Run(made, if a.submitted then 1 else 0, a.thrown, a.history)
  {
    RunUnfolds(c, chain, h, envs, made);
    hide Attempt, DaemonRun;
  }

  // The metrics, and the transactions handed to the network.
  datatype Counters = Counters(
    pending: int, confirmed: int, errors: int, highGasFeeInterruptions: int, submissions: nat)

  // What is thrown to the caller.
  function ToCaller(last: Option<Thrown>): Option<Thrown> {
    if last == Some(NoSigner) || last == Some(DryRun) then None else last
  }

  // The counters after the end of an attempt that was pending.
  function Settled(n: Counters, last: Option<Thrown>): Counters {
    Counters(
      n.pending - 1,
      if last.None? then n.confirmed + 1 else n.confirmed,
      if ToCaller(last).Some? then n.errors + 1 else n.errors,
      n.highGasFeeInterruptions, n.submissions)
  }

  // The counters after a run: nothing is left pending.
  function Tally(n: Counters, run: Run): Counters {
    Counters(
      n.pending,
      n.confirmed + (if run.last.None? then 1 else 0),
      n.errors + (if ToCaller(run.last).Some? then 1 else 0),
      n.highGasFeeInterruptions + run.retries,
      n.submissions + run.submissions)
  }

  // The counters once some attempts have been retried.
  function Waiting(n: Counters, made: nat): Counters {
    n.(highGasFeeInterruptions := n.highGasFeeInterruptions + made)
  }

  // The counters while an attempt is pending, after it handed over a transaction or not.
  function Trying(n: Counters, a: Attempted): Counters {
    n.(pending := n.pending + 1, submissions := n.submissions + if a.submitted then 1 else 0)
  }

  // A run leaves the pending gauge as it was. It counts a confirmation exactly if its transaction was
  // mined, and an error exactly if something is thrown to the caller: neither a missing signer nor a
  // dry run is.
  lemma RunIsCounted(n: Counters, run: Run)
    ensures var m := Tally(n, run);
      && m.pending == n.pending
      && m.highGasFeeInterruptions - n.highGasFeeInterruptions == run.retries
      && m.submissions - n.submissions == run.submissions
      && 0 <= m.confirmed - n.confirmed <= 1 && 0 <= m.errors - n.errors <= 1
      && (m.confirmed > n.confirmed <==> run.last.None?)
      && (m.errors > n.errors <==> ToCaller(run.last).Some?)
    ensures ToCaller(run.last).Some? <==> run.last.Some? && run.last.value !in {NoSigner, DryRun}
    ensures ToCaller(run.last).Some? ==> ToCaller(run.last) == run.last
  {
  }

  lemma SettledIsTally(n: Counters, made: nat, a: Attempted)
    ensures Settled(Trying(Waiting(n, made), a), a.thrown) ==
      Tally(n, Run(made, if a.submitted then 1 else 0, a.thrown, a.history))
  {
  }

  lemma WaitingMore(n: Counters, made: nat)
    ensures Waiting(Waiting(n, made), 1) == Waiting(n, made + 1) && Waiting(n, 0) == n
  {
  }

  class Execution {
    const settings: Settings
    const fees: FeeHistory.GasFeeHistory
    var counters: Counters

    ghost predicate Valid() {
      ValidSettings(settings) && fees.settings == settings.fees
    }

    constructor (settings: Settings)
      requires ValidSettings(settings)
      ensures Valid() && fresh(fees) && this.settings == settings && fees.Model() == FeeHistory.History([], 0)
      ensures counters == Counters(0, 0, 0, 0, 0)
    {
      this.settings := settings;
      fees := new FeeHistory.GasFeeHistory(settings.fees);
      counters := Counters(0, 0, 0, 0, 0);
    }

    method Execute(chain: Chain, env: Env) returns (thrown: Option<Thrown>)
      requires Valid()
      modifies this, fees
      ensures var a := Attempt(settings, chain, old(fees.Model()), env);
        && thrown == a.thrown && fees.Model() == a.history
        && counters == old(counters).(submissions := old(counters).submissions + if a.submitted then 1 else 0)
    {
      if !env.priorityFeeOk || !env.populateOk {
        return Some(Other);
      }
      if !env.emulationOk {
        return Some(EmulatedCall);
      }
      var gasLimit := env.estimatedGas * (100 + settings.gasBufferPercent) / 100;
      if gasLimit > settings.gasLimitCap {
        return Some(EmulatedCall);
      }
      if !settings.hasSigner {
        return Some(NoSigner);
      }
      if !env.signerPopulateOk || !env.feeReadsOk {
        return Some(Other);
      }
      hide FeeHistory.FeeCheck, FeeHistory.Step;
      var acceptable :=
        fees.IsFeePerGasAcceptable(chain, env.latestBlock, env.currentFee, settings.feeCap, settings.percentile);
      if acceptable.None? {
        return Some(Other);
      }
      if settings.dryRun {
        return Some(DryRun);
      }
      if !acceptable.value {
        return Some(HighGasFee);
      }
      if !env.signOk {
        return Some(Other);
      }
      counters := counters.(submissions := counters.submissions + 1);
      if !env.sendOk || env.receiptStatus != 1 {
        return Some(SendTransaction);
      }
      return None;
    }

    // The end of a run that is not tried again; the result is what is thrown to the caller.
    method Settle(e: Option<Thrown>) returns (thrown: Option<Thrown>)
      modifies `counters
      ensures thrown == ToCaller(e) && counters == Settled(old(counters), e)
    {
      counters := counters.(pending := counters.pending - 1);
      if e.None? {
        counters := counters.(confirmed := counters.confirmed + 1);
        return None;
      }
      if e.value.NoSigner? || e.value.DryRun? {
        return None;
      }
      counters := counters.(errors := counters.errors + 1);
      return e;
    }

    // One turn of the loop: an attempt, and whether it is tried again.
    method TryOnce(chain: Chain, env: Env, mayRetry: bool) returns (again: bool, thrown: Option<Thrown>)
      requires Valid()
      modifies this, fees
      ensures var a := Attempt(settings, chain, old(fees.Model()), env);
        && again == (a.thrown == Some(HighGasFee) && mayRetry) && fees.Model() == a.history
        && (if again then counters == Waiting(old(counters), 1)
            else thrown == ToCaller(a.thrown) && counters == Settled(Trying(old(counters), a), a.thrown))
    {
      SubmitsIffSafe(settings, chain, fees.Model(), env);
      ThrowsIff(settings, chain, fees.Model(), env);
      hide Attempt, Settled, ToCaller, LowNow, ReadsFees;
      counters := counters.(pending := counters.pending + 1);
      var e := Execute(chain, env);
      if e == Some(HighGasFee) && mayRetry {
        counters := counters.(
          highGasFeeInterruptions := counters.highGasFeeInterruptions + 1, pending := counters.pending - 1);
        return true, None;
      }
      thrown := Settle(e);
      return false, thrown;
    }

    method ExecuteDaemon(chain: Chain, envs: Envs) returns (thrown: Option<Thrown>)
      requires Valid()
      modifies this, fees
      ensures var run := DaemonRun(settings, chain, old(fees.Model()), envs, 0);
        fees.Model() == run.history && thrown == ToCaller(run.last) && counters == Tally(old(counters), run)
    {
      var highGasAttempts: nat := 0;
      ghost var run := DaemonRun(settings, chain, fees.Model(), envs, 0);
      WaitingMore(counters, 0);
      assert GoesOn(settings, chain, envs, run, fees.Model(), 0);
      hide Attempt, DaemonRun, Tally, Settled, ToCaller, Waiting, Trying;
      while true
        invariant GoesOn(settings, chain, envs, run, fees.Model(), highGasAttempts)
        invariant counters == Waiting(old(counters), highGasAttempts)
        decreases settings.maxRetries - highGasAttempts
      {
        GoesOnAfter(settings, chain, envs, run, fees.Model(), highGasAttempts);
        WaitingMore(old(counters), highGasAttempts);
        ghost var a := Attempt(settings, chain, fees.Model(), envs.at(highGasAttempts));
        SettledIsTally(old(counters), highGasAttempts, a);
        var again;
        again, thrown := TryOnce(chain, envs.at(highGasAttempts), highGasAttempts < settings.maxRetries);
        if !again {
          return;
        }
        highGasAttempts := highGasAttempts + 1;
      }
    }
  }
}
