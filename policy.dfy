/**
 * The resume-or-restart policy of the helpers: sample the sensor for five
 * rounds, counting failed status reads and, among them, those whose error id
 * names an invalid register read; then start the sensor only if every round
 * failed or at least four looked like a device that was never started.
 * The wait between rounds is injected (a sleep in the source, a recorder here),
 * so the synchronous and the tokio variants are the same algorithm.
 */
module Policy {
  import opened Common
  import Registers
  import opened StatusDecoder
  import opened ErrorIdDecoder
  import opened SensorControl

  const ROUNDS: nat := 5

  /**
   * What one sampling round saw: the reply to the result read, the reply to
   * the status read and, when the status read failed, the reply to the
   * error-id read.
   */
  datatype Round = Round(resultReply: Reply, statusReply: Reply, errorIdReply: Option<Reply>)

  predicate WellFormedRound(rd: Round)
  {
    && (rd.resultReply.Ok? ==> |rd.resultReply.value| == 6)
    && IsByteReply(rd.statusReply)
    && (rd.errorIdReply.Some? <==> DecodeStatus(rd.statusReply).Err?)
    && (rd.errorIdReply.Some? ==> IsByteReply(rd.errorIdReply.value))
  }

  predicate WellFormedRounds(rs: seq<Round>)
  {
    forall i :: 0 <= i < |rs| ==> WellFormedRound(rs[i])
  }

  /** `if let Err(_) = $dev.status()`. */
  predicate StatusFailed(rd: Round)
    requires WellFormedRound(rd)
  {
    DecodeStatus(rd.statusReply).Err?
  }

  /** The status read failed and the error id, when it could be read, names an invalid register read. */
  predicate NotStartedSign(rd: Round)
    requires WellFormedRound(rd)
  {
    && rd.errorIdReply.Some?
    && var id := DecodeErrorId(rd.errorIdReply.value);
       id.Ok? && HasCause(id.value, ReadRegister)
  }

  /** The bus events of one round, in the order they are issued. */
  function RoundEvents(rd: Round): seq<BusEvent>
  {
    [BusEvent(BlockRead(Registers.AlgResultData, Zeros(6)), rd.resultReply),
     BusEvent(ByteRead(Registers.Status), rd.statusReply)] +
    (if rd.errorIdReply.Some? then [BusEvent(ByteRead(Registers.ErrorId), rd.errorIdReply.value)] else [])
  }

  /** The bus events of a sequence of rounds. */
  function Events(rs: seq<Round>): seq<BusEvent>
  {
    if rs == [] then [] else Events(rs[..|rs| - 1]) + RoundEvents(rs[|rs| - 1])
  }

  /** `whole_error`: rounds whose status read failed. */
  function WholeError(rs: seq<Round>): nat
    requires WellFormedRounds(rs)
  {
    if rs == [] then 0
    else WholeError(rs[..|rs| - 1]) + (if StatusFailed(rs[|rs| - 1]) then 1 else 0)
  }

  /** `maybe_not_started_error`: rounds that showed the not-started sign. */
  function MaybeNotStarted(rs: seq<Round>): nat
    requires WellFormedRounds(rs)
  {
    if rs == [] then 0
    else MaybeNotStarted(rs[..|rs| - 1]) + (if NotStartedSign(rs[|rs| - 1]) then 1 else 0)
  }

  /** The number of bus operations issued when each round's wait is called. */
  function WaitMarks(base: nat, rs: seq<Round>): seq<nat>
  {
    if rs == [] then [] else WaitMarks(base, rs[..|rs| - 1]) + [base + |Events(rs)|]
  }

  /** The decision after sampling: restart when every round failed or at least four looked unstarted. */
  predicate ShouldRestart(wholeError: nat, maybeNotStartedError: nat)
  {
    wholeError == ROUNDS || maybeNotStartedError >= 4
  }

  /** The injected wait. It records how many bus operations preceded each call. */
  class Pacer {
    ghost var marks: seq<nat>

    constructor ()
      ensures marks == []
    {
      marks := [];
    }

    method Wait(ghost busOps: nat)
      modifies this
      ensures marks == old(marks) + [busOps]
    {
      marks := marks + [busOps];
    }
  }

  /**
   * `sample_errors!`: five rounds of `result()` (outcome ignored), then
   * `status()`, then `error_id()` only if the status read failed, then the
   * wait. No failure leaves the loop early.
   */
  method SampleErrors(dev: Ccs811, pacer: Pacer)
    returns (wholeError: nat, maybeNotStartedError: nat, ghost rounds: seq<Round>)
    modifies dev.i2c, pacer
    ensures |rounds| == ROUNDS && WellFormedRounds(rounds)
    ensures dev.i2c.trace == old(dev.i2c.trace) + Events(rounds)
    ensures pacer.marks == old(pacer.marks) + WaitMarks(|old(dev.i2c.trace)|, rounds)
    ensures wholeError == WholeError(rounds) && maybeNotStartedError == MaybeNotStarted(rounds)
  {
    wholeError, maybeNotStartedError, rounds := 0, 0, [];
    ghost var base := |dev.i2c.trace|;
    for n := 1 to 6
      invariant |rounds| == n - 1 && WellFormedRounds(rounds)
      invariant dev.i2c.trace == old(dev.i2c.trace) + Events(rounds)
      invariant pacer.marks == old(pacer.marks) + WaitMarks(base, rounds)
      invariant wholeError == WholeError(rounds) && maybeNotStartedError == MaybeNotStarted(rounds)
    {
      var failed, notStarted, rd := SampleRound(dev);
      if failed {
        wholeError := wholeError + 1;
      }
      if notStarted {
        maybeNotStartedError := maybeNotStartedError + 1;
      }
      RoundsGrow(base, rounds, rd);
      ConcatAssoc(old(dev.i2c.trace), Events(rounds), RoundEvents(rd));
      rounds := rounds + [rd];
      pacer.Wait(|dev.i2c.trace|);
    }
  }

  /**
   * Regrouping a concatenation. Dafny knows this; stating it as a lemma hands
   * the loop of `SampleErrors` the one instance it needs, which keeps that
   * proof well inside its resource budget.
   */
  lemma ConcatAssoc(a: seq<BusEvent>, b: seq<BusEvent>, c: seq<BusEvent>)
    ensures (a + b) + c == a + (b + c)
  {
  }

  /** Appending a round adds its events, its wait mark and its share of each counter. */
  lemma RoundsGrow(base: nat, rs: seq<Round>, rd: Round)
    requires WellFormedRounds(rs) && WellFormedRound(rd)
    ensures WellFormedRounds(rs + [rd])
    ensures Events(rs + [rd]) == Events(rs) + RoundEvents(rd)
    ensures WaitMarks(base, rs + [rd]) == WaitMarks(base, rs) + [base + |Events(rs + [rd])|]
    ensures WholeError(rs + [rd]) == WholeError(rs) + (if StatusFailed(rd) then 1 else 0)
    ensures MaybeNotStarted(rs + [rd]) == MaybeNotStarted(rs) + (if NotStartedSign(rd) then 1 else 0)
  {
    assert (rs + [rd])[..|rs|] == rs;
  }

  /** One round of `sample_errors!`: it says whether the status read failed and whether the not-started sign showed. */
  method SampleRound(dev: Ccs811) returns (failed: bool, notStarted: bool, ghost rd: Round)
    modifies dev.i2c
    ensures WellFormedRound(rd) && dev.i2c.trace == old(dev.i2c.trace) + RoundEvents(rd)
    ensures failed == StatusFailed(rd) && notStarted == NotStartedSign(rd)
  {
    ghost var start := dev.i2c.trace;
    var _ := dev.ReadResult();
    ghost var resultReply := dev.i2c.trace[|start|].reply;
    var status := dev.ReadStatus();
    ghost var statusReply := dev.i2c.trace[|start| + 1].reply;
    ghost var errorIdReply: Option<Reply> := None;
    failed, notStarted := false, false;
    if status.Err? {
      failed := true;
      var id := dev.ReadErrorId();
      errorIdReply := Some(dev.i2c.trace[|start| + 2].reply);
      match id {
        case Ok(id) =>
          notStarted := HasCause(id, ReadRegister);
        case Err(_) =>
      }
    }
    rd := Round(resultReply, statusReply, errorIdReply);
    assert dev.i2c.trace == start + RoundEvents(rd);
  }

  /**
   * `resume_or_restart`: sample, then either `start` with the caller's
   * settings (returning its result unchanged) or do nothing more and succeed.
   */
  method ResumeOrRestart(dev: Ccs811, mode: Registers.MeasureDriveMode,
                         interrupt: Registers.MeasureInterrupt, thresh: Registers.MeasureThresh,
                         pacer: Pacer)
    returns (r: Result<(), Ccs811Error>, ghost rounds: seq<Round>)
    modifies dev.i2c, pacer
    ensures |rounds| == ROUNDS && WellFormedRounds(rounds)
    ensures old(dev.i2c.trace) + Events(rounds) <= dev.i2c.trace
    ensures pacer.marks == old(pacer.marks) + WaitMarks(|old(dev.i2c.trace)|, rounds)
    ensures var after := dev.i2c.trace[|old(dev.i2c.trace)| + |Events(rounds)|..];
      if ShouldRestart(WholeError(rounds), MaybeNotStarted(rounds))
      then IsStart(after, Registers.ModeByte(mode, interrupt, thresh)) && r == StartOutcome(after)
      else after == [] && r == Ok(())
  {
    var wholeError, maybeNotStartedError;
    wholeError, maybeNotStartedError, rounds := SampleErrors(dev, pacer);
    if wholeError == 5 || maybeNotStartedError >= 4 {
      r := dev.Start(mode, interrupt, thresh);
    } else {
      r := Ok(());
    }
  }

  /** At the end of sampling, `0 <= maybe_not_started_error <= whole_error <= 5`. */
  lemma {:induction false} CountersBounded(rs: seq<Round>)
    requires WellFormedRounds(rs)
    ensures MaybeNotStarted(rs) <= WholeError(rs) <= |rs|
  {
    if rs != [] {
      CountersBounded(rs[..|rs| - 1]);
    }
  }

  /** The not-started sign is: status failed, error id read, bit 1 (invalid register read) set. */
  lemma NotStartedSignIsBitOne(rd: Round)
    requires WellFormedRound(rd)
    ensures NotStartedSign(rd) <==>
      StatusFailed(rd) && rd.errorIdReply.value.Ok? && BitSet(rd.errorIdReply.value.value[0], 1)
  {
    if rd.errorIdReply.Some? && rd.errorIdReply.value.Ok? {
      var raw := rd.errorIdReply.value.value[0];
      HasCauseIffBit(raw, ReadRegister);
    }
  }

  /** A round whose status read succeeded counts toward neither counter. */
  lemma {:induction false} HealthyRoundsCountNothing(rs: seq<Round>)
    requires WellFormedRounds(rs)
    requires forall i :: 0 <= i < |rs| ==> !StatusFailed(rs[i])
    ensures WholeError(rs) == 0 && MaybeNotStarted(rs) == 0
  {
    if rs != [] {
      HealthyRoundsCountNothing(rs[..|rs| - 1]);
    }
  }

  /** Every round failing counts every round. */
  lemma {:induction false} FailedRoundsCountAll(rs: seq<Round>)
    requires WellFormedRounds(rs)
    requires forall i :: 0 <= i < |rs| ==> StatusFailed(rs[i])
    ensures WholeError(rs) == |rs|
  {
    if rs != [] {
      FailedRoundsCountAll(rs[..|rs| - 1]);
    }
  }

  /** One healthy round keeps `whole_error` below the number of rounds. */
  lemma {:induction false} HealthyRoundBelowAll(rs: seq<Round>, k: nat)
    requires WellFormedRounds(rs)
    requires k < |rs| && !StatusFailed(rs[k])
    ensures WholeError(rs) < |rs|
  {
    var init := rs[..|rs| - 1];
    CountersBounded(init);
    if k < |rs| - 1 {
      assert init[k] == rs[k];
      HealthyRoundBelowAll(init, k);
    }
  }

  /** Five healthy status reads: the sensor is left alone. */
  lemma AllHealthyResumes(rs: seq<Round>)
    requires |rs| == ROUNDS && WellFormedRounds(rs)
    requires forall i :: 0 <= i < |rs| ==> !StatusFailed(rs[i])
    ensures !ShouldRestart(WholeError(rs), MaybeNotStarted(rs))
  {
    HealthyRoundsCountNothing(rs);
  }

  /** Five failed status reads: the sensor is started, whatever the error ids said. */
  lemma AllFailedRestarts(rs: seq<Round>)
    requires |rs| == ROUNDS && WellFormedRounds(rs)
    requires forall i :: 0 <= i < |rs| ==> StatusFailed(rs[i])
    ensures ShouldRestart(WholeError(rs), MaybeNotStarted(rs))
  {
    FailedRoundsCountAll(rs);
  }

  /** At most three not-started signs and one healthy round: the sensor is left alone. */
  lemma FewSignsResume(rs: seq<Round>, k: nat)
    requires |rs| == ROUNDS && WellFormedRounds(rs)
    requires MaybeNotStarted(rs) <= 3
    requires k < |rs| && !StatusFailed(rs[k])
    ensures !ShouldRestart(WholeError(rs), MaybeNotStarted(rs))
  {
    HealthyRoundBelowAll(rs, k);
  }

  /** Each round issues at least two bus operations. */
  lemma {:induction false} EventsGrow(rs: seq<Round>)
    ensures |Events(rs)| >= 2 * |rs|
  {
    if rs != [] {
      EventsGrow(rs[..|rs| - 1]);
    }
  }

  /**
   * One wait per round, each after that round's bus operations: the marks
   * are as many as the rounds, and each is at least two operations past the
   * one before it.
   */
  lemma {:induction false} WaitsFollowRounds(base: nat, rs: seq<Round>)
    ensures |WaitMarks(base, rs)| == |rs|
    ensures forall i :: 0 <= i < |rs| ==> WaitMarks(base, rs)[i] >= base + 2 * (i + 1)
    ensures forall i :: 0 < i < |rs| ==> WaitMarks(base, rs)[i] >= WaitMarks(base, rs)[i - 1] + 2
  {
    if rs != [] {
      var init := rs[..|rs| - 1];
      WaitsFollowRounds(base, init);
      EventsGrow(rs);
      if |init| > 0 {
        assert Events(rs) == Events(init) + RoundEvents(rs[|rs| - 1]);
        assert WaitMarks(base, init)[|init| - 1] == base + |Events(init)| by {
          assert init == init[..|init| - 1] + [init[|init| - 1]];
        }
      }
    }
  }
}
