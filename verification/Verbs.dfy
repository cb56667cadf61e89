/** Work requests, work completions and the post log: what crosses the boundary to the verbs library. */
module Verbs {

  datatype Opcode = RdmaWrite | RdmaWriteWithImm | RdmaRead | Send | SendWithImm | AtomicCmpAndSwp | AtomicFetchAndAdd

  datatype Scheme = Spray | Dqplb

  datatype WcStatus = Success | Failed(code: nat)

  datatype Error =
    | InvalidArgument      // postSend / postRecv refuse the work request
    | StatusQueueEmpty     // a completion arrived on a QP with nothing outstanding
    | WrIdMismatch         // a completion arrived that is not the oldest one of its QP
    | UnknownWrId          // the virtual CQ has no live entry for the work request id
    | NotifyQueueEmpty     // a notify was asked for and none is waiting
    | PollFailed           // the device failed to report its completions
    | Aborted              // a check stops the program

  datatype Result<+T> = Ok(value: T) | Err(error: Error)

  datatype Option<+T> = None | Some(value: T)

  /** ibv_send_wr with at most one scatter-gather entry. */
  datatype SendWr = SendWr(wrId: nat, opcode: Opcode, signaled: bool, numSge: nat,
                           addr: nat, length: nat, remoteAddr: nat, imm: nat)

  /** ibv_recv_wr with at most one scatter-gather entry. */
  datatype RecvWr = RecvWr(wrId: nat, numSge: nat, addr: nat, length: nat)

  /** The requests handed to one physical QP. */
  datatype PhysicalSend = PhysicalSend(opcode: Opcode, addr: nat, length: nat, remoteAddr: nat, imm: nat)
  datatype PhysicalRecv = PhysicalRecv(numSge: nat, addr: nat, length: nat)

  datatype WcOpcode = WcRecv | WcRecvRdmaWithImm | WcSendSide

  /** ibv_wc: what the branches read and what the virtual completion keeps. */
  datatype PhysicalWc = PhysicalWc(wrId: nat, opcode: WcOpcode, status: WcStatus, byteLen: nat, imm: nat)

  /** The part of an ibv_wc that a user of the virtual CQ gets. */
  datatype IbvWc = IbvWc(wrId: nat, status: WcStatus, byteLen: nat, imm: nat)

  /** One entry of physicalSendWrStatus_ or physicalRecvWrStatus_; DQPLB receives carry the virtual id -1. */
  datatype WrStatus = WrStatus(physicalWrId: nat, virtualWrId: int)

  datatype QpRef = Data(i: nat) | Notify

  /**
   * One successful post call, in call order over all QPs. `msg` numbers the user's message it belongs to;
   * no branch of the code reads it.
   */
  datatype Posted<+W> = Posted(qp: QpRef, status: WrStatus, msg: nat, wr: W)

  predicate IsRdma(op: Opcode) { op.RdmaWrite? || op.RdmaWriteWithImm? || op.RdmaRead? }

  predicate Supported(op: Opcode) { IsRdma(op) || op.Send? }

  function Min(a: int, b: int): int { if a < b then a else b }

  // ---------------------------------------------------------------- the post log and what of it is in flight

  /** The posts on `qp` that are not in `done`, oldest first: what the device still owes on that QP. */
  ghost function InFlight<W>(log: seq<Posted<W>>, done: set<nat>, qp: QpRef): seq<WrStatus> {
    if log == [] then []
    else
      var n := |log| - 1;
      InFlight(log[..n], done, qp) + (if log[n].qp == qp && n !in done then [log[n].status] else [])
  }

  /** `i` is the oldest post on its QP that is not in `done`. */
  ghost predicate Oldest<W>(log: seq<Posted<W>>, done: set<nat>, i: nat) {
    i < |log| && i !in done && forall j: nat | j < i && log[j].qp == log[i].qp :: j in done
  }

  /** Posts complete in order on every QP. */
  ghost predicate InOrder<W>(log: seq<Posted<W>>, done: set<nat>) {
    && (forall i | i in done :: i < |log|)
    && forall i: nat, j: nat | i in done && j < i < |log| && log[j].qp == log[i].qp :: j in done
  }

  ghost function CountMsg<W>(log: seq<Posted<W>>, m: nat): nat {
    if log == [] then 0
    else CountMsg(log[..|log| - 1], m) + (if log[|log| - 1].msg == m then 1 else 0)
  }

  ghost function CountDone<W>(log: seq<Posted<W>>, done: set<nat>, m: nat): nat {
    if log == [] then 0
    else
      var n := |log| - 1;
      CountDone(log[..n], done, m) + (if log[n].msg == m && n in done then 1 else 0)
  }

  lemma InFlightAppend<W>(log: seq<Posted<W>>, done: set<nat>, e: Posted<W>, qp: QpRef)
    requires |log| !in done
    ensures InFlight(log + [e], done, qp) == InFlight(log, done, qp) + (if e.qp == qp then [e.status] else [])
  {
    assert (log + [e])[..|log|] == log;
  }

  lemma CountMsgAppend<W>(log: seq<Posted<W>>, e: Posted<W>, m: nat)
    ensures CountMsg(log + [e], m) == CountMsg(log, m) + (if e.msg == m then 1 else 0)
  {
    assert (log + [e])[..|log|] == log;
  }

  lemma CountDoneAppend<W>(log: seq<Posted<W>>, done: set<nat>, e: Posted<W>, m: nat)
    requires |log| !in done
    ensures CountDone(log + [e], done, m) == CountDone(log, done, m)
  {
    assert (log + [e])[..|log|] == log;
  }

  lemma {:induction false} InFlightEmptyIff<W>(log: seq<Posted<W>>, done: set<nat>, qp: QpRef)
    ensures InFlight(log, done, qp) == [] <==> forall i: nat | i < |log| && log[i].qp == qp :: i in done
  {
    if log != [] {
      InFlightEmptyIff(log[..|log| - 1], done, qp);
    }
  }

  /** Completing the oldest post of a QP pops the front of what is in flight there, and touches no other QP. */
  lemma {:induction false} InFlightComplete<W>(log: seq<Posted<W>>, done: set<nat>, i: nat, qp: QpRef)
    requires Oldest(log, done, i)
    ensures var before := InFlight(log, done, qp);
            if log[i].qp == qp
            then before != [] && before[0] == log[i].status && InFlight(log, done + {i}, qp) == before[1..]
            else InFlight(log, done + {i}, qp) == before
  {
    var n := |log| - 1;
    if i < n {
      assert log[..n][i] == log[i];
      InFlightComplete(log[..n], done, i, qp);
    } else {
      InFlightFrame(log[..n], done, done + {i}, qp);
      if log[i].qp == qp {
        InFlightEmptyIff(log[..n], done, qp);
      }
    }
  }

  lemma {:induction false} InFlightFrame<W>(log: seq<Posted<W>>, d: set<nat>, d': set<nat>, qp: QpRef)
    requires forall i: nat | i < |log| :: i in d <==> i in d'
    ensures InFlight(log, d, qp) == InFlight(log, d', qp)
  {
    if log != [] {
      InFlightFrame(log[..|log| - 1], d, d', qp);
    }
  }

  /** Whatever is at the front of a QP's in-flight posts belongs to the oldest post of that QP. */
  lemma {:induction false} FrontIsOldest<W>(log: seq<Posted<W>>, done: set<nat>, qp: QpRef) returns (i: nat)
    requires InFlight(log, done, qp) != []
    ensures Oldest(log, done, i) && log[i].qp == qp && log[i].status == InFlight(log, done, qp)[0]
  {
    var n := |log| - 1;
    if InFlight(log[..n], done, qp) != [] {
      i := FrontIsOldest(log[..n], done, qp);
    } else {
      InFlightEmptyIff(log[..n], done, qp);
      assert forall j: nat | j < n :: log[..n][j] == log[j];
      i := n;
    }
  }

  lemma {:induction false} CountDoneFrame<W>(log: seq<Posted<W>>, d: set<nat>, d': set<nat>, m: nat)
    requires forall i: nat | i < |log| :: i in d <==> i in d'
    ensures CountDone(log, d, m) == CountDone(log, d', m)
  {
    if log != [] {
      CountDoneFrame(log[..|log| - 1], d, d', m);
    }
  }

  lemma {:induction false} CountDoneComplete<W>(log: seq<Posted<W>>, done: set<nat>, i: nat, m: nat)
    requires i < |log| && i !in done
    ensures CountDone(log, done + {i}, m) == CountDone(log, done, m) + (if log[i].msg == m then 1 else 0)
  {
    var n := |log| - 1;
    if i < n {
      assert log[..n][i] == log[i];
      CountDoneComplete(log[..n], done, i, m);
    } else {
      CountDoneFrame(log[..n], done, done + {i}, m);
    }
  }

  /** A message's completed posts never exceed its posts, and are all of them exactly when none is outstanding. */
  lemma {:induction false} CountDoneBound<W>(log: seq<Posted<W>>, done: set<nat>, m: nat)
    ensures CountDone(log, done, m) <= CountMsg(log, m)
    ensures CountDone(log, done, m) == CountMsg(log, m) <==> forall i: nat | i < |log| && log[i].msg == m :: i in done
  {
    if log != [] {
      var n := |log| - 1;
      CountDoneBound(log[..n], done, m);
      assert forall i: nat | i < n :: log[..n][i] == log[i];
    }
  }

  lemma {:induction false} CountMsgAbsent<W>(log: seq<Posted<W>>, m: nat)
    requires forall i: nat | i < |log| :: log[i].msg != m
    ensures CountMsg(log, m) == 0
  {
    if log != [] {
      CountMsgAbsent(log[..|log| - 1], m);
    }
  }

  lemma {:induction false} CountMsgPrefix<W>(log: seq<Posted<W>>, i: nat, m: nat)
    requires i <= |log|
    ensures CountMsg(log[..i], m) <= CountMsg(log, m)
  {
    if i < |log| {
      CountMsgPrefix(log[..|log| - 1], i, m);
      assert log[..|log| - 1][..i] == log[..i];
    } else {
      assert log[..i] == log;
    }
  }
}
