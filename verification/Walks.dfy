/** Building a run of two endpoints step by step. */
module Walks {
  import opened Verbs
  import opened Endpoints
  import opened Progress
  import Links
  import SP = SendProtocol

  /** The invariant of a link, and one step, each under a quantifier so that the verifier opens them only where they are used. */
  ghost predicate Sound(l: Links.Link) {
    forall k: Links.Link {:trigger Links.LinkInv(k)} | k == l :: Links.LinkInv(k)
  }

  ghost predicate Steps(l: Links.Link, l': Links.Link) {
    forall k: Links.Link, k': Links.Link {:trigger Links.Next(k, k')} | k == l && k' == l' :: Links.Next(k, k')
  }

  lemma TakeStep(l: Links.Link, l': Links.Link, step: Links.Step)
    requires Sound(l) && Links.Acts(l, l', step)
    ensures Steps(l, l') && Sound(l')
  {
    Links.StepInv(l, l', step);
    assert Links.Next(l, l');
  }

  /** A step of the other side. */
  lemma TakeStepBack(l: Links.Link, l': Links.Link, step: Links.Step)
    requires Sound(l) && Links.Acts(Links.Swap(l), Links.Swap(l'), step)
    ensures Steps(l, l') && Sound(l')
  {
    assert Links.Next(l, l');
    Links.NextInv(l, l');
  }

  lemma TakePost(l: Links.Link, wr: SendWr, e': Endpoint) returns (l': Links.Link)
    requires Sound(l) && SP.ValidMsg(wr) && IsRdma(wr.opcode) && wr.wrId !in l.x.e.cq.index
    requires Ready(l.x.e) && PostSend(l.x.e, wr) == Ok(e')
    ensures Steps(l, l') && Sound(l')
    ensures l' == l.(x := l.x.(e := e'))
  {
    l' := l.(x := l.x.(e := e'));
    assert Links.Posts(l, l', wr);
    TakeStep(l, l', Links.PostSend(wr));
  }

  /** The other side posts a receive. */
  lemma TakePostRecv(l: Links.Link, wr: RecvWr, e': Endpoint) returns (l': Links.Link)
    requires Sound(l) && wr.numSge == 0 && wr.wrId !in l.y.e.cq.index
    requires Ready(l.y.e) && PostRecv(l.y.e, wr) == Ok(e')
    ensures Steps(l, l') && Sound(l')
    ensures l' == l.(y := l.y.(e := e'))
  {
    l' := l.(y := l.y.(e := e'));
    assert Links.PostsReceive(Links.Swap(l), Links.Swap(l'), wr);
    TakeStepBack(l, l', Links.PostRecv(wr));
  }

  lemma TakeLanding(l: Links.Link, i: nat) returns (l': Links.Link)
    requires Sound(l) && Oldest(l.x.e.send.log, Links.Landed(l.x), i) && !Links.Severed(l.x, i)
    ensures Steps(l, l') && Sound(l')
    ensures l' == l.(x := l.x.(landed := l.x.landed + [i]))
  {
    l' := l.(x := l.x.(landed := l.x.landed + [i]));
    assert Links.Lands(l, l', i);
    TakeStep(l, l', Links.Land(i));
  }

  /** The link after post i of side x has completed with p, which made its endpoint e'. */
  ghost function AfterCompletion(l: Links.Link, i: nat, p: PhysicalWc, e': Endpoint): Links.Link
    requires Links.LinkInv(l) && ReportsSend(l.x.e, l.x.h, i, p)
  {
    var x := l.x;
    ReportedSend(x.e, x.h, i, p);
    l.(x := x.(e := e', h := AfterSend(x.e, x.h, i, p).(ignored := IgnoredAfter(x.e, x.h, i, p)),
               failed := Links.FailedAfter(x, i, p)))
  }

  lemma TakeCompletion(l: Links.Link, i: nat, p: PhysicalWc, qp: QpRef, e': Endpoint) returns (l': Links.Link)
    requires Sound(l) && Ready(l.x.e) && Oldest(l.x.e.send.log, l.x.h.sendDone, i) && (p.status == Success ==> i in l.x.landed)
    requires qp == l.x.e.send.log[i].qp && (qp.Data? ==> qp.i < l.x.e.c.numQps) && p.wrId == l.x.e.send.log[i].status.physicalWrId
    requires CompleteSend(l.x.e, qp, p) == Ok(e') && p.opcode.WcSendSide?
    ensures Steps(l, l') && Sound(l')
    ensures l'.x.e == e' && l'.x.landed == l.x.landed && l'.x.polled == l.x.polled && l'.y == l.y
    ensures l'.x.h.sendDone == l.x.h.sendDone + {i} && l'.x.failed == Links.FailedAfter(l.x, i, p)
  {
    l' := Completed(l, i, p, qp, e');
    TakeStep(l, l', Links.Complete(i, p));
  }

  lemma Completed(l: Links.Link, i: nat, p: PhysicalWc, qp: QpRef, e': Endpoint) returns (l': Links.Link)
    requires Sound(l) && Ready(l.x.e) && Oldest(l.x.e.send.log, l.x.h.sendDone, i) && (p.status == Success ==> i in l.x.landed)
    requires qp == l.x.e.send.log[i].qp && (qp.Data? ==> qp.i < l.x.e.c.numQps) && p.wrId == l.x.e.send.log[i].status.physicalWrId
    requires CompleteSend(l.x.e, qp, p) == Ok(e') && p.opcode.WcSendSide?
    ensures Links.Completes(l, l', i, p)
    ensures l'.x.e == e' && l'.x.landed == l.x.landed && l'.x.polled == l.x.polled && l'.y == l.y
    ensures l'.x.h.sendDone == l.x.h.sendDone + {i} && l'.x.failed == Links.FailedAfter(l.x, i, p)
  {
    assert Links.LinkInv(l);
    l' := AfterCompletion(l, i, p, e');
    assert Dispatch(l.x.e, qp, p) == Ok(e');
  }

  lemma Extend(run: seq<Links.Link>, l: Links.Link) returns (run': seq<Links.Link>)
    requires Links.IsRun(run) && Steps(run[|run| - 1], l)
    ensures run' == run + [l] && Links.IsRun(run')
  {
    run' := run + [l];
    forall i | 0 <= i < |run'| - 1 ensures Links.Next(run'[i], run'[i + 1]) {
      if i < |run| - 1 { assert Links.Next(run[i], run[i + 1]); }
    }
  }
}
