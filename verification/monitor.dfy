/** The per-channel monitor loop of `StartDeviceMonitoring`, run sequentially
    over the finite list of `Read` outcomes it observed before its token was
    cancelled. */
module Monitor {
  import opened CanFrame
  import opened Responder

  /** One `Read` call: a received frame, together with the eight bytes the
      random generator draws if the default reply is sent, or any status other
      than OK (an empty queue and a driver error look the same to the loop). */
  datatype ReadOutcome = Received(msg: Msg, random: Payload) | NotOk

  /** What the loop hands on: frames passed to the device window, and
      messages passed to `Write`, each in order. */
  datatype Log = Log(displayed: seq<Msg>, written: seq<Msg>)

  function Join(a: Log, b: Log): Log
  {
    Log(a.displayed + b.displayed, a.written + b.written)
  }

  lemma JoinAssociative(a: Log, b: Log, c: Log)
    ensures Join(a, Join(b, c)) == Join(Join(a, b), c)
  {
    assert a.displayed + (b.displayed + c.displayed) == (a.displayed + b.displayed) + c.displayed;
    assert a.written + (b.written + c.written) == (a.written + b.written) + c.written;
  }

  /** The effect of one loop iteration. */
  function StepLog(o: ReadOutcome): Log
  {
    match o
    case Received(m, random) => Log([m], Respond(m, random))
    case NotOk => Log([], [])
  }

  /** The reference behaviour of the loop: the iterations' effects joined in
      order. */
  function RunLog(trace: seq<ReadOutcome>): Log
    decreases |trace|
  {
    if trace == [] then Log([], []) else Join(StepLog(trace[0]), RunLog(trace[1..]))
  }

  /** Running two pieces of trace one after the other is running their
      concatenation. */
  lemma {:induction false} RunLogAppend(a: seq<ReadOutcome>, b: seq<ReadOutcome>)
    ensures RunLog(a + b) == Join(RunLog(a), RunLog(b))
    decreases |a|
  {
    if a == [] {
      assert a + b == b;
      assert RunLog(a) == Log([], []);
      assert [] + RunLog(b).displayed == RunLog(b).displayed;
      assert [] + RunLog(b).written == RunLog(b).written;
    } else {
      assert (a + b)[0] == a[0];
      assert (a + b)[1..] == a[1..] + b;
      RunLogAppend(a[1..], b);
      var s, x, y := StepLog(a[0]), RunLog(a[1..]), RunLog(b);
      calc {
        RunLog(a + b);
        Join(s, RunLog(a[1..] + b));
        Join(s, Join(x, y));
        { JoinAssociative(s, x, y); }
        Join(Join(s, x), y);
        Join(RunLog(a), RunLog(b));
      }
    }
  }

  /** A read that returns no frame leaves no trace: nothing displayed, nothing
      written. */
  lemma NotOkReadsInvisible(a: seq<ReadOutcome>, b: seq<ReadOutcome>)
    ensures RunLog(a + [NotOk] + b) == RunLog(a + b)
  {
    var x := RunLog(a);
    assert RunLog([NotOk]) == Log([], []) by {
      assert [NotOk][1..] == [];
    }
    RunLogAppend(a, [NotOk]);
    assert RunLog(a + [NotOk]) == x by {
      assert x.displayed + [] == x.displayed;
      assert x.written + [] == x.written;
    }
    RunLogAppend(a + [NotOk], b);
    RunLogAppend(a, b);
  }

  /** Every written message has eight data bytes, LEN 8, a normalised frame
      type and an id the rewrite leaves alone; and each received frame is
      displayed once. */
  lemma {:induction false} RunLogWellFormed(trace: seq<ReadOutcome>)
    ensures forall i :: 0 <= i < |RunLog(trace).written| ==>
      var m := RunLog(trace).written[i];
      m.len == 8 && |m.data| == 8 && RewriteId(m.id) == m.id &&
      (m.msgType == MessageExtended || m.msgType == MessageStandard)
    ensures |RunLog(trace).displayed| == |ReceivedFrames(trace)|
    decreases |trace|
  {
    if trace != [] {
      RunLogWellFormed(trace[1..]);
      var s := StepLog(trace[0]);
      var w := RunLog(trace).written;
      assert w == s.written + RunLog(trace[1..]).written;
      forall i | 0 <= i < |w|
        ensures w[i].len == 8 && |w[i].data| == 8 && RewriteId(w[i].id) == w[i].id
        ensures w[i].msgType == MessageExtended || w[i].msgType == MessageStandard
      {
        if i < |s.written| {
          assert trace[0].Received?;
          assert WellFormedOutbound(w[i], trace[0].msg.msgType);
        } else {
          assert w[i] == RunLog(trace[1..]).written[i - |s.written|];
        }
      }
    }
  }

  /** The frames the driver delivered, in order. */
  function ReceivedFrames(trace: seq<ReadOutcome>): seq<Msg>
    decreases |trace|
  {
    if trace == [] then []
    else (if trace[0].Received? then [trace[0].msg] else []) + ReceivedFrames(trace[1..])
  }

  /** The frames the loop passes to the device window are exactly the
      received frames, in order. */
  lemma {:induction false} DisplayedAreReceived(trace: seq<ReadOutcome>)
    ensures RunLog(trace).displayed == ReceivedFrames(trace)
    decreases |trace|
  {
    if trace != [] {
      DisplayedAreReceived(trace[1..]);
    }
  }

  /** The `SendCanMessage` calls for one received frame, appended to the
      messages already written in this run. */
  method WriteReplies(m: Msg, random: Payload, before: seq<Msg>, failedBefore: seq<nat>, writeFails: set<nat>)
    returns (written: seq<Msg>, failedWrites: seq<nat>)
    requires forall i :: i in failedBefore <==> i < |before| && i in writeFails
    ensures written == before + Respond(m, random)
    ensures forall i :: i in failedWrites <==> i < |written| && i in writeFails
  {
    var q := Requests(m, random);
    ghost var r := Respond(m, random);
    written, failedWrites := before, failedBefore;
    var j := 0;
    while j < |q|
      invariant 0 <= j <= |q|
      invariant written == before + r[..j]
      invariant forall i :: i in failedWrites <==> i < |written| && i in writeFails
    {
      var out := SendCanMessage(q[j], m.msgType);
      if |written| in writeFails {
        failedWrites := failedWrites + [|written|];
      }
      written := written + [out];
      assert r[..j + 1] == r[..j] + [out];
      j := j + 1;
    }
    assert r[..j] == r;
  }

  /** The loop as the code runs it: read, display, then write the replies.
      `writeFails` holds the positions (counted over the whole run) of the
      `Write` calls the driver rejects; a rejection only adds a diagnostic
      line and the loop goes on. */
  method RunMonitor(trace: seq<ReadOutcome>, writeFails: set<nat>)
    returns (displayed: seq<Msg>, written: seq<Msg>, failedWrites: seq<nat>)
    ensures displayed == RunLog(trace).displayed
    ensures written == RunLog(trace).written
    ensures forall i :: i in failedWrites <==> i < |written| && i in writeFails
  {
    displayed, written, failedWrites := [], [], [];
    var k := 0;
    while k < |trace|
      invariant 0 <= k <= |trace|
      invariant displayed == RunLog(trace[..k]).displayed
      invariant written == RunLog(trace[..k]).written
      invariant forall i :: i in failedWrites <==> i < |written| && i in writeFails
    {
      RunLogStep(trace, k);
      match trace[k] {
        case NotOk =>
        case Received(m, random) =>
          displayed := displayed + [m];
          written, failedWrites := WriteReplies(m, random, written, failedWrites, writeFails);
      }
      k := k + 1;
    }
    assert trace[..k] == trace;
  }

  /** One more iteration extends the log by that iteration's effect. */
  lemma RunLogStep(trace: seq<ReadOutcome>, k: nat)
    requires k < |trace|
    ensures RunLog(trace[..k + 1]) == Join(RunLog(trace[..k]), StepLog(trace[k]))
  {
    RunLogAppend(trace[..k], [trace[k]]);
    assert trace[..k + 1] == trace[..k] + [trace[k]];
    assert RunLog([trace[k]]) == StepLog(trace[k]) by {
      assert [trace[k]][1..] == [];
    }
  }
}
