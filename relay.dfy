/** The relay between a client and its upstream (`copyloop` in the reference
    server, `copy` in the refactor). The sockets and `select` are replaced by
    a sequence of events, one per turn of the outer loop; what the loop sends
    is accumulated per direction. Each turn reads one chunk from the readable
    side and writes all of it to the other side with a partial-write loop. */
module Relay {
  import opened Bytes

  /** Both sources pass `sizeof(sizeof buf)` to recv, i.e. `sizeof(size_t)`,
      so a chunk is at most 8 octets on a 64-bit target, not 1024. */
  const RECV_LENGTH: nat := 8

  // ---------------------------------------------------------------------
  // The partial-write loop: send is called on the unsent rest of the chunk
  // until all of it is sent, and the relay ends at the first negative result.
  // The successive results of send are inputs.

  /** What send may return: at most the octets asked for, or a negative
      error; `rem` octets remain to be written. The list of results must be
      long enough for the loop to stop. */
  predicate SendsFit(rem: nat, ms: seq<int>)
    decreases |ms|
  {
    rem == 0 ||
    (|ms| > 0 && (ms[0] < 0 || (ms[0] <= rem && SendsFit(rem - ms[0], ms[1..]))))
  }

  datatype WriteResult = WriteResult(failed: bool, sent: nat, calls: nat)

  /** The outcome of the loop with `rem` octets still to write. */
  function PartialWrite(rem: nat, ms: seq<int>): (w: WriteResult)
    requires SendsFit(rem, ms)
    ensures w.sent <= rem && w.calls <= |ms|
    ensures !w.failed ==> w.sent == rem
    decreases |ms|
  {
    if rem == 0 then WriteResult(false, 0, 0)
    else if ms[0] < 0 then WriteResult(true, 0, 1)
    else
      var w := PartialWrite(rem - ms[0], ms[1..]);
      WriteResult(w.failed, w.sent + ms[0], w.calls + 1)
  }

  function Sum(s: seq<int>): int
  {
    if s == [] then 0 else s[0] + Sum(s[1..])
  }

  /** The loop calls send until the sum of its results reaches the chunk
      length, and stops at the first negative result. */
  lemma {:induction false} PartialWriteMeaning(rem: nat, ms: seq<int>)
    requires SendsFit(rem, ms)
    ensures var w := PartialWrite(rem, ms);
      && w.calls <= |ms|
      && w.sent <= rem
      && (!w.failed ==> w.sent == rem && Sum(ms[..w.calls]) == rem
                        && forall j :: 0 <= j < w.calls ==> ms[j] >= 0)
      && (w.failed ==> 1 <= w.calls && ms[w.calls - 1] < 0 && w.sent < rem
                       && Sum(ms[..w.calls - 1]) == w.sent
                       && forall j :: 0 <= j < w.calls - 1 ==> ms[j] >= 0)
    decreases |ms|
  {
    if rem == 0 {
      assert ms[..0] == [];
    } else if ms[0] < 0 {
      assert ms[..0] == [];
    } else {
      var w := PartialWrite(rem - ms[0], ms[1..]);
      PartialWriteMeaning(rem - ms[0], ms[1..]);
      var k := if w.failed then w.calls - 1 else w.calls;
      assert ms[..k + 1][1..] == ms[1..][..k];
      assert ms[..k + 1] == [ms[0]] + ms[1..][..k];
      forall j | 0 <= j < k + 1 ensures ms[j] >= 0 {
        if j > 0 { assert ms[j] == ms[1..][j - 1]; }
      }
      if w.failed {
        assert ms[w.calls + 1 - 1] == ms[1..][w.calls - 1];
      }
    }
  }

  /** The partial-write loop over one chunk. `delivered` is what the peer
      receives, in order. */
  method SendAll(data: seq<Byte>, ms: seq<int>) returns (failed: bool, delivered: seq<Byte>, calls: nat)
    requires SendsFit(|data|, ms)
    ensures PartialWrite(|data|, ms) == WriteResult(failed, |delivered|, calls)
    ensures |delivered| <= |data| && delivered == data[..|delivered|]
  {
    var n := |data|;
    var sent := 0;
    var i := 0;
    delivered := [];
    while sent < n
      invariant 0 <= sent <= n && 0 <= i <= |ms|
      invariant delivered == data[..sent]
      invariant SendsFit(n - sent, ms[i..])
      invariant PartialWrite(n, ms) == Shift(PartialWrite(n - sent, ms[i..]), sent, i)
      decreases |ms| - i
    {
      var m := ms[i];
      if m < 0 {
        return true, delivered, i + 1;
      }
      assert ms[i..][1..] == ms[i + 1..];
      delivered := delivered + data[sent..sent + m];
      sent := sent + m;
      i := i + 1;
    }
    failed, calls := false, i;
  }

  function Shift(w: WriteResult, sent: nat, calls: nat): WriteResult
  {
    WriteResult(w.failed, w.sent + sent, w.calls + calls)
  }

  // ---------------------------------------------------------------------
  // The outer loop: `select` with a 15-minute timeout, then one chunk.

  datatype Event =
    | Idle            // select returned 0: no activity for 15 minutes
    | Interrupted     // select returned -1 with EINTR: retried
    | SelectFailed    // select returned -1 otherwise
    | Ready(fromClient: bool, received: int, data: seq<Byte>, sends: seq<int>)
      // the side that is read (the client's when both are readable), what
      // recv returned, the octets read, and the results of send

  predicate EventOk(e: Event)
  {
    e.Ready? && e.received > 0 ==>
      |e.data| == e.received <= RECV_LENGTH && SendsFit(e.received, e.sends)
  }

  predicate EventsOk(es: seq<Event>)
  {
    forall i :: 0 <= i < |es| ==> EventOk(es[i])
  }

  /** Whether an event makes the loop return. */
  predicate Final(e: Event)
    requires EventOk(e)
  {
    match e
    case Idle => true
    case Interrupted => false
    case SelectFailed => true
    case Ready(_, n, _, ms) => n <= 0 || PartialWrite(n, ms).failed
  }

  datatype Outcome = TimedOut | SelectError | Closed | WriteFailed | Running

  /** What the relay did: why it stopped (Running: it has not stopped after
      the given events), the octets sent to each side, and the number of
      events it consumed. */
  datatype Trace = Trace(outcome: Outcome, toClient: seq<Byte>, toRemote: seq<Byte>, steps: nat)

  /** A trace continued after `steps` earlier turns that sent `toClient` and
      `toRemote`. */
  function Resume(t: Trace, toClient: seq<Byte>, toRemote: seq<Byte>, steps: nat): Trace
  {
    Trace(t.outcome, toClient + t.toClient, toRemote + t.toRemote, t.steps + steps)
  }

  /** The relay over a sequence of events; `timeoutFrame` is the CONNECT-reply
      frame the server sends to the client when the relay idles out. */
  function RelayRun(es: seq<Event>, timeoutFrame: seq<Byte>): (t: Trace)
    requires EventsOk(es)
    ensures t.outcome == Running ==> t.steps == |es|
    ensures t.outcome != Running ==> 1 <= t.steps <= |es|
    decreases |es|
  {
    if es == [] then Trace(Running, [], [], 0)
    else
      match es[0]
      case Idle => Trace(TimedOut, timeoutFrame, [], 1)
      case Interrupted => Resume(RelayRun(es[1..], timeoutFrame), [], [], 1)
      case SelectFailed => Trace(SelectError, [], [], 1)
      case Ready(fromClient, n, data, ms) =>
        if n <= 0 then Trace(Closed, [], [], 1)
        else
          var w := PartialWrite(n, ms);
          var out := data[..w.sent];
          if w.failed then
            if fromClient then Trace(WriteFailed, [], out, 1) else Trace(WriteFailed, out, [], 1)
          else if fromClient then Resume(RelayRun(es[1..], timeoutFrame), [], out, 1)
          else Resume(RelayRun(es[1..], timeoutFrame), out, [], 1)
  }

  /** The octets offered by one side: every chunk read from it, in order. */
  function Offered(es: seq<Event>, fromClient: bool): seq<Byte>
  {
    if es == [] then []
    else
      var rest := Offered(es[1..], fromClient);
      if es[0].Ready? && es[0].received > 0 && es[0].fromClient == fromClient
      then es[0].data + rest else rest
  }

  /** The octets one event contributes to one side's offer. */
  function Chunk(e: Event, fromClient: bool): seq<Byte>
  {
    if e.Ready? && e.received > 0 && e.fromClient == fromClient then e.data else []
  }

  lemma EventsOkSuffix(es: seq<Event>, i: nat)
    requires EventsOk(es) && i <= |es|
    ensures EventsOk(es[i..])
  {
    forall k | 0 <= k < |es[i..]| ensures EventOk(es[i..][k]) {
      assert es[i..][k] == es[i + k];
    }
  }

  /** The timeout frame only decides what the client is sent on a timeout:
      why the relay stops, what the upstream receives and how many events
      it consumes do not depend on it. */
  lemma {:induction false} FrameIndependent(es: seq<Event>, f: seq<Byte>, g: seq<Byte>)
    requires EventsOk(es)
    ensures RelayRun(es, f).outcome == RelayRun(es, g).outcome
    ensures RelayRun(es, f).toRemote == RelayRun(es, g).toRemote
    ensures RelayRun(es, f).steps == RelayRun(es, g).steps
    decreases |es|
  {
    if es != [] {
      EventsOkSuffix(es, 1);
      FrameIndependent(es[1..], f, g);
    }
  }

  /** Offered over a non-empty prefix splits off the first event. */
  lemma OfferedPrefix(es: seq<Event>, k: nat, fromClient: bool)
    requires 1 <= k <= |es|
    ensures Offered(es[..k], fromClient) == Chunk(es[0], fromClient) + Offered(es[1..][..k - 1], fromClient)
  {
    assert es[..k][1..] == es[1..][..k - 1];
  }

  /** The relay stops exactly at the first event that makes it return, and
      the outcome names that event. */
  lemma {:induction false} RelayStopsAtFirstFinal(es: seq<Event>, frame: seq<Byte>)
    requires EventsOk(es)
    ensures var t := RelayRun(es, frame);
      && (t.outcome == Running <==> forall j :: 0 <= j < |es| ==> !Final(es[j]))
      && (t.outcome != Running ==> Final(es[t.steps - 1])
                                   && forall j :: 0 <= j < t.steps - 1 ==> !Final(es[j]))
      && (t.outcome == TimedOut <==> t.outcome != Running && es[t.steps - 1] == Idle)
    decreases |es|
  {
    if es != [] {
      assert EventOk(es[0]);
      if !Final(es[0]) {
        EventsOkSuffix(es, 1);
        RelayStopsAtFirstFinal(es[1..], frame);
        forall j | 1 <= j < |es| ensures es[j] == es[1..][j - 1] { }
      }
    }
  }

  /** Forwarding: the octets each side received, given what was offered.
      Unless a write failed, each side received exactly what the other side
      offered before the final event, and the client additionally received
      `frame` when the relay idled out; after a failed write, each side
      received at least the earlier offers and at most the offers including
      the final event's chunk. */
  ghost predicate Forwards(es: seq<Event>, t: Trace, frame: seq<Byte>)
    requires t.steps <= |es| && (t.outcome != Running ==> 1 <= t.steps)
  {
    var before := if t.outcome == Running then es else es[..t.steps - 1];
    && (t.outcome != WriteFailed ==>
          t.toRemote == Offered(before, true)
          && t.toClient == Offered(before, false) + (if t.outcome == TimedOut then frame else []))
    && (t.outcome == WriteFailed ==>
          Offered(before, true) <= t.toRemote <= Offered(es[..t.steps], true)
          && Offered(before, false) <= t.toClient <= Offered(es[..t.steps], false))
  }

  lemma {:induction false} RelayForwards(es: seq<Event>, frame: seq<Byte>)
    requires EventsOk(es)
    ensures Forwards(es, RelayRun(es, frame), frame)
    decreases |es|, 1
  {
    var t := RelayRun(es, frame);
    if es == [] {
      return;
    }
    assert EventOk(es[0]);
    match es[0]
    case Idle =>
      assert es[..0] == [];
    case SelectFailed =>
      assert es[..0] == [];
    case Interrupted =>
      StepForwards(es, frame);
    case Ready(fromClient, n, data, ms) =>
      if n <= 0 {
        assert es[..0] == [];
      } else if PartialWrite(n, ms).failed {
        assert es[..0] == [];
        OfferedPrefix(es, 1, true);
        OfferedPrefix(es, 1, false);
        assert es[1..][..0] == [];
      } else {
        StepForwards(es, frame);
      }
  }

  /** An event after which the relay goes on: the trace is the rest's, with
      the event's chunk in front on the receiving side. */
  lemma {:induction false} StepForwards(es: seq<Event>, frame: seq<Byte>)
    requires EventsOk(es) && |es| > 0 && (es[0].Interrupted? || es[0].Ready?)
    requires es[0].Ready? ==> es[0].received > 0 && !PartialWrite(es[0].received, es[0].sends).failed
    ensures Forwards(es, RelayRun(es, frame), frame)
    decreases |es|, 0
  {
    EventsOkSuffix(es, 1);
    var e := es[0];
    assert EventOk(e);
    var rest := es[1..];
    var r := RelayRun(rest, frame);
    RelayForwards(rest, frame);
    var t := RelayRun(es, frame);
    assert e.Ready? ==> e.data[..PartialWrite(e.received, e.sends).sent] == e.data;
    assert t == Resume(r, Chunk(e, false), Chunk(e, true), 1);
    ForwardsCons(es, frame, t, r);
  }

  lemma ForwardsCons(es: seq<Event>, frame: seq<Byte>, t: Trace, r: Trace)
    requires |es| > 0 && r.steps <= |es| - 1 && (r.outcome != Running ==> 1 <= r.steps)
    requires r.outcome == Running ==> r.steps == |es| - 1
    requires Forwards(es[1..], r, frame)
    requires t == Resume(r, Chunk(es[0], false), Chunk(es[0], true), 1)
    ensures Forwards(es, t, frame)
  {
    var e := es[0];
    var rest := es[1..];
    if r.outcome == Running {
      assert Offered(es, true) == Chunk(e, true) + Offered(rest, true);
      assert Offered(es, false) == Chunk(e, false) + Offered(rest, false);
    } else {
      OfferedPrefix(es, r.steps, true);
      OfferedPrefix(es, r.steps, false);
      OfferedPrefix(es, t.steps, true);
      OfferedPrefix(es, t.steps, false);
      if r.outcome == WriteFailed {
        PrefixCat(Chunk(e, true), Offered(rest[..r.steps - 1], true), r.toRemote);
        PrefixCat(Chunk(e, true), r.toRemote, Offered(rest[..r.steps], true));
        PrefixCat(Chunk(e, false), Offered(rest[..r.steps - 1], false), r.toClient);
        PrefixCat(Chunk(e, false), r.toClient, Offered(rest[..r.steps], false));
      } else {
        assert Chunk(e, false) + (Offered(rest[..r.steps - 1], false) + (if r.outcome == TimedOut then frame else []))
            == (Chunk(e, false) + Offered(rest[..r.steps - 1], false)) + (if r.outcome == TimedOut then frame else []);
      }
    }
  }

  lemma PrefixCat(c: seq<Byte>, a: seq<Byte>, b: seq<Byte>)
    requires a <= b
    ensures c + a <= c + b
  {
    assert (c + b)[..|c + a|] == c + a;
  }

  /** Resuming twice is resuming once with the octets of both. */
  lemma ResumeTwice(t: Trace, c: seq<Byte>, r: seq<Byte>, k: nat, c2: seq<Byte>, r2: seq<Byte>)
    ensures Resume(Resume(t, c2, r2, 1), c, r, k) == Resume(t, c + c2, r + r2, k + 1)
  {
    assert c + (c2 + t.toClient) == (c + c2) + t.toClient;
    assert r + (r2 + t.toRemote) == (r + r2) + t.toRemote;
  }

  /** The relay loop itself. */
  method CopyLoop(es: seq<Event>, timeoutFrame: seq<Byte>) returns (t: Trace)
    requires EventsOk(es)
    ensures t == RelayRun(es, timeoutFrame)
  {
    var toClient: seq<Byte> := [];
    var toRemote: seq<Byte> := [];
    var i := 0;
    EventsOkSuffix(es, 0);
    assert es[0..] == es;
    while i < |es|
      invariant 0 <= i <= |es|
      invariant EventsOk(es[i..])
      invariant RelayRun(es, timeoutFrame) == Resume(RelayRun(es[i..], timeoutFrame), toClient, toRemote, i)
      decreases |es| - i
    {
      var e := es[i];
      assert es[i..][0] == e && es[i..][1..] == es[i + 1..];
      assert EventOk(e);
      EventsOkSuffix(es, i + 1);
      ghost var rest := RelayRun(es[i + 1..], timeoutFrame);
      match e {
        case Idle =>
          assert toRemote + [] == toRemote;
          return Trace(TimedOut, toClient + timeoutFrame, toRemote, i + 1);
        case Interrupted =>
          ResumeTwice(rest, toClient, toRemote, i, [], []);
          assert toClient + [] == toClient && toRemote + [] == toRemote;
          i := i + 1;
        case SelectFailed =>
          assert toClient + [] == toClient && toRemote + [] == toRemote;
          return Trace(SelectError, toClient, toRemote, i + 1);
        case Ready(fromClient, n, data, ms) =>
          if n <= 0 {
            assert toClient + [] == toClient && toRemote + [] == toRemote;
            return Trace(Closed, toClient, toRemote, i + 1);
          }
          var failed, delivered, calls := SendAll(data, ms);
          if fromClient {
            ResumeTwice(rest, toClient, toRemote, i, [], delivered);
            assert toClient + [] == toClient;
            toRemote := toRemote + delivered;
          } else {
            ResumeTwice(rest, toClient, toRemote, i, delivered, []);
            assert toRemote + [] == toRemote;
            toClient := toClient + delivered;
          }
          if failed {
            return Trace(WriteFailed, toClient, toRemote, i + 1);
          }
          i := i + 1;
      }
    }
    assert es[|es|..] == [];
    t := Trace(Running, toClient, toRemote, i);
  }
}
