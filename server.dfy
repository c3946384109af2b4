/**
 * The server's per-connection loop: free-run the trajectory while polling for a sync
 * request; once it arrives, read the client's x, y, z every tick, take a step driven by
 * the client's x, and count consecutive ticks on which the client's (y, z) equals the
 * server's previous (y, z); the tenth such tick in a row ends syncing.
 */
module Server {
  import opened Wire
  import opened Float
  import Common

  /** The number of consecutive matching ticks that ends syncing. */
  const SYNC_THRESHOLD: nat := 10

  /** The server's own copy of the Lorenz step, written as a match on the coupling value. */
  function LorenzAttractor<F>(ops: Ops<F>, x: F, xPrime: Option<F>, y: F, z: F,
                              sigma: F, rho: F, beta: F, h: F): Coords<F>
  {
    match xPrime
    case None =>
      var newX := ops.add(x, ops.mul(ops.mul(sigma, ops.sub(y, x)), h));
      var newY := ops.add(y, ops.mul(ops.sub(ops.mul(x, ops.sub(rho, z)), y), h));
      var newZ := ops.add(z, ops.mul(ops.sub(ops.mul(x, y), ops.mul(beta, z)), h));
      Coords(newX, newY, newZ)
    case Some(syncX) =>
      var newX := ops.add(syncX, ops.mul(ops.mul(sigma, ops.sub(y, syncX)), h));
      var newY := ops.add(y, ops.mul(ops.sub(ops.mul(syncX, ops.sub(rho, z)), y), h));
      var newZ := ops.add(z, ops.mul(ops.sub(ops.mul(syncX, y), ops.mul(beta, z)), h));
      Coords(newX, newY, newZ)
  }

  /** The server's copy computes exactly what the library's does, coupled or not. */
  lemma AgreesWithCommon<F>(ops: Ops<F>, x: F, xPrime: Option<F>, y: F, z: F,
                            sigma: F, rho: F, beta: F, h: F)
    ensures LorenzAttractor(ops, x, xPrime, y, z, sigma, rho, beta, h)
         == Common.LorenzAttractor(ops, x, xPrime, y, z, sigma, rho, beta, h)
  {
  }

  /** The server's hard-coded parameters: sigma 10, rho 28, beta 8/3, h 0.01. */
  function ServerParams<F>(ops: Ops<F>): Params<F> {
    Params(ops.lit(10.0), ops.lit(28.0), EightThirds(ops), ops.lit(0.01))
  }

  /** The loop's mutable locals. */
  datatype Session<F> = Session(seed: Coords<F>, syncing: bool, lastY: F, lastZ: F, syncCount: nat)

  /** The locals when a connection is accepted. */
  function Initial<F>(ops: Ops<F>): Session<F> {
    Session(Coords(ops.lit(0.0), ops.lit(1.0), ops.lit(2.0)), false, ops.lit(0.0), ops.lit(0.0), 0)
  }

  /** What one iteration of the loop did. */
  datatype Event = Idle | SyncRequested | Coupled(matched: bool)

  datatype Ticked<F> = Ticked(next: Session<F>, sent: seq<Frame>, event: Event)

  /** Reads one iteration consumes: one poll while not syncing, three blocking reads while syncing. */
  function Needed<F>(s: Session<F>): nat {
    if s.syncing then 3 else 1
  }

  /** The payload of a read that returned a binary message. */
  predicate IsBinary(r: ReadResult) {
    r.Received? && r.frame.Binary?
  }

  /** One iteration of the loop, on the reads it consumes. */
  function Tick<F>(ops: Ops<F>, s: Session<F>, input: seq<ReadResult>): Result<Ticked<F>>
    requires |input| == Needed(s)
  {
    var p := ServerParams(ops);
    if !s.syncing then
      var seed := LorenzAttractor(ops, s.seed.x, None, s.seed.y, s.seed.z, p.sigma, p.rho, p.beta, p.h);
      match Common.ReadNonBlocking(input[0])
      case Panic(f) => Panic(f)
      case Ok(polled) =>
        if polled.Some? && polled.value.Binary? && polled.value.payload == [SYNC_REQUEST] then
          Ok(Ticked(s.(seed := seed, syncing := true), [Text(SYNC_ACK)], SyncRequested))
        else
          Ok(Ticked(s.(seed := seed), [], Idle))
    else if !(IsBinary(input[0]) && IsBinary(input[1]) && IsBinary(input[2])) then
      Panic(NotBinary)
    else
      var xMsg, yMsg, zMsg := input[0].frame.payload, input[1].frame.payload, input[2].frame.payload;
      if |xMsg| < 8 || |yMsg| < 8 || |zMsg| < 8 then
        Panic(FrameTooShort)
      else
        var xPrime, yPrime, zPrime := ops.fromNeBytes(xMsg[0..8]), ops.fromNeBytes(yMsg[0..8]), ops.fromNeBytes(zMsg[0..8]);
        var next := LorenzAttractor(ops, s.seed.x, Some(xPrime), s.seed.y, s.seed.z, p.sigma, p.rho, p.beta, p.h);
        var matched := ops.eq(s.lastY, yPrime) && ops.eq(s.lastZ, zPrime);
        var count := if matched then s.syncCount + 1 else 0;
        var syncing := !(matched && count == SYNC_THRESHOLD);
        Ok(Ticked(Session(next, syncing, next.y, next.z, count), [], Coupled(matched)))
  }

  /** How a connection's loop stops: waiting for reads that never come, or a panic. */
  datatype Exit = Blocked | Aborted(fault: Fault)

  /** A whole run of the loop: the frames sent, the locals at the end, how it stopped, and what each iteration did. */
  datatype Run<F> = Run(sent: seq<Frame>, final: Session<F>, exit: Exit, events: seq<Event>)

  /** The loop run from `s` on `input`, one iteration after another until the reads run out or a panic. */
  function Serve<F>(ops: Ops<F>, s: Session<F>, input: seq<ReadResult>): (r: Run<F>)
    ensures |r.events| <= |input|
    decreases |input|
  {
    if |input| < Needed(s) then Run([], s, Blocked, [])
    else match Tick(ops, s, input[..Needed(s)])
      case Panic(f) => Run([], s, Aborted(f), [])
      case Ok(t) =>
        var rest := Serve(ops, t.next, input[Needed(s)..]);
        Run(t.sent + rest.sent, rest.final, rest.exit, [t.event] + rest.events)
  }

  /** One iteration of the loop body over its locals, on the reads it consumes. */
  method ServeTick<F>(ops: Ops<F>, s: Session<F>, input: seq<ReadResult>) returns (r: Result<Ticked<F>>)
    requires |input| == Needed(s)
    ensures r == Tick(ops, s, input)
  {
    var p := ServerParams(ops);
    var seed, syncing, lastY, lastZ, syncCount := s.seed, s.syncing, s.lastY, s.lastZ, s.syncCount;
    var sent := [];
    var event;
    if !syncing {
      seed := LorenzAttractor(ops, seed.x, None, seed.y, seed.z, p.sigma, p.rho, p.beta, p.h);
      var polled := Common.ReadNonBlocking(input[0]);
      if polled.Panic? {
        return Panic(polled.fault);
      }
      event := Idle;
      if polled.value.Some? && polled.value.value.Binary? && polled.value.value.payload == [SYNC_REQUEST] {
        sent := sent + [Text(SYNC_ACK)];
        syncing := true;
        event := SyncRequested;
      }
      assert sent == [] || sent == [Text(SYNC_ACK)];
    } else {
      var xRead, yRead, zRead := input[0], input[1], input[2];
      if !(IsBinary(xRead) && IsBinary(yRead) && IsBinary(zRead)) {
        return Panic(NotBinary);
      }
      var xMsg, yMsg, zMsg := xRead.frame.payload, yRead.frame.payload, zRead.frame.payload;
      if |xMsg| < 8 || |yMsg| < 8 || |zMsg| < 8 {
        return Panic(FrameTooShort);
      }
      var xPrime, yPrime, zPrime := ops.fromNeBytes(xMsg[0..8]), ops.fromNeBytes(yMsg[0..8]), ops.fromNeBytes(zMsg[0..8]);
      seed := LorenzAttractor(ops, seed.x, Some(xPrime), seed.y, seed.z, p.sigma, p.rho, p.beta, p.h);
      var matched := ops.eq(lastY, yPrime) && ops.eq(lastZ, zPrime);
      if matched {
        syncCount := syncCount + 1;
        if syncCount == SYNC_THRESHOLD {
          syncing := false;
        }
      } else {
        syncCount := 0;
      }
      lastY, lastZ := seed.y, seed.z;
      event := Coupled(matched);
    }
    return Ok(Ticked(Session(seed, syncing, lastY, lastZ, syncCount), sent, event));
  }

  /** The run `whole` is what is left from `s` on `input[i..]`, after `sent` is out. */
  ghost predicate Continues<F>(ops: Ops<F>, whole: Run<F>, input: seq<ReadResult>, sent: seq<Frame>, s: Session<F>, i: nat)
    requires i <= |input|
  {
    var rest := Serve(ops, s, input[i..]);
    whole.sent == sent + rest.sent && whole.final == rest.final && whole.exit == rest.exit
  }

  /** Reads running out, a panic, or one more tick, from a point the loop has reached. */
  lemma ContinuesStep<F>(ops: Ops<F>, whole: Run<F>, input: seq<ReadResult>, sent: seq<Frame>, s: Session<F>, i: nat)
    requires i <= |input| && Continues(ops, whole, input, sent, s, i)
    ensures if |input| - i < Needed(s) then
        whole.sent == sent && whole.final == s && whole.exit == Blocked
      else match Tick(ops, s, input[i..][..Needed(s)])
        case Panic(f) => whole.sent == sent && whole.final == s && whole.exit == Aborted(f)
        case Ok(t) => Continues(ops, whole, input, sent + t.sent, t.next, i + Needed(s))
  {
    var n := Needed(s);
    if |input| - i >= n {
      assert input[i..][n..] == input[i + n..];
    }
  }

  /**
   * The connection loop: `input` holds what the stream's reads return, in order; the loop
   * stops when they run out (it would wait forever) or when a read or a malformed
   * coordinate panics the connection's thread.
   */
  method ServeConnection<F>(ops: Ops<F>, input: seq<ReadResult>) returns (sent: seq<Frame>, final: Session<F>, exit: Exit)
    ensures Run(sent, final, exit, Serve(ops, Initial(ops), input).events) == Serve(ops, Initial(ops), input)
  {
    ghost var whole := Serve(ops, Initial(ops), input);
    var s := Initial(ops);
    var i := 0;
    sent := [];
    while true
      invariant i <= |input|
      invariant Continues(ops, whole, input, sent, s, i)
      decreases |input| - i
    {
      ContinuesStep(ops, whole, input, sent, s, i);
      var n := Needed(s);
      if |input| - i < n {
        return sent, s, Blocked;
      }
      var r := ServeTick(ops, s, input[i..][..n]);
      if r.Panic? {
        return sent, s, Aborted(r.fault);
      }
      sent := sent + r.value.sent;
      s := r.value.next;
      i := i + n;
    }
  }

  /** A tick before syncing: one uncoupled library step; a failed poll panics; a sync request is acknowledged and turns syncing on. */
  lemma TickUnsynced<F>(ops: Ops<F>, s: Session<F>, input: seq<ReadResult>)
    requires !s.syncing && |input| == 1
    ensures var p := ServerParams(ops);
      match Tick(ops, s, input)
      case Panic(f) => input[0].Failed? && f == ReadFailed
      case Ok(t) =>
        && !input[0].Failed?
        && t.next.seed == Common.LorenzAttractor(ops, s.seed.x, None, s.seed.y, s.seed.z, p.sigma, p.rho, p.beta, p.h)
        && (t.next.syncing <==> input[0].Received? && IsRequest(input[0].frame, SYNC_REQUEST))
        && t.sent == (if t.next.syncing then [Text(SYNC_ACK)] else [])
        && t.event == (if t.next.syncing then SyncRequested else Idle)
        && t.next.lastY == s.lastY && t.next.lastZ == s.lastZ && t.next.syncCount == s.syncCount
  {
  }

  /**
   * A tick while syncing: anything but three binary messages panics, as does a message
   * shorter than eight bytes; otherwise one library step driven by the client's x, the
   * count grows on a match of the previous (y, z) with the client's and restarts at zero
   * otherwise, and syncing ends exactly when a match brings the count to the threshold.
   */
  lemma TickSyncing<F>(ops: Ops<F>, s: Session<F>, input: seq<ReadResult>)
    requires s.syncing && |input| == 3
    ensures var p := ServerParams(ops);
      var allBinary := IsBinary(input[0]) && IsBinary(input[1]) && IsBinary(input[2]);
      match Tick(ops, s, input)
      case Panic(f) =>
        (!allBinary && f == NotBinary)
        || (allBinary && f == FrameTooShort
            && (|input[0].frame.payload| < 8 || |input[1].frame.payload| < 8 || |input[2].frame.payload| < 8))
      case Ok(t) =>
        && allBinary
        && |input[0].frame.payload| >= 8 && |input[1].frame.payload| >= 8 && |input[2].frame.payload| >= 8
        && var xPrime := ops.fromNeBytes(input[0].frame.payload[..8]);
           var yPrime := ops.fromNeBytes(input[1].frame.payload[..8]);
           var zPrime := ops.fromNeBytes(input[2].frame.payload[..8]);
           var matched := ops.eq(s.lastY, yPrime) && ops.eq(s.lastZ, zPrime);
           && t.next.seed == Common.LorenzAttractor(ops, s.seed.x, Some(xPrime), s.seed.y, s.seed.z, p.sigma, p.rho, p.beta, p.h)
           && t.event == Coupled(matched)
           && t.next.syncCount == (if matched then s.syncCount + 1 else 0)
           && (!t.next.syncing <==> matched && s.syncCount + 1 == SYNC_THRESHOLD)
           && t.next.lastY == t.next.seed.y && t.next.lastZ == t.next.seed.z
           && t.sent == []
  {
  }

  /** Everything the server ever sends on a connection is the sync acknowledgement text. */
  lemma {:induction false} OnlyAcknowledges<F>(ops: Ops<F>, s: Session<F>, input: seq<ReadResult>)
    ensures forall j :: 0 <= j < |Serve(ops, s, input).sent| ==> Serve(ops, s, input).sent[j] == Text(SYNC_ACK)
    decreases |input|
  {
    if |input| >= Needed(s) && Tick(ops, s, input[..Needed(s)]).Ok? {
      OnlyAcknowledges(ops, Tick(ops, s, input[..Needed(s)]).value.next, input[Needed(s)..]);
    }
  }

  /** In particular the server never sends a binary frame, so never the sync-complete code. */
  lemma NeverSendsSyncComplete<F>(ops: Ops<F>, s: Session<F>, input: seq<ReadResult>)
    ensures forall j :: 0 <= j < |Serve(ops, s, input).sent| ==>
      !Serve(ops, s, input).sent[j].Binary? && !IsRequest(Serve(ops, s, input).sent[j], SYNC_COMPLETE)
  {
    OnlyAcknowledges(ops, s, input);
  }

  /** The number of coupled ticks whose (y, z) matched. */
  function Matches(events: seq<Event>): (n: nat)
    ensures n <= |events|
  {
    if events == [] then 0
    else (if events[0] == Coupled(true) then 1 else 0) + Matches(events[1..])
  }

  /** The index of the last coupled tick that did not match, or -1 when there is none. */
  function LastMismatch(events: seq<Event>): (k: int)
    ensures -1 <= k < |events|
    ensures k >= 0 ==> events[k] == Coupled(false)
  {
    if events == [] then -1
    else
      var k := LastMismatch(events[1..]);
      if k >= 0 then k + 1
      else if events[0] == Coupled(false) then 0
      else -1
  }

  /** No coupled tick after the last mismatch is a mismatch. */
  lemma {:induction false} LastMismatchIsLast(events: seq<Event>, j: int)
    requires LastMismatch(events) < j < |events|
    ensures events[j] != Coupled(false)
  {
    if j > 0 {
      LastMismatchIsLast(events[1..], j - 1);
    }
  }

  /** The count a run leaves, from the count it starts with: the matches since its last mismatch. */
  function SinceMismatch(start: nat, events: seq<Event>): nat {
    var k := LastMismatch(events);
    if k < 0 then start + Matches(events) else Matches(events[k + 1..])
  }

  /**
   * The count at the end of a run is the number of matching ticks since the last
   * mismatching one; without a mismatch in the run, the matches add to the count the run
   * started with (re-entering syncing does not restart it).
   */
  lemma {:induction false} SyncCountSinceMismatch<F>(ops: Ops<F>, s: Session<F>, input: seq<ReadResult>)
    ensures Serve(ops, s, input).final.syncCount == SinceMismatch(s.syncCount, Serve(ops, s, input).events)
    decreases |input|
  {
    if |input| >= Needed(s) && Tick(ops, s, input[..Needed(s)]).Ok? {
      var t := Tick(ops, s, input[..Needed(s)]).value;
      var rest := Serve(ops, t.next, input[Needed(s)..]);
      SyncCountSinceMismatch(ops, t.next, input[Needed(s)..]);
      TickCount(ops, s, input[..Needed(s)]);
      CountAfterEvent(t.event, rest.events, s.syncCount, t.next.syncCount);
    }
  }

  /** How one tick's event moves the count. */
  lemma TickCount<F>(ops: Ops<F>, s: Session<F>, input: seq<ReadResult>)
    requires |input| == Needed(s) && Tick(ops, s, input).Ok?
    ensures var t := Tick(ops, s, input).value;
      t.next.syncCount == Recount(s.syncCount, t.event)
  {
  }

  /** The count after one event. */
  function Recount(count: nat, e: Event): nat {
    match e
    case Coupled(matched) => if matched then count + 1 else 0
    case _ => count
  }

  /** Prepending one event to a run keeps the count formula. */
  lemma CountAfterEvent(e: Event, events: seq<Event>, before: nat, after: nat)
    requires after == Recount(before, e)
    ensures SinceMismatch(before, [e] + events) == SinceMismatch(after, events)
  {
    var all := [e] + events;
    var k := LastMismatch(events);
    Prepend(e, events);
    if k >= 0 {
      assert all[k + 2..] == events[k + 1..];
    }
  }

  /** Matches and the last mismatch of a run with one event in front. */
  lemma Prepend(e: Event, events: seq<Event>)
    ensures Matches([e] + events) == (if e == Coupled(true) then 1 else 0) + Matches(events)
    ensures LastMismatch([e] + events)
         == if LastMismatch(events) >= 0 then LastMismatch(events) + 1
            else if e == Coupled(false) then 0
            else -1
  {
    assert ([e] + events)[1..] == events;
  }

  predicate AllMatched(events: seq<Event>) {
    forall j :: 0 <= j < |events| ==> events[j] == Coupled(true)
  }

  lemma AllMatchedCons(e: Event, events: seq<Event>)
    requires AllMatched([e] + events)
    ensures e == Coupled(true) && AllMatched(events)
  {
    assert ([e] + events)[0] == e;
    forall j | 0 <= j < |events|
      ensures events[j] == Coupled(true)
    {
      assert events[j] == ([e] + events)[j + 1];
    }
  }

  /** A tick whose event is a match was a syncing tick that raised the count by one, and it ended syncing exactly when that made the threshold. */
  lemma MatchedTick<F>(ops: Ops<F>, s: Session<F>, input: seq<ReadResult>)
    requires |input| == Needed(s) && Tick(ops, s, input).Ok? && Tick(ops, s, input).value.event == Coupled(true)
    ensures var next := Tick(ops, s, input).value.next;
      && s.syncing
      && next.syncCount == s.syncCount + 1
      && (next.syncing <==> s.syncCount + 1 != SYNC_THRESHOLD)
  {
  }

  /**
   * From a count below the threshold, a run of matching ticks raises the count one per
   * tick and ends syncing exactly when the count reaches the threshold.
   */
  lemma {:induction false} MatchesEndSync<F>(ops: Ops<F>, s: Session<F>, input: seq<ReadResult>)
    requires s.syncing && s.syncCount < SYNC_THRESHOLD
    requires AllMatched(Serve(ops, s, input).events)
    ensures var r := Serve(ops, s, input);
      && r.final.syncCount == s.syncCount + |r.events| <= SYNC_THRESHOLD
      && (r.final.syncing <==> r.final.syncCount < SYNC_THRESHOLD)
    decreases |input|
  {
    var n := Needed(s);
    if |input| >= n && Tick(ops, s, input[..n]).Ok? {
      var t := Tick(ops, s, input[..n]).value;
      var rest := Serve(ops, t.next, input[n..]);
      AllMatchedCons(t.event, rest.events);
      MatchedTick(ops, s, input[..n]);
      if t.next.syncing {
        MatchesEndSync(ops, t.next, input[n..]);
      } else if rest.events != [] {
        assert rest.events[0] == Coupled(true);
        UnsyncedFirstEvent(ops, t.next, input[n..]);
        assert false;
      }
    }
  }

  /** A run from unsynced locals does not start with a coupled tick. */
  lemma UnsyncedFirstEvent<F>(ops: Ops<F>, s: Session<F>, input: seq<ReadResult>)
    requires !s.syncing
    ensures var events := Serve(ops, s, input).events;
      events != [] ==> events[0] == Idle || events[0] == SyncRequested
  {
  }

  /**
   * Re-entering syncing with the count already at or past the threshold: matching ticks
   * only raise the count further and never end syncing.
   */
  lemma {:induction false} ReentryNeverEnds<F>(ops: Ops<F>, s: Session<F>, input: seq<ReadResult>)
    requires s.syncing && s.syncCount >= SYNC_THRESHOLD
    requires AllMatched(Serve(ops, s, input).events)
    ensures var r := Serve(ops, s, input);
      r.final.syncing && r.final.syncCount == s.syncCount + |r.events|
    decreases |input|
  {
    var n := Needed(s);
    if |input| >= n && Tick(ops, s, input[..n]).Ok? {
      var t := Tick(ops, s, input[..n]).value;
      var rest := Serve(ops, t.next, input[n..]);
      AllMatchedCons(t.event, rest.events);
      MatchedTick(ops, s, input[..n]);
      ReentryNeverEnds(ops, t.next, input[n..]);
    }
  }
}
