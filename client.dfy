/**
 * The client: it free-runs its trajectory while streaming x, y, z to the server, waits for
 * the sync-complete control code, harvests 16 key bytes, encrypts the message, and sends
 * the encryption-complete code, the Base64 ciphertext and an 8-byte fingerprint.
 */
module Client {
  import opened Wire
  import opened Float
  import Common
  import Harvest
  import Cipher
  import Base64

  /** The phase of the client's main loop. */
  datatype ClientState = Syncing | Encrypting | Encrypted(ciphertext: string)

  /** How the main loop ends: it finished, it panicked, or the polls ran out while syncing. */
  datatype Exit = Finished | Aborted(fault: Fault) | StillSyncing

  /** Everything the client sends, and how it ended. */
  datatype Outcome = Outcome(sent: seq<Frame>, exit: Exit)

  /** Phases are ordered; the loop only moves forward in this order. */
  function Stage(s: ClientState): nat {
    match s
    case Syncing => 0
    case Encrypting => 1
    case Encrypted(_) => 2
  }

  function Seed<F>(ops: Ops<F>): Coords<F> {
    Coords(ops.lit(-10.0), ops.lit(-7.0), ops.lit(35.0))
  }

  /** The client's hard-coded parameters: sigma 25, rho 2, beta 8/3, h 0.01. */
  function ClientParams<F>(ops: Ops<F>): Params<F> {
    Params(ops.lit(25.0), ops.lit(2.0), EightThirds(ops), ops.lit(0.01))
  }

  /** The client only ever takes uncoupled steps. */
  function Step<F>(ops: Ops<F>): Coords<F> -> Coords<F> {
    Common.Uncoupled(ops, ClientParams(ops))
  }

  /** The trajectory before the loop starts: one step from the seed. */
  function Start<F>(ops: Ops<F>): Coords<F> {
    Harvest.Iterate(Step(ops), Seed(ops), 1)
  }

  /** `encrypt`, the client's copy of the XOR loop. */
  method Encrypt(message: seq<bv8>, keyStream: seq<bv8>) returns (r: Result<seq<bv8>>)
    ensures r.Panic? <==> |message| > 0 && |keyStream| == 0
    ensures r.Ok? ==> r.value == Cipher.Xor(message, keyStream)
    ensures r.Ok? ==> |r.value| == |message|
    ensures r.Ok? ==> forall i :: 0 <= i < |message| ==> r.value[i] == message[i] ^ keyStream[i % |keyStream|]
  {
    r := Cipher.XorLoop(message, keyStream);
  }

  /** The three coordinate frames of one syncing tick, in the order x, y, z. */
  function CoordFrames<F>(ops: Ops<F>, s: Coords<F>): seq<Frame> {
    [Binary(ops.toNeBytes(s.x)), Binary(ops.toNeBytes(s.y)), Binary(ops.toNeBytes(s.z))]
  }

  /** `CoordFrames` as a value, for tracing. */
  function CoordFramesOf<F>(ops: Ops<F>): Coords<F> -> seq<Frame> {
    (s: Coords<F>) => CoordFrames(ops, s)
  }

  /** The frames of the first `n` syncing ticks: tick `t` sends the state `t` steps after `Start`. */
  function SyncTraffic<F>(ops: Ops<F>, n: nat): (frames: seq<Frame>)
    ensures |frames| == 3 * n
  {
    if n == 0 then [] else SyncTraffic(ops, n - 1) + CoordFrames(ops, Harvest.Iterate(Step(ops), Start(ops), n))
  }

  /** The syncing traffic is the trace of `CoordFrames` along the client's trajectory. */
  lemma {:induction false} SyncTrafficIsTrace<F>(ops: Ops<F>, n: nat)
    ensures SyncTraffic(ops, n) == Harvest.Trace(Step(ops), CoordFramesOf(ops), Start(ops), n)
  {
    if n > 0 {
      SyncTrafficIsTrace(ops, n - 1);
    }
  }

  /** A poll that ends the syncing phase: a read error, or the sync-complete control code. */
  predicate EndsSyncing(r: ReadResult) {
    r.Failed? || (r.Received? && IsRequest(r.frame, SYNC_COMPLETE))
  }

  /** The index of the first poll that ends syncing, or `|polls|` when there is none. */
  function FirstStop(polls: seq<ReadResult>): (i: nat)
    ensures i <= |polls|
    ensures forall j :: 0 <= j < i ==> !EndsSyncing(polls[j])
    ensures i < |polls| ==> EndsSyncing(polls[i])
  {
    if |polls| == 0 then 0
    else if EndsSyncing(polls[0]) then 0
    else 1 + FirstStop(polls[1..])
  }

  /** The 16 key bytes harvested after `ticks` syncing ticks: two more uncoupled steps. */
  function KeyStreamAfter<F>(ops: Ops<F>, ticks: nat): (keyStream: seq<bv8>)
    ensures |keyStream| == 16
  {
    Harvest.Stream(Step(ops), YBytes(ops), Harvest.Iterate(Step(ops), Start(ops), ticks), 2)
  }

  /** The fingerprint: the first 8 key bytes, one binary frame per byte. */
  function Fingerprint(keyStream: seq<bv8>): (frames: seq<Frame>)
    requires |keyStream| >= 8
    ensures |frames| == 8
  {
    seq(8, j requires 0 <= j < 8 => Binary([keyStream[j]]))
  }

  /**
   * What the client sends for a sequence of non-blocking poll results (one per syncing tick),
   * in closed form: the sync request, the coordinates of every tick up to the first poll that
   * ends syncing, and, when that poll is the sync-complete code, the encryption-complete code,
   * the ciphertext and the fingerprint.
   */
  function Transcript<F>(ops: Ops<F>, codec: Base64.Codec, message: seq<bv8>, polls: seq<ReadResult>): Outcome {
    var i := FirstStop(polls);
    var request := [Common.SendRequest(SYNC_REQUEST)];
    if i == |polls| then
      Outcome(request + SyncTraffic(ops, i), StillSyncing)
    else if polls[i].Failed? then
      Outcome(request + SyncTraffic(ops, i + 1), Aborted(ReadFailed))
    else
      var keyStream := KeyStreamAfter(ops, i + 1);
      var ciphertext := codec.encode(Cipher.Xor(message, keyStream));
      Outcome(request + SyncTraffic(ops, i + 1)
              + [Common.SendRequest(ENCRYPTION_COMPLETE), Text(ciphertext)]
              + Fingerprint(keyStream),
              Finished)
  }


  /** The closed form when no poll ends syncing. */
  lemma TranscriptWhileSyncing<F>(ops: Ops<F>, codec: Base64.Codec, message: seq<bv8>, polls: seq<ReadResult>)
    requires forall j :: 0 <= j < |polls| ==> !EndsSyncing(polls[j])
    ensures Transcript(ops, codec, message, polls)
         == Outcome([Common.SendRequest(SYNC_REQUEST)] + SyncTraffic(ops, |polls|), StillSyncing)
  {
    assert FirstStop(polls) == |polls|;
  }

  /** Poll `i` is the first to end syncing when it ends syncing and no earlier poll does. */
  lemma TranscriptStoppedAt(polls: seq<ReadResult>, i: nat)
    requires i < |polls| && EndsSyncing(polls[i])
    requires forall j :: 0 <= j < i ==> !EndsSyncing(polls[j])
    ensures FirstStop(polls) == i
  {
  }

  /** The closed form once syncing ended with the sync-complete code at poll `i`. */
  lemma TranscriptFinished<F>(ops: Ops<F>, codec: Base64.Codec, message: seq<bv8>, polls: seq<ReadResult>, i: nat)
    requires i < |polls| && FirstStop(polls) == i && !polls[i].Failed?
    ensures Transcript(ops, codec, message, polls)
         == Outcome([Common.SendRequest(SYNC_REQUEST)] + SyncTraffic(ops, i + 1)
                    + [Common.SendRequest(ENCRYPTION_COMPLETE), Text(codec.encode(Cipher.Xor(message, KeyStreamAfter(ops, i + 1))))]
                    + Fingerprint(KeyStreamAfter(ops, i + 1)),
                    Finished)
  {
  }

  /** Syncing tick `t` (counting from 0) sends x, y and z of the state `t + 1` steps after `Start`. */
  lemma SyncTrafficTick<F>(ops: Ops<F>, n: nat, t: nat)
    requires t < n
    ensures SyncTraffic(ops, n)[3 * t .. 3 * t + 3] == CoordFrames(ops, Harvest.Iterate(Step(ops), Start(ops), t + 1))
  {
    SyncTrafficIsTrace(ops, n);
    Harvest.TraceChunk(Step(ops), CoordFramesOf(ops), Start(ops), 3, n, t);
  }

  /**
   * The key stream is the y bytes of the two states after the last syncing tick, that is,
   * states `ticks + 1` and `ticks + 2` of the trajectory the syncing traffic comes from; the
   * fingerprint is the first of them, byte by byte.
   */
  lemma KeyStreamChunks<F>(ops: Ops<F>, ticks: nat)
    ensures var last := Harvest.Iterate(Step(ops), Start(ops), ticks);
      && KeyStreamAfter(ops, ticks)[..8] == ops.toNeBytes(Step(ops)(last).y)
      && KeyStreamAfter(ops, ticks)[8..] == ops.toNeBytes(Step(ops)(Step(ops)(last)).y)
      && KeyStreamAfter(ops, ticks)[..8] == ops.toNeBytes(Harvest.Iterate(Step(ops), Start(ops), ticks + 1).y)
      && KeyStreamAfter(ops, ticks)[8..] == ops.toNeBytes(Harvest.Iterate(Step(ops), Start(ops), ticks + 2).y)
      && forall j :: 0 <= j < 8 ==> Fingerprint(KeyStreamAfter(ops, ticks))[j] == Binary([ops.toNeBytes(Step(ops)(last).y)[j]])
  {
    Harvest.StreamAfter(Step(ops), YBytes(ops), Start(ops), ticks, 2, 0);
    Harvest.StreamAfter(Step(ops), YBytes(ops), Start(ops), ticks, 2, 1);
  }

  /**
   * The ciphertext a finished client sends after `ticks` syncing ticks (see
   * `TranscriptFinished`) is Base64 text that decodes, and the key stream turns it back
   * into the message.
   */
  lemma CiphertextDecrypts<F>(ops: Ops<F>, codec: Base64.Codec, message: seq<bv8>, ticks: nat)
    requires Base64.Valid(codec)
    ensures var keyStream := KeyStreamAfter(ops, ticks);
      var decoded := codec.decode(codec.encode(Cipher.Xor(message, keyStream)));
      decoded.Some? && Cipher.Xor(decoded.value, keyStream) == message
  {
    var keyStream := KeyStreamAfter(ops, ticks);
    Base64.RoundTrip(codec, Cipher.Xor(message, keyStream));
    Cipher.XorInvolutive(message, keyStream);
  }

  /** The empty message encrypts to no bytes, whose Base64 is the empty text, whatever the key stream. */
  lemma EmptyMessageEncodesEmpty(codec: Base64.Codec, keyStream: seq<bv8>)
    requires Base64.Valid(codec)
    ensures codec.encode(Cipher.Xor([], keyStream)) == ""
  {
    Cipher.XorEmpty(keyStream);
  }

  /** The stepping half of a `Syncing` tick: one uncoupled step, then x, y and z are sent. */
  method SyncingTick<F>(ops: Ops<F>, state: Coords<F>, sent: seq<Frame>) returns (state': Coords<F>, sent': seq<Frame>)
    ensures state' == Step(ops)(state)
    ensures sent' == sent + CoordFrames(ops, state')
  {
    var p := ClientParams(ops);
    state' := Common.LorenzAttractor(ops, state.x, None, state.y, state.z, p.sigma, p.rho, p.beta, p.h);
    sent' := sent + [Binary(ops.toNeBytes(state'.x))];
    sent' := sent' + [Binary(ops.toNeBytes(state'.y))];
    sent' := sent' + [Binary(ops.toNeBytes(state'.z))];
  }

  /** An `Encrypting` tick below 16 bytes: one uncoupled step, then the new y's 8 bytes are appended. */
  method EncryptingTick<F>(ops: Ops<F>, state: Coords<F>, keyStream: seq<bv8>) returns (state': Coords<F>, keyStream': seq<bv8>)
    ensures state' == Step(ops)(state)
    ensures keyStream' == keyStream + ops.toNeBytes(state'.y)
  {
    var p := ClientParams(ops);
    state' := Common.LorenzAttractor(ops, state.x, None, state.y, state.z, p.sigma, p.rho, p.beta, p.h);
    var bytes := ops.toNeBytes(state'.y);
    keyStream' := keyStream + bytes;
  }

  /**
   * The `Encrypted` arm: send the encryption-complete code, the ciphertext, and the first 8
   * key bytes one frame at a time.
   */
  method SendEncrypted(sent: seq<Frame>, ciphertext: string, keyStream: seq<bv8>) returns (out: seq<Frame>)
    requires |keyStream| >= 8
    ensures out == sent + [Common.SendRequest(ENCRYPTION_COMPLETE), Text(ciphertext)] + Fingerprint(keyStream)
  {
    out := sent + [Common.SendRequest(ENCRYPTION_COMPLETE)];
    out := out + [Text(ciphertext)];
    var fst := keyStream[0..8];
    ghost var before := out;
    for j := 0 to 8
      invariant out == before + Fingerprint(fst)[..j]
    {
      out := out + [Binary([fst[j]])];
    }
    assert Fingerprint(fst) == Fingerprint(keyStream);
  }

  /** The loop invariant while syncing: `i` ticks done, and none of their polls ended syncing. */
  ghost predicate SyncedFor<F>(ops: Ops<F>, polls: seq<ReadResult>, i: nat, state: Coords<F>, sent: seq<Frame>) {
    && i <= |polls|
    && state == Harvest.Iterate(Step(ops), Start(ops), i)
    && sent == [Common.SendRequest(SYNC_REQUEST)] + SyncTraffic(ops, i)
    && forall j :: 0 <= j < i ==> !EndsSyncing(polls[j])
  }

  /**
   * The loop invariant after syncing: poll `i - 1` carried the sync-complete code, and `k`
   * steps have been harvested since.
   */
  ghost predicate HarvestedFor<F>(ops: Ops<F>, polls: seq<ReadResult>, i: nat, state: Coords<F>, sent: seq<Frame>,
                                  keyStream: seq<bv8>, k: nat) {
    && 0 < i <= |polls|
    && FirstStop(polls) == i - 1
    && !polls[i - 1].Failed?
    && sent == [Common.SendRequest(SYNC_REQUEST)] + SyncTraffic(ops, i)
    && k <= 2
    && keyStream == Harvest.Stream(Step(ops), YBytes(ops), Harvest.Iterate(Step(ops), Start(ops), i), k)
    && state == Harvest.Iterate(Step(ops), Harvest.Iterate(Step(ops), Start(ops), i), k)
  }

  lemma SyncingContinues<F>(ops: Ops<F>, polls: seq<ReadResult>, i: nat, state: Coords<F>, sent: seq<Frame>)
    requires SyncedFor(ops, polls, i, state, sent) && i < |polls| && !EndsSyncing(polls[i])
    ensures SyncedFor(ops, polls, i + 1, Step(ops)(state), sent + CoordFrames(ops, Step(ops)(state)))
  {
    assert forall j :: 0 <= j < i + 1 ==> !EndsSyncing(polls[j]);
  }

  lemma SyncingEnds<F>(ops: Ops<F>, polls: seq<ReadResult>, i: nat, state: Coords<F>, sent: seq<Frame>)
    requires SyncedFor(ops, polls, i, state, sent) && i < |polls| && EndsSyncing(polls[i]) && !polls[i].Failed?
    ensures HarvestedFor(ops, polls, i + 1, Step(ops)(state), sent + CoordFrames(ops, Step(ops)(state)), [], 0)
  {
    TranscriptStoppedAt(polls, i);
  }

  lemma HarvestContinues<F>(ops: Ops<F>, polls: seq<ReadResult>, i: nat, state: Coords<F>, sent: seq<Frame>,
                            keyStream: seq<bv8>, k: nat)
    requires HarvestedFor(ops, polls, i, state, sent, keyStream, k) && k < 2
    ensures HarvestedFor(ops, polls, i, Step(ops)(state), sent, keyStream + ops.toNeBytes(Step(ops)(state).y), k + 1)
  {
  }

  /**
   * The `Syncing` arm, on poll `i`: one step, the coordinates sent, then the poll. A read
   * error stops the client; the sync-complete code moves it to `Encrypting`.
   */
  method SyncingArm<F>(ops: Ops<F>, codec: Base64.Codec, message: seq<bv8>, polls: seq<ReadResult>, i: nat,
                       state: Coords<F>, sent: seq<Frame>)
    returns (state': Coords<F>, sent': seq<Frame>, next: ClientState, stop: Option<Exit>)
    requires SyncedFor(ops, polls, i, state, sent) && i < |polls|
    ensures state' == Step(ops)(state) && sent' == sent + CoordFrames(ops, state')
    ensures stop.Some? <==> polls[i].Failed?
    ensures stop.Some? ==> Outcome(sent', stop.value) == Transcript(ops, codec, message, polls)
    ensures stop.None? ==> (next.Encrypting? <==> polls[i].Received? && IsRequest(polls[i].frame, SYNC_COMPLETE))
    ensures stop.None? ==> next.Syncing? || next.Encrypting?
    ensures stop.None? && next.Syncing? ==> SyncedFor(ops, polls, i + 1, state', sent')
    ensures stop.None? && next.Encrypting? ==> HarvestedFor(ops, polls, i + 1, state', sent', [], 0)
  {
    state', sent' := SyncingTick(ops, state, sent);
    var polled := Common.ReadNonBlocking(polls[i]);
    next := Syncing;
    stop := None;
    if polled.Panic? {
      TranscriptStoppedAt(polls, i);
      stop := Some(Aborted(polled.fault));
    } else if polled.value.Some? && polled.value.value.Binary? && polled.value.value.payload == [SYNC_COMPLETE] {
      SyncingEnds(ops, polls, i, state, sent);
      next := Encrypting;
    } else {
      SyncingContinues(ops, polls, i, state, sent);
    }
  }

  /** The `Encrypting` arm: below 16 key bytes, one step and 8 more bytes; at 16, encrypt. */
  method EncryptingArm<F>(ops: Ops<F>, codec: Base64.Codec, message: seq<bv8>, polls: seq<ReadResult>, i: nat,
                          state: Coords<F>, sent: seq<Frame>, keyStream: seq<bv8>, ghost k: nat)
    returns (state': Coords<F>, keyStream': seq<bv8>, next: ClientState, ghost k': nat)
    requires HarvestedFor(ops, polls, i, state, sent, keyStream, k)
    ensures HarvestedFor(ops, polls, i, state', sent, keyStream', k')
    ensures |keyStream'| == 8 * k' <= 16
    ensures next.Encrypting? ==> |keyStream'| == |keyStream| + 8 && keyStream' == keyStream + ops.toNeBytes(state'.y)
    ensures next.Encrypted? <==> |keyStream| == 16
    ensures next.Encrypted? ==> keyStream' == keyStream && k' == 2 && next.ciphertext == codec.encode(Cipher.Xor(message, keyStream'))
    ensures next.Encrypting? || next.Encrypted?
  {
    if |keyStream| == 16 {
      var encrypted := Encrypt(message, keyStream);
      state', keyStream', next, k' := state, keyStream, Encrypted(codec.encode(encrypted.value)), k;
    } else {
      HarvestContinues(ops, polls, i, state, sent, keyStream, k);
      state', keyStream' := EncryptingTick(ops, state, keyStream);
      next, k' := Encrypting, k + 1;
    }
  }

  /** The `Encrypted` arm: the encryption-complete code, the ciphertext and the fingerprint, after which the client is done. */
  method EncryptedArm<F>(ops: Ops<F>, codec: Base64.Codec, message: seq<bv8>, polls: seq<ReadResult>, i: nat,
                         state: Coords<F>, sent: seq<Frame>, keyStream: seq<bv8>, ciphertext: string)
    returns (sent': seq<Frame>)
    requires HarvestedFor(ops, polls, i, state, sent, keyStream, 2)
    requires ciphertext == codec.encode(Cipher.Xor(message, keyStream))
    ensures Outcome(sent', Finished) == Transcript(ops, codec, message, polls)
  {
    assert keyStream == KeyStreamAfter(ops, i);
    TranscriptFinished(ops, codec, message, polls, i - 1);
    sent' := SendEncrypted(sent, ciphertext, keyStream);
  }

  /**
   * The client's main loop, after the sync request has been sent. `polls` are the results of
   * the non-blocking reads, one per syncing tick; the loop stops when they run out.
   */
  method Run<F>(ops: Ops<F>, codec: Base64.Codec, message: seq<bv8>, polls: seq<ReadResult>)
    returns (sent: seq<Frame>, exit: Exit)
    ensures Outcome(sent, exit) == Transcript(ops, codec, message, polls)
  {
    var seed := Seed(ops);
    var p := ClientParams(ops);
    var state := Common.LorenzAttractor(ops, seed.x, None, seed.y, seed.z, p.sigma, p.rho, p.beta, p.h);
    sent := [Common.SendRequest(SYNC_REQUEST)];
    var streamState := Syncing;
    var keyStream: seq<bv8> := [];
    var i := 0;
    ghost var k := 0;
    while true
      invariant streamState.Syncing? ==> keyStream == [] && SyncedFor(ops, polls, i, state, sent)
      invariant !streamState.Syncing? ==> HarvestedFor(ops, polls, i, state, sent, keyStream, k)
      invariant streamState.Encrypting? ==> |keyStream| <= 16
      invariant streamState.Encrypted? ==>
        k == 2 && streamState.ciphertext == codec.encode(Cipher.Xor(message, keyStream))
      // The first component makes the verifier check that no iteration moves the phase backwards.
      decreases 2 - Stage(streamState), |polls| - i, 16 - |keyStream|
    {
      match streamState
      case Syncing =>
        if i == |polls| {
          TranscriptWhileSyncing(ops, codec, message, polls);
          return sent, StillSyncing;
        }
        var stop;
        state, sent, streamState, stop := SyncingArm(ops, codec, message, polls, i, state, sent);
        if stop.Some? {
          return sent, stop.value;
        }
        i, k := i + 1, 0;
      case Encrypting =>
        state, keyStream, streamState, k := EncryptingArm(ops, codec, message, polls, i, state, sent, keyStream, k);
      case Encrypted(ciphertext) =>
        sent := EncryptedArm(ops, codec, message, polls, i, state, sent, keyStream, ciphertext);
        exit := Finished;
        break;
    }
  }
}
