# strange_cipher in Dafny

strange_cipher is a small Rust experiment in chaos-based encryption. A client and a server
each run a Lorenz system. The server drives its copy with the client's x-coordinate until
its trajectory locks onto the client's. Both sides are then meant to harvest the same key
bytes from the y-coordinate. The client XOR-encrypts a message with 16 harvested bytes and
sends the Base64 ciphertext, followed by an 8-byte fingerprint of the key. A standalone
program (`main.rs`) demonstrates the cipher on its own: it generates a key stream, encrypts,
Base64-encodes, decodes and decrypts.

This project models four pieces:

- the library module `common` (`lib.rs`);
- the standalone program;
- the client's main loop;
- the server's per-connection loop.

It proves the structural facts these pieces promise.

The model's parts:

- **Floats are abstract.** `Float.Ops` is a record of the `f64` operations the code uses
  (add, sub, mul, div, neg, IEEE `==`, literals, `to_ne_bytes`, `from_ne_bytes`) over an
  arbitrary carrier type. Nothing numeric is claimed.
- **Panics are results.** Every `unwrap`, `expect`, out-of-range index or `panic!` that input
  can reach is modelled as `Wire.Result.Panic` with a `Wire.Fault`.
- **Socket reads are inputs.** They are a sequence of `Wire.ReadResult`s (a message, "would
  block", or an error). Sends are the returned sequence of `Wire.Frame`s.
- **The loops are methods.** The client's loop and the server's loop are methods with `while`
  loops over their locals. Each is proved equal to a closed-form specification function:
  `Client.Transcript` and `Server.Serve`. The properties are proved about those functions.
- **Base64 is a parameter.** `Base64.Codec` is a pair of functions. `Base64.Valid` says it is
  a bijection onto canonical text and that it encodes no bytes as "".

Facts about the program that the proofs bring out:

- **The server never sends the sync-complete code `[2]`.** Its only send is the text
  acknowledgement (`Server.OnlyAcknowledges`). A client that only ever receives what this
  server sends therefore never leaves `Syncing` (`Session.ClientNeverFinishes`).
- **The server does not reset `sync_count` when syncing starts again.** After a first sync
  has ended with the count at 10, a second sync request turns syncing back on with the count
  still at 10. As long as every tick matches, the count stays above 10 and syncing does not
  end (`Server.ReentryNeverEnds`). A mismatch restarts the count at 0, and 10 matches after
  that end syncing again (`Server.SyncCountSinceMismatch`, `Server.MatchesEndSync`).
- **The server compares its previous (y, z) with the client's current one.** A match is
  `last_y == y' && last_z == z'`: the server's y and z from the previous tick against the
  client's freshly sent y and z, not the server's own new (y, z) against its previous one.
- **The parameters are hard-coded, and the two sides' differ.** Syncing ends after 10
  consecutive matches (src/server.rs:145). The server steps with sigma 10 and rho 28
  (src/server.rs:85-86), the client with sigma 25 and rho 2 (src/client.rs:42-43); both use
  beta 8/3 and h 0.01 (`Server.ServerParams`, `Client.ClientParams`). Neither side searches
  for the fingerprint it is sent.

## Model

| member | source | states |
|---|---|---|
| Common.LorenzAttractor | src/lib.rs:4-23 | one Euler step of the Lorenz system, using the coupling value in place of the local x when there is one: x' = u + sigma (y - u) h, y' = y + (u (rho - z) - y) h, z' = z + (u y - beta z) h |
| Common.UncoupledIsSelfCoupled | src/lib.rs:14-22 | stepping without a coupling value equals stepping coupled to the state's own x |
| Common.CoupledIgnoresX | src/lib.rs:14-22 | with a coupling value present, the local x does not affect the step |
| Common.NewZIgnoresSigmaRho | src/lib.rs:20 | the new z depends on neither sigma nor rho |
| Common.NewXIgnoresRhoBetaZ | src/lib.rs:18 | the new x depends on neither rho, beta nor z |
| Common.NewYIgnoresSigmaBeta | src/lib.rs:19 | the new y depends on neither sigma nor beta |
| Common.SendRequest | src/lib.rs:25-34 | `send_request` puts exactly one binary frame on the wire, whose payload is the single byte `request_id` |
| Common.RequestRecognised | src/lib.rs:29-31 | a peer testing for `[id]` recognises the request for `code` exactly when `code == id` |
| Common.ReadNonBlocking | src/lib.rs:36-47 | a read result is classified three ways: a message gives `Some(msg)`, "would block" gives `None`, and any other error panics |
| Harvest.IterateAdd | src/main.rs:30-42 | stepping a times and then b times is stepping a + b times |
| Harvest.Stream | src/main.rs:27-44 | harvesting n steps yields exactly 8 * n bytes |
| Harvest.StreamPrefix | src/main.rs:30-42 | the stream of n steps is a prefix of the stream of m >= n steps |
| Harvest.StreamChunk | src/main.rs:40-41 | bytes 8k to 8k + 8 are the y-bytes of the state after k + 1 steps |
| Harvest.StreamAfter | src/client.rs:90-102 | harvesting from the state a steps along a trajectory: chunk k is the sample of state a + k + 1 of that trajectory |
| Harvest.TraceLength | src/client.rs:69-79 | when every state emits w items, n steps emit w * n |
| Harvest.TracePrefix | src/client.rs:69-79 | the items emitted over k steps are a prefix of those emitted over n >= k steps |
| Harvest.TraceChunk | src/client.rs:69-79 | when every state emits w items, items wk to wk + w come from the state after k + 1 steps |
| Cipher.Xor | src/main.rs:47-58 | output length equals input length, and byte i is `in[i] ^ key[i % len(key)]` |
| Cipher.XorEmpty | src/main.rs:51-57 | the empty input gives the empty output for any key stream, including an empty one |
| Cipher.XorInvolutive | src/main.rs:60-71 | applying the transform twice with the same key stream gives the input back |
| Cipher.XorLoop | src/main.rs:51-55 | the loop panics exactly when the input is non-empty and the key stream empty; otherwise it returns the transform |
| Standalone.LorenzAttractor | src/main.rs:3-17 | the standalone program's own step, with its different signs: x' = x + h ((-sigma) x - sigma y), y' = y + h (((-x) z - rho x) - y), z' = z + h (x y - beta z) |
| Standalone.GenerateKeyStream | src/main.rs:19-45 | the result is the harvested stream of the y-bytes of steps 1..n from the seed, 8 * n bytes long |
| Standalone.Encrypt | src/main.rs:47-58 | panics exactly on a non-empty message with an empty key stream; otherwise preserves length and XORs byte i with key byte i mod the key length |
| Standalone.Dencrypt | src/main.rs:60-71 | undecodable Base64 panics; otherwise the decoded bytes go through the same transform with the same panic condition |
| Standalone.Run | src/main.rs:73-93 | the key stream is the 64-byte harvest of 8 steps from the seed (-10, -7, 35) with sigma 10, rho 28, beta 8/3, h 0.01; the ciphertext is the Base64 of the encrypted message, and decrypting it returns the message |
| Client.Encrypt | src/client.rs:15-26 | the client's `encrypt`: the same panic condition, length and element-wise formula as the standalone one |
| Client.SyncTraffic | src/client.rs:69-79 | n syncing ticks send 3 * n coordinate frames |
| Client.SyncTrafficIsTrace | src/client.rs:66-79 | the syncing traffic is, tick by tick, the x, y, z frames of successive uncoupled states |
| Client.SyncTrafficTick | src/client.rs:69-79 | syncing tick t sends the x, y, z bytes of the state t + 1 steps after the start, in that order |
| Client.FirstStop | src/client.rs:81-87 | the index of the first poll that ends syncing: every earlier poll leaves the client syncing |
| Client.KeyStreamAfter | src/client.rs:90-102 | the key stream holds exactly 16 bytes when encryption happens |
| Client.KeyStreamChunks | src/client.rs:97-101 | the key stream is the y-bytes of the two steps after syncing, that is, states ticks + 1 and ticks + 2 of the trajectory the syncing traffic samples, and the fingerprint frames are the first 8 of them, one byte per frame |
| Client.Transcript | src/client.rs:46-124 | the closed form of a client session over its polls: the sync request and the coordinates of every syncing tick up to the first poll that fails or brings `[2]`; a failure aborts, `[2]` adds `[3]`, the Base64 of the message XOR the 16 key bytes harvested next, and the 8 fingerprint frames |
| Client.TranscriptWhileSyncing | src/client.rs:66-88 | when no poll ends syncing, the client has sent the sync request and the coordinates of every tick, and is still syncing |
| Client.TranscriptStoppedAt | src/client.rs:81-87 | the first poll to end syncing is the one that does so after none before it has |
| Client.TranscriptFinished | src/client.rs:66-124 | once poll i brings `[2]`, the client has sent the request, i + 1 ticks of coordinates, then `[3]`, the Base64 ciphertext, and the fingerprint, and it stops |
| Client.CiphertextDecrypts | src/client.rs:90-112 | the ciphertext a finished client sends decodes, and XOR with the same key stream gives the message back |
| Client.EmptyMessageEncodesEmpty | src/client.rs:144-152 | encrypting the empty message gives Base64 "", whatever the key stream |
| Client.SyncingTick | src/client.rs:69-79 | a syncing tick takes one uncoupled step and sends x, y, z of the new state in that order |
| Client.EncryptingTick | src/client.rs:97-101 | an encrypting tick takes one uncoupled step and appends the 8 bytes of the new y |
| Client.SendEncrypted | src/client.rs:104-121 | the `Encrypted` arm sends `[3]`, the ciphertext text, then the first 8 key bytes as 8 one-byte frames |
| Client.SyncingArm | src/client.rs:68-88 | each syncing tick steps once and sends three frames; a read error aborts; only a binary `[2]` moves to `Encrypting`, and anything else stays `Syncing` |
| Client.EncryptingArm | src/client.rs:90-102 | each step appends exactly 8 bytes; the key stream stays a multiple of 8 and never exceeds 16; `Encrypted` is entered exactly at 16 bytes, with the ciphertext of the message under that key stream |
| Client.EncryptedArm | src/client.rs:104-122 | the last arm completes the transcript of a finished session |
| Client.Run | src/client.rs:46-124 | the loop's sends and its way of ending are exactly the closed form `Transcript`; the phase only moves forward, checked by the loop's termination measure |
| Server.LorenzAttractor | src/server.rs:16-42 | the server's own copy of the step, written as a match on the coupling value with the same expressions in each arm |
| Server.AgreesWithCommon | src/server.rs:16-42 | the server's own `lorenz_attractor` equals the library's, with or without a coupling value |
| Server.Tick | src/server.rs:95-158 | one iteration of the connection loop as a function of its locals and the reads it consumes: one read when not syncing, three when syncing |
| Server.Serve | src/server.rs:94-159 | the closed form of a connection: ticks repeat until the reads run out or a tick panics, and the run never records more events than reads |
| Server.ServeTick | src/server.rs:95-158 | one iteration of the connection loop over its locals computes exactly the tick function |
| Server.ServeConnection | src/server.rs:84-159 | from the initial locals (seed (0, 1, 2), not syncing, last values 0, count 0), the loop's sends, final locals and way of stopping are exactly `Serve` |
| Server.TickUnsynced | src/server.rs:95-113 | not syncing: one uncoupled library step; a failed poll panics; only a binary `[1]` is acknowledged with the text "Sync Request approved" and turns syncing on; the count and last values stay put |
| Server.TickSyncing | src/server.rs:115-157 | syncing: anything but three binary messages panics, as does a message shorter than 8 bytes; otherwise one library step coupled to the client's x; the count grows on a match of the previous (y, z) with the client's and restarts at 0 otherwise; syncing ends exactly when a match brings the count to 10; the last values become the new y and z; nothing is sent |
| Server.OnlyAcknowledges | src/server.rs:94-159 | every frame the server sends on a connection is the acknowledgement text |
| Server.NeverSendsSyncComplete | src/server.rs:105-107 | the server never sends a binary frame, in particular never `[2]` |
| Server.SyncCountSinceMismatch | src/server.rs:142-150 | the count at the end of a run is the number of matching ticks since the last mismatch, or the starting count plus all matches when there was no mismatch |
| Server.MatchesEndSync | src/server.rs:142-147 | from a count below 10, consecutive matches raise the count one per tick, and syncing ends exactly when it reaches 10 |
| Server.ReentryNeverEnds | src/server.rs:142-147 | re-entering syncing with the count at 10 or more: matches only raise it, and syncing never ends |
| Server.UnsyncedFirstEvent | src/server.rs:95-113 | a tick that starts unsynced is never a coupled tick |
| Session.RequestStartsSync | src/server.rs:102-109 | the client's first frame, received by a server that is not syncing, is acknowledged and turns syncing on |
| Session.ClientNeverFinishes | src/client.rs:81-87 | a client whose polls only find nothing or frames this server sent never leaves `Syncing` |

## Left out

- 64-bit float arithmetic: the operations are abstract, so no trajectory, convergence or synchronisation claim is made. This includes the unit-test vector "QrLPHFImLZRvpNcZU20s", which depends on float values.
- Base64 is not implemented: it is the `base64` crate (standard alphabet, section 4 of RFC 4648), taken as a valid codec parameter.
- The message is taken as bytes: `as_bytes` (UTF-8), `trim`, stdin reading, and `String::from_utf8` when printing are left out.
- Standalone.Run: the message is a parameter, not the program's fixed sentence, and the final UTF-8 conversion for printing is left out.
- Sending never fails in the model: the `expect`/`unwrap` on each send (a closed connection) is left out.
- `common::receive_msg` (called by the client after the sync request) and `testing_common` are not part of the library file, so they are not part of this model. The client's transcript has no read at that point.
- Socket modes, sleeps and threads are left out. The server's switch to blocking reads stays in force after syncing ends, so its later "non-blocking" polls would block. The model just consumes the next read result. A "would block" result during syncing, which a blocking socket never returns, is treated like any other non-binary read and panics.
- The server's own `read_non_blocking` (src/server.rs:44-52) is the same as the library's; the model uses `Common.ReadNonBlocking` for both.
- Server.SyncCountSinceMismatch: `sync_count` is a Rust `i32`; the model counts with an unbounded `nat`, so the overflow after 2^31 - 1 matches is not modelled.
- Client.Run and Server.ServeConnection: the loops run on a finite sequence of read results and stop when it runs out. The real loops would wait or spin forever.
- The TCP listener, the WebSocket handshake and its header callback, logging and all `println!` output are left out.
