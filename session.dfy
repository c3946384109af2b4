/**
 * The client against the server: the server acknowledges the client's sync request, but it
 * never sends the sync-complete code, so a client fed only what the server sends keeps syncing.
 */
module Session {
  import opened Wire
  import opened Float
  import Base64
  import Common
  import Client
  import Server

  /** The client's first frame, received by a server that is not syncing, turns syncing on and is acknowledged. */
  lemma RequestStartsSync<F>(ops: Ops<F>, codec: Base64.Codec, message: seq<bv8>, polls: seq<ReadResult>, s: Server.Session<F>)
    requires !s.syncing
    ensures var request := Client.Transcript(ops, codec, message, polls).sent[0];
      var t := Server.Tick(ops, s, [Received(request)]);
      t.Ok? && t.value.next.syncing && t.value.sent == [Text(SYNC_ACK)]
  {
    Server.TickUnsynced(ops, s, [Received(Common.SendRequest(SYNC_REQUEST))]);
  }

  /**
   * When every poll of the client either finds nothing or receives a frame the server sent,
   * the client never finishes: its closed form is the request and the coordinate traffic of
   * every poll, still syncing.
   */
  lemma ClientNeverFinishes<F>(ops: Ops<F>, codec: Base64.Codec, message: seq<bv8>,
                               input: seq<ReadResult>, polls: seq<ReadResult>)
    requires forall j :: 0 <= j < |polls| ==>
      polls[j].WouldBlock? || (polls[j].Received? && polls[j].frame in Server.Serve(ops, Server.Initial(ops), input).sent)
    ensures Client.Transcript(ops, codec, message, polls)
         == Client.Outcome([Common.SendRequest(SYNC_REQUEST)] + Client.SyncTraffic(ops, |polls|), Client.StillSyncing)
  {
    Server.NeverSendsSyncComplete(ops, Server.Initial(ops), input);
    Client.TranscriptWhileSyncing(ops, codec, message, polls);
  }
}
