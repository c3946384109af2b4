/**
 * The XOR stream cipher: byte `i` of the output is byte `i` of the input XOR-ed with key
 * byte `i mod |key|`. Encryption and decryption are the same transform.
 */
module Cipher {
  import opened Wire

  /** The transform as a function. A non-empty input needs a non-empty key stream. */
  function Xor(bytes: seq<bv8>, keyStream: seq<bv8>): (out: seq<bv8>)
    requires |bytes| == 0 || |keyStream| > 0
    ensures |out| == |bytes|
    ensures forall i :: 0 <= i < |bytes| ==> out[i] == bytes[i] ^ keyStream[i % |keyStream|]
  {
    if |bytes| == 0 then []
    else
      var last := |bytes| - 1;
      var init := Xor(bytes[..last], keyStream);
      var out := init + [bytes[last] ^ keyStream[last % |keyStream|]];
      assert forall i :: 0 <= i < last ==> out[i] == init[i] == bytes[i] ^ keyStream[i % |keyStream|];
      out
  }

  /** The empty input gives the empty output, whatever the key stream, even an empty one. */
  lemma XorEmpty(keyStream: seq<bv8>)
    ensures Xor([], keyStream) == []
  {
  }

  /** Applying the transform twice with the same key stream gives the input back. */
  lemma XorInvolutive(bytes: seq<bv8>, keyStream: seq<bv8>)
    requires |bytes| == 0 || |keyStream| > 0
    ensures Xor(Xor(bytes, keyStream), keyStream) == bytes
  {
    var once := Xor(bytes, keyStream);
    var twice := Xor(once, keyStream);
    forall i | 0 <= i < |bytes|
      ensures twice[i] == bytes[i]
    {
      var k := keyStream[i % |keyStream|];
      assert twice[i] == (bytes[i] ^ k) ^ k;
    }
  }

  /**
   * The loop shared by `encrypt` (in the standalone program and in the client) and `dencrypt`:
   * push `byte ^ key_stream[i % key_stream.len()]` for each input byte. Indexing modulo the
   * length of an empty key stream panics at the first byte.
   */
  method XorLoop(bytes: seq<bv8>, keyStream: seq<bv8>) returns (r: Result<seq<bv8>>)
    ensures r.Panic? <==> |bytes| > 0 && |keyStream| == 0
    ensures r.Panic? ==> r.fault == KeyStreamEmpty
    ensures r.Ok? ==> r.value == Xor(bytes, keyStream)
  {
    var out: seq<bv8> := [];
    var i := 0;
    while i < |bytes|
      invariant 0 <= i <= |bytes|
      invariant i > 0 ==> |keyStream| > 0
      invariant |out| == i
      invariant forall j :: 0 <= j < i ==> out[j] == bytes[j] ^ keyStream[j % |keyStream|]
    {
      if |keyStream| == 0 {
        return Panic(KeyStreamEmpty);
      }
      out := out + [bytes[i] ^ keyStream[i % |keyStream|]];
      i := i + 1;
    }
    r := Ok(out);
  }
}
