/**
 * The standalone demonstration program: its own (differently signed) Lorenz step, key
 * stream generation, `encrypt`, `dencrypt`, and the encrypt/decrypt round trip of `main`.
 */
module Standalone {
  import opened Wire
  import opened Float
  import Base64
  import Harvest
  import Cipher

  /** This program's own step; the operations follow the Rust expressions, with `-a * b` as `(-a) * b`. */
  function LorenzAttractor<F>(ops: Ops<F>, x: F, y: F, z: F, sigma: F, rho: F, beta: F, h: F): Coords<F> {
    var newX := ops.add(x, ops.mul(h, ops.sub(ops.mul(ops.neg(sigma), x), ops.mul(sigma, y))));
    var newY := ops.add(y, ops.mul(h, ops.sub(ops.sub(ops.mul(ops.neg(x), z), ops.mul(rho, x)), y)));
    var newZ := ops.add(z, ops.mul(h, ops.sub(ops.mul(x, y), ops.mul(beta, z))));
    Coords(newX, newY, newZ)
  }

  function Step<F>(ops: Ops<F>, p: Params<F>): Coords<F> -> Coords<F> {
    (s: Coords<F>) => LorenzAttractor(ops, s.x, s.y, s.z, p.sigma, p.rho, p.beta, p.h)
  }

  /**
   * `generate_key_stream`: `n` steps from the seed, appending the 8 bytes of each new
   * y-coordinate; the result is the harvested stream of `8 * n` bytes.
   */
  method GenerateKeyStream<F>(ops: Ops<F>, seed: Coords<F>, sigma: F, rho: F, beta: F, h: F, n: nat)
    returns (keyStream: seq<bv8>)
    ensures keyStream == Harvest.Stream(Step(ops, Params(sigma, rho, beta, h)), YBytes(ops), seed, n)
    ensures |keyStream| == 8 * n
  {
    ghost var step := Step(ops, Params(sigma, rho, beta, h));
    keyStream := [];
    var currentState := seed;
    for i := 0 to n
      invariant currentState == Harvest.Iterate(step, seed, i)
      invariant keyStream == Harvest.Stream(step, YBytes(ops), seed, i)
    {
      currentState := LorenzAttractor(ops, currentState.x, currentState.y, currentState.z, sigma, rho, beta, h);
      var bytes := ops.toNeBytes(currentState.y);
      keyStream := keyStream + bytes;
    }
  }

  /** `encrypt` on the message's bytes. */
  method Encrypt(message: seq<bv8>, keyStream: seq<bv8>) returns (r: Result<seq<bv8>>)
    ensures r.Panic? <==> |message| > 0 && |keyStream| == 0
    ensures r.Ok? ==> r.value == Cipher.Xor(message, keyStream)
    ensures r.Ok? ==> |r.value| == |message|
    ensures r.Ok? ==> forall i :: 0 <= i < |message| ==> r.value[i] == message[i] ^ keyStream[i % |keyStream|]
  {
    r := Cipher.XorLoop(message, keyStream);
  }

  /** `dencrypt`: Base64-decode (panicking on bad input), then the same XOR transform. */
  method Dencrypt(codec: Base64.Codec, base64Message: string, keyStream: seq<bv8>) returns (r: Result<seq<bv8>>)
    ensures codec.decode(base64Message).None? ==> r == Panic(BadBase64)
    ensures codec.decode(base64Message).Some? ==>
      var bytes := codec.decode(base64Message).value;
      && (r.Panic? <==> |bytes| > 0 && |keyStream| == 0)
      && (r.Ok? ==> r.value == Cipher.Xor(bytes, keyStream))
  {
    match codec.decode(base64Message)
    case None =>
      r := Panic(BadBase64);
    case Some(encryptedMessageBytes) =>
      r := Cipher.XorLoop(encryptedMessageBytes, keyStream);
  }

  function Seed<F>(ops: Ops<F>): Coords<F> {
    Coords(ops.lit(-10.0), ops.lit(-7.0), ops.lit(35.0))
  }

  /**
   * `main` without its printing: generate 8 steps (64 bytes) of key stream, encrypt and
   * Base64-encode the message, then decrypt it again; the message comes back unchanged.
   */
  method Run<F>(ops: Ops<F>, codec: Base64.Codec, message: seq<bv8>)
    returns (keyStream: seq<bv8>, ciphertext: string, decoded: Result<seq<bv8>>)
    requires Base64.Valid(codec)
    ensures keyStream == Harvest.Stream(Step(ops, Params(ops.lit(10.0), ops.lit(28.0), EightThirds(ops), ops.lit(0.01))), YBytes(ops), Seed(ops), 8)
    ensures |keyStream| == 64
    ensures ciphertext == codec.encode(Cipher.Xor(message, keyStream))
    ensures decoded == Ok(message)
  {
    keyStream := GenerateKeyStream(ops, Seed(ops), ops.lit(10.0), ops.lit(28.0), EightThirds(ops), ops.lit(0.01), 8);
    var encrypted := Encrypt(message, keyStream);
    ciphertext := codec.encode(encrypted.value);
    assert codec.decode(ciphertext) == Some(encrypted.value);
    decoded := Dencrypt(codec, ciphertext, keyStream);
    Cipher.XorInvolutive(message, keyStream);
  }
}
