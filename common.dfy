/**
 * The library module `common` shared by client and server: the coupled Lorenz step,
 * sending a one-byte control request, and the non-blocking read.
 */
module Common {
  import opened Wire
  import opened Float

  /**
   * One explicit Euler step of the Lorenz system. When `xPrime` is present it replaces `x`
   * as the driving value (one-way coupling); the operations are applied in the order the
   * Rust expressions apply them.
   */
  function LorenzAttractor<F>(ops: Ops<F>, x: F, xPrime: Option<F>, y: F, z: F,
                              sigma: F, rho: F, beta: F, h: F): Coords<F>
  {
    var usedX := match xPrime
      case Some(syncX) => syncX
      case None => x;
    var newX := ops.add(usedX, ops.mul(ops.mul(sigma, ops.sub(y, usedX)), h));
    var newY := ops.add(y, ops.mul(ops.sub(ops.mul(usedX, ops.sub(rho, z)), y), h));
    var newZ := ops.add(z, ops.mul(ops.sub(ops.mul(usedX, y), ops.mul(beta, z)), h));
    Coords(newX, newY, newZ)
  }

  /** The free-running (uncoupled) step as a state transformer. */
  function Uncoupled<F>(ops: Ops<F>, p: Params<F>): Coords<F> -> Coords<F> {
    (s: Coords<F>) => LorenzAttractor(ops, s.x, None, s.y, s.z, p.sigma, p.rho, p.beta, p.h)
  }

  /** Leaving out the coupling value is the same as coupling a state to its own x. */
  lemma UncoupledIsSelfCoupled<F>(ops: Ops<F>, x: F, y: F, z: F, sigma: F, rho: F, beta: F, h: F)
    ensures LorenzAttractor(ops, x, None, y, z, sigma, rho, beta, h)
         == LorenzAttractor(ops, x, Some(x), y, z, sigma, rho, beta, h)
  {
  }

  /** With a coupling value present, the local x plays no part in the step. */
  lemma CoupledIgnoresX<F>(ops: Ops<F>, x1: F, x2: F, v: F, y: F, z: F,
                           sigma: F, rho: F, beta: F, h: F)
    ensures LorenzAttractor(ops, x1, Some(v), y, z, sigma, rho, beta, h)
         == LorenzAttractor(ops, x2, Some(v), y, z, sigma, rho, beta, h)
  {
  }

  /** The new z depends on neither sigma nor rho. */
  lemma NewZIgnoresSigmaRho<F>(ops: Ops<F>, x: F, xPrime: Option<F>, y: F, z: F,
                               sigma1: F, rho1: F, sigma2: F, rho2: F, beta: F, h: F)
    ensures LorenzAttractor(ops, x, xPrime, y, z, sigma1, rho1, beta, h).z
         == LorenzAttractor(ops, x, xPrime, y, z, sigma2, rho2, beta, h).z
  {
  }

  /** The new x depends on neither rho, beta nor z. */
  lemma NewXIgnoresRhoBetaZ<F>(ops: Ops<F>, x: F, xPrime: Option<F>, y: F, z1: F, z2: F,
                               sigma: F, rho1: F, rho2: F, beta1: F, beta2: F, h: F)
    ensures LorenzAttractor(ops, x, xPrime, y, z1, sigma, rho1, beta1, h).x
         == LorenzAttractor(ops, x, xPrime, y, z2, sigma, rho2, beta2, h).x
  {
  }

  /** The new y depends on neither sigma nor beta. */
  lemma NewYIgnoresSigmaBeta<F>(ops: Ops<F>, x: F, xPrime: Option<F>, y: F, z: F,
                                sigma1: F, sigma2: F, rho: F, beta1: F, beta2: F, h: F)
    ensures LorenzAttractor(ops, x, xPrime, y, z, sigma1, rho, beta1, h).y
         == LorenzAttractor(ops, x, xPrime, y, z, sigma2, rho, beta2, h).y
  {
  }

  /** `send_request`: the one frame it puts on the wire. */
  function SendRequest(requestId: bv8): (f: Frame)
    ensures f.Binary? && |f.payload| == 1 && f.payload[0] == requestId
  {
    Binary([requestId])
  }

  /** A peer that tests for control code `id` recognises the request for `code` exactly when the codes agree. */
  lemma RequestRecognised(code: bv8, id: bv8)
    ensures IsRequest(SendRequest(code), id) <==> code == id
  {
    if IsRequest(SendRequest(code), id) {
      assert SendRequest(code).payload[0] == id;
    }
  }

  /**
   * `read_non_blocking`: a message is passed on, "would block" means no message, and any
   * other error aborts the session.
   */
  function ReadNonBlocking(r: ReadResult): (p: Result<Option<Frame>>)
    ensures r.Received? <==> p.Ok? && p.value.Some?
    ensures r.Received? ==> p.value.value == r.frame
    ensures r.WouldBlock? <==> p == Ok(None)
    ensures r.Failed? <==> p == Panic(ReadFailed)
  {
    match r
    case Received(f) => Ok(Some(f))
    case WouldBlock => Ok(None)
    case Failed => Panic(ReadFailed)
  }
}
