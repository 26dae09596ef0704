/**
 What the materializer may fail with and what it asks of its surroundings
 (src/core/materialize.rs:157-245). Error messages are not modelled; the
 variants and their numeric payloads are.
 */
module Context {
  import opened Bytes
  import opened Descriptor

  datatype MatError =
    | InvalidDescriptor
    | OutputTooLarge(requested: nat, max: nat)
    | AllocTooLarge(requested: nat, max: nat)
    | DepthExceeded(depth: nat, max: nat)
    | BudgetExceeded
    | MissingObject(id: ChunkId)
    | MissingChunk(id: ChunkId)
    | RangeOutOfBounds
    | RansDecode
    | Sequence
    | Universe
    | BadResidual

  datatype Result<+T> = Ok(value: T) | Err(error: MatError) {
    predicate IsFailure() { Err? }
    function PropagateFailure<U>(): Result<U>
      requires Err?
    {
      Err(error)
    }
    function Extract(): T
      requires Ok?
    {
      value
    }
  }

  datatype Step = Pass | Reject(error: MatError) {
    predicate IsFailure() { Reject? }
    function PropagateFailure<U>(): Result<U>
      requires Reject?
    {
      Err(error)
    }
  }

  function Need(ok: bool, error: MatError): Step {
    if ok then Pass else Reject(error)
  }

  /**
   `DecoderContext`: object fetch, chunk-index lookup, entropy decoding and
   universe bytes, each an arbitrary function with an arbitrary failure.
   */
  datatype Context = Context(env: Env, fetchDescriptor: ChunkId -> Result<Representation>)

  /** Everything a descriptor is read with except the chunk index. */
  datatype Env = Env(
    fetchObject: ChunkId -> Result<bytes>,
    decodeRans: (bytes, bytes, u8, RansCodec, nat) -> Result<bytes>,
    universeBytes: (UniverseId, Seed, u64, nat) -> Result<bytes>)

  /**
   A run without a budget: what it produces or fails with, and the decode
   operations it has spent by then.
   */
  datatype Attempt = Good(data: bytes, cost: nat) | Bad(error: MatError, cost: nat) {
    /** The same run after `extra` earlier operations. */
    function After(extra: nat): Attempt {
      match this
      case Good(data, cost) => Good(data, extra + cost)
      case Bad(error, cost) => Bad(error, extra + cost)
    }
  }

  datatype Outcome = Done(left: nat) | Failed(error: MatError)

  /** The same run under a budget: it stops as soon as the budget cannot pay. */
  function Charge(a: Attempt, budget: nat): Outcome {
    if budget < a.cost then Failed(BudgetExceeded)
    else match a
      case Good(_, cost) => Done(budget - cost)
      case Bad(error, _) => Failed(error)
  }

  /** `spend` (src/core/materialize.rs:1758). */
  method Spend(n: nat, budget: nat) returns (r: Outcome)
    ensures r == Charge(Good([], n), budget)
  {
    if budget < n {
      return Failed(BudgetExceeded);
    }
    return Done(budget - n);
  }
}
