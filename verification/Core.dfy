/** The values every index shares: ids, embeddings, metrics, errors and the
    order in which hits are returned. */
module Core {

  datatype Option<+T> = None | Some(value: T)

  datatype Result<+T> = Ok(value: T) | Err(error: IndexError) {
    predicate IsFailure() { Err? }

    function PropagateFailure<U>(): Result<U>
      requires Err?
    {
      Err(error)
    }

    function Extract(): T
      requires Ok?
    {
      value
    }
  }

  // A UUID, read as the 128-bit number its big-endian bytes spell; only the
  // order of ids matters.
  type VectorId = nat

  newtype Byte = x: int | 0 <= x < 256

  // One IEEE single, as the four bytes it occupies in memory.
  datatype F32 = F32(b0: Byte, b1: Byte, b2: Byte, b3: Byte) {
    // All exponent bits set means an infinity or a NaN.
    predicate IsFinite() { !(b3 % 128 == 127 && b2 >= 128) }
  }

  // The eight exponent bits are the low seven of the last byte and the top one
  // of the byte before it; the sign plays no part.
  lemma FiniteMeans(x: F32)
    ensures x.IsFinite() <==> (x.b3 as int % 128) * 2 + x.b2 as int / 128 != 255
  {}

  type Embedding = seq<F32>

  // Scores are compared only, never combined: any total order would do.
  type Score = real

  datatype Metric = Cosine | DotProduct | Euclidean

  type Scorer = (Embedding, Embedding) -> Score

  datatype IndexError =
    | DimensionMismatch(expected: nat, got: nat)
    | DuplicateId(id: VectorId)
    | UnsupportedMetric(metric: Metric)
    | EmptyEmbedding
    | NonFiniteComponent
    | Backend
    | Corruption
    | FormatMismatch

  predicate WellFormedEmbedding(e: Embedding) {
    e != [] && forall x :: x in e ==> x.IsFinite()
  }

  // Embedding::new
  function NewEmbedding(values: seq<F32>): Result<Embedding> {
    if values == [] then Err(EmptyEmbedding)
    else if exists x :: x in values && !x.IsFinite() then Err(NonFiniteComponent)
    else Ok(values)
  }

  predicate AdmitAll(id: VectorId) { true }

  datatype Hit = Hit(id: VectorId, score: Score)

  // The order of every result list: higher score first, then lower id.
  predicate Before(a: Hit, b: Hit) {
    a.score > b.score || (a.score == b.score && a.id < b.id)
  }

  function Min(a: nat, b: nat): nat { if a < b then a else b }

  function Max(a: nat, b: nat): nat { if a < b then b else a }

  function Take<T>(s: seq<T>, k: nat): seq<T> { s[..Min(k, |s|)] }
}
