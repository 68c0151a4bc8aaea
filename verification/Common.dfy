/** Optional values, instants in nanoseconds from an arbitrary origin, and concatenation. */
module Common {

  datatype Option<+T> = None | Some(value: T)

  const SECOND: nat := 1_000_000_000

  /** The time since `earlier`, zero when that is still ahead. */
  function Since(now: nat, earlier: nat): nat { if now >= earlier then now - earlier else 0 }

  function Min(a: int, b: int): int { if a <= b then a else b }

  function Max(a: int, b: int): int { if a <= b then b else a }

  lemma ConcatAssociative<T>(a: seq<T>, b: seq<T>, c: seq<T>)
    ensures a + b + c == a + (b + c)
  {
  }

  lemma TailOfConcat<T>(a: seq<T>, b: seq<T>)
    requires a != []
    ensures a + b != [] && (a + b)[0] == a[0] && (a + b)[1..] == a[1..] + b
  {
  }
}
