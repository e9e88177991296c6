/** Package `pool`: a keyed map with an optional size cap, and the error codes
    its operations report (internal/pkg/pool/pool.go, errors.go). */
module Pool {

  // ---------------------------------------------------------------------
  // errors.go

  /** Go's `type PoolError int`. */
  newtype PoolError = int

  const DUPLICATE_KEY: PoolError := 0
  const MAX_CAPACITY: PoolError := 1
  const KEY_NOT_FOUND: PoolError := 2

  const UNSPECIFIED_MESSAGE := "Unspecified Error"

  /** The three error codes the pool itself returns. */
  predicate IsNamed(e: PoolError) {
    e == DUPLICATE_KEY || e == MAX_CAPACITY || e == KEY_NOT_FOUND
  }

  /** `PoolError.String`: a message per named code, a fixed one for any other value. */
  function String(e: PoolError): (s: string)
    ensures |s| > 0
    ensures !IsNamed(e) <==> s == UNSPECIFIED_MESSAGE
  {
    if e == DUPLICATE_KEY then "Key already exists"
    else if e == MAX_CAPACITY then "The pool is full"
    else if e == KEY_NOT_FOUND then "Key does not exist in the pool"
    else UNSPECIFIED_MESSAGE
  }

  /** `PoolError.Error`, the `error` interface: delegates to `String`. */
  function Error(e: PoolError): (s: string)
    ensures s == String(e)
  {
    String(e)
  }

  /** The message identifies the code: two values have the same message exactly
      when they are equal or both fall outside the named codes. */
  lemma StringIdentifiesCode(a: PoolError, b: PoolError)
    ensures String(a) == String(b) <==> a == b || (!IsNamed(a) && !IsNamed(b))
  {
    if IsNamed(a) && IsNamed(b) && a != b {
      assert String(a)[0] != String(b)[0] || String(a)[4] != String(b)[4];
    }
  }

  // ---------------------------------------------------------------------
  // pool.go

  /** The `error` a pool operation returns: nil, or one of the codes above. */
  datatype Outcome = Ok | Err(code: PoolError)

  /** `Pool[K, V]`. `values` is the Go map; a negative `max` means unbounded. */
  class Pool<K(==), V(0)> {
    var values: map<K, V>
    const max: int

    /** Store is the only inserting operation and it checks the cap, so a
        bounded pool never holds more than `max` entries. */
    ghost predicate Valid()
      reads this
    {
      max >= 0 ==> |values| <= max
    }

    /** `NewPool(max)`. */
    constructor (max: int)
      ensures Valid()
      ensures this.max == max && values == map[]
    {
      this.max := max;
      values := map[];
    }

    /** `Delete`: removes `key`; a no-op when it is absent. */
    method Delete(key: K)
      requires Valid()
      modifies this`values
      ensures Valid()
      ensures values == old(values) - {key}
      ensures key !in old(values) ==> values == old(values)
    {
      values := values - {key};
    }

    /** `DeleteAll`: empties the map; the argument is not used. */
    method DeleteAll(key: K)
      requires Valid()
      modifies this`values
      ensures Valid()
      ensures values == map[]
    {
      values := map[];
    }

    /** `Store`: the duplicate check comes first, then the cap; on error
        nothing changes. */
    method Store(key: K, value: V) returns (err: Outcome)
      requires Valid()
      modifies this`values
      ensures Valid()
      ensures key in old(values) ==> err == Err(DUPLICATE_KEY) && values == old(values)
      ensures key !in old(values) && max >= 0 && |old(values)| >= max ==>
                err == Err(MAX_CAPACITY) && values == old(values)
      ensures err == Ok <==> key !in old(values) && (max < 0 || |old(values)| < max)
      ensures err == Ok ==> values == old(values)[key := value] && |values| == |old(values)| + 1
    {
      if key in values {
        return Err(DUPLICATE_KEY);
      }
      if |values| >= max && max >= 0 {
        return Err(MAX_CAPACITY);
      }
      values := values[key := value];
      err := Ok;
    }

    /** `Update`: replaces the value of a present key, else KEY_NOT_FOUND and no change. */
    method Update(key: K, value: V) returns (err: Outcome)
      requires Valid()
      modifies this`values
      ensures Valid()
      ensures err == Ok <==> key in old(values)
      ensures err != Ok ==> err == Err(KEY_NOT_FOUND) && values == old(values)
      ensures err == Ok ==> values == old(values)[key := value] && |values| == |old(values)|
    {
      if key !in values {
        return Err(KEY_NOT_FOUND);
      }
      values := values[key := value];
      err := Ok;
    }

    /** `Get`: the stored value, or V's zero value with KEY_NOT_FOUND. */
    method Get(key: K) returns (v: V, err: Outcome)
      ensures err == Ok <==> key in values
      ensures err == Ok ==> v == values[key]
      ensures err != Ok ==> err == Err(KEY_NOT_FOUND)
    {
      if key !in values {
        var zero: V := *;
        return zero, Err(KEY_NOT_FOUND);
      }
      return values[key], Ok;
    }

    /** `Exists`: holds exactly when `key` is present, the condition on which Get succeeds. */
    method Exists(key: K) returns (ok: bool)
      ensures ok <==> key in values
    {
      ok := key in values;
    }

    /** `Size`: the number of entries, never above `max` when bounded. */
    method Size() returns (n: int)
      requires Valid()
      ensures n == |values|
      ensures max >= 0 ==> n <= max
    {
      n := |values|;
    }
  }
}
