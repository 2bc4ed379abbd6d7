/** Primitive values shared by the agent engine: health status, planar
    locations, and the failure-compatible wrappers used for the error paths. */
module Types {

  /** A human's self-reported (or simulated) health. */
  datatype HumanStatus = Healthy | Sick

  /** A point in the simulation plane. */
  datatype Location = Location(x: real, y: real)

  datatype Option<+T> = None | Some(value: T)

  /** The caller-contract violations the engine raises. */
  datatype Error =
    | UsageError      // secondary cases queried while not sick
    | DataError       // duration or average proximity of an unterminated contact
    | ZeroDivision    // a real division whose divisor is zero

  datatype Result<+R> = Ok(value: R) | Err(error: Error)

  /** Euclidean distance, given the square-root function of the host
      platform: the distance is `sqrt` of the squared coordinate deltas. */
  function Distance(sqrt: real -> real, a: Location, b: Location): real
  {
    var dx := a.x - b.x;
    var dy := a.y - b.y;
    sqrt(dx * dx + dy * dy)
  }

  /** Both sides of a pair measure the same distance. */
  lemma DistanceSymmetric(sqrt: real -> real, a: Location, b: Location)
    ensures Distance(sqrt, a, b) == Distance(sqrt, b, a)
  {
  }

  /** The smallest key of a non-empty key set (Python's `min` over a dict). */
  function MinKey(keys: set<int>): (m: int)
    requires exists k :: k in keys
    ensures m in keys
    ensures forall k :: k in keys ==> m <= k
  {
    MinKeyExists(keys);
    var m :| m in keys && forall k :: k in keys ==> m <= k;
    m
  }

  lemma {:induction false} MinKeyExists(keys: set<int>)
    requires exists k :: k in keys
    ensures exists m :: m in keys && forall k :: k in keys ==> m <= k
    decreases |keys|
  {
    var x :| x in keys;
    var rest := keys - {x};
    if exists y :: y in rest {
      MinKeyExists(rest);
      var m :| m in rest && forall k :: k in rest ==> m <= k;
      var w := if x < m then x else m;
      assert w in keys;
      forall k | k in keys ensures w <= k { if k != x { assert k in rest; } }
    } else {
      forall k | k in keys ensures x <= k { assert k !in rest; }
    }
  }
}
