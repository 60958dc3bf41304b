/**
 * `Vector2Serializable` and `Vector3Serializable`: plain records of a vector's
 * components, built from a vector and turned back into one.
 */
module VectorSerializable {
  import opened Host

  datatype Vector2Serializable = Vector2Serializable(x: Float, y: Float)

  datatype Vector3Serializable = Vector3Serializable(x: Float, y: Float, z: Float)

  /** `new Vector2Serializable()`: the fields keep their default 0. */
  const NewVector2Serializable: Vector2Serializable := Vector2Serializable(Zero, Zero)

  /** `new Vector3Serializable()`. */
  const NewVector3Serializable: Vector3Serializable := Vector3Serializable(Zero, Zero, Zero)

  /** `new Vector2Serializable(v)`. */
  function FromVector2(v: Vec2): Vector2Serializable
  {
    Vector2Serializable(v.x, v.y)
  }

  /** `GetVector2()`. */
  function GetVector2(s: Vector2Serializable): Vec2
  {
    Vec2(s.x, s.y)
  }

  /** `new Vector3Serializable(v)`. */
  function FromVector3(v: Vec3): Vector3Serializable
  {
    Vector3Serializable(v.x, v.y, v.z)
  }

  /** `GetVector3()`. */
  function GetVector3(s: Vector3Serializable): Vec3
  {
    Vec3(s.x, s.y, s.z)
  }

  /** A vector wrapped and unwrapped is the same vector. */
  lemma Vector2RoundTrip(v: Vec2)
    ensures GetVector2(FromVector2(v)) == v
  {
  }

  /** A record unwrapped and wrapped again holds the same components. */
  lemma Vector2WrapRoundTrip(s: Vector2Serializable)
    ensures FromVector2(GetVector2(s)) == s
  {
  }

  lemma Vector3RoundTrip(v: Vec3)
    ensures GetVector3(FromVector3(v)) == v
  {
  }

  lemma Vector3WrapRoundTrip(s: Vector3Serializable)
    ensures FromVector3(GetVector3(s)) == s
  {
  }

  /** The default records stand for the zero vectors. */
  lemma DefaultsAreZero()
    ensures GetVector2(NewVector2Serializable) == Vec2(Zero, Zero)
    ensures GetVector3(NewVector3Serializable) == ZeroVec3
  {
  }
}
