/**
 * The line drawer (`LineDrawer.cs`): writes the two end points of a line, given
 * as boxed arguments, to the front of the shared point buffer and reports that
 * it wrote two points.
 */
module LineDrawer {
  import opened Wrappers
  import opened Host
  import opened GizmosInstance

  /** A boxed drawer argument: a `Vector3`, `null`, or a value of some other type. */
  datatype Arg = VecArg(v: Vec3) | NullArg | OtherArg

  /** The cast `(Vector3)arg`: unboxing null throws a null reference, any other type an invalid cast. */
  function Unbox(a: Arg): (r: Result<Vec3, GizmoError>)
    ensures r.Ok? <==> a.VecArg?
    ensures a.VecArg? ==> r.value == a.v
  {
    match a
    case VecArg(v) => Ok(v)
    case NullArg => Err(NullReference)
    case OtherArg => Err(InvalidCast)
  }

  /** The points a line of these arguments has: the first two arguments unboxed, or the first error. */
  function LinePoints(args: seq<Arg>): (r: Result<seq<Vec3>, GizmoError>)
    ensures r.Ok? <==> |args| >= 2 && args[0].VecArg? && args[1].VecArg?
    ensures r.Ok? ==> r.value == [args[0].v, args[1].v]
  {
    if |args| == 0 then Err(IndexOutOfRange)
    else if Unbox(args[0]).Err? then Err(Unbox(args[0]).error)
    else if |args| == 1 then Err(IndexOutOfRange)
    else if Unbox(args[1]).Err? then Err(Unbox(args[1]).error)
    else Ok([Unbox(args[0]).value, Unbox(args[1]).value])
  }

  /**
   * `Draw`: the first argument goes to slot 0 and the second to slot 1, each written as
   * soon as it is read, and 2 is returned; every other slot is left as it was. A
   * missing or badly typed argument throws, after the slots written before it.
   */
  method Draw(buffer: array<Vec3>, args: seq<Arg>) returns (r: Result<nat, GizmoError>)
    requires buffer.Length >= 2
    modifies buffer
    ensures r.Ok? <==> LinePoints(args).Ok?
    ensures r.Ok? ==> r.value == 2 && buffer[..2] == LinePoints(args).value
    ensures r.Err? ==> r.error == LinePoints(args).error
    ensures buffer[2..] == old(buffer[2..])
    ensures |args| == 0 || !args[0].VecArg? ==> buffer[0] == old(buffer[0])
    ensures |args| >= 1 && args[0].VecArg? ==> buffer[0] == args[0].v
    ensures |args| < 2 || !args[0].VecArg? || !args[1].VecArg? ==> buffer[1] == old(buffer[1])
  {
    if |args| == 0 {
      return Err(IndexOutOfRange);
    }
    var first := Unbox(args[0]);
    if first.Err? {
      return Err(first.error);
    }
    buffer[0] := first.value;
    if |args| == 1 {
      return Err(IndexOutOfRange);
    }
    var second := Unbox(args[1]);
    if second.Err? {
      return Err(second.error);
    }
    buffer[1] := second.value;
    return Ok(2);
  }
}
