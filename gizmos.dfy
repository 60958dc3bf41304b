/**
 * The gizmo drawing front end (`Gizmos.cs`, a static class, here one object):
 * the enabled switch, the buffer size setting and the shared point buffer a
 * drawer writes into, and the calls that submit points to the queue. `Draw`
 * submits a fresh copy of the points the drawer wrote; `Lines` submits the
 * caller's own array.
 */
module Gizmos {
  import opened Wrappers
  import opened Host
  import opened GizmosInstance
  import LineDrawer

  /** The drawers `Drawer.Get<T>()` can find; only the line drawer is part of this model. */
  datatype DrawerKind = LineKind

  /** The initial `BufferSize`. */
  const DefaultBufferSize: nat := 4096

  class Gizmos {
    /** `Enabled` and `BufferSize`. */
    var enabled: bool
    var bufferSize: int
    /** `_buffer`, allocated once from the initial `BufferSize`. */
    const buffer: array<Vec3>
    /** The queue `GizmosInstance.GetOrCreate()` finds or creates. */
    const instance: GizmosInstance

    /** The buffer holds a line, and the queue is filled with its index at or past the front. */
    predicate Valid()
      reads this, instance, instance.queue
    {
      buffer.Length >= 2 && instance.Filled() && instance.queueIndex >= 0
    }

    constructor (queue: GizmosInstance)
      ensures enabled && bufferSize == DefaultBufferSize && instance == queue
      ensures fresh(buffer) && buffer.Length == DefaultBufferSize
    {
      enabled := true;
      bufferSize := DefaultBufferSize;
      buffer := new Vec3[DefaultBufferSize];
      instance := queue;
    }

    /** Setting `BufferSize` records the number; the buffer keeps its length and contents. */
    method SetBufferSize(size: int)
      modifies this
      ensures bufferSize == size && enabled == old(enabled)
      ensures unchanged(buffer)
    {
      bufferSize := size;
    }

    /** `Enabled = value`. */
    method SetEnabled(value: bool)
      modifies this
      ensures enabled == value && bufferSize == old(bufferSize)
    {
      enabled := value;
    }

    /**
     * `Draw<T>`: disabled, or with no drawer for the type, nothing is submitted. Otherwise
     * the drawer writes its points to the front of the buffer and a fresh array holding
     * exactly that many points from the buffer is submitted, and the error of the drawer
     * or of the queue is thrown.
     */
    method Draw(drawer: Option<DrawerKind>, color: Option<Color>, dashed: bool, args: seq<LineDrawer.Arg>, frameCount: int)
      returns (r: Result<(), GizmoError>, submitted: Option<array<Vec3>>)
      requires Valid()
      modifies buffer, instance, instance.Elements()
      ensures Valid()
      ensures !enabled || drawer.None? ==>
        r.Ok? && submitted.None? && unchanged(buffer) && unchanged(instance)
      ensures enabled && drawer.Some? ==> buffer[2..] == old(buffer[2..])
      ensures enabled && drawer.Some? && LineDrawer.LinePoints(args).Err? ==>
        r == Err(LineDrawer.LinePoints(args).error) && submitted.None? && unchanged(instance)
      ensures enabled && drawer.Some? && LineDrawer.LinePoints(args).Ok? ==>
        submitted.Some? && fresh(submitted.value) && submitted.value[..] == LineDrawer.LinePoints(args).value
        && buffer[..2] == LineDrawer.LinePoints(args).value
        && (r.Ok? <==> old(instance.WriteIndex(frameCount)) < instance.queue.Length)
        && (r.Ok? ==> instance.queue[old(instance.WriteIndex(frameCount))].points == submitted.value)
    {
      if !enabled || drawer.None? {
        return Ok(()), None;
      }
      var points := LineDrawer.Draw(buffer, args);
      if points.Err? {
        return Err(points.error), None;
      }
      var copy := new Vec3[points.value];
      forall k | 0 <= k < points.value {
        copy[k] := buffer[k];
      }
      submitted := Some(copy);
      r := instance.Submit(copy, color, dashed, frameCount);
    }

    /** `Line`: `Draw<LineDrawer>` with the two end points. */
    method Line(a: Vec3, b: Vec3, color: Option<Color>, dashed: bool, frameCount: int)
      returns (r: Result<(), GizmoError>, submitted: Option<array<Vec3>>)
      requires Valid()
      modifies buffer, instance, instance.Elements()
      ensures Valid()
      ensures !enabled ==> r.Ok? && submitted.None? && unchanged(instance)
      ensures enabled ==>
        submitted.Some? && fresh(submitted.value) && submitted.value[..] == [a, b]
        && (r.Ok? <==> old(instance.WriteIndex(frameCount)) < instance.queue.Length)
        && (r.Ok? ==> instance.queue[old(instance.WriteIndex(frameCount))].points == submitted.value)
    {
      r, submitted := Draw(Some(LineKind), color, dashed, [LineDrawer.VecArg(a), LineDrawer.VecArg(b)], frameCount);
    }

    /** `Lines`: disabled nothing is submitted; otherwise the caller's array itself, not a copy. */
    method Lines(lines: array<Vec3>, color: Option<Color>, dashed: bool, frameCount: int) returns (r: Result<(), GizmoError>)
      requires Valid()
      modifies instance, instance.Elements()
      ensures Valid()
      ensures !enabled ==> r.Ok? && unchanged(instance)
      ensures enabled ==> (r.Ok? <==> old(instance.WriteIndex(frameCount)) < instance.queue.Length)
      ensures enabled && r.Ok? ==> instance.queue[old(instance.WriteIndex(frameCount))].points == lines
    {
      if !enabled {
        return Ok(());
      }
      r := instance.Submit(lines, color, dashed, frameCount);
    }
  }
}
