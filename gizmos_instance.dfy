/**
 * The gizmo queue (`GizmosInstance.cs`): a growable array of elements, each a
 * colour, an array of points and a dashed flag, written front to back during a
 * frame and drawn front to back when a camera renders. The first submission of a
 * new frame starts again at the front; a full queue grows by 4096 fresh elements.
 *
 * `OnEnable` replaces the queue with 4096 fresh elements but keeps the index,
 * so after more than 8192 submissions in one frame a re-enabled queue is
 * too short even after growing once, and the next submission of that frame
 * throws; `Submit` returns that error.
 */
module GizmosInstance {
  import opened Wrappers
  import opened Host

  /** `DefaultQueueSize`. */
  const DefaultQueueSize: nat := 4096

  /** `Color.white`. */
  const White: Color := Color(One, One, One, One)

  /** The exceptions of the queue and the drawers: a write past the end of an array, a bad or missing argument. */
  datatype GizmoError = IndexOutOfRange | InvalidCast | NullReference

  /** A queued element (`Element.cs`). */
  class Element {
    var color: Color
    var points: array<Vec3>
    var dashed: bool

    /** The field initialisers: an empty points array, white, not dashed. */
    constructor ()
      ensures points.Length == 0 && color == White && !dashed
    {
      color := White;
      points := new Vec3[0];
      dashed := false;
    }
  }

  /**
   * The loop that grows a full queue: a new array 4096 longer whose tail holds fresh
   * elements, and whose front is the old queue, element for element.
   */
  method Grow(queue: array<Element?>) returns (bigger: array<Element?>)
    ensures fresh(bigger) && bigger.Length == queue.Length + DefaultQueueSize
    ensures forall i :: 0 <= i < queue.Length ==> bigger[i] == queue[i]
    ensures forall i :: queue.Length <= i < bigger.Length ==> bigger[i] != null && fresh(bigger[i])
    ensures forall i, j :: queue.Length <= i < j < bigger.Length ==> bigger[i] != bigger[j]
  {
    bigger := new Element?[queue.Length + DefaultQueueSize];
    var i := queue.Length;
    while i < bigger.Length
      invariant queue.Length <= i <= bigger.Length
      invariant forall k :: queue.Length <= k < i ==> bigger[k] != null && fresh(bigger[k])
      invariant forall j, k :: queue.Length <= j < k < i ==> bigger[j] != bigger[k]
    {
      bigger[i] := new Element();
      i := i + 1;
    }
    forall k | 0 <= k < queue.Length {
      bigger[k] := queue[k];
    }
  }

  /** The slots the draw loop of `OnRendered` draws, in order: those before the bound that pass the frustum test. */
  function Drawn(n: nat, frustumCull: bool, visible: nat -> bool): (r: seq<nat>)
    ensures forall k :: 0 <= k < |r| ==> r[k] < n && (!frustumCull || visible(r[k]))
    ensures forall j, k :: 0 <= j < k < |r| ==> r[j] < r[k]
    ensures forall e :: 0 <= e < n && (!frustumCull || visible(e)) ==> e in r
  {
    if n == 0 then []
    else
      var before := Drawn(n - 1, frustumCull, visible);
      var last := if !frustumCull || visible(n - 1) then [n - 1] else [];
      assert forall k :: 0 <= k < |before| ==> before[k] < n - 1;
      before + last
  }

  /** The `for` loop of `OnRendered`: stops at the index or at the end of the queue, whichever comes first. */
  method DrawLoop(queueIndex: int, length: nat, frustumCull: bool, visible: nat -> bool) returns (drawn: seq<nat>)
    requires queueIndex >= 0
    ensures drawn == Drawn(if queueIndex < length then queueIndex else length, frustumCull, visible)
  {
    drawn := [];
    var e := 0;
    while e < queueIndex
      invariant 0 <= e <= queueIndex && e <= length
      invariant drawn == Drawn(e, frustumCull, visible)
    {
      if length <= e {
        break;
      }
      if !frustumCull || visible(e) {
        drawn := drawn + [e];
      }
      e := e + 1;
    }
  }

  class GizmosInstance {
    /** `_queue`, `_queueIndex` and `_lastFrame`. */
    var queue: array<Element?>
    var queueIndex: int
    var lastFrame: int

    /** Every slot of the queue holds an element of its own. */
    predicate Filled()
      reads this, queue
    {
      (forall i :: 0 <= i < queue.Length ==> queue[i] != null)
      && (forall i, j :: 0 <= i < j < queue.Length ==> queue[i] != queue[j])
    }

    /** The index never passes the end of the queue. */
    predicate Valid()
      reads this, queue
    {
      Filled() && 0 <= queueIndex <= queue.Length
    }

    /** The elements in the queue. */
    ghost function Elements(): set<Element>
      reads this, queue
    {
      set i | 0 <= i < queue.Length && queue[i] != null :: queue[i]
    }

    /** The slot the next submission writes, at frame `frameCount`. */
    function WriteIndex(frameCount: int): int
      reads this
    {
      if lastFrame != frameCount then 0 else queueIndex
    }

    /** The field initialisers: a queue of 4096 empty slots, at index 0 of frame 0. */
    constructor ()
      ensures fresh(queue) && queue.Length == DefaultQueueSize && queueIndex == 0 && lastFrame == 0
    {
      queue := new Element?[DefaultQueueSize];
      queueIndex := 0;
      lastFrame := 0;
    }

    /** `OnEnable`: a queue of 4096 fresh elements; the index and frame are kept. */
    method OnEnable()
      modifies this
      ensures fresh(queue) && queue.Length == DefaultQueueSize && Filled()
      ensures forall i :: 0 <= i < queue.Length ==> fresh(queue[i])
      ensures queueIndex == old(queueIndex) && lastFrame == old(lastFrame)
    {
      var q := new Element?[DefaultQueueSize];
      var i := 0;
      while i < DefaultQueueSize
        invariant 0 <= i <= DefaultQueueSize
        invariant forall k :: 0 <= k < i ==> q[k] != null && fresh(q[k])
        invariant forall j, k :: 0 <= j < k < i ==> q[j] != q[k]
        invariant queueIndex == old(queueIndex) && lastFrame == old(lastFrame)
      {
        q[i] := new Element();
        i := i + 1;
      }
      queue := q;
    }

    /**
     * `Submit`: a new frame starts at slot 0; a full queue grows once by 4096 fresh elements
     * with the old ones in the same slots; then the slot at the index gets the colour
     * (white when none is given), the very points array passed in and the dashed flag, and
     * the index moves on by one. The write throws when the index is still past the end.
     */
    method Submit(points: array<Vec3>, color: Option<Color>, dashed: bool, frameCount: int) returns (r: Result<(), GizmoError>)
      requires Filled() && queueIndex >= 0
      modifies this, Elements()
      ensures Filled() && lastFrame == frameCount
      ensures old(WriteIndex(frameCount)) < old(queue.Length) ==> queue == old(queue)
      ensures old(WriteIndex(frameCount)) >= old(queue.Length) ==>
        fresh(queue) && queue.Length == old(queue.Length) + DefaultQueueSize
        && (forall i :: 0 <= i < old(queue.Length) ==> queue[i] == old(queue[i]))
        && (forall i :: old(queue.Length) <= i < queue.Length ==> fresh(queue[i]))
      ensures r.Err? <==> old(WriteIndex(frameCount)) >= queue.Length
      ensures r.Err? ==> queueIndex == old(WriteIndex(frameCount))
      ensures r.Ok? ==>
        queueIndex == old(WriteIndex(frameCount)) + 1
        && queue[old(WriteIndex(frameCount))].points == points
        && queue[old(WriteIndex(frameCount))].dashed == dashed
        && queue[old(WriteIndex(frameCount))].color == (if color.Some? then color.value else White)
      ensures forall i :: 0 <= i < old(queue.Length) && i != old(WriteIndex(frameCount)) ==>
        queue[i].points == old(queue[i].points) && queue[i].dashed == old(queue[i].dashed)
        && queue[i].color == old(queue[i].color)
    {
      if lastFrame != frameCount {
        lastFrame := frameCount;
        queueIndex := 0;
      }
      if queueIndex >= queue.Length {
        queue := Grow(queue);
      }
      if queueIndex >= queue.Length {
        return Err(IndexOutOfRange);
      }
      var slot := queue[queueIndex];
      slot.color := if color.Some? then color.value else White;
      slot.points := points;
      slot.dashed := dashed;
      queueIndex := queueIndex + 1;
      return Ok(());
    }

    /**
     * `OnRendered(camera)`: while disabled the index goes back to 0; for a camera that
     * should not render nothing is drawn, and otherwise the slots before both the index and
     * the end of the queue that pass the frustum test, in order.
     */
    method OnRendered(enabled: bool, shouldRender: bool, frustumCull: bool, visible: nat -> bool) returns (drawn: seq<nat>)
      requires queueIndex >= 0
      modifies this
      ensures queue == old(queue) && lastFrame == old(lastFrame)
      ensures queueIndex == if enabled then old(queueIndex) else 0
      ensures !shouldRender ==> drawn == []
      ensures shouldRender ==> drawn == Drawn(if queueIndex < queue.Length then queueIndex else queue.Length, frustumCull, visible)
      ensures forall k :: 0 <= k < |drawn| ==> drawn[k] < queueIndex && drawn[k] < queue.Length
    {
      if !enabled {
        queueIndex := 0;
      }
      if !shouldRender {
        return [];
      }
      drawn := DrawLoop(queueIndex, queue.Length, frustumCull, visible);
    }
  }
}
