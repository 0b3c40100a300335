/** The signature pad: a two-state machine (idle / drawing) over the pad's
    current canvas sub-path and its last exported snapshot.

    The page keeps `isDrawing` and `signatureData` as globals; here they are
    the fields of an immutable `State`, and each handler is a pure transition.
    What the browser supplies at the moment of an event — the pad's on-screen
    rectangle and the image `toDataURL` would export — is passed in with the
    event, since both are outside the script. */
module Capture {
  import opened Options
  import opened Sequences

  /** An exported raster image of the pad (a data URL). Its contents come
      from the canvas and are not interpreted by the model. */
  datatype Token = Token(dataUrl: string)

  /** A point in pad-local coordinates. */
  datatype Point = Point(x: int, y: int)

  /** The top-left corner of the pad's bounding rectangle, in viewport
      coordinates, as read when the event is handled. */
  datatype Rect = Rect(left: int, top: int)

  /** `isDrawing`, the canvas's current sub-path (`beginPath` / `moveTo` /
      `lineTo`), and `signatureData`. */
  datatype State = State(drawing: bool, path: seq<Point>, snapshot: Option<Token>)

  /** The state when the page has loaded. */
  const Initial: State := State(false, [], None)

  /** Viewport coordinates translated into pad-local coordinates. */
  function ToLocal(clientX: int, clientY: int, rect: Rect): (p: Point)
    ensures p.x + rect.left == clientX && p.y + rect.top == clientY
  {
    Point(clientX - rect.left, clientY - rect.top)
  }

  /** Pointer down: enter the drawing state and open a new sub-path at `p`.
      The snapshot is untouched until the stroke ends. */
  function Start(s: State, p: Point): (r: State)
    ensures r.drawing && r.path == [p] && r.snapshot == s.snapshot
  {
    State(true, [p], s.snapshot)
  }

  /** Pointer move: ignored unless drawing; otherwise extends the sub-path. */
  function Move(s: State, p: Point): (r: State)
    ensures !s.drawing ==> r == s
    ensures s.drawing ==> r.drawing && r.path == s.path + [p] && r.snapshot == s.snapshot
  {
    if !s.drawing then s else s.(path := s.path + [p])
  }

  /** Pointer up / out / touch end: leaves the drawing state; if a stroke was
      in progress, the pad's current image becomes the snapshot. */
  function Stop(s: State, image: Token): (r: State)
    ensures !r.drawing && r.path == s.path
    ensures s.drawing ==> r.snapshot == Some(image)
    ensures !s.drawing ==> r == s
  {
    if s.drawing then State(false, s.path, Some(image)) else s
  }

  /** The "clear" button: wipes the pixels and forgets the snapshot. Neither
      the drawing flag nor the canvas sub-path is reset (`clearRect` does not
      touch the path). */
  function Clear(s: State): (r: State)
    ensures r.snapshot == None
    ensures r.drawing == s.drawing && r.path == s.path
  {
    s.(snapshot := None)
  }

  /** One entry of a touch list. */
  datatype Touch = Touch(clientX: int, clientY: int)

  /** The mouse events the pad listens to. */
  datatype MouseEvent =
    | MouseDown(clientX: int, clientY: int)
    | MouseMove(clientX: int, clientY: int)
    | MouseUp
    | MouseOut

  /** Everything that reaches the pad: its own mouse and touch listeners,
      and the clear button. */
  datatype Event =
    | Mouse(m: MouseEvent)
    | TouchStart(touches: seq<Touch>)
    | TouchMove(touches: seq<Touch>)
    | TouchEnd
    | ClearSignature

  /** The touch handler's re-dispatch: a touch start becomes a mouse down and
      a touch move a mouse move, at the first touch's coordinates. With an
      empty touch list `touches[0]` is `undefined`, reading its `clientX`
      throws, and nothing is dispatched. */
  function TouchToMouse(isStart: bool, touches: seq<Touch>): (r: Option<MouseEvent>)
    ensures |touches| == 0 <==> r.None?
    ensures r.Some? && isStart ==> r.value == MouseDown(touches[0].clientX, touches[0].clientY)
    ensures r.Some? && !isStart ==> r.value == MouseMove(touches[0].clientX, touches[0].clientY)
  {
    if |touches| == 0 then None
    else if isStart then Some(MouseDown(touches[0].clientX, touches[0].clientY))
    else Some(MouseMove(touches[0].clientX, touches[0].clientY))
  }

  /** The mouse listeners: down starts, move draws, up and out both stop.
      Afterwards the pad is drawing exactly when the event was a down, or a
      move during a stroke; the snapshot changes only when up or out ends a
      stroke. */
  function OnMouse(s: State, m: MouseEvent, rect: Rect, image: Token): (r: State)
    ensures r.drawing <==> m.MouseDown? || (s.drawing && m.MouseMove?)
    ensures r.snapshot == (if s.drawing && (m.MouseUp? || m.MouseOut?) then Some(image) else s.snapshot)
  {
    match m
    case MouseDown(x, y) => Start(s, ToLocal(x, y, rect))
    case MouseMove(x, y) => Move(s, ToLocal(x, y, rect))
    case MouseUp => Stop(s, image)
    case MouseOut => Stop(s, image)
  }

  /** What the browser supplies with an event: the pad's rectangle (read
      afresh by every handler) and the image `toDataURL` would return at
      that moment. */
  datatype Input = Input(event: Event, rect: Rect, image: Token)

  /** The events that end a stroke. */
  predicate IsStopEvent(e: Event) {
    e == Mouse(MouseUp) || e == Mouse(MouseOut) || e == TouchEnd
  }

  /** The events that begin a stroke: a mouse down, or a touch start with
      at least one touch. */
  predicate IsDown(e: Event) {
    (e.Mouse? && e.m.MouseDown?) || (e.TouchStart? && |e.touches| > 0)
  }

  /** The events that extend a stroke: a mouse move, or a touch move with
      at least one touch. */
  predicate IsMove(e: Event) {
    (e.Mouse? && e.m.MouseMove?) || (e.TouchMove? && |e.touches| > 0)
  }

  /** The pad-local position a down or move reports: the mouse's, or the
      first touch's. */
  function EventPoint(i: Input): Point
    requires IsDown(i.event) || IsMove(i.event)
  {
    if i.event.Mouse? then ToLocal(i.event.m.clientX, i.event.m.clientY, i.rect)
    else ToLocal(i.event.touches[0].clientX, i.event.touches[0].clientY, i.rect)
  }

  /** Handling `i` in state `s` ends a stroke and so stores a new snapshot. */
  predicate Commits(s: State, i: Input) {
    s.drawing && IsStopEvent(i.event)
  }

  /** Handles one event. Only two things touch the snapshot: an event that
      ends a stroke stores its image, and the clear button forgets it. A
      down, from mouse or touch, always leaves the pad drawing; a stop
      always leaves it idle. */
  function Step(s: State, i: Input): (r: State)
    ensures r.snapshot == (if Commits(s, i) then Some(i.image)
                           else if i.event.ClearSignature? then None
                           else s.snapshot)
    ensures IsDown(i.event) ==> r.drawing
    ensures IsStopEvent(i.event) ==> !r.drawing
  {
    match i.event
    case Mouse(m) => OnMouse(s, m, i.rect, i.image)
    case TouchStart(ts) =>
      (match TouchToMouse(true, ts)
       case None => s
       case Some(m) => OnMouse(s, m, i.rect, i.image))
    case TouchMove(ts) =>
      (match TouchToMouse(false, ts)
       case None => s
       case Some(m) => OnMouse(s, m, i.rect, i.image))
    case TouchEnd => Stop(s, i.image)
    case ClearSignature => Clear(s)
  }

  /** No event of the run stops a stroke or clears the pad. */
  predicate LeavesSnapshot(inputs: seq<Input>) {
    forall k :: 0 <= k < |inputs| ==> !IsStopEvent(inputs[k].event) && !inputs[k].event.ClearSignature?
  }

  /** Handles a sequence of events in dispatch order. A run in which no
      event stops a stroke or clears the pad leaves the snapshot as it was. */
  function Run(s: State, inputs: seq<Input>): (r: State)
    ensures LeavesSnapshot(inputs) ==> r.snapshot == s.snapshot
    decreases |inputs|
  {
    if |inputs| == 0 then s else Run(Step(s, inputs[0]), inputs[1..])
  }

  /** No event of the run ends a stroke. */
  ghost predicate NoCommit(s: State, inputs: seq<Input>)
    decreases |inputs|
  {
    |inputs| == 0 || (!Commits(s, inputs[0]) && NoCommit(Step(s, inputs[0]), inputs[1..]))
  }

  /** A pointer move while idle changes nothing, whatever its source. */
  lemma IdleMoveIsNoOp(s: State, i: Input)
    requires !s.drawing
    requires (i.event.Mouse? && i.event.m.MouseMove?) || i.event.TouchMove?
    ensures Step(s, i) == s
  {
  }

  /** A pointer down always enters the drawing state, with a fresh sub-path
      at the pad-local position, and keeps the snapshot. */
  lemma DownStartsStroke(s: State, x: int, y: int, rect: Rect, image: Token)
    ensures var r := Step(s, Input(Mouse(MouseDown(x, y)), rect, image));
            r.drawing && r.path == [Point(x - rect.left, y - rect.top)] && r.snapshot == s.snapshot
  {
  }

  /** A touch start or touch move behaves exactly as a mouse down or mouse
      move at the first touch's coordinates. */
  lemma TouchActsAsMouse(s: State, ts: seq<Touch>, rect: Rect, image: Token)
    requires |ts| > 0
    ensures Step(s, Input(TouchStart(ts), rect, image))
         == Step(s, Input(Mouse(MouseDown(ts[0].clientX, ts[0].clientY)), rect, image))
    ensures Step(s, Input(TouchMove(ts), rect, image))
         == Step(s, Input(Mouse(MouseMove(ts[0].clientX, ts[0].clientY)), rect, image))
  {
  }

  /** Mouse up, mouse out and touch end are the same transition: a pointer
      leaving the pad closes the stroke just as lifting it does. Afterwards
      the machine is idle, the snapshot is replaced only if a stroke was in
      progress, and a stop while idle changes nothing. */
  lemma StopEventsAgree(s: State, e: Event, rect: Rect, image: Token)
    requires IsStopEvent(e)
    ensures Step(s, Input(e, rect, image)) == Step(s, Input(Mouse(MouseUp), rect, image))
    ensures !Step(s, Input(e, rect, image)).drawing
    ensures Step(s, Input(e, rect, image)).snapshot
         == (if s.drawing then Some(image) else s.snapshot)
    ensures !s.drawing ==> Step(s, Input(e, rect, image)) == s
  {
  }

  /** A touch event with no touches leaves the pad as it was. */
  lemma EmptyTouchIsNoOp(s: State, isStart: bool, rect: Rect, image: Token)
    ensures Step(s, Input(if isStart then TouchStart([]) else TouchMove([]), rect, image)) == s
  {
  }

  /** The clear button forgets the snapshot and leaves the drawing flag as
      it was. */
  lemma ClearForgetsSnapshot(s: State, rect: Rect, image: Token)
    ensures Step(s, Input(ClearSignature, rect, image)).snapshot == None
    ensures Step(s, Input(ClearSignature, rect, image)).drawing == s.drawing
  {
  }

  /** Every event of the run is a pointer move: a mouse move, or a touch
      move with at least one touch. */
  predicate AllMoves(moves: seq<Input>) {
    forall k :: 0 <= k < |moves| ==> IsMove(moves[k].event)
  }

  /** Pad-local positions of a sequence of moves. */
  function MovePoints(moves: seq<Input>): (ps: seq<Point>)
    requires AllMoves(moves)
    ensures |ps| == |moves|
    ensures forall k :: 0 <= k < |moves| ==> ps[k] == EventPoint(moves[k])
  {
    if |moves| == 0 then [] else [EventPoint(moves[0])] + MovePoints(moves[1..])
  }

  /** While drawing, one move appends its pad-local position. */
  lemma MoveExtendsPath(s: State, i: Input)
    requires s.drawing
    requires IsMove(i.event)
    ensures Step(s, i) == s.(path := s.path + [EventPoint(i)])
  {
  }

  /** While drawing, a run of moves — mouse or touch, in any mix — appends
      their pad-local positions to the sub-path, each translated by the
      rectangle read for that move, and changes nothing else. */
  lemma {:induction false} MovesExtendPath(s: State, moves: seq<Input>)
    requires s.drawing
    requires AllMoves(moves)
    ensures Run(s, moves) == s.(path := s.path + MovePoints(moves))
    decreases |moves|
  {
    if |moves| == 0 {
      assert s.path + [] == s.path;
    } else {
      var p := EventPoint(moves[0]);
      MoveExtendsPath(s, moves[0]);
      var s' := s.(path := s.path + [p]);
      assert Run(s, moves) == Run(s', moves[1..]);
      MovesExtendPath(s', moves[1..]);
      var rest := MovePoints(moves[1..]);
      assert MovePoints(moves) == [p] + rest;
      AppendAssoc(s.path, [p], rest);
    }
  }

  /** A complete stroke — a down, any number of moves, then a stop, from
      mouse or touch — leaves the pad idle, with the stroke's pad-local
      points as the sub-path and the image exported at the stop as the
      snapshot, from any state. */
  lemma {:induction false} StrokeCommits(s: State, down: Input, moves: seq<Input>, stop: Input)
    requires IsDown(down.event)
    requires AllMoves(moves)
    requires IsStopEvent(stop.event)
    ensures var r := Run(s, [down] + moves + [stop]);
            && !r.drawing
            && r.path == [EventPoint(down)] + MovePoints(moves)
            && r.snapshot == Some(stop.image)
  {
    RunAppend(s, [down] + moves, [stop]);
    RunAppend(s, [down], moves);
    var s1 := Step(s, down);
    assert Run(s, [down]) == s1 by { assert [down][1..] == []; }
    assert s1 == State(true, [EventPoint(down)], s.snapshot);
    MovesExtendPath(s1, moves);
    var s2 := Run(s1, moves);
    assert Run(s2, [stop]) == Step(s2, stop) by { assert [stop][1..] == []; }
  }

  /** A tap — a down and a stop with no movement between — already stores
      the exported image, though no line was drawn: `moveTo` alone marks
      nothing on the canvas. */
  lemma TapStoresImage(s: State, down: Input, stop: Input)
    requires IsDown(down.event)
    requires IsStopEvent(stop.event)
    ensures Run(s, [down, stop]).snapshot == Some(stop.image)
    ensures Run(s, [down, stop]).path == [EventPoint(down)]
  {
    StrokeCommits(s, down, [], stop);
    assert [down] + [] + [stop] == [down, stop];
  }

  /** Running two event sequences one after the other is running their
      concatenation. */
  lemma {:induction false} RunAppend(s: State, a: seq<Input>, b: seq<Input>)
    ensures Run(s, a + b) == Run(Run(s, a), b)
    decreases |a|
  {
    if |a| == 0 {
      assert a + b == b;
    } else {
      assert (a + b)[0] == a[0];
      assert (a + b)[1..] == a[1..] + b;
      RunAppend(Step(s, a[0]), a[1..], b);
    }
  }

  /** Once cleared, the pad has no snapshot until some later event ends a
      stroke: a run with no stroke-ending event keeps the snapshot absent. */
  lemma {:induction false} NoSnapshotWithoutCommit(s: State, inputs: seq<Input>)
    requires s.snapshot == None
    requires NoCommit(s, inputs)
    ensures Run(s, inputs).snapshot == None
    decreases |inputs|
  {
    if |inputs| > 0 {
      var s' := Step(s, inputs[0]);
      assert s'.snapshot == None by {
        assert !Commits(s, inputs[0]);
      }
      NoSnapshotWithoutCommit(s', inputs[1..]);
    }
  }

  /** Conversely, an event that ends a stroke always leaves a snapshot:
      the one exported with it. */
  lemma CommitStoresImage(s: State, i: Input)
    requires Commits(s, i)
    ensures Step(s, i).snapshot == Some(i.image)
  {
  }
}
