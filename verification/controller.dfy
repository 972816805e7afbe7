/**
  The keyboard controller of the demo window (`MainWindow::keyPressEvent` in main.cpp). The
  window holds two lines and an index saying which one the keys act on. Space flips the
  index; eight letter keys send one fixed command to the active line; every other key is
  ignored, because the `switch` has no `default` branch.

  The window is generic in the line type `L`: the two lines are reached through the same
  `Line` interface, and the effect of a command on a line is passed in as `exec`, the
  dispatch of the interface call. `PoseWindow` instantiates it with the self-rendering pose.
*/
module Controller {
  import LinePose

  datatype Option<T> = None | Some(value: T)

  /** The keys the window reacts to, and everything else. */
  datatype Key = Space | W | A | S | D | Q | E | Z | C | Other

  /** The calls of the `Line` interface the keys can make. */
  datatype Command =
    | Move(dx: int, dy: int)
    | RotateClockwise
    | RotateCounterClockwise
    | Resize(delta: int)

  /** Distance of one movement key press, in scene units. */
  const MoveStep: int := 100

  /** Length change of one resize key press. */
  const ResizeStep: int := 10

  /**
    The command a key sends to the active line, if any: W and S move up and down, A and D
    left and right, Q and E rotate counter-clockwise and clockwise, Z shrinks and C grows.
  */
  function CommandFor(key: Key): (r: Option<Command>)
    ensures r.None? <==> key == Space || key == Other
    ensures (r.Some? && r.value.Move?) <==> key in {W, A, S, D}
    ensures r == Some(RotateClockwise) <==> key == E
    ensures r == Some(RotateCounterClockwise) <==> key == Q
    ensures (r.Some? && r.value.Resize?) <==> key in {Z, C}
    ensures r.Some? && r.value.Move? ==>
      && (r.value.dx == 0 <==> key in {W, S})
      && (r.value.dy == 0 <==> key in {A, D})
      && r.value.dx + r.value.dy == (if key in {W, A} then -MoveStep else MoveStep)
    ensures r.Some? && r.value.Resize? ==>
      r.value.delta == (if key == Z then -ResizeStep else ResizeStep)
  {
    match key
    case W => Some(Move(0, -MoveStep))
    case S => Some(Move(0, MoveStep))
    case A => Some(Move(-MoveStep, 0))
    case D => Some(Move(MoveStep, 0))
    case Q => Some(RotateCounterClockwise)
    case E => Some(RotateClockwise)
    case Z => Some(Resize(-ResizeStep))
    case C => Some(Resize(ResizeStep))
    case Space => None
    case Other => None
  }

  /** Different mapped keys send different commands: the key map is one-to-one. */
  lemma CommandForInjective(k1: Key, k2: Key)
    requires CommandFor(k1).Some?
    requires CommandFor(k1) == CommandFor(k2)
    ensures k1 == k2
  {
  }

  /**
    One key press as a pure step on the active index: the new index, and the command sent
    to the line the OLD index selects.
  */
  function Step(index: bool, key: Key): (r: (bool, Option<Command>))
    ensures r.0 != index <==> key == Space
    ensures r.1.Some? ==> r.1 == CommandFor(key)
    ensures r.1.None? <==> key == Space || key == Other
  {
    match key
    case Space => (!index, None)
    case _ => (index, CommandFor(key))
  }

  /** Space twice restores the index. */
  lemma ToggleTwice(index: bool)
    ensures Step(Step(index, Space).0, Space).0 == index
  {
  }

  /** The window state: `lines[0]`, `lines[1]` and `index` (false selects `lines[0]`). */
  datatype Window<L> = Window(line0: L, line1: L, index: bool)

  function Active<L>(w: Window<L>): L {
    if w.index then w.line1 else w.line0
  }

  function Inactive<L>(w: Window<L>): L {
    if w.index then w.line0 else w.line1
  }

  /**
    The window a freshly built `MainWindow` holds: `lines[0]` is the adapter line,
    `lines[1]` the self-rendering line, and the index starts at false.
  */
  function Initial<L>(adapter: L, custom: L): (w: Window<L>)
    ensures !w.index
    ensures Active(w) == adapter && Inactive(w) == custom
  {
    Window(adapter, custom, false)
  }

  /** `keyPressEvent(key)` on the whole window; `exec` carries out a command on one line. */
  function Handle<L>(w: Window<L>, key: Key, exec: (L, Command) -> L): (r: Window<L>)
    ensures key == Space ==> r.line0 == w.line0 && r.line1 == w.line1 && r.index == !w.index
    ensures key == Space ==> Active(r) == Inactive(w) && Inactive(r) == Active(w)
    ensures CommandFor(key).Some? ==>
      r.index == w.index && Active(r) == exec(Active(w), CommandFor(key).value) && Inactive(r) == Inactive(w)
    ensures key == Other ==> r == w
  {
    var (index', command) := Step(w.index, key);
    match command
    case None => w.(index := index')
    case Some(c) =>
      if w.index then w.(line1 := exec(w.line1, c)) else w.(line0 := exec(w.line0, c))
  }

  /** Space twice leaves the window exactly as it was. */
  lemma HandleToggleTwice<L>(w: Window<L>, exec: (L, Command) -> L)
    ensures Handle(Handle(w, Space, exec), Space, exec) == w
  {
  }

  /** A run of key presses, handled in order. */
  function HandleAll<L>(w: Window<L>, keys: seq<Key>, exec: (L, Command) -> L): Window<L>
    decreases |keys|
  {
    if keys == [] then w else HandleAll(Handle(w, keys[0], exec), keys[1..], exec)
  }

  /** Without Space the index never changes, so the inactive line is never touched. */
  lemma {:induction false} HandleAllKeepsInactive<L>(w: Window<L>, keys: seq<Key>, exec: (L, Command) -> L)
    requires Space !in keys
    ensures HandleAll(w, keys, exec).index == w.index
    ensures Inactive(HandleAll(w, keys, exec)) == Inactive(w)
    decreases |keys|
  {
    if keys != [] {
      assert Space !in keys[1..] by {
        assert forall i :: 0 <= i < |keys[1..]| ==> keys[1..][i] == keys[i + 1];
      }
      HandleAllKeepsInactive(Handle(w, keys[0], exec), keys[1..], exec);
    }
  }

  /** Unmapped keys can be dropped from a run without changing its outcome. */
  lemma {:induction false} HandleAllIgnoresOther<L>(w: Window<L>, keys: seq<Key>, exec: (L, Command) -> L)
    ensures HandleAll(w, keys, exec) == HandleAll(w, Mapped(keys), exec)
    decreases |keys|
  {
    if keys != [] {
      HandleAllIgnoresOther(Handle(w, keys[0], exec), keys[1..], exec);
      if keys[0] == Other {
        HandleAllIgnoresOther(w, keys[1..], exec);
      } else {
        assert Mapped(keys)[0] == keys[0];
        assert Mapped(keys)[1..] == Mapped(keys[1..]);
      }
    }
  }

  /** The keys of a run that the window reacts to, in order. */
  function Mapped(keys: seq<Key>): (r: seq<Key>)
    ensures Other !in r
    ensures |r| <= |keys|
  {
    if keys == [] then []
    else if keys[0] == Other then Mapped(keys[1..])
    else [keys[0]] + Mapped(keys[1..])
  }

  // ---------------------------------------------------------------- the self-rendering line

  /**
    A command carried out on the self-rendering line: a move shifts only the start point,
    a rotation turns only the heading, and a resize changes only the length, clamped at 0.
  */
  function Apply(p: LinePose.Pose, c: Command): (r: LinePose.Pose)
    ensures c.Move? ==>
      && r.origin == LinePose.Point(p.origin.x + c.dx as real, p.origin.y + c.dy as real)
      && r.length == p.length && r.angle == p.angle
    ensures c.RotateClockwise? ==>
      r.origin == p.origin && r.length == p.length && r.angle == p.angle + LinePose.RotationStep
    ensures c.RotateCounterClockwise? ==>
      r.origin == p.origin && r.length == p.length && r.angle == p.angle - LinePose.RotationStep
    ensures c.Resize? ==>
      && r.origin == p.origin && r.angle == p.angle
      && r.length >= p.length + c.delta as real
      && (r.length == 0.0 || r.length == p.length + c.delta as real)
    ensures LinePose.Valid(p) ==> LinePose.Valid(r)
  {
    match c
    case Move(dx, dy) => LinePose.Move(p, dx, dy)
    case RotateClockwise => LinePose.RotateClockwise(p)
    case RotateCounterClockwise => LinePose.RotateCounterClockwise(p)
    case Resize(delta) => LinePose.Resize(p, delta)
  }

  /** The command that undoes another: the opposite move, the other rotation, the opposite resize. */
  function Inverse(c: Command): (r: Command)
    ensures r.Move? <==> c.Move?
    ensures r.Resize? <==> c.Resize?
    ensures r.Move? ==> r.dx == -c.dx && r.dy == -c.dy
    ensures r.Resize? ==> r.delta == -c.delta
    ensures r == RotateClockwise <==> c == RotateCounterClockwise
  {
    match c
    case Move(dx, dy) => Move(-dx, -dy)
    case RotateClockwise => RotateCounterClockwise
    case RotateCounterClockwise => RotateClockwise
    case Resize(delta) => Resize(-delta)
  }

  /**
    On a valid line, a command followed by its inverse restores the pose, unless it is a
    shrink that hits the clamp at length 0.
  */
  lemma ApplyInverse(p: LinePose.Pose, c: Command)
    requires LinePose.Valid(p)
    requires c.Resize? ==> p.length + c.delta as real >= 0.0
    ensures Apply(Apply(p, c), Inverse(c)) == p
  {
    match c
    case Move(dx, dy) => LinePose.MoveInverse(p, dx, dy);
    case RotateClockwise => LinePose.RotateInverse(p);
    case RotateCounterClockwise => LinePose.RotateInverse(p);
    case Resize(delta) => LinePose.ResizeUndo(p, delta);
  }

  /** A mapped key's opposite sends the inverse of its command. */
  lemma OppositeSendsInverse(key: Key)
    requires CommandFor(key).Some?
    ensures CommandFor(Opposite(key)) == Some(Inverse(CommandFor(key).value))
  {
  }

  type PoseWindow = Window<LinePose.Pose>

  predicate ValidWindow(w: PoseWindow) {
    LinePose.Valid(w.line0) && LinePose.Valid(w.line1)
  }

  /** Every key press keeps both lines at non-negative length. */
  lemma HandlePreservesValid(w: PoseWindow, key: Key)
    requires ValidWindow(w)
    ensures ValidWindow(Handle(w, key, Apply))
  {
  }

  /** The key whose command undoes this key's command (Space undoes itself). */
  function Opposite(key: Key): (r: Key)
    ensures r == key <==> key == Space || key == Other
    ensures CommandFor(r).None? <==> CommandFor(key).None?
  {
    match key
    case W => S
    case S => W
    case A => D
    case D => A
    case Q => E
    case E => Q
    case Z => C
    case C => Z
    case Space => Space
    case Other => Other
  }

  /** Opposite keys come in pairs. */
  lemma OppositeInvolution(key: Key)
    ensures Opposite(Opposite(key)) == key
  {
  }

  /**
    A key followed by its opposite restores the window. Only shrinking then growing can
    lose information, through the clamp at length 0: that pair needs the active line to
    be at least one shrink step long.
  */
  lemma OppositeKeysCancel(w: PoseWindow, key: Key)
    requires ValidWindow(w)
    requires key == Z ==> Active(w).length >= ResizeStep as real
    ensures Handle(Handle(w, key, Apply), Opposite(key), Apply) == w
  {
    if CommandFor(key).Some? {
      OppositeSendsInverse(key);
      ApplyInverse(Active(w), CommandFor(key).value);
    }
  }

  /** Shrinking a line shorter than one step hits the clamp, and growing back cannot undo it. */
  lemma ShrinkGrowLoses(w: PoseWindow)
    requires ValidWindow(w)
    requires Active(w).length < ResizeStep as real
    ensures Active(Handle(Handle(w, Z, Apply), C, Apply)).length == ResizeStep as real
  {
  }
}
