/**
 * The controls screen: two background pages, each with highlighted variants
 * of its buttons. Every frame the mouse position picks the highlighted
 * texture and the pending selection (`'m'` back to the menu, `'n'` the next
 * page, `'c'` the first page); a click then acts on the selection.
 */
module ControlModeModel {
  import opened Geometry

  /** The five textures the screen shows. */
  datatype Screen = Bg1 | Bg2 | Bg1BackHighlighted | Bg1NextHighlighted | Bg2BackHighlighted

  /** The second page, plain or with its back button highlighted. */
  predicate OnPageTwo(t: Screen) {
    t == Bg2 || t == Bg2BackHighlighted
  }

  datatype ControlState = ControlState(clicked: bool, modeSelect: char, mousePos: Vec2, activeTex: Screen)

  /** The mouse is in the button bar at the bottom of the screen. */
  predicate InBar(m: Vec2) { m.y <= -0.68 }

  predicate OverLeftButton(m: Vec2) { -0.94 <= m.x <= -0.49 }

  predicate OverRightButton(m: Vec2) { 0.49 <= m.x <= 0.95 }

  /** The highlight cascade of ControlMode::update: the new selection and texture. */
  function Highlight(mode: char, tex: Screen, m: Vec2): (char, Screen) {
    if InBar(m) then
      if !OnPageTwo(tex) && OverLeftButton(m) then ('m', Bg1BackHighlighted)
      else if !OnPageTwo(tex) && OverRightButton(m) then ('n', Bg1NextHighlighted)
      else if OnPageTwo(tex) && OverRightButton(m) then ('c', Bg2BackHighlighted)
      else if tex == Bg2BackHighlighted then ('n', Bg2)
      else if tex != Bg2 then ('c', Bg1)
      else (mode, tex)
    else if tex == Bg2BackHighlighted then ('n', Bg2)
    else if tex != Bg2 then ('c', Bg1)
    else (mode, tex)
  }

  /** The click switch: the new texture and whether the menu mode is requested. */
  function Click(mode: char, tex: Screen): (r: (Screen, bool))
    ensures r.1 <==> mode == 'm'
    ensures mode != 'n' && mode != 'c' ==> r.0 == tex
  {
    match mode
    case 'm' => (tex, true)
    case 'n' => (Bg2, false)
    case 'c' => (Bg1, false)
    case _ => (tex, false)
  }

  /** ControlMode::update: the new state and whether it switches to the menu. */
  function ControlStep(s: ControlState): (ControlState, bool) {
    var (mode, tex) := Highlight(s.modeSelect, s.activeTex, s.mousePos);
    if s.clicked then
      var (tex2, toMenu) := Click(mode, tex);
      (s.(modeSelect := mode, activeTex := tex2, clicked := false), toMenu)
    else (s.(modeSelect := mode, activeTex := tex), false)
  }

  /** Above the bar: the second page's highlight goes off, the second page stays, anything else returns to page one. */
  lemma AboveBar(mode: char, tex: Screen, m: Vec2)
    requires !InBar(m)
    ensures var r := Highlight(mode, tex, m);
      && (tex == Bg2BackHighlighted ==> r == ('n', Bg2))
      && (tex == Bg2 ==> r == (mode, Bg2))
      && (!OnPageTwo(tex) ==> r == ('c', Bg1))
  {
  }

  /** On page one in the bar: the left button selects the menu, the right one the next page. */
  lemma PageOneBar(mode: char, tex: Screen, m: Vec2)
    requires InBar(m) && !OnPageTwo(tex)
    ensures var r := Highlight(mode, tex, m);
      && (OverLeftButton(m) ==> r == ('m', Bg1BackHighlighted))
      && (OverRightButton(m) ==> r == ('n', Bg1NextHighlighted))
      && (!OverLeftButton(m) && !OverRightButton(m) ==> r == ('c', Bg1))
  {
  }

  /** On page two in the bar: the right button selects going back; elsewhere the page stays without highlight. */
  lemma PageTwoBar(mode: char, tex: Screen, m: Vec2)
    requires InBar(m) && OnPageTwo(tex)
    ensures var r := Highlight(mode, tex, m);
      && (OverRightButton(m) ==> r == ('c', Bg2BackHighlighted))
      && (!OverRightButton(m) && tex == Bg2 ==> r == (mode, Bg2))
      && (!OverRightButton(m) && tex == Bg2BackHighlighted ==> r == ('n', Bg2))
  {
  }

  /** A click acts on the selection and is consumed; without one nothing is requested. */
  lemma ControlStepClick(s: ControlState)
    ensures var (r, toMenu) := ControlStep(s);
      var sel := Highlight(s.modeSelect, s.activeTex, s.mousePos);
      && !r.clicked
      && r.modeSelect == sel.0 && r.mousePos == s.mousePos
      && (toMenu <==> s.clicked && sel.0 == 'm')
      && (s.clicked && sel.0 == 'n' ==> r.activeTex == Bg2)
      && (s.clicked && sel.0 == 'c' ==> r.activeTex == Bg1)
      && (!s.clicked || sel.0 == 'm' ==> r.activeTex == sel.1)
  {
  }

  /** The selection that the texture on screen stands for. */
  function Shown(tex: Screen): char {
    match tex
    case Bg1 => 'c'
    case Bg2 => 'n'
    case Bg1BackHighlighted => 'm'
    case Bg1NextHighlighted => 'n'
    case Bg2BackHighlighted => 'c'
  }

  /**
   * The selection always matches what the screen shows: the initial state
   * (page one, `'c'`) has it, and every frame keeps it, with or without a
   * click. So a click always does what the highlighted button says.
   */
  lemma {:induction false} ControlStepConsistent(s: ControlState)
    requires s.modeSelect == Shown(s.activeTex)
    ensures var (r, _) := ControlStep(s); r.modeSelect == Shown(r.activeTex)
  {
    var sel := Highlight(s.modeSelect, s.activeTex, s.mousePos);
    assert sel.0 == Shown(sel.1);
    if s.clicked {
      var c := Click(sel.0, sel.1);
      assert sel.0 == Shown(c.0);
    }
  }

  /** The initial state satisfies that agreement. */
  lemma InitialConsistent(m: Vec2)
    ensures var s := ControlState(false, 'c', m, Bg1); s.modeSelect == Shown(s.activeTex)
  {
  }

  // ---- handle_event ----

  datatype Event = MouseButtonDown | MouseMotion(x: real, y: real) | OtherEvent

  /** The window-to-screen mapping of mouse motion: x and y to [-1, 1], y pointing up. */
  function ToScreen(x: real, y: real, width: real, height: real): (r: Vec2)
    requires width > 0.0 && height > 0.0
    ensures 0.0 <= x <= width ==> -1.0 <= r.x <= 1.0
    ensures 0.0 <= y <= height ==> -1.0 <= r.y <= 1.0
  {
    Vec2(2.0 * (x / width) - 1.0, -1.0 * (2.0 * (y / height) - 1.0))
  }

  /** The inverse mapping: from screen coordinates back to window pixels. */
  function ToWindow(p: Vec2, width: real, height: real): (real, real) {
    (Mul((p.x + 1.0) / 2.0, width), Mul((1.0 - p.y) / 2.0, height))
  }

  /** ToScreen loses nothing: mapping back gives the window position. */
  lemma ToScreenInverse(x: real, y: real, width: real, height: real)
    requires width > 0.0 && height > 0.0
    ensures ToWindow(ToScreen(x, y, width, height), width, height) == (x, y)
  {
    var p := ToScreen(x, y, width, height);
    var u, v := x / width, y / height;
    assert (p.x + 1.0) / 2.0 == u;
    assert (1.0 - p.y) / 2.0 == v;
    DivTimes(x, width);
    DivTimes(y, height);
  }

  lemma DivTimes(a: real, b: real)
    requires b != 0.0
    ensures Mul(a / b, b) == a
  {
  }

  /** The window's top-left corner is the screen's (-1, 1); its bottom-right corner is (1, -1). */
  lemma ToScreenCorners(width: real, height: real)
    requires width > 0.0 && height > 0.0
    ensures ToScreen(0.0, 0.0, width, height) == Vec2(-1.0, 1.0)
    ensures ToScreen(width, height, width, height) == Vec2(1.0, -1.0)
  {
    assert width / width == 1.0 && height / height == 1.0;
  }

  class ControlMode {
    var clicked: bool
    var modeSelect: char
    var mousePos: Vec2
    var activeTex: Screen

    function State(): ControlState
      reads this
    {
      ControlState(clicked, modeSelect, mousePos, activeTex)
    }

    /** The header's defaults and page one; the mouse starts far away (the largest float there). */
    constructor (farAway: real)
      ensures State() == ControlState(false, 'c', Vec2(farAway, farAway), Bg1)
      ensures modeSelect == Shown(activeTex)
    {
      clicked := false;
      modeSelect := 'c';
      mousePos := Vec2(farAway, farAway);
      activeTex := Bg1;
    }

    /** ControlMode::handle_event: a button press arms a click, motion records the mapped position. */
    method HandleEvent(e: Event, width: real, height: real) returns (handled: bool)
      requires width > 0.0 && height > 0.0
      modifies this
      ensures handled <==> !e.OtherEvent?
      ensures e.MouseButtonDown? ==> State() == old(State()).(clicked := true)
      ensures e.MouseMotion? ==> State() == old(State()).(mousePos := ToScreen(e.x, e.y, width, height))
      ensures e.OtherEvent? ==> State() == old(State())
    {
      if e.MouseButtonDown? {
        clicked := true;
        return true;
      } else if e.MouseMotion? {
        mousePos := Vec2(e.x, e.y);
        mousePos := mousePos.(x := 2.0 * (mousePos.x / width) - 1.0);
        mousePos := mousePos.(y := -1.0 * (2.0 * (mousePos.y / height) - 1.0));
        return true;
      }
      return false;
    }

    /** ControlMode::update: the highlight cascade, then the click; `toMenu` stands for switching to the menu mode. */
    method Update() returns (toMenu: bool)
      modifies this
      ensures (State(), toMenu) == ControlStep(old(State()))
    {
      if mousePos.y <= -0.68 {
        if activeTex != Bg2 && activeTex != Bg2BackHighlighted && mousePos.x >= -0.94 && mousePos.x <= -0.49 {
          modeSelect := 'm';
          activeTex := Bg1BackHighlighted;
        } else if activeTex != Bg2 && activeTex != Bg2BackHighlighted && mousePos.x >= 0.49 && mousePos.x <= 0.95 {
          modeSelect := 'n';
          activeTex := Bg1NextHighlighted;
        } else if (activeTex == Bg2 || activeTex == Bg2BackHighlighted) && mousePos.x >= 0.49 && mousePos.x <= 0.95 {
          modeSelect := 'c';
          activeTex := Bg2BackHighlighted;
        } else if activeTex == Bg2BackHighlighted {
          modeSelect := 'n';
          activeTex := Bg2;
        } else if activeTex != Bg2 {
          modeSelect := 'c';
          activeTex := Bg1;
        }
      } else if activeTex == Bg2BackHighlighted {
        modeSelect := 'n';
        activeTex := Bg2;
      } else if activeTex != Bg2 {
        modeSelect := 'c';
        activeTex := Bg1;
      }

      toMenu := false;
      if clicked {
        match modeSelect {
          case 'm' =>
            toMenu := true;
          case 'n' =>
            activeTex := Bg2;
          case 'c' =>
            activeTex := Bg1;
          case _ =>
        }
        clicked := false;
      }
    }
  }
}
