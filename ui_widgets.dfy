/** The 2D widgets of dipy/viz/ui.py as state machines: the mouse-button
    states every `UI` component keeps, icon cycling on `Button2D`, element
    placement on `Panel2D`, the editable `TextBox2D`, and the clamped disk of
    `LineSlider2D`. */
module UiWidgets {
  import opened Wrappers
  import opened Strings
  import opened PySeq
  import opened LineBreaks
  import opened TextEditing
  import opened Icons

  // ---------------------------------------------------------------- mouse buttons

  /** `left_button_state` / `right_button_state`. */
  datatype ButtonState = Released | Pressing | Dragging

  /** The `on_*` hooks a component may be given; the model records which
      ones fire, in order, and leaves what they do to their owners. */
  datatype Handler =
    | LeftPressed | LeftClicked | LeftReleased | LeftDragged
    | RightPressed | RightClicked | RightReleased | RightDragged

  datatype Mouse = Mouse(left: ButtonState, right: ButtonState)

  /** The interactor events a component reacts to. */
  datatype MouseEvent = LeftPress | LeftRelease | RightPress | RightRelease | Move

  /** The callbacks of `UI`: the new button states and the hooks fired.
      An event changes at most one button's state; every press and release
      fires a hook, and a move fires at most one. */
  function React(m: Mouse, e: MouseEvent): (r: (Mouse, seq<Handler>))
    ensures r.0.left == m.left || r.0.right == m.right
    ensures !e.Move? ==> |r.1| > 0
    ensures e.Move? ==> |r.1| <= 1
  {
    match e
    case LeftPress => (m.(left := Pressing), [LeftPressed])
    case LeftRelease =>
      (m.(left := Released), (if m.left == Pressing then [LeftClicked] else []) + [LeftReleased])
    case RightPress => (m.(right := Pressing), [RightPressed])
    case RightRelease =>
      (m.(right := Released), (if m.right == Pressing then [RightClicked] else []) + [RightReleased])
    case Move =>
      if m.left == Pressing || m.left == Dragging then (m.(left := Dragging), [LeftDragged])
      else if m.right == Pressing || m.right == Dragging then (m.(right := Dragging), [RightDragged])
      else (m, [])
  }

  /** A run of events: the final states and every hook fired, in order. */
  function Run(m: Mouse, es: seq<MouseEvent>): (Mouse, seq<Handler>)
    decreases |es|
  {
    if |es| == 0 then (m, [])
    else
      var (m1, h1) := React(m, es[0]);
      var (m2, h2) := Run(m1, es[1..]);
      (m2, h1 + h2)
  }

  /** A release fires the click hook exactly when the button was still
      pressing (not dragged), and always ends released and fires the release
      hook last. */
  lemma ReleaseSpec(m: Mouse)
    ensures var (m1, h) := React(m, LeftRelease);
      && m1 == m.(left := Released)
      && (LeftClicked in h <==> m.left == Pressing)
      && |h| > 0 && h[|h| - 1] == LeftReleased
    ensures var (m1, h) := React(m, RightRelease);
      && m1 == m.(right := Released)
      && (RightClicked in h <==> m.right == Pressing)
      && |h| > 0 && h[|h| - 1] == RightReleased
  {
    var h := React(m, LeftRelease).1;
    if m.left != Pressing {
      assert h == [LeftReleased];
    }
    var g := React(m, RightRelease).1;
    if m.right != Pressing {
      assert g == [RightReleased];
    }
  }

  /** A move drags the left button when it is held; the right button only
      when the left one is not; with both released it does nothing. */
  lemma MoveSpec(m: Mouse)
    ensures var (m1, h) := React(m, Move);
      && (m.left != Released ==> m1 == m.(left := Dragging) && h == [LeftDragged])
      && (m.left == Released && m.right != Released ==> m1 == m.(right := Dragging) && h == [RightDragged])
      && (m.left == Released && m.right == Released ==> m1 == m && h == [])
  {
  }

  /** Moves after a left press: the left button is dragging and each move
      fired the left drag hook only. */
  lemma {:induction false} DragRun(m: Mouse, k: nat)
    requires m.left != Released
    ensures var (m1, h) := Run(m, seq(k, _ => Move));
      && m1 == (if k == 0 then m else m.(left := Dragging))
      && h == seq(k, _ => LeftDragged)
    decreases k
  {
    if k > 0 {
      var es := seq(k, _ => Move);
      assert es[0] == Move && es[1..] == seq(k - 1, _ => Move);
      DragRun(m.(left := Dragging), k - 1);
      assert [LeftDragged] + seq(k - 1, _ => LeftDragged) == seq(k, _ => LeftDragged);
    }
  }

  /** Press then release is a click; press, at least one move, then release
      is a drag, and the click hook does not fire. */
  lemma ClickOrDrag(m: Mouse, k: nat)
    ensures Run(m, [LeftPress, LeftRelease]).1 == [LeftPressed, LeftClicked, LeftReleased]
    ensures k > 0 ==> LeftClicked !in Run(m, [LeftPress] + seq(k, _ => Move) + [LeftRelease]).1
  {
    var es := [LeftPress, LeftRelease];
    assert es[1..] == [LeftRelease] && es[1..][1..] == [];
    if k > 0 {
      var moves := seq(k, _ => Move);
      var run := [LeftPress] + moves + [LeftRelease];
      RunAppend(m, [LeftPress] + moves, [LeftRelease]);
      RunAppend(m, [LeftPress], moves);
      assert ([LeftPress])[1..] == [];
      var m1 := m.(left := Pressing);
      DragRun(m1, k);
      var m2 := Run(m, [LeftPress] + moves).0;
      assert m2.left == Dragging;
      assert [LeftRelease][1..] == [];
      assert Run(m2, [LeftRelease]).1 == [LeftReleased];
      var h := Run(m, run).1;
      assert h == [LeftPressed] + seq(k, _ => LeftDragged) + [LeftReleased];
      forall i | 0 <= i < |h| ensures h[i] != LeftClicked {
        if 0 < i < |h| - 1 {
          assert h[i] == seq(k, _ => LeftDragged)[i - 1];
        }
      }
    }
  }

  /** A run of two runs of events is the second run after the first. */
  lemma {:induction false} RunAppend(m: Mouse, xs: seq<MouseEvent>, ys: seq<MouseEvent>)
    ensures var (m1, h1) := Run(m, xs);
      var (m2, h2) := Run(m1, ys);
      Run(m, xs + ys) == (m2, h1 + h2)
    decreases |xs|
  {
    if |xs| > 0 {
      assert (xs + ys)[0] == xs[0] && (xs + ys)[1..] == xs[1..] + ys;
      var (m0, h0) := React(m, xs[0]);
      RunAppend(m0, xs[1..], ys);
      var (m1, h1) := Run(m0, xs[1..]);
      var (m2, h2) := Run(m1, ys);
      assert h0 + (h1 + h2) == (h0 + h1) + h2;
    } else {
      assert xs + ys == ys;
      assert [] + Run(m, ys).1 == Run(m, ys).1;
    }
  }

  /** `UI`: a component's two button states; `fired` lists the hooks run so far. */
  class UI {
    var leftButtonState: ButtonState
    var rightButtonState: ButtonState
    var fired: seq<Handler>

    function Buttons(): Mouse
      reads this
    {
      Mouse(leftButtonState, rightButtonState)
    }

    constructor()
      ensures Buttons() == Mouse(Released, Released) && fired == []
    {
      leftButtonState, rightButtonState := Released, Released;
      fired := [];
    }

    method LeftButtonClickCallback()
      modifies this
      ensures Buttons() == React(old(Buttons()), LeftPress).0
      ensures fired == old(fired) + React(old(Buttons()), LeftPress).1
    {
      leftButtonState := Pressing;
      fired := fired + [LeftPressed];
    }

    method LeftButtonReleaseCallback()
      modifies this
      ensures Buttons() == React(old(Buttons()), LeftRelease).0
      ensures fired == old(fired) + React(old(Buttons()), LeftRelease).1
    {
      var hooks := (if leftButtonState == Pressing then [LeftClicked] else []) + [LeftReleased];
      leftButtonState := Released;
      fired := fired + hooks;
    }

    method RightButtonClickCallback()
      modifies this
      ensures Buttons() == React(old(Buttons()), RightPress).0
      ensures fired == old(fired) + React(old(Buttons()), RightPress).1
    {
      rightButtonState := Pressing;
      fired := fired + [RightPressed];
    }

    method RightButtonReleaseCallback()
      modifies this
      ensures Buttons() == React(old(Buttons()), RightRelease).0
      ensures fired == old(fired) + React(old(Buttons()), RightRelease).1
    {
      var hooks := (if rightButtonState == Pressing then [RightClicked] else []) + [RightReleased];
      rightButtonState := Released;
      fired := fired + hooks;
    }

    method MouseMoveCallback()
      modifies this
      ensures Buttons() == React(old(Buttons()), Move).0
      ensures fired == old(fired) + React(old(Buttons()), Move).1
    {
      if leftButtonState == Pressing || leftButtonState == Dragging {
        leftButtonState := Dragging;
        fired := fired + [LeftDragged];
      } else if rightButtonState == Pressing || rightButtonState == Dragging {
        rightButtonState := Dragging;
        fired := fired + [RightDragged];
      }
    }
  }

  // ---------------------------------------------------------------- Button2D

  /** `Button2D`: the icon names (the keys of the icon dictionary) and the current icon. */
  class Button2D {
    const iconNames: seq<string>
    var currentIconId: int
    var currentIconName: string

    predicate Valid()
      reads this
    {
      0 <= currentIconId < |iconNames| && currentIconName == iconNames[currentIconId]
    }

    constructor(iconNames: seq<string>)
      requires |iconNames| > 0
      ensures Valid() && this.iconNames == iconNames && currentIconId == 0
    {
      this.iconNames := iconNames;
      currentIconId := 0;
      currentIconName := iconNames[0];
    }

    /** The next icon, cyclically; the name follows the index. */
    method NextIconName()
      requires Valid()
      modifies this
      ensures Valid()
      ensures currentIconId == NextIcon(old(currentIconId), |iconNames|)
      ensures currentIconId == (old(currentIconId) + 1) % |iconNames|
    {
      NextIconModular(currentIconId, |iconNames|);
      currentIconId := currentIconId + 1;
      if currentIconId == |iconNames| {
        currentIconId := 0;
      }
      currentIconName := iconNames[currentIconId];
    }
  }

  // ---------------------------------------------------------------- Panel2D

  datatype Vec = Vec(x: real, y: real)

  function Plus(a: Vec, b: Vec): Vec
  {
    Vec(a.x + b.x, a.y + b.y)
  }

  /** `Panel2D`: its size and lower-left corner, its alignment, and for
      each element the offset it was added at and where it is placed. */
  class Panel2D {
    const size: Vec
    var position: Vec
    const alignment: string
    var offsets: seq<Vec>
    var placed: seq<Vec>

    /** Every element sits at the panel's corner plus its own offset. */
    predicate Valid()
      reads this
    {
      |offsets| == |placed| && forall i :: 0 <= i < |placed| ==> placed[i] == Plus(position, offsets[i])
    }

    /** A panel holding its background at offset (0, 0). */
    constructor(size: Vec, position: Vec, align: string)
      ensures Valid() && this.size == size && this.position == position && alignment == align
      ensures offsets == [Vec(0.0, 0.0)]
    {
      this.size, this.position, alignment := size, position, align;
      offsets := [Vec(0.0, 0.0)];
      placed := [Plus(position, Vec(0.0, 0.0))];
    }

    /** `add_element`: floating-point coordinates are normalised, so they must
        lie in [0, 1] (ValueError otherwise) and are scaled by the size;
        integer coordinates are pixel offsets, taken as given. */
    method AddElement(coords: Vec, normalized: bool) returns (out: Outcome)
      requires Valid()
      modifies this`offsets, this`placed
      ensures Valid()
      ensures out.Failure? <==> normalized && !(0.0 <= coords.x <= 1.0 && 0.0 <= coords.y <= 1.0)
      ensures out.Failure? ==> out.error == ValueError && offsets == old(offsets) && placed == old(placed)
      ensures out.Success? ==>
        var offset := if normalized then Vec(coords.x * size.x, coords.y * size.y) else coords;
        offsets == old(offsets) + [offset] && placed == old(placed) + [Plus(position, offset)]
    {
      var offset := coords;
      if normalized {
        if coords.x < 0.0 || coords.y < 0.0 || coords.x > 1.0 || coords.y > 1.0 {
          return Failure(ValueError);
        }
        offset := Vec(coords.x * size.x, coords.y * size.y);
      }
      offsets := offsets + [offset];
      placed := placed + [Plus(position, offset)];
      out := Success;
    }

    /** Moving the panel moves every element with it, keeping its offset. */
    method SetPosition(coords: Vec)
      requires Valid()
      modifies this`position, this`placed
      ensures Valid() && position == coords
    {
      var i := 0;
      while i < |placed|
        invariant 0 <= i <= |placed| == |offsets|
        invariant forall j :: 0 <= j < i ==> placed[j] == Plus(coords, offsets[j])
      {
        placed := placed[i := Plus(coords, offsets[i])];
        i := i + 1;
      }
      position := coords;
    }

    /** `re_align`: a left-aligned panel stays, a right-aligned one moves by
        the change of window size, any other alignment is a ValueError. */
    method ReAlign(change: Vec) returns (out: Outcome)
      requires Valid()
      modifies this`position, this`placed
      ensures Valid()
      ensures out.Failure? <==> alignment != "left" && alignment != "right"
      ensures out.Failure? ==> out.error == ValueError
      ensures position == (if alignment == "right" then Plus(old(position), change) else old(position))
    {
      if alignment == "left" {
        out := Success;
      } else if alignment == "right" {
        SetPosition(Plus(position, change));
        out := Success;
      } else {
        out := Failure(ValueError);
      }
    }
  }

  // ---------------------------------------------------------------- TextBox2D

  /** `TextBox2D`: the editing state and the message its text actor shows. */
  class TextBox2D {
    var text: string
    const width: int
    const height: int
    var windowLeft: int
    var windowRight: int
    var caretPos: int
    var init: bool
    var message: string

    function State(): Box
      reads this`text, this`windowLeft, this`windowRight, this`caretPos, this`init
    {
      Box(text, width, height, windowLeft, windowRight, caretPos, init)
    }

    predicate Valid()
      reads this`text, this`windowLeft, this`windowRight, this`caretPos, this`init
    {
      width > 0 && TextEditing.Valid(State())
    }

    constructor(width: int, height: int, text: string)
      requires width > 0
      ensures Valid() && State() == Box(text, width, height, 0, 0, 0, true) && message == text
    {
      this.text, this.width, this.height := text, width, height;
      windowLeft, windowRight, caretPos, init := 0, 0, 0, true;
      message := text;
    }

    method SetMessage(m: string)
      modifies this
      ensures Valid() == (width > 0)
      ensures State() == TextEditing.SetMessage(old(State()), m) && message == m
    {
      text := m;
      message := m;
      init := false;
      windowRight := |text|;
      windowLeft := 0;
      caretPos := windowRight;
    }

    /** `width_set_text`: the line-broken form of `t` at this box's width. */
    method WidthSetText(t: string) returns (r: string)
      requires width > 0
      ensures LineBreaks.WidthSetText(t, width) == Ok(r)
    {
      var multiLine := "";
      for i := 0 to |t|
        invariant multiLine == Broken(t[..i], width)
      {
        assert t[..i + 1][..i] == t[..i];
        multiLine := multiLine + [t[i]];
        if (i + 1) % width == 0 {
          multiLine := multiLine + "\n";
        }
      }
      assert t[..|t|] == t;
      r := RStripNewlines(multiLine);
    }

    /** `handle_character`: true, and no edit, exactly on "return"; the
        caret is shown afterwards unless editing is done. */
    method HandleCharacter(key: string) returns (done: bool)
      requires Valid()
      modifies this
      ensures Valid()
      ensures done <==> Lower(key) == "return"
      ensures State() == TextEditing.HandleCharacter(old(State()), key)
      ensures message == Render(State(), !done)
    {
      HandleKeepsValid(State(), key);
      var k := Lower(key);
      if k == "return" {
        RenderText(false);
        return true;
      }
      if k == "backspace" {
        RemoveCharacter();
      } else if k == "left" {
        MoveLeft();
      } else if k == "right" {
        MoveRight();
      } else {
        AddCharacter(key);
      }
      RenderText(true);
      done := false;
    }

    method MoveCaretRight()
      modifies this`caretPos
      ensures State() == CaretRight(old(State()))
    {
      caretPos := if caretPos + 1 < |text| then caretPos + 1 else |text|;
    }

    method MoveCaretLeft()
      modifies this`caretPos
      ensures State() == CaretLeft(old(State()))
    {
      caretPos := if caretPos - 1 > 0 then caretPos - 1 else 0;
    }

    method RightMoveRight()
      modifies this`windowRight
      ensures State() == TextEditing.RightMoveRight(old(State()))
    {
      if windowRight <= |text| {
        windowRight := windowRight + 1;
      }
    }

    method RightMoveLeft()
      modifies this`windowRight
      ensures State() == TextEditing.RightMoveLeft(old(State()))
    {
      if windowRight > 0 {
        windowRight := windowRight - 1;
      }
    }

    method LeftMoveRight()
      modifies this`windowLeft
      ensures State() == TextEditing.LeftMoveRight(old(State()))
    {
      if windowLeft <= |text| {
        windowLeft := windowLeft + 1;
      }
    }

    method LeftMoveLeft()
      modifies this`windowLeft
      ensures State() == TextEditing.LeftMoveLeft(old(State()))
    {
      if windowLeft > 0 {
        windowLeft := windowLeft - 1;
      }
    }

    method AddCharacter(key: string)
      requires Valid()
      modifies this`text, this`caretPos, this`windowLeft, this`windowRight
      ensures Valid()
      ensures State() == TextEditing.AddCharacter(old(State()), key)
    {
      AddKeepsValid(State(), key);
      if |key| > 1 && Lower(key) != "space" {
        return;
      }
      var c := if Lower(key) == "space" then " " else key;
      text := text[..caretPos] + c + text[caretPos..];
      MoveCaretRight();
      if windowRight - windowLeft == height * width - 1 {
        LeftMoveRight();
      }
      RightMoveRight();
    }

    method RemoveCharacter()
      requires Valid()
      modifies this`text, this`caretPos, this`windowLeft, this`windowRight
      ensures Valid()
      ensures State() == TextEditing.RemoveCharacter(old(State()))
    {
      RemoveKeepsValid(State());
      if caretPos == 0 {
        return;
      }
      text := text[..caretPos - 1] + text[caretPos..];
      MoveCaretLeft();
      if |text| < height * width - 1 {
        RightMoveLeft();
      }
      if windowRight - windowLeft == height * width - 1 {
        if windowLeft > 0 {
          LeftMoveLeft();
          RightMoveLeft();
        }
      }
    }

    method MoveLeft()
      requires Valid()
      modifies this`caretPos, this`windowLeft, this`windowRight
      ensures Valid()
      ensures State() == TextEditing.MoveLeft(old(State()))
    {
      MoveCaretLeft();
      if caretPos == windowLeft - 1 {
        if windowRight - windowLeft == height * width - 1 {
          LeftMoveLeft();
          RightMoveLeft();
        }
      }
    }

    method MoveRight()
      requires Valid()
      modifies this`caretPos, this`windowLeft, this`windowRight
      ensures Valid()
      ensures State() == TextEditing.MoveRight(old(State()))
    {
      MoveCaretRight();
      if caretPos == windowRight + 1 {
        if windowRight - windowLeft == height * width - 1 {
          LeftMoveRight();
          RightMoveRight();
        }
      }
    }

    /** `showable_text`: what of the text the window lets through. */
    method ShowableText(showCaret: bool) returns (r: string)
      requires Valid()
      ensures r == TextEditing.ShowableText(State(), showCaret)
      ensures |r| <= (if windowRight + 1 > windowLeft then windowRight + 1 - windowLeft else 0)
    {
      ShowableWindow(State(), showCaret);
      var t := if showCaret then text[..caretPos] + "_" + text[caretPos..] else text;
      r := Slice(t, windowLeft, windowRight + 1);
    }

    method RenderText(showCaret: bool)
      requires Valid()
      modifies this`message
      ensures message == Render(State(), showCaret)
    {
      var t := ShowableText(showCaret);
      if t == "" {
        t := "Enter Text";
      }
      message := WidthSetText(t);
    }

    /** `edit_mode`: clear the placeholder on the first click, then render with the caret. */
    method EditMode()
      requires Valid()
      modifies this
      ensures Valid()
      ensures State() == TextEditing.EditMode(old(State()))
      ensures message == Render(State(), true)
    {
      if init {
        text := "";
        init := false;
        caretPos := 0;
      }
      RenderText(true);
    }
  }

  // ---------------------------------------------------------------- LineSlider2D

  /** `(r * l) / l == r` and `(a / d) * d == a` for non-zero `l` and `d`. */
  lemma Cancel(r: real, l: real, a: real, d: real)
    requires l != 0.0 && d != 0.0
    ensures (r * l) / l == r && (a / d) * d == a
  {
  }

  /** The sign of a product with a non-negative factor. */
  lemma MulSigns(a: real, b: real)
    requires a >= 0.0
    ensures b >= 0.0 ==> a * b >= 0.0
    ensures b <= 0.0 ==> a * b <= 0.0
  {
  }

  /** A quotient of a number by a divisor of the same sign and no smaller size lies in [0, 1]. */
  lemma UnitQuotient(a: real, d: real)
    requires (0.0 <= a <= d && d > 0.0) || (d <= a <= 0.0 && d < 0.0)
    ensures 0.0 <= a / d <= 1.0
  {
    if d > 0.0 {
      assert a / d <= d / d;
    } else {
      assert a / d == (-a) / (-d);
      assert (-a) / (-d) <= (-d) / (-d);
    }
  }

  /** `LineSlider2D`: a disk on a line of `length` centred at `(centerX,
      centerY)`, its x position `currentState`, and the ratio and value it
      stands for between `minValue` and `maxValue`. */
  class LineSlider2D {
    const length: real
    const minValue: real
    const maxValue: real
    var centerX: real
    var centerY: real
    var currentState: real
    var leftX: real
    var rightX: real
    var ratio: real
    var value: real

    /** The line runs `length / 2` either side of the centre. */
    predicate Placed()
      reads this
    {
      length > 0.0 && leftX == centerX - length / 2.0 && rightX == centerX + length / 2.0
    }

    /** The disk is on the line, and the ratio and value are those of its position. */
    predicate Valid()
      reads this
    {
      && Placed()
      && leftX <= currentState <= rightX
      && ratio == (currentState - leftX) / length
      && value == minValue + ratio * (maxValue - minValue)
    }

    constructor(centerX: real, centerY: real, length: real, initialValue: real, minValue: real, maxValue: real)
      requires length > 0.0 && maxValue != minValue
      ensures Valid()
      ensures this.centerX == centerX && this.centerY == centerY && this.length == length
      ensures this.minValue == minValue && this.maxValue == maxValue
      ensures (minValue <= initialValue <= maxValue || maxValue <= initialValue <= minValue) ==> value == initialValue
    {
      this.length, this.minValue, this.maxValue := length, minValue, maxValue;
      this.centerX, this.centerY := centerX, centerY;
      currentState := centerX;
      leftX := centerX - length / 2.0;
      rightX := centerX + length / 2.0;
      ratio := (centerX - (centerX - length / 2.0)) / length;
      value := 0.0;
      new;
      SetValue(initialValue);
    }

    /** `set_position`: the disk goes to `x` clamped into the line, so the
        ratio lies in [0, 1] and the value between the two limits. */
    method SetPosition(x: real)
      requires Placed()
      modifies this`currentState, this`ratio, this`value
      ensures Valid()
      ensures currentState == (if x < leftX then leftX else if x > rightX then rightX else x)
      ensures 0.0 <= ratio <= 1.0
      ensures minValue <= maxValue ==> minValue <= value <= maxValue
      ensures maxValue <= minValue ==> maxValue <= value <= minValue
    {
      var xPosition := x;
      if xPosition < centerX - length / 2.0 {
        xPosition := centerX - length / 2.0;
      }
      if xPosition > centerX + length / 2.0 {
        xPosition := centerX + length / 2.0;
      }
      currentState := xPosition;
      Update();
      RatioBounds();
    }

    lemma RatioBounds()
      requires Valid()
      ensures 0.0 <= ratio <= 1.0
      ensures minValue <= maxValue ==> minValue <= value <= maxValue
      ensures maxValue <= minValue ==> maxValue <= value <= minValue
    {
      assert (currentState - leftX) <= length;
      assert ratio * length == currentState - leftX;
      assert 0.0 <= ratio <= 1.0;
      var range := maxValue - minValue;
      assert (1.0 - ratio) * range == range - ratio * range;
      MulSigns(ratio, range);
      MulSigns(1.0 - ratio, range);
    }

    /** `update`: the ratio and the value of the disk's position. */
    method Update()
      requires Placed() && leftX <= currentState <= rightX
      modifies this`ratio, this`value
      ensures Valid()
    {
      var l := rightX - leftX;
      ratio := (currentState - leftX) / l;
      value := minValue + ratio * (maxValue - minValue);
    }

    /** The `ratio` setter: a ratio in [0, 1] is the one the disk ends up at. */
    method SetRatio(r: real)
      requires Placed()
      modifies this`currentState, this`ratio, this`value
      ensures Valid()
      ensures 0.0 <= r <= 1.0 ==> ratio == r
    {
      if 0.0 <= r <= 1.0 {
        assert r * length <= length;
        Cancel(r, length, 0.0, 1.0);
      }
      SetPosition(leftX + r * length);
    }

    /** The `value` setter: a value between the limits is the one the slider shows. */
    method SetValue(v: real)
      requires Placed() && maxValue != minValue
      modifies this`currentState, this`ratio, this`value
      ensures Valid()
      ensures (minValue <= v <= maxValue || maxValue <= v <= minValue) ==> value == v
    {
      var range := maxValue - minValue;
      var r := (v - minValue) / range;
      if minValue <= v <= maxValue || maxValue <= v <= minValue {
        assert r * range == v - minValue by {
          Cancel(0.0, 1.0, v - minValue, range);
        }
        UnitQuotient(v - minValue, range);
      }
      SetRatio(r);
    }

    /** `set_center`: the whole slider moves, and the disk keeps its ratio and value. */
    method SetCenter(px: real, py: real)
      requires Valid()
      modifies this`centerX, this`centerY, this`currentState, this`leftX, this`rightX, this`ratio, this`value
      ensures Valid() && centerX == px && centerY == py
      ensures ratio == old(ratio) && value == old(value)
    {
      var xChange := px - centerX;
      currentState := currentState + xChange;
      centerX, centerY := px, py;
      leftX := px - length / 2.0;
      rightX := px + length / 2.0;
      SetPosition(currentState);
    }
  }
}
