/** The older widgets of dipy/viz/gui.py: `Button` icon cycling, the
    editable `TextBox`, the clamped `SliderDisk` and the percentage label of
    `SliderText`. The module has no `from __future__ import division`, so
    `/` on its integer pixel coordinates is Python 2 floor division. */
module GuiWidgets {
  import opened Wrappers
  import opened Strings
  import opened PySeq
  import opened LineBreaks
  import opened TextEditing
  import opened Icons

  // ---------------------------------------------------------------- Button

  /** `Button`: the icon names (the keys of the icon dictionary) and the current icon. */
  class Button {
    const iconNames: seq<string>
    var currentIconId: int
    var currentIconName: string

    predicate Valid()
      reads this
    {
      0 <= currentIconId < |iconNames| && currentIconName == iconNames[currentIconId]
    }

    constructor(iconNames: seq<string>)
      requires |iconNames| > 0
      ensures Valid() && this.iconNames == iconNames && currentIconId == 0
    {
      this.iconNames := iconNames;
      currentIconId := 0;
      currentIconName := iconNames[0];
    }

    /** The next icon, cyclically; the name follows the index. */
    method NextIconName()
      requires Valid()
      modifies this
      ensures Valid()
      ensures currentIconId == NextIcon(old(currentIconId), |iconNames|)
      ensures currentIconId == (old(currentIconId) + 1) % |iconNames|
    {
      NextIconModular(currentIconId, |iconNames|);
      currentIconId := currentIconId + 1;
      if currentIconId == |iconNames| {
        currentIconId := 0;
      }
      currentIconName := iconNames[currentIconId];
    }
  }

  // ---------------------------------------------------------------- TextBox

  /** `TextBox`: the editing state and the message its text actor shows. */
  class TextBox {
    var text: string
    const width: int
    const height: int
    var windowLeft: int
    var windowRight: int
    var caretPos: int
    var init: bool
    var message: string

    function State(): Box
      reads this`text, this`windowLeft, this`windowRight, this`caretPos, this`init
    {
      Box(text, width, height, windowLeft, windowRight, caretPos, init)
    }

    predicate Valid()
      reads this`text, this`windowLeft, this`windowRight, this`caretPos, this`init
    {
      width > 0 && TextEditing.Valid(State())
    }

    constructor(width: int, height: int, text: string)
      requires width > 0
      ensures Valid() && State() == Box(text, width, height, 0, 0, 0, true) && message == text
    {
      this.text, this.width, this.height := text, width, height;
      windowLeft, windowRight, caretPos, init := 0, 0, 0, true;
      message := text;
    }

    /** `width_set_text`: the line-broken form of `t` at this box's width. */
    method WidthSetText(t: string) returns (r: string)
      requires width > 0
      ensures LineBreaks.WidthSetText(t, width) == Ok(r)
    {
      var multiLine := "";
      var i := 0;
      while i < |t|
        invariant 0 <= i <= |t|
        invariant multiLine == Broken(t[..i], width)
      {
        assert t[..i + 1][..i] == t[..i];
        multiLine := multiLine + [t[i]];
        if (i + 1) % width == 0 {
          multiLine := multiLine + "\n";
        }
        i := i + 1;
      }
      assert t[..|t|] == t;
      r := RStripNewlines(multiLine);
    }

    /** `handle_character`: "return" only re-renders without the caret;
        any other key edits, then re-renders with the caret. */
    method HandleCharacter(key: string)
      requires Valid()
      modifies this
      ensures Valid()
      ensures State() == TextEditing.HandleCharacter(old(State()), key)
      ensures message == Render(State(), Lower(key) != "return")
    {
      HandleKeepsValid(State(), key);
      var k := Lower(key);
      if k == "return" {
        RenderText(false);
      } else {
        if k == "backspace" {
          RemoveCharacter();
        } else if k == "left" {
          MoveLeft();
        } else if k == "right" {
          MoveRight();
        } else {
          AddCharacter(key);
        }
        RenderText(true);
      }
    }

    method MoveCaretRight()
      modifies this`caretPos
      ensures State() == CaretRight(old(State()))
    {
      caretPos := caretPos + 1;
      if caretPos > |text| {
        caretPos := |text|;
      }
    }

    method MoveCaretLeft()
      modifies this`caretPos
      ensures State() == CaretLeft(old(State()))
    {
      caretPos := caretPos - 1;
      if caretPos < 0 {
        caretPos := 0;
      }
    }

    method RightMoveRight()
      modifies this`windowRight
      ensures State() == TextEditing.RightMoveRight(old(State()))
    {
      if windowRight <= |text| {
        windowRight := windowRight + 1;
      }
    }

    method RightMoveLeft()
      modifies this`windowRight
      ensures State() == TextEditing.RightMoveLeft(old(State()))
    {
      if windowRight > 0 {
        windowRight := windowRight - 1;
      }
    }

    method LeftMoveRight()
      modifies this`windowLeft
      ensures State() == TextEditing.LeftMoveRight(old(State()))
    {
      if windowLeft <= |text| {
        windowLeft := windowLeft + 1;
      }
    }

    method LeftMoveLeft()
      modifies this`windowLeft
      ensures State() == TextEditing.LeftMoveLeft(old(State()))
    {
      if windowLeft > 0 {
        windowLeft := windowLeft - 1;
      }
    }

    method AddCharacter(key: string)
      requires Valid()
      modifies this`text, this`caretPos, this`windowLeft, this`windowRight
      ensures Valid()
      ensures State() == TextEditing.AddCharacter(old(State()), key)
    {
      AddKeepsValid(State(), key);
      if |key| > 1 && Lower(key) != "space" {
        return;
      }
      var c := if Lower(key) == "space" then " " else key;
      text := text[..caretPos] + c + text[caretPos..];
      MoveCaretRight();
      if windowRight - windowLeft == height * width - 1 {
        LeftMoveRight();
      }
      RightMoveRight();
    }

    method RemoveCharacter()
      requires Valid()
      modifies this`text, this`caretPos, this`windowLeft, this`windowRight
      ensures Valid()
      ensures State() == TextEditing.RemoveCharacter(old(State()))
    {
      RemoveKeepsValid(State());
      if caretPos == 0 {
        return;
      }
      text := text[..caretPos - 1] + text[caretPos..];
      MoveCaretLeft();
      if |text| < height * width - 1 {
        RightMoveLeft();
      }
      if windowRight - windowLeft == height * width - 1 {
        if windowLeft > 0 {
          LeftMoveLeft();
          RightMoveLeft();
        }
      }
    }

    method MoveLeft()
      requires Valid()
      modifies this`caretPos, this`windowLeft, this`windowRight
      ensures Valid()
      ensures State() == TextEditing.MoveLeft(old(State()))
    {
      MoveCaretLeft();
      if caretPos == windowLeft - 1 {
        if windowRight - windowLeft == height * width - 1 {
          LeftMoveLeft();
          RightMoveLeft();
        }
      }
    }

    method MoveRight()
      requires Valid()
      modifies this`caretPos, this`windowLeft, this`windowRight
      ensures Valid()
      ensures State() == TextEditing.MoveRight(old(State()))
    {
      MoveCaretRight();
      if caretPos == windowRight + 1 {
        if windowRight - windowLeft == height * width - 1 {
          LeftMoveRight();
          RightMoveRight();
        }
      }
    }

    /** `showable_text`: what of the text the window lets through. */
    method ShowableText(showCaret: bool) returns (r: string)
      requires Valid()
      ensures r == TextEditing.ShowableText(State(), showCaret)
      ensures showCaret && windowLeft == 0 && windowRight >= |text| ==> r == text[..caretPos] + "_" + text[caretPos..]
      ensures !showCaret && windowLeft == 0 && windowRight >= |text| ==> r == text
    {
      var retText := text;
      if showCaret {
        retText := text[..caretPos] + "_" + text[caretPos..];
      }
      r := Slice(retText, windowLeft, windowRight + 1);
    }

    method RenderText(showCaret: bool)
      requires Valid()
      modifies this`message
      ensures message == Render(State(), showCaret)
    {
      var t := ShowableText(showCaret);
      if t == "" {
        t := "Enter Text";
      }
      message := WidthSetText(t);
    }

    /** `edit_mode`: clear the placeholder on the first click, then render with the caret. */
    method EditMode()
      requires Valid()
      modifies this
      ensures Valid()
      ensures State() == TextEditing.EditMode(old(State()))
      ensures message == Render(State(), true)
    {
      if init {
        text := "";
        init := false;
        caretPos := 0;
      }
      RenderText(true);
    }
  }

  // ---------------------------------------------------------------- SliderDisk

  /** `SliderDisk`: the disk's actor position, held at height `posHeight`
      and kept between the x coordinates of the line's two ends. */
  class SliderDisk {
    const startX: int
    const endX: int
    const posHeight: int
    var x: int
    var y: int

    constructor(positionX: int, positionY: int, startX: int, endX: int)
      ensures this.startX == startX && this.endX == endX && posHeight == positionY
      ensures x == positionX && y == positionY
    {
      this.startX, this.endX, posHeight := startX, endX, positionY;
      x, y := positionX, positionY;
    }

    /** `set_position`: x clamped to the line (to its end if the ends are
        reversed), y always the disk's own height. */
    method SetPosition(px: int)
      modifies this`x, this`y
      ensures y == posHeight
      ensures startX <= endX ==> startX <= x <= endX
      ensures startX <= px <= endX ==> x == px
      ensures px < startX <= endX ==> x == startX
      ensures px > endX ==> x == endX
      ensures startX > endX ==> x == endX
    {
      var xPosition := px;
      if xPosition < startX {
        xPosition := startX;
      }
      if xPosition > endX {
        xPosition := endX;
      }
      x, y := xPosition, posHeight;
    }
  }

  // ---------------------------------------------------------------- SliderText

  /** Python 2 `a / b` on integers: the quotient rounded towards minus infinity. */
  function FloorDiv(a: int, b: int): (q: int)
    requires b != 0
    ensures b > 0 ==> q * b <= a < q * b + b
    ensures b < 0 ==> q * b >= a > q * b + b
  {
    if b > 0 then a / b else (-a) / (-b)
  }

  /** The percentage before it is printed: `(current - left) * 100 / (right -
      left)` clamped into [0, 100]. */
  function Percentage(current: int, left: int, right: int): (p: int)
    requires left != right
    ensures 0 <= p <= 100
  {
    var q := FloorDiv((current - left) * 100, right - left);
    if q < 0 then 0 else if q > 100 then 100 else q
  }

  /** `calculate_percentage`: ZeroDivisionError when the line has no width. */
  function CalculatePercentage(current: int, left: int, right: int): (r: Result<string>)
    ensures r.Err? <==> left == right
    ensures r.Err? ==> r.error == ZeroDivisionError
  {
    if left == right then Err(ZeroDivisionError)
    else Ok(DecimalString(Percentage(current, left, right)) + "%")
  }

  /** `q * d <= k * d` when `q <= k` and `d` is positive. */
  lemma MulMono(q: int, k: int, d: int)
    requires q <= k && d > 0
    ensures q * d <= k * d
  {
    assert k * d - q * d == (k - q) * d;
  }

  /** On a line from left to right: at or before its start the label says 0,
      at or past its end 100, and in between the whole percentage of the way
      along, rounded down. */
  lemma PercentageSpec(current: int, left: int, right: int)
    requires left < right
    ensures current <= left ==> Percentage(current, left, right) == 0
    ensures current >= right ==> Percentage(current, left, right) == 100
    ensures left <= current <= right ==>
      var p := Percentage(current, left, right);
      p * (right - left) <= (current - left) * 100 < (p + 1) * (right - left)
  {
    var d := right - left;
    var a := (current - left) * 100;
    var q := FloorDiv(a, d);
    if current <= left && q > 0 {
      MulMono(1, q, d);
    }
    if current >= right && q < 100 {
      MulMono(q + 1, 100, d);
    }
    if left <= current <= right {
      if q < 0 {
        MulMono(q + 1, 0, d);
      }
      if q > 100 {
        MulMono(101, q, d);
      }
    }
  }

  /** The label reads back as the percentage, followed by "%". */
  lemma CalculatePercentageReadsBack(current: int, left: int, right: int)
    requires left != right
    ensures var s := CalculatePercentage(current, left, right).value;
      && |s| > 1 && s[|s| - 1] == '%'
      && DecimalValue(s[..|s| - 1]) == Percentage(current, left, right)
  {
    var p := Percentage(current, left, right);
    var s := DecimalString(p) + "%";
    assert s[..|s| - 1] == DecimalString(p);
    DecimalRoundTrip(p);
  }

  /** `SliderText`: the x coordinates of the line's ends and the label shown. */
  class SliderText {
    const leftX: int
    const rightX: int
    var message: string

    constructor(leftX: int, rightX: int, current: int)
      requires leftX != rightX
      ensures this.leftX == leftX && this.rightX == rightX
      ensures Ok(message) == CalculatePercentage(current, leftX, rightX)
    {
      this.leftX, this.rightX := leftX, rightX;
      new;
      message := CalculatePercentage(current, leftX, rightX).value;
    }

    /** `set_percentage`: the label shows the percentage of `current`. */
    method SetPercentage(current: int)
      requires leftX != rightX
      modifies this`message
      ensures Ok(message) == CalculatePercentage(current, leftX, rightX)
    {
      var percentage := (current - leftX) * 100;
      percentage := FloorDiv(percentage, rightX - leftX);
      if percentage < 0 {
        percentage := 0;
      }
      if percentage > 100 {
        percentage := 100;
      }
      message := DecimalString(percentage) + "%";
    }
  }
}
