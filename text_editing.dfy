/** The editable text box shared by `TextBox2D` (dipy/viz/ui.py) and its
    older twin `TextBox` (dipy/viz/gui.py): a caret and a visible window
    over a string, edited one key at a time. These functions say what each
    editing method does to the box; the two classes are proved against them. */
module TextEditing {
  import opened Strings
  import opened PySeq
  import opened LineBreaks

  /** The editing state of a text box: the text, the `width` characters per
      line and `height` lines, the window `[left, right]` of visible text, the
      caret position, and whether the placeholder text is still shown. */
  datatype Box = Box(text: string, width: int, height: int, left: int, right: int, caret: int, init: bool)

  /** The caret lies within the text, and neither window bound is negative. */
  predicate Valid(b: Box)
  {
    0 <= b.caret <= |b.text| && 0 <= b.left && 0 <= b.right
  }

  /** `height * width - 1`: the window width at which the window starts to scroll. */
  function Capacity(b: Box): int
  {
    b.height * b.width - 1
  }

  /** `set_message`: the whole message, caret at its end, window `[0, len]`. */
  function SetMessage(b: Box, m: string): (r: Box)
    ensures Valid(r) && r.text == m && r.caret == |m| && !r.init
    ensures r.left == 0 && r.right == |m|
    ensures r.width == b.width && r.height == b.height
  {
    b.(text := m, init := false, right := |m|, left := 0, caret := |m|)
  }

  /** `edit_mode`: the first click clears the placeholder text. */
  function EditMode(b: Box): (r: Box)
    ensures b.init ==> r.text == "" && r.caret == 0 && !r.init
    ensures !b.init ==> r == b
    ensures r.left == b.left && r.right == b.right && r.width == b.width && r.height == b.height
  {
    if b.init then b.(text := "", init := false, caret := 0) else b
  }

  // ---------------------------------------------------------------- caret and window steps

  function CaretRight(b: Box): Box
  {
    b.(caret := if b.caret + 1 < |b.text| then b.caret + 1 else |b.text|)
  }

  function CaretLeft(b: Box): Box
  {
    b.(caret := if b.caret - 1 > 0 then b.caret - 1 else 0)
  }

  function RightMoveRight(b: Box): Box
  {
    if b.right <= |b.text| then b.(right := b.right + 1) else b
  }

  function RightMoveLeft(b: Box): Box
  {
    if b.right > 0 then b.(right := b.right - 1) else b
  }

  function LeftMoveRight(b: Box): Box
  {
    if b.left <= |b.text| then b.(left := b.left + 1) else b
  }

  function LeftMoveLeft(b: Box): Box
  {
    if b.left > 0 then b.(left := b.left - 1) else b
  }

  // ---------------------------------------------------------------- editing

  /** `add_character` ignores a key name of more than one character other than "space". */
  predicate Ignored(key: string)
  {
    |key| > 1 && Lower(key) != "space"
  }

  /** What `add_character` inserts for a key it does not ignore. */
  function Inserted(key: string): string
  {
    if Lower(key) == "space" then " " else key
  }

  /** `add_character`: insert at the caret, move the caret right, and scroll
      the window when it is full. */
  function AddCharacter(b: Box, key: string): Box
    requires Valid(b)
  {
    if Ignored(key) then b
    else
      var b1 := b.(text := b.text[..b.caret] + Inserted(key) + b.text[b.caret..]);
      var b2 := CaretRight(b1);
      var b3 := if b2.right - b2.left == Capacity(b2) then LeftMoveRight(b2) else b2;
      RightMoveRight(b3)
  }

  /** `remove_character`: delete the character before the caret. */
  function RemoveCharacter(b: Box): Box
    requires Valid(b)
  {
    if b.caret == 0 then b
    else
      var b1 := b.(text := b.text[..b.caret - 1] + b.text[b.caret..]);
      var b2 := CaretLeft(b1);
      var b3 := if |b2.text| < Capacity(b2) then RightMoveLeft(b2) else b2;
      if b3.right - b3.left == Capacity(b3) && b3.left > 0 then RightMoveLeft(LeftMoveLeft(b3)) else b3
  }

  /** `move_left`: the caret steps left, and a full window follows it. */
  function MoveLeft(b: Box): Box
  {
    var b1 := CaretLeft(b);
    if b1.caret == b1.left - 1 && b1.right - b1.left == Capacity(b1) then RightMoveLeft(LeftMoveLeft(b1)) else b1
  }

  /** `move_right`: the caret steps right, and a full window follows it. */
  function MoveRight(b: Box): Box
  {
    var b1 := CaretRight(b);
    if b1.caret == b1.right + 1 && b1.right - b1.left == Capacity(b1) then RightMoveRight(LeftMoveRight(b1)) else b1
  }

  /** The editing half of `handle_character`: "return" edits nothing. */
  function HandleCharacter(b: Box, key: string): Box
    requires Valid(b)
  {
    var k := Lower(key);
    if k == "return" then b
    else if k == "backspace" then RemoveCharacter(b)
    else if k == "left" then MoveLeft(b)
    else if k == "right" then MoveRight(b)
    else AddCharacter(b, key)
  }

  // ---------------------------------------------------------------- what is shown

  /** `showable_text`: the text, with "_" at the caret when asked, cut to
      the window `[left, right]` the way Python slices. */
  function ShowableText(b: Box, showCaret: bool): string
    requires Valid(b)
  {
    var t := if showCaret then b.text[..b.caret] + "_" + b.text[b.caret..] else b.text;
    Slice(t, b.left, b.right + 1)
  }

  /** `render_text`: the message given to the text actor. */
  function Render(b: Box, showCaret: bool): string
    requires Valid(b) && b.width != 0
  {
    var t := ShowableText(b, showCaret);
    WidthSetText(if t == "" then "Enter Text" else t, b.width).value
  }

  // ---------------------------------------------------------------- properties

  /** The caret steps clamp the caret into `[0, len(text)]`; the window
      steps move one bound by one and never take it below 0. */
  lemma StepsKeepValid(b: Box)
    requires Valid(b)
    ensures Valid(CaretRight(b)) && Valid(CaretLeft(b))
    ensures Valid(RightMoveRight(b)) && Valid(RightMoveLeft(b))
    ensures Valid(LeftMoveRight(b)) && Valid(LeftMoveLeft(b))
    ensures CaretRight(b).caret == (if b.caret < |b.text| then b.caret + 1 else |b.text|)
    ensures CaretLeft(b).caret == (if b.caret > 0 then b.caret - 1 else 0)
    ensures RightMoveLeft(b).right == (if b.right > 0 then b.right - 1 else 0)
    ensures LeftMoveLeft(b).left == (if b.left > 0 then b.left - 1 else 0)
    ensures RightMoveRight(b).right == (if b.right <= |b.text| then b.right + 1 else b.right)
    ensures LeftMoveRight(b).left == (if b.left <= |b.text| then b.left + 1 else b.left)
  {
  }

  /** Every editing step keeps the caret within the text and the window
      bounds non-negative. */
  lemma AddKeepsValid(b: Box, key: string)
    requires Valid(b)
    ensures Valid(AddCharacter(b, key))
  {
  }

  lemma RemoveKeepsValid(b: Box)
    requires Valid(b)
    ensures Valid(RemoveCharacter(b))
  {
  }

  lemma HandleKeepsValid(b: Box, key: string)
    requires Valid(b)
    ensures Valid(HandleCharacter(b, key))
  {
    var k := Lower(key);
    if k == "backspace" {
      RemoveKeepsValid(b);
    } else if k != "return" && k != "left" && k != "right" {
      AddKeepsValid(b, key);
    }
  }

  /** The caret moves clamp: one step left or right, never past either end,
      and the text is untouched. */
  lemma CaretMoves(b: Box)
    requires Valid(b)
    ensures MoveLeft(b).text == b.text && MoveRight(b).text == b.text
    ensures MoveLeft(b).caret == (if b.caret > 0 then b.caret - 1 else 0)
    ensures MoveRight(b).caret == (if b.caret < |b.text| then b.caret + 1 else |b.text|)
  {
  }

  /** A key of one character is inserted at the caret, and the caret moves
      past it; a longer key other than "space" changes nothing, and "space"
      inserts a blank. */
  lemma AddCharacterSpec(b: Box, key: string)
    requires Valid(b)
    ensures Ignored(key) ==> AddCharacter(b, key) == b
    ensures !Ignored(key) && key != "" ==>
      var r := AddCharacter(b, key);
      var c := if |key| == 1 then key[0] else ' ';
      && |r.text| == |b.text| + 1
      && r.text[b.caret] == c
      && r.text[..b.caret] == b.text[..b.caret]
      && r.text[b.caret + 1..] == b.text[b.caret..]
      && r.caret == b.caret + 1
    ensures key == "" ==> AddCharacter(b, key).text == b.text
  {
    if !Ignored(key) {
      var s := Inserted(key);
      if key != "" {
        assert |s| == 1 by {
          if Lower(key) == "space" {
          } else {
            assert |key| == 1;
          }
        }
        assert |key| == 1 ==> s[0] == key[0] by {
          if |key| == 1 {
            assert |Lower(key)| != |"space"|;
          }
        }
        var t := b.text[..b.caret] + s + b.text[b.caret..];
        assert t[..b.caret] == b.text[..b.caret];
        assert t[b.caret + 1..] == b.text[b.caret..];
      } else {
        assert b.text[..b.caret] + "" + b.text[b.caret..] == b.text;
      }
    }
  }

  /** Backspace at the start changes nothing; otherwise it deletes exactly
      the character before the caret and moves the caret left by one. */
  lemma RemoveCharacterSpec(b: Box)
    requires Valid(b)
    ensures b.caret == 0 ==> RemoveCharacter(b) == b
    ensures b.caret > 0 ==>
      var r := RemoveCharacter(b);
      && |r.text| == |b.text| - 1
      && r.caret == b.caret - 1
      && r.text[..r.caret] == b.text[..b.caret - 1]
      && r.text[r.caret..] == b.text[b.caret..]
  {
    if b.caret > 0 {
      var t := b.text[..b.caret - 1] + b.text[b.caret..];
      assert t[..b.caret - 1] == b.text[..b.caret - 1];
      assert t[b.caret - 1..] == b.text[b.caret..];
    }
  }

  /** Typing a character and then backspace gives back the text and the caret. */
  lemma RemoveUndoesAdd(b: Box, key: string)
    requires Valid(b) && |key| == 1
    ensures RemoveCharacter(AddCharacter(b, key)).text == b.text
    ensures RemoveCharacter(AddCharacter(b, key)).caret == b.caret
  {
    AddCharacterSpec(b, key);
    var a := AddCharacter(b, key);
    AddKeepsValid(b, key);
    RemoveCharacterSpec(a);
    var r := RemoveCharacter(a);
    assert r.text == r.text[..r.caret] + r.text[r.caret..];
    assert b.text == b.text[..b.caret] + b.text[b.caret..];
  }

  /** Backspace and then typing the deleted character gives back the text and the caret. */
  lemma AddUndoesRemove(b: Box)
    requires Valid(b) && b.caret > 0
    ensures var c := [b.text[b.caret - 1]];
      && AddCharacter(RemoveCharacter(b), c).text == b.text
      && AddCharacter(RemoveCharacter(b), c).caret == b.caret
  {
    var c := [b.text[b.caret - 1]];
    RemoveCharacterSpec(b);
    var r := RemoveCharacter(b);
    RemoveKeepsValid(b);
    AddCharacterSpec(r, c);
    var a := AddCharacter(r, c);
    assert a.text == a.text[..r.caret] + [a.text[r.caret]] + a.text[r.caret + 1..];
    assert b.text == b.text[..b.caret - 1] + c + b.text[b.caret..];
  }

  /** `handle_character` leaves the text alone on "return" and on the caret
      keys, and otherwise types or deletes. */
  lemma HandleCharacterSpec(b: Box, key: string)
    requires Valid(b)
    ensures Lower(key) == "return" ==> HandleCharacter(b, key) == b
    ensures Lower(key) in {"return", "left", "right"} ==> HandleCharacter(b, key).text == b.text
    ensures Lower(key) == "backspace" ==> HandleCharacter(b, key) == RemoveCharacter(b)
    ensures Lower(key) !in {"return", "backspace", "left", "right"} ==> HandleCharacter(b, key) == AddCharacter(b, key)
  {
  }

  /** Right after `set_message` the window covers the whole message, so
      the text box shows all of it, with the caret after its last character. */
  lemma SetMessageShowsAll(b: Box, m: string)
    ensures ShowableText(SetMessage(b, m), false) == m
    ensures ShowableText(SetMessage(b, m), true) == m + "_"
  {
    var r := SetMessage(b, m);
    assert r.text[..r.caret] + "_" + r.text[r.caret..] == m + "_";
  }

  /** At most `right - left + 1` characters are shown. */
  lemma ShowableWindow(b: Box, showCaret: bool)
    requires Valid(b)
    ensures |ShowableText(b, showCaret)| <= (if b.right + 1 > b.left then b.right + 1 - b.left else 0)
  {
  }

  /** A message without line breaks shows none, whether or not the caret is drawn. */
  lemma ShowableNoBreaks(b: Box, showCaret: bool)
    requires Valid(b) && '\n' !in b.text
    ensures '\n' !in ShowableText(b, showCaret)
  {
    var full := if showCaret then b.text[..b.caret] + "_" + b.text[b.caret..] else b.text;
    forall i | 0 <= i < |full| ensures full[i] != '\n' {
      if showCaret && i != b.caret {
        assert full[i] == b.text[if i < b.caret then i else i - 1];
      }
    }
    var t := ShowableText(b, showCaret);
    if t != "" {
      forall i | 0 <= i < |t| ensures t[i] != '\n' {
        assert t[i] == full[Clip(b.left, |full|) + i];
      }
    }
  }

  /** The rendered message reads as what is shown, broken into lines, or as
      "Enter Text" when nothing is shown. For a message without line breaks
      and a positive width, every line holds at most `width` characters,
      every line but the last exactly `width`. */
  lemma RenderSpec(b: Box, showCaret: bool)
    requires Valid(b) && b.width != 0
    ensures var t := ShowableText(b, showCaret);
      Unbroken(Render(b, showCaret)) == Unbroken(if t == "" then "Enter Text" else t)
    ensures b.width > 0 && '\n' !in b.text ==> ShortLines(Render(b, showCaret), b.width)
    ensures b.width > 0 && '\n' !in b.text ==> FullLines(Render(b, showCaret), b.width)
  {
    var t := ShowableText(b, showCaret);
    var u := if t == "" then "Enter Text" else t;
    WidthSetTextKeepsCharacters(u, b.width);
    if b.width > 0 && '\n' !in b.text {
      ShowableNoBreaks(b, showCaret);
      WidthSetTextShortLines(u, b.width);
      WidthSetTextFullLines(u, b.width);
    }
  }
}
