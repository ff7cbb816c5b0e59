/** The threshold text box next to the clustering slider of the curation
    viewer (bin/dipy_streamlines_viz.py): a key filter in front of a text
    box that only lets digits, ".", backspace and enter through, and at most
    four characters. The box edits as `TextBox2D` does. */
module ThresholdBox {
  import opened Strings
  import opened TextEditing
  import opened UiWidgets

  /** What the key press callback does with a (lower-cased) key. */
  datatype Route =
    | Unauthorized        // not a key the box accepts: nothing happens
    | ResetEmpty          // enter on an empty box: show the slider's value again
    | Full                // a character while four are already typed: nothing happens
    | Typed(key: string)  // handed to the text box ("period" as ".")

  predicate IsDigitKey(key: string)
  {
    key in {"0", "1", "2", "3", "4", "5", "6", "7", "8", "9"}
  }

  predicate IsEnter(key: string)
  {
    key == "return" || key == "kp_enter"
  }

  function RouteKey(key: string, length: nat): (r: Route)
    ensures r.Typed? ==> IsDigitKey(r.key) || r.key in {".", "backspace", "return", "kp_enter"}
  {
    if !IsDigitKey(key) && key !in {"period", "backspace", "return", "kp_enter"} then Unauthorized
    else if length == 0 && IsEnter(key) then ResetEmpty
    else if length >= 4 && key != "backspace" && !IsEnter(key) then Full
    else Typed(if key == "period" then "." else key)
  }

  /** A character the threshold box can hold once typed into. */
  predicate NumberChar(c: char)
  {
    '0' <= c <= '9' || c == '.'
  }

  lemma LowerKeys()
    ensures Lower("return") == "return" && Lower("backspace") == "backspace"
    ensures Lower("kp_enter") == "kp_enter" && Lower(".") == "."
    ensures forall d :: IsDigitKey(d) ==> Lower(d) == d && |d| == 1 && NumberChar(d[0])
  {
    assert Lower("return") == "return";
    assert Lower("backspace") == "backspace";
    assert Lower("kp_enter") == "kp_enter";
  }

  /** A key the filter passes on never makes the text longer than four
      characters, nor longer than it already was. */
  lemma TypedKeepsShort(b: Box, key: string)
    requires TextEditing.Valid(b)
    ensures var r := RouteKey(key, |b.text|);
      r.Typed? ==> |HandleCharacter(b, r.key).text| <= (if |b.text| > 4 then |b.text| else 4)
  {
    var r := RouteKey(key, |b.text|);
    if r.Typed? {
      LowerKeys();
      var k := r.key;
      if k == "backspace" {
        RemoveCharacterSpec(b);
      } else if k != "return" {
        AddCharacterSpec(b, k);
      }
    }
  }

  predicate Numeric(t: string)
  {
    forall i :: 0 <= i < |t| ==> NumberChar(t[i])
  }

  /** Typed into, the box holds digits and "." only: the filter passes on
      no other character. */
  lemma TypedKeepsNumeric(b: Box, key: string)
    requires TextEditing.Valid(b) && Numeric(b.text)
    ensures var r := RouteKey(key, |b.text|);
      r.Typed? ==> Numeric(HandleCharacter(b, r.key).text)
  {
    var r := RouteKey(key, |b.text|);
    if r.Typed? {
      LowerKeys();
      var k := r.key;
      if k == "backspace" {
        assert HandleCharacter(b, k) == RemoveCharacter(b);
        RemoveKeepsNumeric(b);
      } else if k == "kp_enter" {
        assert HandleCharacter(b, k) == b;
      } else if k != "return" {
        assert HandleCharacter(b, k) == AddCharacter(b, k);
        AddKeepsNumeric(b, k);
      }
    }
  }

  lemma RemoveKeepsNumeric(b: Box)
    requires TextEditing.Valid(b) && Numeric(b.text)
    ensures Numeric(RemoveCharacter(b).text)
  {
    RemoveCharacterSpec(b);
    var t := RemoveCharacter(b).text;
    if b.caret > 0 {
      forall i | 0 <= i < |t| ensures NumberChar(t[i]) {
        if i < b.caret - 1 {
          assert t[i] == t[..b.caret - 1][i];
        } else {
          assert t[i] == t[b.caret - 1..][i - (b.caret - 1)];
        }
      }
    }
  }

  lemma AddKeepsNumeric(b: Box, k: string)
    requires TextEditing.Valid(b) && Numeric(b.text)
    requires |k| == 1 && NumberChar(k[0])
    ensures Numeric(AddCharacter(b, k).text)
  {
    AddCharacterSpec(b, k);
    var t := AddCharacter(b, k).text;
    forall i | 0 <= i < |t| ensures NumberChar(t[i]) {
      if i < b.caret {
        assert t[i] == t[..b.caret][i];
      } else if i > b.caret {
        assert t[i] == t[b.caret + 1..][i - (b.caret + 1)];
      }
    }
  }

  /** On a box that holds text, keypad enter is passed on but does not
      finish the entry: `handle_character` treats it as a key name to type,
      and ignores it. */
  lemma KeypadEnterOnText(b: Box)
    requires TextEditing.Valid(b) && |b.text| > 0
    ensures RouteKey("kp_enter", |b.text|) == Typed("kp_enter")
    ensures Lower("kp_enter") != "return"
    ensures HandleCharacter(b, "kp_enter") == b
  {
    LowerKeys();
  }

  /** `slider_textbox_keypress_callback` up to the parse of the finished
      entry: returns whether the box gives up the keyboard focus. */
  method OnThresholdKey(box: TextBox2D, rawKey: string, shownValue: string) returns (released: bool)
    requires box.Valid()
    modifies box
    ensures box.Valid()
    ensures var r := RouteKey(Lower(rawKey), |old(box.text)|);
      && ((r == Unauthorized || r == Full) ==> box.State() == old(box.State()) && box.message == old(box.message) && !released)
      && (r == ResetEmpty ==> box.State() == SetMessage(old(box.State()), shownValue) && box.message == shownValue && released)
      && (r.Typed? ==> box.State() == HandleCharacter(old(box.State()), r.key) && (released <==> r.key == "return"))
  {
    var key := Lower(rawKey);
    var route := RouteKey(key, |box.text|);
    LowerKeys();
    if route == Unauthorized || route == Full {
      released := false;
    } else if route == ResetEmpty {
      box.SetMessage(shownValue);
      released := true;
    } else {
      released := box.HandleCharacter(route.key);
    }
  }
}
