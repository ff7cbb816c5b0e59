/** `width_set_text` of the text boxes: a line break after every `width`-th
    character, then trailing line breaks stripped. */
module LineBreaks {
  import opened Wrappers
  import opened PySeq
  import opened Modulo

  /** The text with "\n" appended after every character whose one-based
      position is a multiple of `w` (before the final `rstrip`). */
  function Broken(t: string, w: int): (r: string)
    requires w != 0
    decreases |t|
  {
    if |t| == 0 then ""
    else Broken(t[..|t| - 1], w) + [t[|t| - 1]] + (if |t| % w == 0 then "\n" else "")
  }

  /** `width_set_text(text)` with `self.width == w`: ZeroDivisionError on a
      zero width as soon as there is a character to place. */
  function WidthSetText(t: string, w: int): (r: Result<string>)
    ensures r.Err? <==> w == 0 && |t| > 0
    ensures r.Err? ==> r.error == ZeroDivisionError
    ensures r.Ok? && |r.value| > 0 ==> r.value[|r.value| - 1] != '\n'
  {
    if |t| == 0 then Ok("")
    else if w == 0 then Err(ZeroDivisionError)
    else Ok(RStripNewlines(Broken(t, w)))
  }

  /** The text with its line breaks taken out. */
  function Unbroken(s: string): (r: string)
    ensures '\n' !in r
    decreases |s|
  {
    if |s| == 0 then ""
    else Unbroken(s[..|s| - 1]) + (if s[|s| - 1] == '\n' then "" else [s[|s| - 1]])
  }

  /** The number of characters after the last line break: the length of the last line. */
  function LastLine(s: string): (r: nat)
    ensures r <= |s|
    decreases |s|
  {
    if |s| == 0 || s[|s| - 1] == '\n' then 0 else LastLine(s[..|s| - 1]) + 1
  }

  /** No line of `s` is longer than `n` characters: every prefix ends on a
      line of at most `n` characters. */
  predicate ShortLines(s: string, n: nat)
  {
    forall i :: 0 <= i <= |s| ==> LastLine(s[..i]) <= n
  }

  /** Every line of `s` that ends in a line break holds exactly `n`
      characters. */
  predicate FullLines(s: string, n: nat)
  {
    forall i :: 0 <= i < |s| && s[i] == '\n' ==> LastLine(s[..i]) == n
  }

  /** Appending one character keeps it unless it is a line break. */
  lemma UnbrokenSnoc(s: string, c: char)
    ensures Unbroken(s + [c]) == Unbroken(s) + (if c == '\n' then "" else [c])
  {
    assert (s + [c])[..|s|] == s;
  }

  /** Breaking lines adds nothing but line breaks. */
  lemma {:induction false} BrokenUnbroken(t: string, w: int)
    requires w != 0
    ensures Unbroken(Broken(t, w)) == Unbroken(t)
    decreases |t|
  {
    if |t| > 0 {
      var p := t[..|t| - 1];
      var c := t[|t| - 1];
      BrokenUnbroken(p, w);
      var bc := Broken(p, w) + [c];
      UnbrokenSnoc(Broken(p, w), c);
      UnbrokenSnoc(p, c);
      assert p + [c] == t;
      if |t| % w == 0 {
        assert Broken(t, w) == bc + ['\n'];
        UnbrokenSnoc(bc, '\n');
      } else {
        assert Broken(t, w) == bc;
      }
    }
  }

  /** Stripping trailing line breaks removes line breaks only. */
  lemma {:induction false} StripUnbroken(s: string)
    ensures Unbroken(RStripNewlines(s)) == Unbroken(s)
    decreases |s|
  {
    if |s| > 0 && s[|s| - 1] == '\n' {
      StripUnbroken(s[..|s| - 1]);
    }
  }

  /** Every character of the text survives `width_set_text` in order, and
      nothing but line breaks is added: taking the line breaks out of the
      result gives the text with its own line breaks taken out. */
  lemma WidthSetTextKeepsCharacters(t: string, w: int)
    requires w != 0
    ensures Unbroken(WidthSetText(t, w).value) == Unbroken(t)
  {
    if |t| > 0 {
      BrokenUnbroken(t, w);
      StripUnbroken(Broken(t, w));
    }
  }

  /** On text without line breaks, the last line of the broken text is as
      long as the remainder of the text's length by `w`, and no line is
      longer than `w`. */
  lemma {:induction false} BrokenLines(t: string, w: nat)
    requires w > 0 && '\n' !in t
    ensures LastLine(Broken(t, w)) == |t| % w
    ensures ShortLines(Broken(t, w), w)
    decreases |t|
  {
    if |t| > 0 {
      var p := t[..|t| - 1];
      var c := t[|t| - 1];
      assert '\n' !in p by {
        forall i | 0 <= i < |p| ensures p[i] != '\n' {
          assert p[i] == t[i];
        }
      }
      BrokenLines(p, w);
      NextRemainder(|p|, w);
      assert |p| + 1 == |t|;
      var bc := Broken(p, w) + [c];
      AppendCharLines(Broken(p, w), c, w);
      if |t| % w == 0 {
        assert Broken(t, w) == bc + "\n";
        AppendBreakLines(bc, w);
      } else {
        assert Broken(t, w) == bc;
      }
    }
  }

  /** Appending a character other than a line break lengthens the last line by one. */
  lemma AppendCharLines(b: string, c: char, n: nat)
    requires ShortLines(b, n) && LastLine(b) < n && c != '\n'
    ensures LastLine(b + [c]) == LastLine(b) + 1
    ensures ShortLines(b + [c], n)
  {
    var bc := b + [c];
    assert bc[..|bc| - 1] == b;
    forall i | 0 <= i <= |bc| ensures LastLine(bc[..i]) <= n {
      if i <= |b| {
        assert bc[..i] == b[..i];
      } else {
        assert bc[..i] == bc;
      }
    }
  }

  /** Appending a line break starts an empty last line. */
  lemma AppendBreakLines(b: string, n: nat)
    requires ShortLines(b, n)
    ensures LastLine(b + "\n") == 0
    ensures ShortLines(b + "\n", n)
  {
    var bn := b + "\n";
    forall i | 0 <= i <= |bn| ensures LastLine(bn[..i]) <= n {
      if i <= |b| {
        assert bn[..i] == b[..i];
      } else {
        assert bn[..i] == bn;
      }
    }
  }

  lemma NextRemainder(n: nat, w: nat)
    requires w > 0
    ensures (n + 1) % w == 0 ==> n % w + 1 == w
    ensures (n + 1) % w != 0 ==> (n + 1) % w == n % w + 1
  {
    var q, r := n / w, n % w;
    assert n == q * w + r;
    if r + 1 == w {
      assert (q + 1) * w == q * w + w;
      ModUnique(n + 1, q + 1, 0, w);
    } else {
      ModUnique(n + 1, q, r + 1, w);
    }
  }

  /** A prefix keeps short lines. */
  lemma ShortLinesPrefix(s: string, n: nat, k: nat)
    requires ShortLines(s, n) && k <= |s|
    ensures ShortLines(s[..k], n)
  {
    forall i | 0 <= i <= k ensures LastLine(s[..k][..i]) <= n {
      assert s[..k][..i] == s[..i];
    }
  }

  /** On text without line breaks and a positive width, no line of the
      result is longer than `width` characters. */
  lemma WidthSetTextShortLines(t: string, w: int)
    requires w > 0 && '\n' !in t
    ensures ShortLines(WidthSetText(t, w).value, w)
  {
    if |t| > 0 {
      BrokenLines(t, w);
      var b := Broken(t, w);
      var r := RStripNewlines(b);
      ShortLinesPrefix(b, w, |r|);
      assert b[..|r|] == r;
    }
  }

  /** On text without line breaks, every line break that breaking inserts
      closes a line of exactly `w` characters. */
  lemma {:induction false} BrokenFullLines(t: string, w: nat)
    requires w > 0 && '\n' !in t
    ensures FullLines(Broken(t, w), w)
    decreases |t|
  {
    if |t| > 0 {
      var p := t[..|t| - 1];
      var c := t[|t| - 1];
      assert '\n' !in p by {
        forall i | 0 <= i < |p| ensures p[i] != '\n' {
          assert p[i] == t[i];
        }
      }
      BrokenFullLines(p, w);
      BrokenLines(p, w);
      NextRemainder(|p|, w);
      assert |p| + 1 == |t|;
      var bp := Broken(p, w);
      AppendCharLines(bp, c, w);
      AppendCharFull(bp, c, w);
      if |t| % w == 0 {
        assert Broken(t, w) == bp + [c] + "\n";
        AppendBreakFull(bp + [c], w);
      } else {
        assert Broken(t, w) == bp + [c];
      }
    }
  }

  /** Appending a character other than a line break closes no line. */
  lemma AppendCharFull(s: string, c: char, n: nat)
    requires FullLines(s, n) && c != '\n'
    ensures FullLines(s + [c], n)
  {
    var sc := s + [c];
    forall i | 0 <= i < |sc| && sc[i] == '\n' ensures LastLine(sc[..i]) == n {
      assert i < |s| && sc[i] == s[i] && sc[..i] == s[..i];
    }
  }

  /** Appending a line break after a line of `n` characters closes a full line. */
  lemma AppendBreakFull(s: string, n: nat)
    requires FullLines(s, n) && LastLine(s) == n
    ensures FullLines(s + "\n", n)
  {
    var sn := s + "\n";
    forall i | 0 <= i < |sn| && sn[i] == '\n' ensures LastLine(sn[..i]) == n {
      if i < |s| {
        assert sn[i] == s[i] && sn[..i] == s[..i];
      } else {
        assert sn[..i] == s;
      }
    }
  }

  /** On text without line breaks and a positive width, `width_set_text`
      puts a line break after every `width`-th character: every line of the
      result that ends in a line break holds exactly `width` characters. */
  lemma WidthSetTextFullLines(t: string, w: int)
    requires w > 0 && '\n' !in t
    ensures FullLines(WidthSetText(t, w).value, w)
  {
    if |t| > 0 {
      BrokenFullLines(t, w);
      var b := Broken(t, w);
      var r := RStripNewlines(b);
      forall i | 0 <= i < |r| && r[i] == '\n' ensures LastLine(r[..i]) == w {
        assert r[i] == b[i];
        assert r[..i] == b[..i];
      }
    }
  }
}
