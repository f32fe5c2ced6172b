/**
 * The fixed-width primitives of the board layout: `fix_width`, which keeps
 * the END of an over-long token so that a trailing `+`/`-` stays visible,
 * and `center`, which keeps its beginning. Both centre the kept text with
 * the odd space, if any, on the right.
 */
module Format {
  import opened Text

  /** `r` is `t` with `left` spaces before it and the rest of `r` spaces
      after it, the right padding being the left padding or one more. */
  predicate CentredIn(r: string, t: string, left: nat) {
    && left + |t| <= |r|
    && r[left..left + |t|] == t
    && Blank(r[..left]) && Blank(r[left + |t|..])
    && left <= |r| - |t| - left <= left + 1
  }

  /** The balance condition fixes the left padding: there is only one way
      to centre a text in a given width. */
  lemma CentringUnique(r: string, t: string, l1: nat, l2: nat)
    requires CentredIn(r, t, l1) && CentredIn(r, t, l2)
    ensures l1 == l2
  {
  }

  /** `" " * left + t + " " * right` with Python's floor split of the
      padding; a negative padding yields no spaces. */
  function Pad(t: string, width: int): string {
    var pad := width - |t|;
    var left := pad / 2;
    Spaces(left) + t + Spaces(pad - left)
  }

  lemma PadCentres(t: string, width: nat)
    requires |t| <= width
    ensures |Pad(t, width)| == width
    ensures CentredIn(Pad(t, width), t, (width - |t|) / 2)
  {
    var left := (width - |t|) / 2;
    var r := Pad(t, width);
    assert r[..left] == Spaces(left);
    assert r[left..left + |t|] == t;
    assert r[left + |t|..] == Spaces(width - |t| - left);
  }

  /** `fix_width(s, width)`. */
  function FixWidth(s: string, width: nat): (r: string)
    ensures width >= 1 ==> |r| == width
    ensures width == 0 ==> r == s
    ensures |s| > width >= 1 ==> r == s[|s| - width..]
    ensures |s| <= width ==> CentredIn(r, s, (width - |s|) / 2)
  {
    // Python's `s[-width:]`; for width 0 that is `s[0:]`, the whole string.
    var t := if |s| > width && width > 0 then s[|s| - width..] else s;
    assert |t| <= width ==> |Pad(t, width)| == width && CentredIn(Pad(t, width), t, (width - |t|) / 2) by {
      if |t| <= width { PadCentres(t, width); }
    }
    Pad(t, width)
  }

  /** `center(s, width)`. */
  function Center(s: string, width: nat): (r: string)
    ensures |r| == width
    ensures |s| >= width ==> r == s[..width]
    ensures |s| <= width ==> CentredIn(r, s, (width - |s|) / 2)
  {
    var t := if |s| > width then s[..width] else s;
    PadCentres(t, width);
    Pad(t, width)
  }

  /** The two primitives differ only in which end of a long text they keep:
      `fix_width("1234+", 4)` is `"234+"` while `center` gives `"1234"`. */
  lemma {:induction false} ClipEnds(s: string, width: nat)
    requires |s| > width >= 1
    ensures FixWidth(s, width) == s[|s| - width..]
    ensures Center(s, width) == s[..width]
    ensures FixWidth(s, width)[width - 1] == s[|s| - 1]
  {
  }

  lemma ClipExample()
    ensures FixWidth("1234+", 4) == "234+"
    ensures Center("1234+", 4) == "1234"
    ensures FixWidth("a", 4) == " a  "
  {
    assert "1234+"[1..] == "234+";
    assert "1234+"[..4] == "1234";
  }

  /** A text that already fits is kept whole by both, in the same place. */
  lemma {:induction false} FitAgree(s: string, width: nat)
    requires |s| <= width
    ensures FixWidth(s, width) == Center(s, width)
  {
  }

  /** Padding adds only spaces and clipping only drops characters, so
      `fix_width` never shows a character other than a space that its
      input lacks. */
  lemma FixWidthAddsOnlySpaces(s: string, width: nat, c: char)
    requires c != ' ' && c !in s
    ensures c !in FixWidth(s, width)
  {
    var t := if |s| > width && width > 0 then s[|s| - width..] else s;
    var pad := width - |t|;
    var l, r := Spaces(pad / 2), Spaces(pad - pad / 2);
    assert FixWidth(s, width) == l + t + r;
    assert c !in t by {
      if |s| > width && width > 0 {
        SuffixKeepsOut(s, |s| - width, c);
      }
    }
    assert c !in l && c !in r;
  }
}
