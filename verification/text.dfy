/**
 * The small bitmap font of user/text.c: how `create_font_atlas` measures
 * each glyph (its first and last lit column) and how `strnwidth` and
 * `strwidth` add glyph widths up. Texture upload and vertex building are
 * not part of this model.
 */
module Text {
  import opened Wrappers

  const MAX_TEXT_LENGTH: int := 256
  const SMALL_FONT_WIDTH: int := 8
  const SMALL_FONT_HEIGHT: int := 8
  /** Bytes of the 6x8 console font: 8 rows of one byte for each of 128 glyphs. */
  const FONT_BYTES: int := 128 * 8

  predicate WellFormedFont(font: seq<bv8>) {
    |font| == FONT_BYTES
  }

  /** Pixel (y, x) of glyph c: bit 7 - x of the glyph's row y. */
  predicate Pixel(font: seq<bv8>, c: nat, y: nat, x: nat)
    requires WellFormedFont(font) && c < 128 && y < 8 && x < 8
  {
    (font[c * 8 + y] >> (7 - x)) & 1 == 1
  }

  /** Column x of glyph c has a lit pixel in some row. */
  predicate Lit(font: seq<bv8>, c: nat, x: nat)
    requires WellFormedFont(font) && c < 128 && x < 8
  {
    exists y :: 0 <= y < 8 && Pixel(font, c, y, x)
  }

  /** The first lit column at or after x, or 0xff when there is none. */
  function FirstLit(font: seq<bv8>, c: nat, x: nat): (r: nat)
    requires WellFormedFont(font) && c < 128 && x <= 8
    ensures r == 255 || x <= r < 8
    ensures r == 255 <==> forall k :: x <= k < 8 ==> !Lit(font, c, k)
    ensures r < 8 ==> Lit(font, c, r) && forall k :: x <= k < r ==> !Lit(font, c, k)
    decreases 8 - x
  {
    if x == 8 then 255 else if Lit(font, c, x) then x else FirstLit(font, c, x + 1)
  }

  /** The last lit column below x, plus 2, or 0 when there is none. */
  function LastLitPlus2(font: seq<bv8>, c: nat, x: nat): (r: nat)
    requires WellFormedFont(font) && c < 128 && x <= 8
    ensures r == 0 || 2 <= r <= x + 1
    ensures r != 0 ==> Lit(font, c, r - 2)
    ensures forall k | 0 <= k < x && r < k + 2 :: !Lit(font, c, k)
  {
    if x == 0 then 0 else if Lit(font, c, x - 1) then x + 1 else LastLitPlus2(font, c, x - 1)
  }

  /** `char_from` for an ASCII glyph. */
  function GlyphFrom(font: seq<bv8>, c: nat): nat
    requires WellFormedFont(font) && c < 128
  {
    FirstLit(font, c, 0)
  }

  /** `char_to` for an ASCII glyph. */
  function GlyphTo(font: seq<bv8>, c: nat): nat
    requires WellFormedFont(font) && c < 128
  {
    LastLitPlus2(font, c, 8)
  }

  /** The width of one character: 3 for a space, else `char_to - char_from` in 8 bits. */
  function CharWidth(from: seq<int>, to: seq<int>, ch: char): (r: int)
    requires |from| == 256 && |to| == 256 && ch as int < 256
    ensures 0 <= r < 256
  {
    if ch == ' ' then 3 else (to[ch as int] - from[ch as int]) % 256
  }

  predicate Bytes(s: string) {
    forall i :: 0 <= i < |s| ==> s[i] as int < 256
  }

  /** The sum of the character widths of s. */
  function Width(from: seq<int>, to: seq<int>, s: string): int
    requires |from| == 256 && |to| == 256 && Bytes(s)
  {
    if s == [] then 0 else Width(from, to, s[..|s| - 1]) + CharWidth(from, to, s[|s| - 1])
  }

  /** The number of characters `strnwidth` measures: the request capped at 256, at least 0. */
  function Measured(n: int): (k: nat)
    ensures k <= MAX_TEXT_LENGTH
  {
    if n > MAX_TEXT_LENGTH then MAX_TEXT_LENGTH else if n < 0 then 0 else n
  }

  /** `strnwidth(text, n)` where text is null (None) or a string of bytes. */
  function StrnWidthSpec(from: seq<int>, to: seq<int>, text: Option<string>, n: int): int
    requires |from| == 256 && |to| == 256
    requires text.Some? ==> Bytes(text.value) && (Measured(n) <= |text.value| || text.value == [])
  {
    if text.None? || text.value == [] then 0 else Width(from, to, text.value[..Measured(n)])
  }

  lemma {:induction false} WidthAppend(from: seq<int>, to: seq<int>, s: string, t: string)
    requires |from| == 256 && |to| == 256 && Bytes(s) && Bytes(t)
    ensures Bytes(s + t)
    ensures Width(from, to, s + t) == Width(from, to, s) + Width(from, to, t)
    decreases |t|
  {
    if t == [] {
      assert s + t == s;
    } else {
      var t' := t[..|t| - 1];
      assert (s + t)[..|s + t| - 1] == s + t';
      WidthAppend(from, to, s, t');
    }
  }

  lemma {:induction false} WidthBounds(from: seq<int>, to: seq<int>, s: string)
    requires |from| == 256 && |to| == 256 && Bytes(s)
    ensures 0 <= Width(from, to, s) <= 255 * |s|
    decreases |s|
  {
    if s != [] {
      WidthBounds(from, to, s[..|s| - 1]);
    }
  }

  /** Every space adds exactly 3. */
  lemma {:induction false} SpacesWidth(from: seq<int>, to: seq<int>, s: string)
    requires |from| == 256 && |to| == 256
    requires forall i :: 0 <= i < |s| ==> s[i] == ' '
    ensures Bytes(s) && Width(from, to, s) == 3 * |s|
    decreases |s|
  {
    if s != [] {
      SpacesWidth(from, to, s[..|s| - 1]);
    }
  }

  /**
   * As written, `strnwidth` indexes the tables with a plain (signed) `char`,
   * so a byte of 128 or more reads outside `char_from`/`char_to`. This is
   * the width it computes when every measured byte is below 128, and None
   * when it reads outside the tables.
   */
  function WidthAsWritten(from: seq<int>, to: seq<int>, s: string): (r: Option<int>)
    requires |from| == 256 && |to| == 256 && Bytes(s)
    ensures r.Some? <==> forall i :: 0 <= i < |s| ==> s[i] == ' ' || s[i] as int < 128
  {
    if s == [] then Some(0)
    else
      var ch := s[|s| - 1];
      var rest := WidthAsWritten(from, to, s[..|s| - 1]);
      if ch != ' ' && ch as int >= 128 then None
      else if rest.None? then None
      else Some(rest.value + CharWidth(from, to, ch))
  }

  /** Where the signed read stays inside the tables it agrees with the unsigned measure. */
  lemma {:induction false} WidthAsWrittenAgrees(from: seq<int>, to: seq<int>, s: string)
    requires |from| == 256 && |to| == 256 && Bytes(s)
    requires WidthAsWritten(from, to, s).Some?
    ensures WidthAsWritten(from, to, s) == Some(Width(from, to, s))
    decreases |s|
  {
    if s != [] {
      assert WidthAsWritten(from, to, s[..|s| - 1]).Some?;
      WidthAsWrittenAgrees(from, to, s[..|s| - 1]);
    }
  }

  /** An icon byte (here 0xE0, as `draw_icon8` produces) cannot be measured as written. */
  lemma IconByteUnmeasurable(from: seq<int>, to: seq<int>)
    requires |from| == 256 && |to| == 256
    ensures WidthAsWritten(from, to, [0xE0 as char]) == None
    ensures Width(from, to, [0xE0 as char]) == (to[0xE0] - from[0xE0]) % 256
  {
    assert [0xE0 as char][..0] == [];
  }

  /** The glyph tables `create_font_atlas` fills. */
  class FontAtlas {
    const charFrom: array<int>
    const charTo: array<int>

    ghost predicate Valid()
      reads this
    {
      charFrom.Length == 256 && charTo.Length == 256 && charFrom != charTo
    }

    constructor ()
      ensures Valid() && fresh(charFrom) && fresh(charTo)
    {
      charFrom := new int[256](_ => 0);
      charTo := new int[256](_ => 0);
    }

    /** The tables of an atlas built from `font`. */
    ghost predicate BuiltFrom(font: seq<bv8>)
      requires WellFormedFont(font)
      reads this, charFrom, charTo
      requires Valid()
    {
      (forall c :: 0 <= c < 128 ==> charFrom[c] == GlyphFrom(font, c) && charTo[c] == GlyphTo(font, c)) &&
      (forall c :: 128 <= c < 256 ==> charFrom[c] == 0 && charTo[c] == 8)
    }

    /** The glyph-extent loop of `create_font_atlas`, for every glyph. */
    method Build(font: seq<bv8>)
      requires Valid() && WellFormedFont(font)
      modifies charFrom, charTo
      ensures Valid() && BuiltFrom(font)
    {
      ghost var froms := seq(128, k requires 0 <= k < 128 => GlyphFrom(font, k));
      ghost var tos := seq(128, k requires 0 <= k < 128 => GlyphTo(font, k));
      for c := 0 to 128
        invariant forall k :: 0 <= k < c ==> charFrom[k] == froms[k] && charTo[k] == tos[k]
      {
        var from, to := GlyphExtent(font, c);
        charFrom[c] := from;
        charTo[c] := to;
      }
      for i := 128 to 256
        invariant forall k :: 0 <= k < 128 ==> charFrom[k] == froms[k] && charTo[k] == tos[k]
        invariant forall k :: 128 <= k < i ==> charFrom[k] == 0 && charTo[k] == 8
      {
        charTo[i] := 8;
        charFrom[i] := 0;
      }
    }

    /** `strnwidth` */
    method StrnWidth(text: Option<string>, n: int) returns (r: int)
      requires Valid()
      requires text.Some? ==> Bytes(text.value) && (Measured(n) <= |text.value| || text.value == [])
      ensures r == StrnWidthSpec(charFrom[..], charTo[..], text, n)
    {
      if text.None? || text.value == [] {
        return 0;
      }
      var s := text.value;
      var len := if n > MAX_TEXT_LENGTH then MAX_TEXT_LENGTH else n;
      r := 0;
      var i := 0;
      while i < len
        invariant 0 <= i <= Measured(n) && (len <= 0 ==> i == 0)
        invariant r == Width(charFrom[..], charTo[..], s[..i])
      {
        var c := s[i];
        assert s[..i + 1][..i] == s[..i];
        if c == ' ' {
          r := r + 3;
        } else {
          r := r + (charTo[c as int] - charFrom[c as int]) % 256;
        }
        i := i + 1;
      }
    }

    /** `strwidth` */
    method StrWidth(text: Option<string>) returns (r: int)
      requires Valid()
      requires text.Some? ==> Bytes(text.value)
      ensures text.None? || text.value == [] ==> r == 0
      ensures text.Some? && text.value != [] ==>
        r == Width(charFrom[..], charTo[..], text.value[..Measured(|text.value|)])
    {
      if text.None? || text.value == [] {
        return 0;
      }
      r := StrnWidth(text, |text.value|);
    }
  }

  /** The scan of `create_font_atlas` has visited pixel (y', x') before reaching (y, x). */
  predicate Seen(y': int, x': int, y: int, x: int) {
    0 <= y' < 8 && 0 <= x' < 8 && (y' < y || (y' == y && x' < x))
  }

  /**
   * What the scan knows on reaching pixel (y, x): `from` is the least lit
   * column seen (0xff if none) and `to` the greatest plus 2 (0 if none).
   */
  ghost predicate Scanned(font: seq<bv8>, c: nat, y: int, x: int, from: int, to: int)
    requires WellFormedFont(font) && c < 128
  {
    && (from == 255 <==> forall y', x' :: Seen(y', x', y, x) ==> !Pixel(font, c, y', x'))
    && (from != 255 ==> 0 <= from < 8 && exists y' :: Seen(y', from, y, x) && Pixel(font, c, y', from))
    && (forall y', x' :: Seen(y', x', y, x) && Pixel(font, c, y', x') ==> from <= x' && x' + 2 <= to)
    && (to == 0 <==> from == 255)
    && (to != 0 ==> 2 <= to < 10 && exists y', x' :: Seen(y', x', y, x) && x' + 2 == to && Pixel(font, c, y', x'))
  }

  /** The row/column scan for one ASCII glyph. */
  method GlyphExtent(font: seq<bv8>, c: nat) returns (from: int, to: int)
    requires WellFormedFont(font) && c < 128
    ensures from == GlyphFrom(font, c) && to == GlyphTo(font, c)
  {
    to, from := 0, 0xff;
    for y := 0 to 8
      invariant Scanned(font, c, y, 0, from, to)
    {
      for x := 0 to 8
        invariant Scanned(font, c, y, x, from, to)
      {
        from, to := ScanPixel(font, c, y, x, from, to);
      }
      NextRow(font, c, y, from, to);
    }
    ScanDone(font, c, from, to);
    ExtentIsFirstAndLast(font, c, from, to);
  }

  /** One pixel of the scan: a lit pixel widens the extent to cover its column. */
  method ScanPixel(font: seq<bv8>, c: nat, y: nat, x: nat, from: int, to: int) returns (from': int, to': int)
    requires WellFormedFont(font) && c < 128 && y < 8 && x < 8 && Scanned(font, c, y, x, from, to)
    ensures Scanned(font, c, y, x + 1, from', to')
  {
    from', to' := from, to;
    if Pixel(font, c, y, x) {
      from' := if x < from then x else from;
      to' := if x + 2 > to then x + 2 else to;
      assert Seen(y, x, y, x + 1);
    }
  }

  /** The end of one row is the start of the next. */
  lemma NextRow(font: seq<bv8>, c: nat, y: nat, from: int, to: int)
    requires WellFormedFont(font) && c < 128 && y < 8 && Scanned(font, c, y, 8, from, to)
    ensures Scanned(font, c, y + 1, 0, from, to)
  {
    assert forall y', x' :: Seen(y', x', y, 8) == Seen(y', x', y + 1, 0);
  }

  /** After the last row the scan has seen every pixel of the glyph. */
  lemma ScanDone(font: seq<bv8>, c: nat, from: int, to: int)
    requires WellFormedFont(font) && c < 128 && Scanned(font, c, 8, 0, from, to)
    ensures from == 255 <==> forall y', x' :: 0 <= y' < 8 && 0 <= x' < 8 ==> !Pixel(font, c, y', x')
    ensures from != 255 ==> 0 <= from < 8 && Lit(font, c, from)
    ensures to != 0 ==> 2 <= to < 10 && Lit(font, c, to - 2)
    ensures to == 0 <==> from == 255
    ensures forall y', x' :: 0 <= y' < 8 && 0 <= x' < 8 && Pixel(font, c, y', x') ==> from <= x' && x' + 2 <= to
  {
    assert forall y', x' :: Seen(y', x', 8, 0) == (0 <= y' < 8 && 0 <= x' < 8);
  }

  /** Any from/to pair with the scan's final properties is GlyphFrom/GlyphTo. */
  lemma ExtentIsFirstAndLast(font: seq<bv8>, c: nat, from: int, to: int)
    requires WellFormedFont(font) && c < 128
    requires from == 255 <==> forall y', x' :: 0 <= y' < 8 && 0 <= x' < 8 ==> !Pixel(font, c, y', x')
    requires from != 255 ==> 0 <= from < 8 && Lit(font, c, from)
    requires to != 0 ==> 2 <= to < 10 && Lit(font, c, to - 2)
    requires to == 0 <==> from == 255
    requires forall y', x' :: 0 <= y' < 8 && 0 <= x' < 8 && Pixel(font, c, y', x') ==> from <= x' && x' + 2 <= to
    ensures from == GlyphFrom(font, c) && to == GlyphTo(font, c)
  {
    if from == 255 {
      assert forall k :: 0 <= k < 8 ==> !Lit(font, c, k);
    }
  }

  /** Glyphs 128..255 (the icon half of the atlas) always measure 8. */
  lemma HighGlyphWidth(atlas: FontAtlas, font: seq<bv8>, ch: char)
    requires atlas.Valid() && WellFormedFont(font) && atlas.BuiltFrom(font)
    requires 128 <= ch as int < 256
    ensures CharWidth(atlas.charFrom[..], atlas.charTo[..], ch) == 8
  {
  }

  /** A glyph with no lit pixel measures (0 - 255) mod 256 = 1. */
  lemma BlankGlyphWidth(atlas: FontAtlas, font: seq<bv8>, c: nat)
    requires atlas.Valid() && WellFormedFont(font) && atlas.BuiltFrom(font)
    requires c != ' ' as int && c < 128
    requires forall x :: 0 <= x < 8 ==> !Lit(font, c, x)
    ensures CharWidth(atlas.charFrom[..], atlas.charTo[..], c as char) == 1
  {
    assert GlyphFrom(font, c) == 255;
    assert GlyphTo(font, c) == 0;
  }

  /** The lit span of a glyph that has a lit column: first <= last. */
  lemma GlyphSpan(font: seq<bv8>, c: nat)
    requires WellFormedFont(font) && c < 128
    requires exists x :: 0 <= x < 8 && Lit(font, c, x)
    ensures GlyphFrom(font, c) < 8 && GlyphFrom(font, c) + 2 <= GlyphTo(font, c) <= 9
  {
    var x :| 0 <= x < 8 && Lit(font, c, x);
    var f, t := GlyphFrom(font, c), GlyphTo(font, c);
    assert f <= x;
    assert x <= t - 2;
  }

  /** A lit glyph measures its lit span plus one column of spacing. */
  lemma LitGlyphWidth(atlas: FontAtlas, font: seq<bv8>, c: nat)
    requires atlas.Valid() && WellFormedFont(font) && atlas.BuiltFrom(font)
    requires c != ' ' as int && c < 128
    requires exists x :: 0 <= x < 8 && Lit(font, c, x)
    ensures 2 <= CharWidth(atlas.charFrom[..], atlas.charTo[..], c as char) <= 9
  {
    GlyphSpan(font, c);
    var f, t := atlas.charFrom[c], atlas.charTo[c];
    assert f == GlyphFrom(font, c) && t == GlyphTo(font, c);
    assert 0 <= t - f < 256;
    assert CharWidth(atlas.charFrom[..], atlas.charTo[..], c as char) == (t - f) % 256 == t - f;
  }
}
