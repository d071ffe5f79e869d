/**
  The texts built from the palette: what "copy all" writes to the clipboard
  (the stored colors joined by ", ", case untouched) and the summary line the
  page shows (the same join over upper-cased colors).
 */
module CopyText {
  import opened Palette

  /** Separator between colors in the joined text. */
  const Separator: string := ", "

  /** Total length of the parts. */
  function TotalLength(parts: seq<string>): nat
  {
    if |parts| == 0 then 0 else |parts[0]| + TotalLength(parts[1..])
  }

  /** Array.prototype.join over strings: "" for no parts, the parts with `sep` between them otherwise.
      The text starts with the first part and holds every part plus one separator between neighbours. */
  function Join(parts: seq<string>, sep: string): (r: string)
    ensures |parts| >= 1 ==> parts[0] <= r
    ensures |r| == TotalLength(parts) + if |parts| == 0 then 0 else (|parts| - 1) * |sep|
  {
    if |parts| == 0 then ""
    else if |parts| == 1 then parts[0]
    else parts[0] + sep + Join(parts[1..], sep)
  }

  /** The stored colors, in palette order. */
  function Colors(s: seq<ColorData>): (cs: seq<string>)
    ensures |cs| == |s|
    ensures forall i :: 0 <= i < |s| ==> cs[i] == s[i].color
  {
    seq(|s|, i requires 0 <= i < |s| => s[i].color)
  }

  /** The clipboard text of copyAllColors. For a palette of hex colors it is
      seven characters per color plus ", " between neighbours, and starts
      with the first color as stored. */
  function CopyAllText(s: seq<ColorData>): (t: string)
    ensures |s| >= 1 ==> s[0].color <= t
    ensures |s| >= 1 && AllHex(s) ==> |t| == 9 * |s| - 2
  {
    if |s| >= 1 && AllHex(s) then HexTotalLength(s); Join(Colors(s), Separator)
    else Join(Colors(s), Separator)
  }

  /** The colors of a hex palette have seven characters each. */
  lemma {:induction false} HexTotalLength(s: seq<ColorData>)
    requires AllHex(s)
    ensures TotalLength(Colors(s)) == 7 * |s|
  {
    if s != [] {
      assert Colors(s)[1..] == Colors(s[1..]);
      HexTotalLength(s[1..]);
    }
  }

  /** ASCII upper-casing of one character. */
  function UpperChar(c: char): (u: char)
    ensures !('a' <= u <= 'z')
    ensures !('a' <= c <= 'z') ==> u == c
    ensures 'a' <= c <= 'z' ==> u as int == c as int - 32
  {
    if 'a' <= c <= 'z' then (c as int - 32) as char else c
  }

  /** ASCII upper-casing of a string (String.prototype.toUpperCase restricted to ASCII). */
  function Upper(t: string): (u: string)
    ensures |u| == |t|
    ensures forall i :: 0 <= i < |t| ==> u[i] == UpperChar(t[i])
  {
    seq(|t|, i requires 0 <= i < |t| => UpperChar(t[i]))
  }

  /** Each string upper-cased, in order. */
  function UpperAll(parts: seq<string>): (ups: seq<string>)
    ensures |ups| == |parts|
    ensures forall i :: 0 <= i < |parts| ==> ups[i] == Upper(parts[i])
  {
    seq(|parts|, i requires 0 <= i < |parts| => Upper(parts[i]))
  }

  /** The "All Colors" line the page shows under the palette: as long as the
      copy-all text and free of lower-case ASCII letters. */
  function DisplaySummary(s: seq<ColorData>): (d: string)
    ensures |d| == |CopyAllText(s)|
    ensures forall i :: 0 <= i < |d| ==> !('a' <= d[i] <= 'z')
  {
    assert Upper(Separator) == Separator;
    UpperJoin(Colors(s), Separator);
    Join(UpperAll(Colors(s)), Separator)
  }

  /** Cut a text at every ", ": the inverse of the join for parts without commas. */
  function Split(t: string): (parts: seq<string>)
    ensures |parts| >= 1
    decreases |t|
  {
    if |t| == 0 then [""]
    else if |t| >= 2 && t[0] == ',' && t[1] == ' ' then [""] + Split(t[2..])
    else
      var rest := Split(t[1..]);
      [[t[0]] + rest[0]] + rest[1..]
  }

  // ---------------------------------------------------------------------
  // Join
  // ---------------------------------------------------------------------

  /** Joining one more part appends the separator and the part. */
  lemma {:induction false} JoinSnoc(parts: seq<string>, p: string, sep: string)
    requires |parts| >= 1
    ensures Join(parts + [p], sep) == Join(parts, sep) + sep + p
    decreases |parts|
  {
    if |parts| == 1 {
      assert parts + [p] == [parts[0], p];
    } else {
      assert (parts + [p])[1..] == parts[1..] + [p];
      JoinSnoc(parts[1..], p, sep);
    }
  }

  /** Upper-casing distributes over concatenation. */
  lemma UpperConcat(a: string, b: string)
    ensures Upper(a + b) == Upper(a) + Upper(b)
  {
  }

  /** Upper-casing the joined text equals joining the upper-cased parts, when the separator has no lower-case letters. */
  lemma {:induction false} UpperJoin(parts: seq<string>, sep: string)
    requires Upper(sep) == sep
    ensures Upper(Join(parts, sep)) == Join(UpperAll(parts), sep)
    decreases |parts|
  {
    if |parts| == 0 {
    } else if |parts| == 1 {
    } else {
      UpperJoin(parts[1..], sep);
      assert UpperAll(parts)[1..] == UpperAll(parts[1..]);
      UpperConcat(parts[0] + sep, Join(parts[1..], sep));
      UpperConcat(parts[0], sep);
    }
  }

  /** The page's summary line is the copy-all text upper-cased. */
  lemma DisplayIsUpperOfCopyAll(s: seq<ColorData>)
    ensures DisplaySummary(s) == Upper(CopyAllText(s))
  {
    assert Upper(Separator) == Separator;
    UpperJoin(Colors(s), Separator);
  }

  /** The copy-all text keeps the stored case: for the initial palette it is
      the lower-case default color, while the page shows it upper-cased. */
  lemma CopyAllKeepsCase()
    ensures CopyAllText(Initial) == "#3b82f6"
    ensures DisplaySummary(Initial) == "#3B82F6"
    ensures CopyAllText(Initial) != DisplaySummary(Initial)
  {
    assert Colors(Initial) == ["#3b82f6"];
    assert Upper("#3b82f6") == "#3B82F6";
    assert UpperAll(["#3b82f6"]) == ["#3B82F6"];
  }

  /** Adding an entry appends ", " and the default color to the copy-all text. */
  lemma CopyAllAfterAdd(s: seq<ColorData>, newId: string)
    requires |s| >= 1
    ensures CopyAllText(Add(s, newId)) == CopyAllText(s) + Separator + DefaultColor
  {
    assert Colors(Add(s, newId)) == Colors(s) + [DefaultColor];
    JoinSnoc(Colors(s), DefaultColor, Separator);
  }

  // ---------------------------------------------------------------------
  // Split undoes Join
  // ---------------------------------------------------------------------

  /** A leading part without commas is glued onto the first part of the rest. */
  lemma {:induction false} SplitPrefix(p: string, tail: string)
    requires forall i :: 0 <= i < |p| ==> p[i] != ','
    ensures Split(p + tail) == [p + Split(tail)[0]] + Split(tail)[1..]
    decreases |p|
  {
    if |p| == 0 {
      assert p + tail == tail;
      assert p + Split(tail)[0] == Split(tail)[0];
      assert Split(tail) == [Split(tail)[0]] + Split(tail)[1..];
    } else {
      assert (p + tail)[1..] == p[1..] + tail;
      SplitPrefix(p[1..], tail);
      assert [p[0]] + (p[1..] + Split(tail)[0]) == p + Split(tail)[0];
    }
  }

  /** Splitting the join of comma-free parts gives the parts back. */
  lemma {:induction false} SplitJoin(parts: seq<string>)
    requires |parts| >= 1
    requires forall k, i :: 0 <= k < |parts| && 0 <= i < |parts[k]| ==> parts[k][i] != ','
    ensures Split(Join(parts, Separator)) == parts
    decreases |parts|
  {
    var p := parts[0];
    if |parts| == 1 {
      SplitPrefix(p, "");
      assert p + "" == p;
    } else {
      var rest := Join(parts[1..], Separator);
      SplitJoin(parts[1..]);
      assert (Separator + rest)[2..] == rest;
      assert Split(Separator + rest) == [""] + parts[1..];
      assert p + Separator + rest == p + (Separator + rest);
      SplitPrefix(p, Separator + rest);
      assert p + "" == p;
    }
  }

  /** A well-formed hex color contains no comma. */
  lemma HexColorHasNoComma(c: string)
    requires IsHexColor(c)
    ensures forall i :: 0 <= i < |c| ==> c[i] != ','
  {
  }

  /** When every stored color is a hex color, the copy-all text splits back into the colors. */
  lemma CopyAllRoundTrip(s: seq<ColorData>)
    requires |s| >= 1
    requires forall i :: 0 <= i < |s| ==> IsHexColor(s[i].color)
    ensures Split(CopyAllText(s)) == Colors(s)
  {
    var cs := Colors(s);
    forall k, i | 0 <= k < |cs| && 0 <= i < |cs[k]| ensures cs[k][i] != ',' {
      HexColorHasNoComma(cs[k]);
    }
    SplitJoin(cs);
  }
}
