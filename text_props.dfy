/**
 * What lib/droxi/text.rb promises about its layouts: a table holds every
 * item once, in order, in cells of one width, and fits the terminal when
 * the widest item does; a wrapped paragraph is the text cut at spaces, and
 * only a word wider than the terminal makes a line wider than it.
 */
module TextProperties {
  import opened Strings
  import opened Text

  // ---------------------------------------------------------------------
  // Putting lines and padded items together
  // ---------------------------------------------------------------------

  lemma {:induction false} ConcatAppend(a: seq<string>, b: seq<string>)
    ensures Concat(a + b) == Concat(a) + Concat(b)
    decreases |a|
  {
    if a == [] {
      assert a + b == b;
    } else {
      assert (a + b)[0] == a[0] && (a + b)[1..] == a[1..] + b;
      ConcatAppend(a[1..], b);
    }
  }

  lemma {:induction false} JoinPaddedAppend(a: seq<string>, b: seq<string>, width: nat)
    ensures JoinPadded(a + b, width) == JoinPadded(a, width) + JoinPadded(b, width)
    decreases |a|
  {
    if a == [] {
      assert a + b == b;
    } else {
      assert (a + b)[0] == a[0] && (a + b)[1..] == a[1..] + b;
      JoinPaddedAppend(a[1..], b, width);
    }
  }

  /** Items no wider than `width`, padded and put together, are `|items| * width` long. */
  lemma {:induction false} JoinPaddedLength(items: seq<string>, width: nat)
    requires forall k :: 0 <= k < |items| ==> |items[k]| <= width
    ensures |JoinPadded(items, width)| == Times(|items|, width)
    decreases |items|
  {
    if items != [] {
      JoinPaddedLength(items[1..], width);
    }
  }

  lemma ShiftSlice(h: string, x: string, a: nat)
    requires a + |h| <= |x|
    ensures (h + x)[a + |h|..a + |h| + |h|] == x[a..a + |h|]
  {
  }

  /** Cell `j` of `line`, at column `j * width`, is `item` padded to `width`. */
  predicate CellAt(line: string, j: nat, width: nat, item: string) {
    Times(j, width) + width <= |line| && line[Times(j, width)..Times(j, width) + width] == LJust(item, width)
  }

  /** Items no wider than `width`, padded and put together: item `j` fills
      the `width` columns from `j * width`. */

  lemma {:induction false} JoinPaddedCell(items: seq<string>, width: nat, j: nat)
    requires forall k :: 0 <= k < |items| ==> |items[k]| <= width
    requires j < |items|
    ensures CellAt(JoinPadded(items, width), j, width, items[j])
    decreases j
  {
    var rest := items[1..];
    var head := LJust(items[0], width);
    var x := JoinPadded(rest, width);
    assert JoinPadded(items, width) == head + x;
    assert |head| == width;
    JoinPaddedLength(rest, width);
    if j > 0 {
      var a := Times(j - 1, width);
      JoinPaddedCell(rest, width, j - 1);
      ShiftSlice(head, x, a);
      assert Times(j, width) == a + width;
      assert rest[j - 1] == items[j];
    } else {
      assert (head + x)[..width] == head;
    }
  }

  // ---------------------------------------------------------------------
  // table and format_table
  // ---------------------------------------------------------------------

  function Min(a: nat, b: nat): nat {
    if a <= b then a else b
  }

  /** Line `i` of `format_table` is row `i`, whatever the number of lines. */
  lemma {:induction false} FormatTableLine(items: seq<string>, width: nat, perLine: nat, numLines: nat, i: nat)
    requires numLines == 0 || Times(numLines - 1, perLine) <= |items|
    requires i < numLines
    ensures Times(i, perLine) <= |items|
    ensures FormatTable(items, width, perLine, numLines)[i] == Row(items, width, perLine, i)
    decreases numLines
  {
    TimesMonotone(i, numLines - 1, perLine);
    if numLines > 1 {
      TimesMonotone(numLines - 2, numLines - 1, perLine);
    }
    var prev := FormatTable(items, width, perLine, numLines - 1);
    var row := Row(items, width, perLine, numLines - 1);
    assert FormatTable(items, width, perLine, numLines) == prev + [row];
    if i < numLines - 1 {
      FormatTableLine(items, width, perLine, numLines - 1, i);
      assert (prev + [row])[i] == prev[i];
    } else {
      assert (prev + [row])[i] == row;
    }
  }

  /** The items before `k`, then the slice of one line from `k`. */
  lemma CoveredPrefix(items: seq<string>, k: nat, perLine: nat, next: nat)
    requires k <= |items| && next == k + perLine
    ensures Min(k, |items|) == k
    ensures items[..Min(next, |items|)] == items[..k] + Slice(items, k, perLine)
  {
  }

  /** The lines of `format_table`, put together, are the padded items of the
      part of the list they cover: every item once, in order. */
  lemma {:induction false} FormatTableCovers(items: seq<string>, width: nat, perLine: nat, numLines: nat)
    requires numLines == 0 || Times(numLines - 1, perLine) <= |items|
    ensures Concat(FormatTable(items, width, perLine, numLines)) ==
              JoinPadded(items[..Min(Times(numLines, perLine), |items|)], width)
    decreases numLines
  {
    if numLines == 0 {
      assert items[..0] == [];
    } else {
      var k := Times(numLines - 1, perLine);
      var prev := FormatTable(items, width, perLine, numLines - 1);
      var slice := Slice(items, k, perLine);
      var row := Row(items, width, perLine, numLines - 1);
      FormatTableCovers(items, width, perLine, numLines - 1);
      ConcatAppend(prev, [row]);
      assert Concat([row]) == row + Concat([]);
      CoveredPrefix(items, k, perLine, Times(numLines, perLine));
      JoinPaddedAppend(items[..k], slice, width);
    }
  }

  /** `table` is `format_table` with the cell width, the cells per line and
      the number of lines it works out, and those lines cover the list. */
  lemma TableIs(items: seq<string>, columns: nat) returns (width: nat, perLine: nat, numLines: nat)
    requires items != []
    ensures width == ItemWidth(items) && perLine == PerLine(columns, width)
    ensures numLines == CeilDiv(|items|, perLine) && numLines > 0
    ensures forall k :: 0 <= k < |items| ==> |items[k]| <= width
    ensures Times(numLines - 1, perLine) < |items| <= Times(numLines, perLine)
    ensures Table(items, columns) == FormatTable(items, width, perLine, numLines)
  {
    width := ItemWidth(items);
    perLine := PerLine(columns, width);
    numLines := CeilDiv(|items|, perLine);
  }

  /** `table` lists every item exactly once, in order, each padded to the
      cell width. */
  lemma TableCovers(items: seq<string>, columns: nat)
    requires items != []
    ensures Concat(Table(items, columns)) == JoinPadded(items, ItemWidth(items))
  {
    var width, perLine, numLines := TableIs(items, columns);
    FormatTableCovers(items, width, perLine, numLines);
    assert items[..Min(Times(numLines, perLine), |items|)] == items;
  }

  lemma FormatTableCell(items: seq<string>, width: nat, perLine: nat, numLines: nat, i: nat, j: nat)
    requires numLines == 0 || Times(numLines - 1, perLine) <= |items|
    requires forall k :: 0 <= k < |items| ==> |items[k]| <= width
    requires i < numLines && j < perLine && Times(i, perLine) + j < |items|
    ensures CellAt(FormatTable(items, width, perLine, numLines)[i], j, width, items[Times(i, perLine) + j])
  {
    var start := Times(i, perLine);
    var slice := Slice(items, start, perLine);
    FormatTableLine(items, width, perLine, numLines, i);
    SliceAt(items, start, perLine, j);
    JoinPaddedCell(slice, width, j);
    CellSubst(FormatTable(items, width, perLine, numLines)[i], JoinPadded(slice, width), j, width, items[start + j], slice[j]);
  }

  /** Element `j` of a slice that reaches it is the list's element `start + j`. */
  lemma SliceAt(items: seq<string>, start: nat, len: nat, j: nat)
    requires start <= |items| && j < len && start + j < |items|
    ensures j < |Slice(items, start, len)| && Slice(items, start, len)[j] == items[start + j]
  {
  }

  /** Cell `j` of line `i` of `table` is item `i * per_line + j`, padded to
      the cell width, at column `j * item_width`: the items line up. */
  lemma TableCell(items: seq<string>, columns: nat, width: nat, perLine: nat, i: nat, j: nat)
    requires items != [] && width == ItemWidth(items) && perLine == PerLine(columns, width)
    requires i < |Table(items, columns)| && j < perLine && Times(i, perLine) + j < |items|
    ensures CellAt(Table(items, columns)[i], j, width, items[Times(i, perLine) + j])
  {
    var w, p, numLines := TableIs(items, columns);
    FormatTableCell(items, width, perLine, numLines, i, j);
    var item := items[Times(i, perLine) + j];
    CellSubst(Table(items, columns)[i], FormatTable(items, width, perLine, numLines)[i], j, width, item, item);
  }

  /** `CellAt` carried across equal lines and equal items. */
  lemma CellSubst(line: string, other: string, j: nat, width: nat, item: string, same: string)
    requires line == other && item == same && CellAt(other, j, width, same)
    ensures CellAt(line, j, width, item)
  {
  }

  lemma FormatTableLineWidth(items: seq<string>, width: nat, perLine: nat, numLines: nat, i: nat)
    requires numLines == 0 || Times(numLines - 1, perLine) <= |items|
    requires forall k :: 0 <= k < |items| ==> |items[k]| <= width
    requires i < numLines
    ensures |FormatTable(items, width, perLine, numLines)[i]| <= Times(perLine, width)
  {
    var start := Times(i, perLine);
    FormatTableLine(items, width, perLine, numLines, i);
    var slice := Slice(items, start, perLine);
    JoinPaddedLength(slice, width);
    TimesMonotone(|slice|, perLine, width);
  }

  /** Every line of `table` is at most `per_line` cells of the cell width. */
  lemma TableLineWidth(items: seq<string>, columns: nat, i: nat)
    requires items != [] && i < |Table(items, columns)|
    ensures |Table(items, columns)[i]| <= Times(PerLine(columns, ItemWidth(items)), ItemWidth(items))
  {
    var width, perLine, numLines := TableIs(items, columns);
    FormatTableLineWidth(items, width, perLine, numLines, i);
  }

  /** When the widest item plus 2 fits the terminal, so does every line. */
  lemma TableFits(items: seq<string>, columns: nat, i: nat)
    requires items != [] && ItemWidth(items) <= columns
    requires i < |Table(items, columns)|
    ensures |Table(items, columns)[i]| <= columns
  {
    var width := ItemWidth(items);
    TableLineWidth(items, columns, i);
    assert Times(1, width) == width;
  }

  /** A single item, however wide, makes one line. */
  lemma TableOneItem(item: string, columns: nat)
    ensures |Table([item], columns)| == 1
  {
  }

  // ---------------------------------------------------------------------
  // wrap
  // ---------------------------------------------------------------------

  lemma JoinCons(s: string, more: seq<string>, sep: string)
    requires more != []
    ensures Join([s] + more, sep) == s + sep + Join(more, sep)
  {
    assert ([s] + more)[1..] == more;
  }

  /** One line of `wrap` joined back to the join of the lines after it. */
  lemma JoinStep(text: string, s: string, more: seq<string>)
    requires |s| <= |text| && text[..|s|] == s && (|s| == |text| || text[|s|] == ' ')
    requires Join(more, " ") == After(text, s) || Join(more, " ") + " " == After(text, s)
    requires more == [] <==> After(text, s) == []
    ensures Join([s] + more, " ") == text || Join([s] + more, " ") + " " == text
  {
    var rest := After(text, s);
    if |s| < |text| {
      assert text == s + " " + rest;
      if rest != [] {
        JoinCons(s, more, " ");
      } else {
        assert [s] + more == [s];
      }
    } else {
      assert s == text;
      assert [s] + more == [s];
    }
  }

  /** The lines of `wrap`, joined with single spaces, give back the text, but
      for the one space a text ending in a space loses. */
  lemma {:induction false} WrapJoin(text: string, columns: nat)
    ensures var lines := WrapSpec(text, columns);
      Join(lines, " ") == text || Join(lines, " ") + " " == text
    decreases |text|
  {
    if text != [] {
      var s := WrapSegment(text, columns);
      var rest := After(text, s);
      WrapCons(text, columns);
      WrapJoin(rest, columns);
      JoinStep(text, s, WrapSpec(rest, columns));
    }
  }

  /** Line `i` of `wrap`, past the first, is line `i - 1` of what follows the first. */
  lemma WrapIndex(text: string, columns: nat, i: nat)
    requires 0 < i < |WrapSpec(text, columns)|
    ensures var s := WrapSegment(text, columns);
      && |s| < |text|
      && i - 1 < |WrapSpec(After(text, s), columns)|
      && WrapSpec(text, columns)[i] == WrapSpec(After(text, s), columns)[i - 1]
  {
    WrapCons(text, columns);
  }

  /** A line of `wrap` wider than the terminal is a single word. */
  lemma {:induction false} WrapLinesNarrow(text: string, columns: nat, i: nat)
    requires i < |WrapSpec(text, columns)|
    ensures var line := WrapSpec(text, columns)[i];
      |line| <= columns || !Contains(line, ' ')
    decreases |text|
  {
    if i == 0 {
      WrapCons(text, columns);
    } else {
      WrapIndex(text, columns, i);
      WrapLinesNarrow(After(text, WrapSegment(text, columns)), columns, i - 1);
    }
  }

  /** What follows a line has no word wider than the text has. */
  lemma WordsFitAfter(text: string, s: string, columns: nat)
    requires WordsFit(text, columns)
    ensures WordsFit(After(text, s), columns)
  {
    var rest := After(text, s);
    if |s| < |text| {
      var k := |s| + 1;
      forall i, j | 0 <= i <= j <= |rest| && !Contains(rest[i..j], ' ')
        ensures j - i <= columns
      {
        assert rest[i..j] == text[k + i..k + j];
      }
    }
  }

  /** The first line of `wrap` fits when no word is wider than the terminal. */
  lemma WrapFirstFits(text: string, columns: nat)
    requires WordsFit(text, columns) && text != []
    ensures |WrapSpec(text, columns)[0]| <= columns
  {
    var s := WrapSegment(text, columns);
    WrapCons(text, columns);
    assert text[0..|s|] == s;
  }

  /** When no word of the text is wider than the terminal, no line of `wrap` is. */
  lemma {:induction false} WrapFits(text: string, columns: nat, i: nat)
    requires WordsFit(text, columns)
    requires i < |WrapSpec(text, columns)|
    ensures |WrapSpec(text, columns)[i]| <= columns
    decreases |text|
  {
    if i == 0 {
      WrapFirstFits(text, columns);
    } else {
      var s := WrapSegment(text, columns);
      WrapIndex(text, columns, i);
      WordsFitAfter(text, s, columns);
      WrapFits(After(text, s), columns, i - 1);
    }
  }

  /** A single word, however wide, is one line, unsplit. */
  lemma WrapOneWord(text: string, columns: nat)
    requires text != [] && !Contains(text, ' ')
    ensures WrapSpec(text, columns) == [text]
  {
    var s := WrapSegment(text, columns);
    WrapCons(text, columns);
    assert WordEnd(text, 0) == |text|;
    assert text[..|text|] == text;
  }
}
