/**
 * lib/droxi/text.rb: laying out a list of names as a table and wrapping a
 * paragraph to the terminal width. The width Readline reports is a
 * parameter (`columns`); `Columns` models the fallback to `DEFAULT_WIDTH`.
 */
module Text {
  import opened Wrappers
  import opened Strings

  /** `DEFAULT_WIDTH`: the width assumed when Readline reports none. */
  const DefaultWidth: nat := 72

  /** `get_columns`: the reported screen width when it is positive, and
      `DefaultWidth` when it is not or cannot be had (`screen` is `None`). */
  function Columns(screen: Option<int>): (r: nat)
    ensures r > 0
    ensures r == DefaultWidth || (screen.Some? && r == screen.value)
  {
    match screen
    case Some(w) => if w > 0 then w else DefaultWidth
    case None => DefaultWidth
  }

  // ---------------------------------------------------------------------
  // table and format_table (lib/droxi/text.rb:9-19, 48-54)
  // ---------------------------------------------------------------------

  /** The length of the longest item. */
  function MaxLength(items: seq<string>): (r: nat)
    requires items != []
    ensures forall i :: 0 <= i < |items| ==> |items[i]| <= r
    ensures exists i :: 0 <= i < |items| && |items[i]| == r
  {
    if |items| == 1 then |items[0]|
    else
      var m := MaxLength(items[1..]);
      assert forall i :: 1 <= i < |items| ==> items[i] == items[1..][i - 1];
      if |items[0]| >= m then |items[0]| else m
  }

  /** `n * w`, written as repeated addition so that the layout proofs stay
      linear; `TimesIsProduct` shows it is the product. */
  function Times(n: nat, w: nat): nat {
    if n == 0 then 0 else Times(n - 1, w) + w
  }

  lemma {:induction false} TimesIsProduct(n: nat, w: nat)
    ensures Times(n, w) == n * w
  {
    if n > 0 {
      TimesIsProduct(n - 1, w);
      assert n * w == (n - 1) * w + w;
    }
  }

  /** `(n.to_f / d).ceil`: the fewest lines of `d` items that hold `n` items. */
  function CeilDiv(n: nat, d: nat): (r: nat)
    requires d > 0
    ensures Times(r, d) >= n
    ensures r == 0 || Times(r - 1, d) < n
    ensures n > 0 ==> r > 0
    decreases n
  {
    if n == 0 then 0
    else if n <= d then 1
    else 1 + CeilDiv(n - d, d)
  }

  /** `items.map { |item| item.ljust(width) }.join`: each item padded with
      spaces to `width`, put together with nothing between them. */
  function JoinPadded(items: seq<string>, width: nat): (r: string)
    decreases |items|
  {
    if items == [] then "" else LJust(items[0], width) + JoinPadded(items[1..], width)
  }

  /** `items[start, len]`: up to `len` items from `start` on. */
  function Slice(items: seq<string>, start: nat, len: nat): (r: seq<string>)
    requires start <= |items|
    ensures |r| <= len && start + |r| <= |items| && r == items[start..start + |r|]
    ensures |r| == len || start + |r| == |items|
  {
    if start + len <= |items| then items[start..start + len] else items[start..]
  }

  /** Line `i` of `format_table`: items `i * perLine` up to the next
      `perLine`, each padded to `width`, joined with nothing between them. */
  function Row(items: seq<string>, width: nat, perLine: nat, i: nat): string
    requires Times(i, perLine) <= |items|
  {
    JoinPadded(Slice(items, Times(i, perLine), perLine), width)
  }

  /** `format_table`: the rows `0` to `numLines - 1`, in order. Ruby's
      `items[start, len]` is `nil` once `start` passes the end, so the lines
      asked for must all start within the list. */
  function FormatTable(items: seq<string>, width: nat, perLine: nat, numLines: nat): (r: seq<string>)
    requires numLines == 0 || Times(numLines - 1, perLine) <= |items|
    ensures |r| == numLines
    decreases numLines
  {
    if numLines == 0 then []
    else FormatTable(items, width, perLine, numLines - 1) + [Row(items, width, perLine, numLines - 1)]
  }

  lemma {:induction false} TimesMonotone(a: nat, b: nat, w: nat)
    requires a <= b
    ensures Times(a, w) <= Times(b, w)
    decreases b
  {
    if a < b {
      TimesMonotone(a, b - 1, w);
    }
  }

  /** The width of one table cell: the longest item plus 2. */
  function ItemWidth(items: seq<string>): (r: nat)
    requires items != []
    ensures r >= 2 && forall i :: 0 <= i < |items| ==> |items[i]| + 2 <= r
  {
    MaxLength(items) + 2
  }

  /** How many cells fit on a line of `columns`, and at least one. */
  function PerLine(columns: nat, width: nat): (r: nat)
    requires width > 0
    ensures r >= 1
    ensures r == 1 || Times(r, width) <= columns
  {
    var n := columns / width;
    TimesIsProduct(n, width);
    if n < 1 then 1 else n
  }

  /** `Text.table(items)` for a terminal of `columns`. */
  function Table(items: seq<string>, columns: nat): (r: seq<string>)
    ensures r == [] <==> items == []
    ensures items != [] ==> |r| == CeilDiv(|items|, PerLine(columns, ItemWidth(items)))
  {
    if items == [] then []
    else
      var width := ItemWidth(items);
      var perLine := PerLine(columns, width);
      var numLines := CeilDiv(|items|, perLine);
      FormatTable(items, width, perLine, numLines)
  }

  // ---------------------------------------------------------------------
  // wrap and get_wrap_segment (lib/droxi/text.rb:23-32, 57-68)
  // ---------------------------------------------------------------------

  /** The end of the word starting at `from`: the next space, or the end. */
  function WordEnd(text: string, from: nat): (r: nat)
    requires from <= |text|
    ensures from <= r <= |text|
    ensures r == |text| || text[r] == ' '
    decreases |text| - from
  {
    if from == |text| || text[from] == ' ' then from else WordEnd(text, from + 1)
  }

  /** No space stands inside the word that `WordEnd` closes. */
  lemma {:induction false} WordEndNoSpace(text: string, from: nat)
    requires from <= |text|
    ensures NoSpaceIn(text, from, WordEnd(text, from))
    decreases |text| - from
  {
    if from < |text| && text[from] != ' ' {
      WordEndNoSpace(text, from + 1);
    }
  }

  /** The loop of `get_wrap_segment`, on the end `e` of the segment so far:
      while text is left after the separator and the segment is narrower
      than `columns`, the next word is added. The result is where the
      segment stops, and when a word was added, the space before the last
      word stands before column `columns`. */
  function GrowEnd(text: string, e: nat, columns: nat): (r: nat)
    requires e <= |text| && (e == |text| || text[e] == ' ')
    ensures e <= r <= |text|
    ensures r == |text| || text[r] == ' '
    ensures r >= columns || r + 1 >= |text|
    decreases |text| - e
  {
    if e + 1 < |text| && e < columns then GrowEnd(text, WordEnd(text, e + 1), columns) else e
  }

  /** When the loop added a word, the space before the last word stands
      before column `columns`. */
  lemma {:induction false} GrowEndLastSpace(text: string, e: nat, columns: nat)
    requires e <= |text| && (e == |text| || text[e] == ' ')
    ensures var r := GrowEnd(text, e, columns);
      r == e || exists k :: e <= k < r && k < columns && text[k] == ' ' && NoSpaceIn(text, k + 1, r)
    decreases |text| - e
  {
    if e + 1 < |text| && e < columns {
      var next := WordEnd(text, e + 1);
      WordEndNoSpace(text, e + 1);
      GrowEndLastSpace(text, next, columns);
      var r := GrowEnd(text, next, columns);
      if r == next {
        assert e < next && NoSpaceIn(text, e + 1, next);
      }
    }
  }

  /** No space in `text[from..to]`. */
  predicate NoSpaceIn(text: string, from: nat, to: nat)
    requires from <= to <= |text|
  {
    forall j :: from <= j < to ==> text[j] != ' '
  }

  /** `get_wrap_segment(text, columns)`: words from the start of `text` until
      the line reaches `columns`, less the last word when that made it wider
      (unless the line is a single word). */
  function WrapSegment(text: string, columns: nat): (r: string)
    ensures |r| <= |text| && text[..|r|] == r
    ensures |r| == |text| || text[|r|] == ' '
    ensures |r| <= columns || !Contains(r, ' ')
  {
    var e0 := WordEnd(text, 0);
    var e := GrowEnd(text, e0, columns);
    WordEndNoSpace(text, 0);
    GrowEndLastSpace(text, e0, columns);
    var seg := text[..e];
    if |seg| > columns && Contains(seg, ' ') then
      DropLastWord(text, e, columns);
      RPartition(seg, ' ').0
    else seg
  }

  /** When the loop added a word and overshot, `rpartition(' ')[0]` takes
      the line back to the space before that word, which is before `columns`. */
  lemma DropLastWord(text: string, e: nat, columns: nat)
    requires e <= |text|
    requires exists k :: 0 <= k < e && k < columns && text[k] == ' ' && NoSpaceIn(text, k + 1, e)
    ensures var r := RPartition(text[..e], ' ').0;
      |r| < columns && text[..|r|] == r && text[|r|] == ' '
  {
    var seg := text[..e];
    var k :| 0 <= k < e && k < columns && text[k] == ' ' && NoSpaceIn(text, k + 1, e);
    assert LastIndex(seg, ' ') == Some(k);
  }

  /** The text after its first line `s` and the space that follows it. */
  function After(text: string, s: string): (r: string)
    ensures |s| < |text| ==> |r| + |s| + 1 == |text|
    ensures |s| >= |text| ==> r == []
  {
    if |s| < |text| then text[|s| + 1..] else []
  }

  /** `wrap(text)`: the segments from the start, each skipping the space
      after the previous one, until the text is used up. */
  function WrapSpec(text: string, columns: nat): (r: seq<string>)
    decreases |text|
    ensures |r| <= |text|
    ensures r == [] <==> text == []
  {
    if text == [] then []
    else
      var s := WrapSegment(text, columns);
      [s] + WrapSpec(After(text, s), columns)
  }

  /** The first line of `wrap`, and the lines of what follows it. */
  lemma WrapCons(text: string, columns: nat)
    requires text != []
    ensures WrapSpec(text, columns) == [WrapSegment(text, columns)] + WrapSpec(After(text, WrapSegment(text, columns)), columns)
  {
  }

  /** No run of non-space characters in `text` is longer than `columns`. */
  ghost predicate WordsFit(text: string, columns: nat) {
    forall i, j :: 0 <= i <= j <= |text| && !Contains(text[i..j], ' ') ==> j - i <= columns
  }

  /** The loop of `get_wrap_segment` on the strings, as the source keeps them. */
  method GetWrapSegment(text: string, columns: nat) returns (segment: string)
    ensures segment == WrapSegment(text, columns)
  {
    var p := Partition(text, ' ');
    ghost var e: nat := WordEnd(text, 0);
    assert p == (text[..e], if e < |text| then text[e + 1..] else []) by {
      PartitionAt(text, 0);
      assert text[0..] == text && text[0..e] == text[..e];
    }
    segment := p.0;
    var rest := p.1;
    ghost var stop := GrowEnd(text, e, columns);
    while rest != [] && |segment| < columns
      invariant e <= |text| && (e == |text| || text[e] == ' ')
      invariant segment == text[..e]
      invariant rest == if e < |text| then text[e + 1..] else []
      invariant GrowEnd(text, e, columns) == stop
      decreases |rest|
    {
      var q := Partition(rest, ' ');
      ghost var next := WordEnd(text, e + 1);
      NextWord(text, e, next, columns, segment, rest, q);
      segment := segment + " " + q.0;
      rest := q.1;
      e := next;
    }
    assert GrowEnd(text, e, columns) == e;
    SegmentAt(text, e, columns);
    if |segment| > columns && Contains(segment, ' ') {
      segment := RPartition(segment, ' ').0;
    }
  }

  /** Where the loop of `get_wrap_segment` stops, the segment is taken. */
  lemma SegmentAt(text: string, e: nat, columns: nat)
    requires e <= |text| && (e == |text| || text[e] == ' ')
    requires GrowEnd(text, WordEnd(text, 0), columns) == e
    ensures WrapSegment(text, columns) ==
      if e > columns && Contains(text[..e], ' ') then RPartition(text[..e], ' ').0 else text[..e]
  {
  }

  /** One round of the loop of `get_wrap_segment`: `partition(' ')` of the
      text after the segment's end `e` gives the next word and the rest. */
  lemma NextWord(text: string, e: nat, next: nat, columns: nat, segment: string, rest: string, q: (string, string))
    requires e < |text| && text[e] == ' ' && segment == text[..e] && rest == text[e + 1..]
    requires q == Partition(rest, ' ') && next == WordEnd(text, e + 1)
    ensures segment + " " + q.0 == text[..next]
    ensures q.1 == (if next < |text| then text[next + 1..] else [])
    ensures e + 1 < |text| && e < columns ==> GrowEnd(text, next, columns) == GrowEnd(text, e, columns)
  {
    PartitionAt(text, e + 1);
    SliceAtSpace(text, e, next);
  }

  lemma SliceAtSpace(text: string, e: nat, next: nat)
    requires e < next <= |text| && text[e] == ' '
    ensures text[..next] == text[..e] + " " + text[e + 1..next]
  {
    assert text[..next] == text[..e] + text[e..next];
    assert text[e..next] == [text[e]] + text[e + 1..next];
  }

  /** `partition(' ')` of the text from `from` on: the word there and what
      follows its space. */
  lemma PartitionAt(text: string, from: nat)
    requires from <= |text|
    ensures var w := WordEnd(text, from);
      Partition(text[from..], ' ') == (text[from..w], if w < |text| then text[w + 1..] else [])
  {
    var s := text[from..];
    var w := WordEnd(text, from);
    WordEndNoSpace(text, from);
    var p := Partition(s, ' ');
    if w < |text| {
      assert s[w - from] == ' ';
      assert Contains(s, ' ');
      assert p.0 + [' '] + p.1 == s;
      assert p.0 == s[..w - from] == text[from..w];
      assert p.1 == s[w - from + 1..] == text[w + 1..];
    } else {
      assert forall j :: 0 <= j < |s| ==> s[j] == text[from + j];
      assert !Contains(s, ' ');
      assert text[from..w] == s;
    }
  }

  /** The text still to lay out is what follows the first `position`
      characters. */
  lemma SuffixAt(text: string, position: nat, rest: string)
    requires position <= |text| && text[..position] + rest == text
    ensures rest == text[position..]
  {
    assert |rest| == |text| - position;
    forall j | 0 <= j < |rest|
      ensures rest[j] == text[position + j]
    {
      assert (text[..position] + rest)[position + j] == rest[j];
    }
  }

  /** Moving `k` characters on keeps the rest a suffix of the text. */
  lemma SuffixStep(text: string, position: nat, rest: string, k: nat)
    requires position <= |text| && text[..position] + rest == text && k <= |rest|
    ensures text[..position + k] + rest[k..] == text
  {
    SuffixAt(text, position, rest);
    assert text[..position + k] == text[..position] + rest[..k];
    assert rest[..k] + rest[k..] == rest;
  }

  /** One round of `wrap`: at `position`, with `rest` the text from there on,
      the segment taken is the first line of `rest`, the lines still to come
      are those of what follows it and its space, and the new position stands
      just before that. */
  method NextLine(text: string, position: nat, columns: nat, ghost rest: string) returns (segment: string)
    requires position < |text| && text[..position] + rest == text
    ensures WrapSpec(rest, columns) == [segment] + WrapSpec(After(rest, segment), columns)
    ensures position + |segment| + 1 <= |text| ==>
              text[..position + |segment| + 1] + After(rest, segment) == text
    ensures position + |segment| + 1 > |text| ==> After(rest, segment) == []
  {
    SuffixAt(text, position, rest);
    segment := GetWrapSegment(text[position..], columns);
    WrapCons(rest, columns);
    if |segment| < |rest| {
      SuffixStep(text, position, rest, |segment| + 1);
    }
  }

  /** `Text.wrap(text)` for a terminal of `columns`: the position moves past
      each line and the space after it. */
  method Wrap(text: string, columns: nat) returns (lines: seq<string>)
    ensures lines == WrapSpec(text, columns)
  {
    var position: nat := 0;
    lines := [];
    ghost var rest := text;
    assert text[..position] + rest == text;
    while position < |text|
      invariant lines + WrapSpec(rest, columns) == WrapSpec(text, columns)
      invariant position <= |text| ==> text[..position] + rest == text
      invariant position > |text| ==> rest == []
      decreases |text| + 1 - position
    {
      var segment := NextLine(text, position, columns, rest);
      AppendAssoc(lines, [segment], WrapSpec(After(rest, segment), columns));
      lines := lines + [segment];
      position := position + |segment| + 1;
      rest := After(rest, segment);
    }
    assert rest == [];
    assert lines + [] == lines;
  }
}
