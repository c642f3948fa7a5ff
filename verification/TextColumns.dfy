/** Wrapping text into lines of a column. */
module TextColumns {
  import opened Wrappers

  predicate IsWhitespace(c: char) {
    c in {' ', '\t', '\n', '\r'}
  }

  predicate IsBreakableBefore(c: char) {
    c in {'[', '(', '{', '<', '|'}
  }

  predicate IsBreakableAfter(c: char) {
    c in {']', ')', '}', '>', '.', ',', ':', ';', '*', '+', '-', '=', '&', '/', '\\'}
  }

  datatype Column = Column(text: string, width: nat, indent: nat, initialIndent: Option<nat>) {
    predicate Valid() {
      width > indent && (initialIndent.Some? ==> width > initialIndent.value)
    }

    /** Every line has room for one character and a hyphen. */
    predicate Wide() {
      width >= indent + 2 && (initialIndent.Some? ==> width >= initialIndent.value + 2)
    }

    function IndentAt(pos: nat): nat {
      if pos == 0 && initialIndent.Some? then initialIndent.value else indent
    }

    function WidthAt(pos: nat): nat
      requires Valid()
    {
      width - IndentAt(pos)
    }
  }

  predicate IsBoundary(text: string, at: nat)
    requires 0 < at <= |text|
  {
    at == |text| || (IsWhitespace(text[at]) && !IsWhitespace(text[at - 1]))
    || IsBreakableBefore(text[at]) || IsBreakableAfter(text[at - 1])
  }

  /** Where the line of the text ends that has position `pos`. */
  function LineEnd(text: string, pos: nat): (end: nat)
    requires pos <= |text|
    ensures pos <= end <= |text| && (end < |text| ==> text[end] == '\n')
    ensures forall i :: pos <= i < end ==> text[i] != '\n'
    decreases |text| - pos
  {
    if pos == |text| || text[pos] == '\n' then pos else LineEnd(text, pos + 1)
  }

  /** The longest part up to `len` that ends at a boundary. */
  function ToBoundary(text: string, pos: nat, len: nat): (r: nat)
    requires pos + len <= |text|
    ensures r <= len && (r > 0 ==> IsBoundary(text, pos + r))
    ensures forall at :: pos + r < at <= pos + len ==> !IsBoundary(text, at)
  {
    if len > 0 && !IsBoundary(text, pos + len) then ToBoundary(text, pos, len - 1) else len
  }

  function WithoutBlanks(text: string, pos: nat, len: nat): (r: nat)
    requires pos + len <= |text|
    ensures r <= len && (r > 0 ==> !IsWhitespace(text[pos + r - 1]))
    ensures forall i :: pos + r <= i < pos + len ==> IsWhitespace(text[i])
  {
    if len > 0 && IsWhitespace(text[pos + len - 1]) then WithoutBlanks(text, pos, len - 1) else len
  }

  /** One line of the column: a part of the text, with a hyphen if the part ends inside a word. */
  datatype Segment = Segment(start: nat, len: nat, hyphen: bool)

  function SegmentAt(c: Column, pos: nat): (s: Segment)
    requires c.Valid() && pos <= |c.text|
    ensures pos + s.len <= |c.text|
  {
    var w, end := c.WidthAt(pos), LineEnd(c.text, pos);
    if end < pos + w then Segment(pos, end - pos, false)
    else
      var len := WithoutBlanks(c.text, pos, ToBoundary(c.text, pos, w));
      if len > 0 then Segment(pos, len, false) else Segment(pos, w - 1, true)
  }

  function SkipBlanks(text: string, pos: nat): (r: nat)
    requires pos <= |text|
    ensures pos <= r <= |text| && (r < |text| ==> !IsWhitespace(text[r]))
    ensures forall i :: pos <= i < r ==> IsWhitespace(text[i])
    decreases |text| - pos
  {
    if pos < |text| && IsWhitespace(text[pos]) then SkipBlanks(text, pos + 1) else pos
  }

  /** Behind a segment one line end is skipped, or else all blanks. */
  function NextPos(text: string, end: nat): (r: nat)
    requires end <= |text|
    ensures end <= r <= |text| && forall i :: end <= i < r ==> IsWhitespace(text[i])
  {
    if end < |text| && text[end] == '\n' then end + 1 else SkipBlanks(text, end)
  }

  // ---------- Lines ----------

  predicate OnlyBlanks(text: string, from: nat, upTo: nat) {
    from <= upTo <= |text| && forall i :: from <= i < upTo ==> text[i] in {' ', '\t', '\n', '\r'}
  }

  /** A text may be broken at its end, before the first of some blanks and next to brackets and punctuation. */
  predicate MayBreak(text: string, at: nat) {
    && 0 < at <= |text|
    && (|| at == |text|
        || (text[at] in {' ', '\t', '\n', '\r'} && text[at - 1] !in {' ', '\t', '\n', '\r'})
        || text[at] in {'[', '(', '{', '<', '|'}
        || text[at - 1] in {']', ')', '}', '>', '.', ',', ':', ';', '*', '+', '-', '=', '&', '/', '\\'})
  }

  /** No line of the text ends before `upTo`. */
  predicate InOneLine(text: string, from: nat, upTo: nat) {
    upTo <= |text| && forall i :: from <= i < upTo ==> text[i] != '\n'
  }

  /** Between the two the text may be broken behind blanks only. */
  ghost predicate NoBreak(text: string, from: nat, upTo: nat) {
    forall at :: from < at <= upTo && MayBreak(text, at) ==> OnlyBlanks(text, from, at)
  }

  /** A line is the rest of a line of the text if there is room for it and more; otherwise it is filled up to the last
      place that the text may be broken at, and without one up to a hyphen. */
  ghost predicate GoodLine(c: Column, s: Segment)
    requires c.Valid()
  {
    var text, stop := c.text, s.start + s.len;
    var room := c.width - if s.start == 0 && c.initialIndent.Some? then c.initialIndent.value else c.indent;
    && InOneLine(text, s.start, stop)
    && if s.hyphen then
         s.len == room - 1 && InOneLine(text, s.start, s.start + room) && NoBreak(text, s.start, s.start + room)
       else if s.len < room && (stop == |text| || text[stop] == '\n') then
         true
       else
         && 0 < s.len <= room && MayBreak(text, stop) && text[stop - 1] !in {' ', '\t', '\n', '\r'}
         && InOneLine(text, s.start, s.start + room) && NoBreak(text, stop, s.start + room)
  }

  lemma {:induction false} BoundaryMeans(text: string, at: nat)
    requires 0 < at <= |text|
    ensures IsBoundary(text, at) <==> MayBreak(text, at)
  {
  }

  lemma {:induction false} NoBoundary(text: string, from: nat, at: nat, upTo: nat)
    requires from <= at <= upTo <= |text| && OnlyBlanks(text, from, at)
    requires forall k :: at < k <= upTo ==> !IsBoundary(text, k)
    ensures NoBreak(text, from, upTo)
  {
    hide IsBoundary, MayBreak;
    forall k | from < k <= upTo && MayBreak(text, k)
      ensures OnlyBlanks(text, from, k)
    {
      BoundaryMeans(text, k);
    }
  }

  lemma {:induction false} BlanksCut(text: string, pos: nat, len: nat)
    requires pos + len <= |text|
    ensures var n := WithoutBlanks(text, pos, len);
            OnlyBlanks(text, pos + n, pos + len) && (n > 0 ==> text[pos + n - 1] !in {' ', '\t', '\n', '\r'})
  {
  }

  lemma {:induction false} BrokenMayBreak(text: string, pos: nat, len: nat)
    requires pos + len <= |text| && (len > 0 ==> IsBoundary(text, pos + len)) && WithoutBlanks(text, pos, len) > 0
    ensures MayBreak(text, pos + WithoutBlanks(text, pos, len))
  {
    BlanksCut(text, pos, len);
    BoundaryMeans(text, pos + len);
  }

  lemma {:induction false} SegmentIsGood(c: Column, pos: nat)
    requires c.Valid() && pos <= |c.text|
    ensures GoodLine(c, SegmentAt(c, pos))
  {
    hide IsBoundary, MayBreak, OnlyBlanks, NoBreak, WithoutBlanks, ToBoundary, LineEnd;
    var w, end := c.WidthAt(pos), LineEnd(c.text, pos);
    if end >= pos + w {
      var broken := ToBoundary(c.text, pos, w);
      var len := WithoutBlanks(c.text, pos, broken);
      BlanksCut(c.text, pos, broken);
      NoBoundary(c.text, pos + len, pos + broken, pos + w);
      if len > 0 {
        BrokenMayBreak(c.text, pos, broken);
      }
    }
  }

  /** What a good line comes down to. */
  lemma {:induction false} GoodFits(c: Column, pos: nat)
    requires c.Valid() && pos <= |c.text|
    ensures var s := SegmentAt(c, pos);
            && s.start == pos && s.len + (if s.hyphen then 1 else 0) <= c.WidthAt(pos)
            && (forall i :: pos <= i < pos + s.len ==> c.text[i] != '\n')
  {
  }

  /** A step of the cursor stands still exactly where a line has room for one character only, which cannot be broken
      off.  At the beginning of the text the cursor is put at its end instead: see `Dropped`. */
  lemma {:induction false} StuckExactly(c: Column, pos: nat)
    requires c.Valid() && pos < |c.text|
    ensures NextPos(c.text, pos + SegmentAt(c, pos).len) == pos
       <==> c.WidthAt(pos) == 1 && !IsWhitespace(c.text[pos]) && !IsBoundary(c.text, pos + 1)
  {
    var w, end := c.WidthAt(pos), LineEnd(c.text, pos);
    if end >= pos + w && w == 1 && !IsWhitespace(c.text[pos]) && IsBoundary(c.text, pos + 1) {
      assert ToBoundary(c.text, pos, 1) == 1 && WithoutBlanks(c.text, pos, 1) == 1;
    }
  }

  // ---------- When the loop over the lines ends ----------

  /** Whether nothing is printed of the text: its first line is empty, because the text starts with a line end, or
      because there is room for one character only and no first character to break off. */
  predicate Dropped(c: Column)
    requires c.Valid()
  {
    c.text != ""
    && (c.text[0] == '\n' || (c.WidthAt(0) == 1 && (IsWhitespace(c.text[0]) || !IsBoundary(c.text, 1))))
  }

  lemma {:induction false} DroppedExactly(c: Column)
    requires c.Valid()
    ensures SegmentAt(c, 0).len == 0 <==> c.text == "" || Dropped(c)
  {
    if c.text != "" && c.text[0] != '\n' && c.WidthAt(0) == 1 {
      assert LineEnd(c.text, 0) >= 1;
      if !IsWhitespace(c.text[0]) && IsBoundary(c.text, 1) {
        assert ToBoundary(c.text, 0, 1) == 1 && WithoutBlanks(c.text, 0, 1) == 1;
      } else if !IsBoundary(c.text, 1) {
        assert ToBoundary(c.text, 0, 1) == 0;
      }
    }
  }

  /** The position of the cursor at the beginning; behind the text it is at its end. */
  function Start(c: Column): (pos: nat)
    requires c.Valid()
    ensures pos <= |c.text|
  {
    if SegmentAt(c, 0).len == 0 then |c.text| else 0
  }

  function Step(c: Column, pos: nat): (next: nat)
    requires c.Valid() && pos <= |c.text|
    ensures pos <= next <= |c.text|
  {
    if pos == |c.text| then pos else NextPos(c.text, pos + SegmentAt(c, pos).len)
  }

  function Steps(c: Column, pos: nat, k: nat): (r: nat)
    requires c.Valid() && pos <= |c.text|
    ensures r <= |c.text|
    decreases k
  {
    if k == 0 then pos else Steps(c, Step(c, pos), k - 1)
  }

  /** After some number of lines the cursor is at the end. */
  ghost predicate Ends(c: Column)
    requires c.Valid()
  {
    exists k: nat :: Steps(c, Start(c), k) == |c.text|
  }

  /** There is room for a hyphen, or there is nothing behind the first line that would need one. */
  predicate NeedsNoHyphen(c: Column)
    requires c.Valid()
  {
    c.width >= c.indent + 2 || c.text == "" || Dropped(c)
    || forall p :: Step(c, 0) <= p < |c.text| && !IsWhitespace(c.text[p]) ==> IsBoundary(c.text, p + 1)
  }

  lemma {:induction false} StepGoesOn(c: Column, pos: nat)
    requires c.Valid() && NeedsNoHyphen(c) && pos < |c.text| && Start(c) == 0
    requires pos == 0 || Step(c, 0) <= pos
    ensures pos < Step(c, pos)
    ensures Step(c, 0) <= Step(c, pos)
  {
    DroppedExactly(c);
    StuckExactly(c, pos);
  }

  lemma {:induction false} ReachesEnd(c: Column, pos: nat) returns (k: nat)
    requires c.Valid() && NeedsNoHyphen(c) && pos <= |c.text| && Start(c) == 0
    requires pos == 0 || Step(c, 0) <= pos
    ensures Steps(c, pos, k) == |c.text|
    decreases |c.text| - pos
  {
    if pos == |c.text| {
      k := 0;
    } else {
      StepGoesOn(c, pos);
      k := ReachesEnd(c, Step(c, pos));
      k := k + 1;
    }
  }

  /** With room for one character only, the cursor does not get past one that cannot be broken off. */
  lemma {:induction false} StepStops(c: Column, pos: nat, q: nat)
    requires c.Valid() && c.width == c.indent + 1 && 0 < pos <= q < |c.text|
    requires !IsWhitespace(c.text[q]) && !IsBoundary(c.text, q + 1)
    ensures Step(c, pos) <= q
  {
    if pos == q {
      StuckExactly(c, q);
    } else {
      GoodFits(c, pos);
    }
  }

  lemma {:induction false} StepsStop(c: Column, pos: nat, q: nat, k: nat)
    requires c.Valid() && c.width == c.indent + 1 && 0 < pos <= q < |c.text|
    requires !IsWhitespace(c.text[q]) && !IsBoundary(c.text, q + 1)
    ensures Steps(c, pos, k) <= q
    decreases k
  {
    if k > 0 {
      StepStops(c, pos, q);
      StepsStop(c, Step(c, pos), q, k - 1);
    }
  }

  /** The loop over the lines ends if and only if no hyphen is needed where there is no room for one. */
  lemma {:induction false} EndsExactly(c: Column)
    requires c.Valid()
    ensures Ends(c) <==> NeedsNoHyphen(c)
  {
    DroppedExactly(c);
    if Start(c) == |c.text| {
      assert Steps(c, Start(c), 0) == |c.text|;
    } else if NeedsNoHyphen(c) {
      var k := ReachesEnd(c, 0);
    } else {
      var q :| Step(c, 0) <= q < |c.text| && !IsWhitespace(c.text[q]) && !IsBoundary(c.text, q + 1);
      forall k: nat
        ensures Steps(c, Start(c), k) != |c.text|
      {
        if k > 0 {
          StepsStop(c, Step(c, 0), q, k - 1);
        }
      }
    }
  }

  /** The first of three characters, of which the second is a blank, is a line of its own. */
  lemma {:induction false} FirstLetter(c: Column)
    requires c.Valid() && c.WidthAt(0) == 1 && |c.text| > 2 && c.text[1] != '\n'
    requires !IsWhitespace(c.text[0]) && IsWhitespace(c.text[1]) && !IsWhitespace(c.text[2])
    ensures !Dropped(c) && Step(c, 0) == 2
  {
    assert LineEnd(c.text, 0) >= 1;
    assert ToBoundary(c.text, 0, 1) == 1 && WithoutBlanks(c.text, 0, 1) == 1;
    assert SkipBlanks(c.text, 2) == 2;
  }

  /** For instance, the second word of this text never comes to an end. */
  lemma {:induction false} SecondWordNeverEnds()
    ensures var c := Column("a bc", 1, 0, None); c.Valid() && !Ends(c)
  {
    var c := Column("a bc", 1, 0, None);
    assert IsBoundary(c.text, 1) && !IsBoundary(c.text, 3);
    assert !IsWhitespace(c.text[0]) && IsWhitespace(c.text[1]) && !IsWhitespace(c.text[2]) && c.text[1] != '\n';
    FirstLetter(c);
    hide Step, IsBoundary, IsWhitespace;
    EndsExactly(c);
  }

  predicate Blank(text: string, from: nat, upTo: nat) {
    from <= upTo <= |text| && forall i :: from <= i < upTo ==> IsWhitespace(text[i])
  }

  /** Behind a line, the line end that follows it is left out, or else all blanks. */
  predicate Follows(text: string, stop: nat, next: nat) {
    && OnlyBlanks(text, stop, next)
    && if stop < |text| && text[stop] == '\n' then next == stop + 1
       else next == |text| || text[next] !in {' ', '\t', '\n', '\r'}
  }

  /** The lines are good, each follows the one before, and `upTo` follows the last one. */
  ghost predicate Wraps(c: Column, lines: seq<Segment>, upTo: nat)
    requires c.Valid()
  {
    if lines == [] then upTo == 0
    else
      var last := lines[|lines| - 1];
      && GoodLine(c, last) && Follows(c.text, last.start + last.len, upTo)
      && Wraps(c, lines[..|lines| - 1], last.start)
  }

  lemma {:induction false} WrapsMore(c: Column, lines: seq<Segment>, pos: nat)
    requires c.Valid() && Wraps(c, lines, pos) && pos <= |c.text|
    ensures var s := SegmentAt(c, pos); Wraps(c, lines + [s], NextPos(c.text, pos + s.len))
  {
    hide GoodLine, SegmentAt, NextPos, Follows;
    SegmentIsGood(c, pos);
    var more := lines + [SegmentAt(c, pos)];
    SegmentStarts(c, pos);
    NextFollows(c.text, pos + SegmentAt(c, pos).len);
    assert more[..|lines|] == lines && more[|lines|] == SegmentAt(c, pos);
  }

  lemma {:induction false} NextFollows(text: string, stop: nat)
    requires stop <= |text|
    ensures Follows(text, stop, NextPos(text, stop))
  {
  }

  lemma {:induction false} SegmentStarts(c: Column, pos: nat)
    requires c.Valid() && pos <= |c.text|
    ensures SegmentAt(c, pos).start == pos
  {
  }

  // ---------- The cursor ----------

  /** Goes back to a boundary, and then over the blanks before it. */
  method BreakOff(text: string, pos: nat, width: nat) returns (len: nat)
    requires pos + width <= |text|
    ensures len == WithoutBlanks(text, pos, ToBoundary(text, pos, width))
  {
    len := width;
    while len > 0 && !IsBoundary(text, pos + len)
      invariant len <= width && ToBoundary(text, pos, len) == ToBoundary(text, pos, width)
    {
      len := len - 1;
    }
    while len > 0 && IsWhitespace(text[pos + len - 1])
      invariant len <= width
      invariant WithoutBlanks(text, pos, len) == WithoutBlanks(text, pos, ToBoundary(text, pos, width))
    {
      len := len - 1;
    }
  }

  class Iterator {
    const column: Column
    var stringIndex: nat
    var pos: nat
    var len: nat
    var end: nat
    var suffix: bool

    /** A column has one string. */
    predicate AtEnd()
      reads this
    {
      stringIndex == 1
    }

    ghost predicate Valid()
      reads this
    {
      column.Valid() && stringIndex <= 1
      && if AtEnd() then pos == 0
         else pos < |column.text| && Segment(pos, len, suffix) == SegmentAt(column, pos) && end == LineEnd(column.text, pos)
    }

    constructor (column: Column)
      requires column.Valid()
      ensures Valid() && this.column == column && pos == 0
      ensures AtEnd() <==> column.text == "" || Dropped(column)
    {
      this.column, stringIndex, pos := column, 0, 0;
      new;
      CalcLength();
      DroppedExactly(column);
      if len == 0 {
        stringIndex := 1;
      }
    }

    method CalcLength()
      requires column.Valid() && pos <= |column.text| && stringIndex == 0
      modifies this`len, this`end, this`suffix
      ensures Segment(pos, len, suffix) == SegmentAt(column, pos) && end == LineEnd(column.text, pos)
    {
      hide ToBoundary, WithoutBlanks;
      suffix := false;
      var text, width := column.text, column.width - column.IndentAt(pos);
      end := pos;
      while end < |text| && text[end] != '\n'
        invariant !suffix && pos <= end <= |text| && LineEnd(text, end) == LineEnd(text, pos)
      {
        end := end + 1;
      }
      if end < pos + width {
        len := end - pos;
      } else {
        var l := BreakOff(text, pos, width);
        if l > 0 {
          len := l;
        } else {
          suffix := true;
          len := width - 1;
        }
      }
    }

    method Advance()
      requires Valid() && !AtEnd()
      modifies this`stringIndex, this`pos, this`len, this`end, this`suffix
      ensures Valid()
      ensures var next := NextPos(column.text, old(pos + len));
              if next == |column.text| then AtEnd() else !AtEnd() && pos == next
    {
      hide SegmentAt, LineEnd, IsWhitespace, Column.Valid;
      var text := column.text;
      pos := pos + len;
      if pos < |text| && text[pos] == '\n' {
        pos := pos + 1;
      } else {
        ghost var from := pos;
        while pos < |text| && IsWhitespace(text[pos])
          invariant stringIndex == 0 && from <= pos <= |text| && SkipBlanks(text, pos) == SkipBlanks(text, from)
        {
          pos := pos + 1;
        }
      }
      if pos == |text| {
        pos := 0;
        stringIndex := stringIndex + 1;
      }
      if stringIndex < 1 {
        CalcLength();
      }
    }
  }

  // ---------- What is kept of the text ----------

  function NonBlanks(s: string): string {
    if s == "" then "" else NonBlanks(s[..|s| - 1]) + if IsWhitespace(s[|s| - 1]) then "" else [s[|s| - 1]]
  }

  function Shown(text: string, lines: seq<Segment>): string
    requires forall k :: 0 <= k < |lines| ==> lines[k].start + lines[k].len <= |text|
  {
    if lines == [] then ""
    else
      var last := lines[|lines| - 1];
      Shown(text, lines[..|lines| - 1]) + text[last.start..last.start + last.len]
  }

  lemma {:induction false} NonBlanksConcat(a: string, b: string)
    ensures NonBlanks(a + b) == NonBlanks(a) + NonBlanks(b)
    decreases b
  {
    if b == "" {
      assert a + b == a;
    } else {
      var n := |b| - 1;
      assert (a + b)[..|a| + n] == a + b[..n];
      NonBlanksConcat(a, b[..n]);
    }
  }

  lemma {:induction false} BlanksVanish(text: string, from: nat, upTo: nat)
    requires Blank(text, from, upTo)
    ensures NonBlanks(text[..upTo]) == NonBlanks(text[..from])
    decreases upTo
  {
    if from < upTo {
      assert text[..upTo][..upTo - 1] == text[..upTo - 1];
      BlanksVanish(text, from, upTo - 1);
    }
  }

  lemma {:induction false} GoodLines(c: Column, lines: seq<Segment>, upTo: nat)
    requires c.Valid() && Wraps(c, lines, upTo)
    ensures forall k :: 0 <= k < |lines| ==> lines[k].start + lines[k].len <= |c.text|
    decreases lines
  {
    if lines != [] {
      GoodLines(c, lines[..|lines| - 1], lines[|lines| - 1].start);
    }
  }

  /** Wrapped text shows every character that is not blank, once and in order. */
  lemma {:induction false} NothingLost(c: Column, lines: seq<Segment>, upTo: nat)
    requires c.Valid() && Wraps(c, lines, upTo)
    ensures forall k :: 0 <= k < |lines| ==> lines[k].start + lines[k].len <= |c.text|
    ensures NonBlanks(Shown(c.text, lines)) == NonBlanks(c.text[..upTo])
    decreases lines
  {
    GoodLines(c, lines, upTo);
    if lines == [] {
      assert c.text[..0] == "";
    } else {
      var last, rest := lines[|lines| - 1], lines[..|lines| - 1];
      NothingLost(c, rest, last.start);
      hide NonBlanks, Wraps, GoodLine, Shown, Blank;
      LineShown(c.text, lines, upTo);
    }
  }

  lemma {:induction false} LineShown(text: string, lines: seq<Segment>, upTo: nat)
    requires lines != [] && forall k :: 0 <= k < |lines| ==> lines[k].start + lines[k].len <= |text|
    requires var last := lines[|lines| - 1];
             && Blank(text, last.start + last.len, upTo)
             && NonBlanks(Shown(text, lines[..|lines| - 1])) == NonBlanks(text[..last.start])
    ensures NonBlanks(Shown(text, lines)) == NonBlanks(text[..upTo])
  {
    hide NonBlanks, Blank;
    var last, shown := lines[|lines| - 1], Shown(text, lines[..|lines| - 1]);
    var part := text[last.start..last.start + last.len];
    BlanksVanish(text, last.start + last.len, upTo);
    NonBlanksConcat(shown, part);
    NonBlanksConcat(text[..last.start], part);
    assert text[..last.start] + part == text[..last.start + last.len];
  }

  lemma {:induction false} AllBlank(s: string)
    ensures NonBlanks(s) == "" <==> Blank(s, 0, |s|)
  {
    if s != "" {
      AllBlank(s[..|s| - 1]);
    }
  }

  /** Goes through all lines of a column.  They show the whole text but for blanks, if and only if the text is not
      dropped, or there is nothing but blanks to drop. */
  method Wrap(c: Column) returns (lines: seq<Segment>)
    requires c.Valid() && Ends(c)
    ensures if c.text == "" || Dropped(c) then lines == [] else Wraps(c, lines, |c.text|)
    ensures forall k :: 0 <= k < |lines| ==> lines[k].start + lines[k].len <= |c.text|
    ensures NonBlanks(Shown(c.text, lines)) == NonBlanks(c.text) <==> !Dropped(c) || Blank(c.text, 0, |c.text|)
  {
    hide Wraps, SegmentAt, NextPos, Dropped, NeedsNoHyphen, Shown, NonBlanks;
    lines := [];
    var it := new Iterator(c);
    EndsExactly(c);
    if c.text != "" && !Dropped(c) {
      WrapsNothing(c);
    }
    DroppedExactly(c);
    ghost var upTo := if it.AtEnd() then |c.text| else 0;
    while !it.AtEnd()
      invariant it.Valid() && it.column == c && upTo <= |c.text|
      invariant if it.AtEnd() then upTo == |c.text| else it.pos == upTo
      invariant if c.text == "" || Dropped(c) then it.AtEnd() && lines == []
                else Wraps(c, lines, upTo) && (upTo == 0 || Step(c, 0) <= upTo)
      decreases |c.text| - upTo
    {
      StepGoesOn(c, it.pos);
      WrapsMore(c, lines, it.pos);
      lines := lines + [Segment(it.pos, it.len, it.suffix)];
      upTo := Step(c, it.pos);
      it.Advance();
    }
    ShownExactly(c, lines);
  }

  lemma {:induction false} WrapsNothing(c: Column)
    requires c.Valid()
    ensures Wraps(c, [], 0)
  {
  }

  lemma {:induction false} ShownExactly(c: Column, lines: seq<Segment>)
    requires c.Valid() && if c.text == "" || Dropped(c) then lines == [] else Wraps(c, lines, |c.text|)
    ensures forall k :: 0 <= k < |lines| ==> lines[k].start + lines[k].len <= |c.text|
    ensures NonBlanks(Shown(c.text, lines)) == NonBlanks(c.text) <==> !Dropped(c) || Blank(c.text, 0, |c.text|)
  {
    hide Wraps, Dropped;
    AllBlank(c.text);
    if lines != [] || !(c.text == "" || Dropped(c)) {
      NothingLost(c, lines, |c.text|);
      assert c.text[..|c.text|] == c.text;
    }
  }

  /** With room for a hyphen, exactly the texts that start with a line end are dropped. */
  lemma {:induction false} WideColumns(c: Column)
    requires c.Wide()
    ensures c.Valid() && Ends(c)
    ensures Dropped(c) <==> c.text != "" && c.text[0] == '\n'
  {
    EndsExactly(c);
  }

  /** For instance, nothing of this text is printed. */
  lemma {:induction false} TextIsDropped()
    ensures var c := Column("\nabc", 80, 0, None);
            c.Wide() && Dropped(c) && Start(c) == |c.text| && NonBlanks(c.text) != ""
  {
    var c := Column("\nabc", 80, 0, None);
    DroppedExactly(c);
    AllBlank(c.text);
    assert !IsWhitespace(c.text[3]);
  }

  // ---------- What a line is printed as ----------

  /** The part of the text that a line prints, which is chosen by the full width of the column. */
  function PrintedEnd(c: Column, pos: nat): nat
    requires c.Valid() && pos <= |c.text|
  {
    if pos + c.width < LineEnd(c.text, pos) then pos + SegmentAt(c, pos).len else LineEnd(c.text, pos)
  }

  lemma {:induction false} WithoutBlanksIs(text: string, pos: nat, len: nat, n: nat)
    requires pos + len <= |text| && n <= len && (n > 0 ==> !IsWhitespace(text[pos + n - 1]))
    requires forall i :: pos + n <= i < pos + len ==> IsWhitespace(text[i])
    ensures WithoutBlanks(text, pos, len) == n
  {
    if n < len {
      WithoutBlanksIs(text, pos, len - 1, n);
    }
  }

  /** If the rest of the line fits but for blanks, the segment is all of it. */
  lemma {:induction false} SegmentIsLine(c: Column, pos: nat)
    requires c.Valid() && pos < |c.text| && pos + c.WidthAt(pos) <= LineEnd(c.text, pos)
    requires var n := WithoutBlanks(c.text, pos, LineEnd(c.text, pos) - pos); 0 < n <= c.WidthAt(pos)
    ensures SegmentAt(c, pos).len == WithoutBlanks(c.text, pos, LineEnd(c.text, pos) - pos)
  {
    var w, end := c.WidthAt(pos), LineEnd(c.text, pos);
    var n := WithoutBlanks(c.text, pos, end - pos);
    assert IsBoundary(c.text, pos + n);
    WithoutBlanksIs(c.text, pos, ToBoundary(c.text, pos, w), n);
  }

  lemma {:induction false} SegmentOfRest(c: Column, pos: nat)
    requires c.Valid() && pos < |c.text|
    ensures LineEnd(c.text, pos) < pos + c.WidthAt(pos) ==> pos + SegmentAt(c, pos).len == LineEnd(c.text, pos)
  {
  }

  /** A line prints its segment and blanks at most, unless the rest of the line of the text is too wide for the
      indented line even without the blanks at its end, but fits the column without an indent. */
  lemma {:induction false} PrintsSegment(c: Column, pos: nat)
    requires c.Valid() && pos < |c.text|
    ensures var rest := LineEnd(c.text, pos) - pos;
            Blank(c.text, pos + SegmentAt(c, pos).len, PrintedEnd(c, pos))
            <==> !(c.WidthAt(pos) < WithoutBlanks(c.text, pos, rest) && rest <= c.width)
  {
    var w, end := c.WidthAt(pos), LineEnd(c.text, pos);
    var n := WithoutBlanks(c.text, pos, end - pos);
    GoodFits(c, pos);
    SegmentOfRest(c, pos);
    hide SegmentAt, LineEnd, IsBoundary, WithoutBlanks, IsWhitespace;
    if pos + w <= end <= pos + c.width {
      if 0 < n <= w {
        SegmentIsLine(c, pos);
      } else if w < n {
        assert !IsWhitespace(c.text[pos + n - 1]);
      }
    }
  }

  lemma {:induction false} PrintsUnindented(c: Column, pos: nat)
    requires c.Valid() && pos < |c.text| && c.IndentAt(pos) == 0
    ensures Blank(c.text, pos + SegmentAt(c, pos).len, PrintedEnd(c, pos))
  {
    hide Blank, PrintedEnd, LineEnd, SegmentAt;
    PrintsSegment(c, pos);
  }

  /** With an indent, a line can print text that the next line prints again. */
  lemma {:induction false} IndentRepeats()
    ensures var c := Column("aaaa bbbb", 10, 4, None);
            c.Wide() && SegmentAt(c, 0) == Segment(0, 4, false) && Step(c, 0) == 5 && PrintedEnd(c, 0) == 9
  {
    var text := "aaaa bbbb";
    assert LineEnd(text, 9) == 9 && LineEnd(text, 8) == 9 && LineEnd(text, 7) == 9 && LineEnd(text, 6) == 9;
    assert LineEnd(text, 5) == 9 && LineEnd(text, 4) == 9 && LineEnd(text, 3) == 9 && LineEnd(text, 2) == 9;
    assert LineEnd(text, 1) == 9 && LineEnd(text, 0) == 9;
    assert ToBoundary(text, 0, 4) == 4 && ToBoundary(text, 0, 5) == 4 && ToBoundary(text, 0, 6) == 4;
    assert WithoutBlanks(text, 0, 4) == 4;
    assert SkipBlanks(text, 5) == 5 && SkipBlanks(text, 4) == 5;
  }
}
