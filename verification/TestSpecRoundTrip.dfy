/** Printing test specifications, and what the parser makes of the result. */
module TestSpecRoundTrip {
  import opened TestSpecs
  import opened TestSpecEscapes

  /** How a pattern is written: a name without quotes and with some characters escaped, a name in quotes, or a tag. */
  datatype Form = Bare(marks: seq<bool>) | InQuotes | InBrackets

  /** A pattern before it is parsed.  There are blanks in front of it, and behind the `~` that excludes it. */
  datatype Item = Item(form: Form, lead: nat, excluded: bool, gap: nat, text: string)

  function Blanks(n: nat): (r: string)
    ensures |r| == n
  {
    if n == 0 then "" else " " + Blanks(n - 1)
  }

  function Body(item: Item): string {
    match item.form
    case Bare(marks) => if |marks| == |item.text| then Written(item.text, marks) else ""
    case InQuotes => "\"" + item.text + "\""
    case InBrackets => "[" + item.text + "]"
  }

  function Lead(item: Item): string {
    Blanks(item.lead) + (if item.excluded then "~" else "") + Blanks(item.gap)
  }

  function Print(item: Item): string {
    Lead(item) + Body(item)
  }

  function PrintFilter(items: seq<Item>): string {
    if items == [] then "" else Print(items[0]) + PrintFilter(items[1..])
  }

  function PrintSpec(filters: seq<seq<Item>>): string {
    if filters == [] then ""
    else if |filters| == 1 then PrintFilter(filters[0])
    else PrintFilter(filters[0]) + "," + PrintSpec(filters[1..])
  }

  /** What an item says, `exclude:` being part of its text. */
  function Literal(item: Item): Pattern {
    var plain := if item.form.InBrackets? then TagPattern(item.text) else NamePattern(item.text);
    if item.excluded then ExcludedPattern(plain) else plain
  }

  /** What the parser takes it for: at most one pattern. */
  function Meaning(item: Item): Filter {
    var prefixed := "exclude:" <= item.text;
    var text := if prefixed then item.text[8..] else item.text;
    if text == "" then []
    else [Literal(item.(text := text, excluded := item.excluded || prefixed))]
  }

  /** The word `exclude:`, which excludes a tag that follows. */
  predicate IsPrefixWord(item: Item) {
    item.form.Bare? && Body(item) == "exclude:"
  }

  function FilterMeaning(items: seq<Item>): Filter {
    if items == [] then []
    else if |items| > 1 && IsPrefixWord(items[0]) then
      Meaning(items[1].(excluded := true)) + FilterMeaning(items[2..])
    else Meaning(items[0]) + FilterMeaning(items[1..])
  }

  function SpecMeaning(filters: seq<seq<Item>>): seq<Filter> {
    if filters == [] then []
    else NonEmpty(FilterMeaning(filters[0])) + SpecMeaning(filters[1..])
  }

  /** A filter without patterns is dropped. */
  function NonEmpty(filter: Filter): seq<Filter> {
    if filter == [] then [] else [filter]
  }

  function FilterLiteral(items: seq<Item>): (r: Filter)
    ensures |r| == |items|
  {
    seq(|items|, i requires 0 <= i < |items| => Literal(items[i]))
  }

  function SpecLiteral(filters: seq<seq<Item>>): (r: seq<Filter>)
    ensures |r| == |filters|
  {
    seq(|filters|, i requires 0 <= i < |filters| => FilterLiteral(filters[i]))
  }

  /** The text can be told from what follows it: it is not empty; a name without quotes has what means something
      escaped; of any other text only the first character, which the parser skips, may be the closing one. */
  predicate Printable(item: Item) {
    item.text != ""
    && match item.form
       case Bare(marks) => |marks| == |item.text| && MarksSuffice(item.text, marks)
       case InQuotes => '"' !in item.text[1..]
       case InBrackets => ']' !in item.text[1..]
  }

  /** A tag that starts with its bracket. */
  predicate IsTagAtOnce(item: Item) {
    item.form.InBrackets? && Lead(item) == ""
  }

  /** Only a tag ends a name without quotes that is not the last pattern of its filter. */
  predicate PrintableFilter(items: seq<Item>) {
    && items != [] && (forall i :: 0 <= i < |items| ==> Printable(items[i]))
    && forall i :: 0 <= i < |items| - 1 && items[i].form.Bare? ==> IsTagAtOnce(items[i + 1])
  }

  predicate PrintableSpec(filters: seq<seq<Item>>) {
    forall i :: 0 <= i < |filters| ==> PrintableFilter(filters[i])
  }

  predicate NoPrefixes(filters: seq<seq<Item>>) {
    forall i, j :: 0 <= i < |filters| && 0 <= j < |filters[i]| ==> !("exclude:" <= filters[i][j].text)
  }

  // ---------- What comes out in the end ----------

  /** The specification, once the rest of the argument is read. */
  function Results(s: State): seq<Filter>
    requires Ok(s)
  {
    var s1 := Run(s);
    TestSpec(if s1.mode == Name then AddPattern(s1, false) else s1)
  }

  /** The parser is between two patterns, and `rest` is still to come. */
  ghost predicate Before(s: State, rest: string) {
    Ok(s) && s.mode == Outside && s.pos <= |s.arg| && s.arg[s.pos..] == rest
  }

  /** Between two patterns it does not matter where the last one started. */
  lemma {:induction false} StartIsFree(s: State, start: nat)
    requires Ok(s) && s.mode == Outside
    ensures Ok(s.(start := start)) && Results(s.(start := start)) == Results(s)
    decreases |s.arg| + 1 - s.pos
  {
    var s1 := s.(start := start);
    if s.pos < |s.arg| {
      RunStep(s);
      RunStep(s1);
      StepIsFree(s, start);
      hide Run, Step;
      if s.arg[s.pos] == ' ' || s.arg[s.pos] == '~' {
        StartIsFree(Step(s), start);
      }
    }
  }

  lemma {:induction false} StepIsFree(s: State, start: nat)
    requires Ok(s) && s.mode == Outside && s.pos < |s.arg|
    ensures var s1, skipped := s.(start := start), s.arg[s.pos] == ' ' || s.arg[s.pos] == '~';
            Step(s1) == if skipped then Step(s).(start := start) else Step(s)
    ensures s.arg[s.pos] == ' ' || s.arg[s.pos] == '~' ==> Step(s).mode == Outside
  {
    hide Without;
  }

  // ---------- Reading one pattern ----------

  lemma {:induction false} ReadBlank(s: State, rest: string)
    requires Before(s, " " + rest)
    ensures var s1 := s.(pos := s.pos + 1); Before(s1, rest) && Run(s) == Run(s1)
  {
    Split(s.arg, s.pos, " ", rest);
    assert Step(s) == s.(pos := s.pos + 1);
    RunStep(s);
  }

  lemma {:induction false} BlanksStep(n: nat, rest: string)
    ensures n > 0 ==> Blanks(n) + rest == " " + (Blanks(n - 1) + rest)
    ensures n == 0 ==> Blanks(n) + rest == rest
  {
  }

  lemma {:induction false} ReadBlanks(s: State, n: nat, rest: string)
    requires Before(s, Blanks(n) + rest)
    ensures var s1 := s.(pos := s.pos + n); Before(s1, rest) && Run(s) == Run(s1)
    decreases n
  {
    hide Run, Blanks, Before;
    BlanksStep(n, rest);
    if n > 0 {
      ReadBlank(s, Blanks(n - 1) + rest);
      ReadBlanks(s.(pos := s.pos + 1), n - 1, rest);
    } else {
      assert s.(pos := s.pos + n) == s;
    }
  }

  lemma {:induction false} ReadTilde(s: State, rest: string)
    requires Before(s, "~" + rest)
    ensures var s1 := s.(pos := s.pos + 1, exclusion := true); Before(s1, rest) && Run(s) == Run(s1)
  {
    Split(s.arg, s.pos, "~", rest);
    assert Step(s) == s.(pos := s.pos + 1, exclusion := true);
    RunStep(s);
  }

  /** The parser is at the body of the item, and knows whether it is excluded. */
  ghost function AtBody(s: State, item: Item): State {
    s.(pos := s.pos + |Lead(item)|, exclusion := s.exclusion || item.excluded)
  }

  lemma {:induction false} ReadLead(s: State, item: Item, rest: string)
    requires Before(s, Lead(item) + rest)
    ensures Before(AtBody(s, item), rest) && Run(s) == Run(AtBody(s, item))
  {
    LeadParts(item, rest);
    hide Run, Blanks, Before, Lead;
    if item.excluded {
      ReadBlanks(s, item.lead, "~" + (Blanks(item.gap) + rest));
      ReadTilde(s.(pos := s.pos + item.lead), Blanks(item.gap) + rest);
      ReadBlanks(s.(pos := s.pos + item.lead + 1, exclusion := true), item.gap, rest);
    } else {
      ReadBlanks(s, item.lead, Blanks(item.gap) + rest);
      ReadBlanks(s.(pos := s.pos + item.lead), item.gap, rest);
    }
  }

  lemma {:induction false} LeadParts(item: Item, rest: string)
    ensures var a, c := Blanks(item.lead), Blanks(item.gap);
            Lead(item) + rest == if item.excluded then a + ("~" + (c + rest)) else a + (c + rest)
    ensures |Lead(item)| == item.lead + item.gap + if item.excluded then 1 else 0
  {
    hide Blanks;
  }

  /** What an item adds, if the parser is set to exclude or not. */
  function Added(item: Item, excluded: bool): Filter {
    Meaning(item.(excluded := excluded))
  }

  lemma {:induction false} AddedIs(s: State, item: Item)
    requires s.start <= s.pos <= |s.arg| && Without(SubString(s), s.start, s.escapes) == item.text
    ensures var s1 := AddPattern(s, item.form.InBrackets?);
            s1 == s.(mode := Outside, exclusion := false, escapes := [], filter := s.filter + Added(item, s.exclusion))
  {
    hide Without;
  }

  function Closer(item: Item): char {
    if item.form.InBrackets? then ']' else '"'
  }

  /** The parser has just gone past the opening character and the one behind it. */
  ghost function Inside(s: State, item: Item): State {
    s.(mode := if item.form.InBrackets? then Tag else QuotedName, start := s.pos + 1, pos := s.pos + 2)
  }

  lemma {:induction false} NotInside(arg: string, at: nat, text: string, c: char)
    requires at + |text| <= |arg| && arg[at..at + |text|] == text && text != "" && c !in text[1..]
    ensures forall i :: at < i < at + |text| ==> arg[i] != c
  {
    forall i | at < i < at + |text|
      ensures arg[i] != c
    {
      assert arg[i] == arg[at..at + |text|][i - at] == text[1..][i - at - 1];
    }
  }

  lemma {:induction false} BodyPieces(item: Item, rest: string)
    requires !item.form.Bare?
    ensures |Body(item)| == |item.text| + 2
    ensures var opening := if item.form.InBrackets? then '[' else '"';
            Body(item) + rest == [opening] + (item.text + ([Closer(item)] + rest))
  {
  }

  lemma {:induction false} CutEnclosed(arg: string, at: nat, opening: char, text: string, closing: char, rest: string)
    requires at <= |arg| && arg[at..] == [opening] + (text + ([closing] + rest))
    ensures var end := at + 1 + |text|;
            && end < |arg| && arg[at] == opening && arg[at + 1..end] == text && arg[end] == closing && arg[end + 1..] == rest
  {
    Split(arg, at, [opening], text + ([closing] + rest));
    Split(arg, at + 1, text, [closing] + rest);
    Split(arg, at + 1 + |text|, [closing], rest);
  }

  lemma {:induction false} EnclosedParts(s: State, item: Item, rest: string)
    requires !item.form.Bare? && Before(s, Body(item) + rest) && Printable(item)
    ensures var end := s.pos + 1 + |item.text|;
            && end < |s.arg| && s.arg[s.pos + 1..end] == item.text
            && s.arg[s.pos] == (if item.form.InBrackets? then '[' else '"')
            && s.arg[end] == Closer(item) && s.arg[end + 1..] == rest && end + 1 == s.pos + |Body(item)|
            && forall i :: s.pos + 1 < i < end ==> s.arg[i] != Closer(item)
  {
    hide Ok;
    var opening := if item.form.InBrackets? then '[' else '"';
    BodyPieces(item, rest);
    hide Body;
    CutEnclosed(s.arg, s.pos, opening, item.text, Closer(item), rest);
    NotInside(s.arg, s.pos + 1, item.text, Closer(item));
  }

  /** Inside quotes or brackets nothing happens before the closing character. */
  lemma {:induction false} SkipText(s: State, end: nat)
    requires Ok(s) && s.mode in {QuotedName, Tag} && s.pos <= end <= |s.arg|
    requires forall i :: s.pos <= i < end ==> s.arg[i] != if s.mode == Tag then ']' else '"'
    ensures Ok(s.(pos := end)) && Run(s) == Run(s.(pos := end))
    decreases end - s.pos
  {
    if s.pos < end {
      assert Step(s) == s.(pos := s.pos + 1);
      SkipText(Step(s), end);
    }
  }

  /** The parser is behind an item in quotes or brackets. */
  ghost function BehindBody(s: State, item: Item): State {
    s.(pos := s.pos + |Body(item)|, start := s.pos + 1, exclusion := false, filter := s.filter + Added(item, s.exclusion))
  }

  lemma {:induction false} ReadEnclosed(s: State, item: Item, rest: string)
    requires !item.form.Bare? && Before(s, Body(item) + rest) && Printable(item)
    ensures Before(BehindBody(s, item), rest) && Run(s) == Run(BehindBody(s, item))
  {
    EnclosedParts(s, item, rest);
    var end := s.pos + 1 + |item.text|;
    EnterBody(s, item);
    SkipText(Inside(s, item), end);
    LeaveBody(s, item, end);
  }

  lemma {:induction false} EnterBody(s: State, item: Item)
    requires Ok(s) && s.mode == Outside && s.pos < |s.arg| && s.arg[s.pos] == if item.form.InBrackets? then '[' else '"'
    ensures Step(s) == Inside(s, item) && Ok(Step(s)) && Run(s) == Run(Step(s))
  {
    hide Run, Without;
    RunStep(s);
  }

  lemma {:induction false} LeaveBody(s: State, item: Item, end: nat)
    requires !item.form.Bare? && Ok(s) && s.mode == Outside && s.pos + 1 + |item.text| == end < |s.arg|
    requires s.arg[s.pos + 1..end] == item.text && s.arg[end] == Closer(item) && end + 1 == s.pos + |Body(item)|
    requires Ok(Inside(s, item).(pos := end))
    ensures var s1 := Inside(s, item).(pos := end); Ok(BehindBody(s, item)) && Run(s1) == Run(BehindBody(s, item))
  {
    hide Run, Without, Body, Meaning;
    var s1 := Inside(s, item).(pos := end);
    WithoutNone(item.text, s1.start, []);
    assert SubString(s1) == item.text;
    AddedIs(s1, item);
    assert Step(s1) == BehindBody(s, item);
    RunStep(s1);
  }

  /** The parser is behind a name without quotes, and has added it. */
  ghost function BehindName(s: State, item: Item): State {
    s.(pos := s.pos + |Body(item)|, exclusion := false, filter := s.filter + Added(item, s.exclusion))
  }

  lemma {:induction false} ReadBare(s: State, item: Item, rest: string)
    requires item.form.Bare? && Before(s, Body(item) + rest) && Printable(item)
    ensures var s1 := InName(s, item.text, item.form.marks);
            && Ok(s1) && s1.mode == Name && Run(s) == Run(s1) && s1.pos <= |s1.arg| && s1.arg[s1.pos..] == rest
            && SubString(s1) == Body(item)
            && AddPattern(s1, false) == BehindName(s, item).(start := s.pos)
            && Before(BehindName(s, item), rest)
  {
    WrittenStarts(item.text, item.form.marks);
    Split(s.arg, s.pos, Body(item), rest);
    hide Run, Without, Written, Meaning;
    ReadWholeName(s, item.text, item.form.marks, rest);
    AddedIs(InName(s, item.text, item.form.marks), item);
  }

  /** A name ends at a tag, at a comma, and at the end of the argument. */
  lemma {:induction false} ReadName(s: State, item: Item, rest: string)
    requires item.form.Bare? && Before(s, Body(item) + rest) && Printable(item)
    requires rest == "" || rest[0] == ',' || (rest[0] == '[' && Body(item) != "exclude:")
    ensures Before(BehindName(s, item), rest) && Results(s) == Results(BehindName(s, item))
  {
    ReadBare(s, item, rest);
    hide Body, Meaning, Without, Written, Backslashes, AddPattern, TestSpec;
    var s1, s2 := InName(s, item.text, item.form.marks), BehindName(s, item);
    if rest == "" {
      assert Run(s1) == s1 && Run(s2) == s2;
      FilterOnly(s2, s.pos);
    } else {
      assert s1.arg[s1.pos] == s2.arg[s2.pos] == rest[0];
      if rest[0] == '[' {
        assert Step(s1) == StartBehind(AddPattern(s1, false), Tag).(pos := s1.pos + 2);
        assert Step(s1) == Step(s2);
        RunStep(s1);
        RunStep(s2);
      } else {
        NameAtComma(s1, s2, s.pos);
      }
    }
  }

  lemma {:induction false} FilterOnly(s: State, start: nat)
    ensures TestSpec(s.(start := start)) == TestSpec(s)
  {
  }

  lemma {:induction false} NameAtComma(s1: State, s2: State, start: nat)
    requires Ok(s1) && Ok(s2) && s1.mode == Name && s2.mode == Outside && s2.escapes == [] && s1.pos < |s1.arg|
    requires s1.arg[s1.pos] == ',' && s2 == AddPattern(s1, false).(start := s2.start)
    ensures Results(s1) == Results(s2)
  {
    hide Without;
    assert SubString(s2.(mode := Name, start := s2.pos)) == "";
    assert s2.filter + [] == s2.filter;
    assert Step(s2) == Step(s1).(start := s2.pos);
    RunStep(s1);
    RunStep(s2);
    StartIsFree(Step(s1), s2.pos);
  }

  lemma {:induction false} PrefixStep(s1: State, s2: State)
    requires Ok(s1) && Ok(s2) && s1.mode == Name && s1.pos < |s1.arg| && s1.arg[s1.pos] == '['
    requires SubString(s1) == EXCLUDE && s2 == s1.(mode := Outside, start := s2.start, exclusion := true)
    ensures Run(s1) == Run(s2)
  {
    hide Ok, Run, SubString;
    assert Step(s1) == Step(s2);
    RunStep(s1);
    RunStep(s2);
  }

  lemma {:induction false} WordLength(item: Item)
    requires IsPrefixWord(item)
    ensures |Body(item)| == 8 && Body(item) == EXCLUDE && item.form.Bare? && |item.form.marks| == |item.text|
  {
  }

  /** The parser in the name, when it has read the word. */
  lemma {:induction false} PrefixWordIs(s: State, item: Item, rest: string)
    requires item.form.Bare? && |item.form.marks| == |item.text| && Before(s, Body(item) + rest) && |Body(item)| == 8
    requires var s1 := InName(s, item.text, item.form.marks); s1.escapes == []
    ensures InName(s, item.text, item.form.marks).(mode := Outside, start := s.start, exclusion := true)
         == s.(pos := s.pos + 8, exclusion := true)
  {
    hide Written, Backslashes;
  }

  /** The word `exclude:` in front of a tag. */
  lemma {:induction false} ReadPrefixWord(s: State, item: Item, rest: string)
    requires IsPrefixWord(item) && Before(s, Body(item) + rest) && Printable(item) && rest != "" && rest[0] == '['
    ensures var s1 := s.(pos := s.pos + 8, exclusion := true); Before(s1, rest) && Run(s) == Run(s1)
  {
    hide InName, BehindName, Meaning, Without, Written, Backslashes, Step, Run, SubString, IsPrefixWord;
    WordLength(item);
    hide Body;
    ReadBare(s, item, rest);
    var s1 := InName(s, item.text, item.form.marks);
    assert |s1.arg[s1.pos..]| > 0 && s1.arg[s1.pos] == rest[0];
    NoEscapes(s1);
    PrefixWordIs(s, item, rest);
    PrefixStep(s1, s.(pos := s.pos + 8, exclusion := true));
  }

  // ---------- Reading filters ----------

  /** A name without quotes ends at a comma or with the argument, if no tag does. */
  predicate EndsBefore(item: Item, rest: string) {
    item.form.Bare? ==> rest == "" || rest[0] == ','
  }

  predicate EndsWith(items: seq<Item>, rest: string) {
    items != [] ==> EndsBefore(items[|items| - 1], rest)
  }

  predicate PrintableItems(items: seq<Item>) {
    items != [] ==> PrintableFilter(items)
  }

  /** What reading some text has done, if it stood for these patterns. */
  ghost predicate HasRead(s: State, added: Filter, rest: string, s': State) {
    && Ok(s) && Before(s', rest) && Results(s') == Results(s)
    && !s'.exclusion && s'.filter == s.filter + added && s'.filters == s.filters && s'.arg == s.arg
  }

  lemma {:induction false} HasReadBoth(s: State, a: Filter, text: string, s1: State, b: Filter, rest: string, s2: State)
    requires HasRead(s, a, text, s1) && HasRead(s1, b, rest, s2)
    ensures HasRead(s, a + b, rest, s2)
  {
    hide Results;
    Regroup(s.filter, a, b);
  }

  lemma {:induction false} ReadItem(s: State, item: Item, rest: string) returns (s': State)
    requires Before(s, Print(item) + rest) && Printable(item) && !s.exclusion
    requires item.form.Bare? ==>
               rest == "" || rest[0] == ',' || (rest[0] == '[' && Body(item) != "exclude:")
    ensures HasRead(s, Meaning(item), rest, s')
  {
    hide Lead, Body, Run, Meaning;
    Regroup(Lead(item), Body(item), rest);
    ReadLead(s, item, Body(item) + rest);
    var s1 := AtBody(s, item);
    assert item.(excluded := item.excluded) == item;
    if item.form.Bare? {
      ReadName(s1, item, rest);
      s' := BehindName(s1, item);
    } else {
      ReadEnclosed(s1, item, rest);
      s' := BehindBody(s1, item);
    }
  }

  lemma {:induction false} PrintIs(item: Item, rest: string)
    ensures Print(item) + rest == Lead(item) + (Body(item) + rest)
  {
    hide Lead, Body;
  }

  lemma {:induction false} TagAtOnce(tag: Item, rest: string)
    requires IsTagAtOnce(tag)
    ensures tag.form.InBrackets? && Print(tag) == Body(tag) && Print(tag) + rest != "" && (Print(tag) + rest)[0] == '['
  {
  }

  /** The word `exclude:` and the tag behind it are one pattern. */
  lemma {:induction false} ReadPrefixed(s: State, word: Item, tag: Item, rest: string) returns (s': State)
    requires Before(s, Print(word) + (Print(tag) + rest)) && Printable(word) && Printable(tag) && !s.exclusion
    requires IsPrefixWord(word) && IsTagAtOnce(tag)
    ensures HasRead(s, Meaning(tag.(excluded := true)), rest, s')
  {
    hide Print, Body, Run, Meaning, Lead, IsTagAtOnce;
    TagAtOnce(tag, rest);
    PrintIs(word, Print(tag) + rest);
    ReadLead(s, word, Body(word) + (Print(tag) + rest));
    var s1 := AtBody(s, word);
    ReadPrefixWord(s1, word, Print(tag) + rest);
    var s2 := s1.(pos := s1.pos + 8, exclusion := true);
    ReadEnclosed(s2, tag, rest);
    s' := BehindBody(s2, tag);
  }

  lemma {:induction false} FilterRest(items: seq<Item>, rest: string)
    requires items != [] && PrintableFilter(items)
    ensures PrintableItems(items[1..]) && Printable(items[0])
    ensures PrintFilter(items) + rest == Print(items[0]) + (PrintFilter(items[1..]) + rest)
    ensures |items| > 1 && items[0].form.Bare? ==> IsTagAtOnce(items[1])
    ensures EndsWith(items, rest) ==> EndsWith(items[1..], rest)
  {
    hide Print, Printable, IsTagAtOnce;
    var more := items[1..];
    assert forall i :: 0 <= i < |more| ==> more[i] == items[i + 1];
  }

  lemma {:induction false} StartsWithTag(items: seq<Item>, rest: string)
    requires items != [] && IsTagAtOnce(items[0])
    ensures var text := PrintFilter(items) + rest; text != "" && text[0] == '['
  {
    assert Print(items[0])[0] == '[';
  }

  lemma {:induction false} IsBare(item: Item)
    ensures IsPrefixWord(item) <==> item.form.Bare? && Body(item) == "exclude:"
  {
  }

  lemma {:induction false} ReadFilter(s: State, items: seq<Item>, rest: string) returns (s': State)
    requires Before(s, PrintFilter(items) + rest) && PrintableItems(items) && EndsWith(items, rest) && !s.exclusion
    ensures HasRead(s, FilterMeaning(items), rest, s')
    decreases |items|
  {
    hide Results, Print, Meaning, Printable, IsTagAtOnce, IsPrefixWord;
    if items == [] {
      assert PrintFilter(items) + rest == rest && s.filter + [] == s.filter;
      s' := s;
    } else {
      var more := items[1..];
      FilterRest(items, rest);
      if |items| > 1 && IsPrefixWord(items[0]) {
        FilterRest(more, rest);
        IsBare(items[0]);
        assert more[1..] == items[2..];
        hide PrintFilter;
        var s1 := ReadPrefixed(s, items[0], items[1], PrintFilter(items[2..]) + rest);
        s' := ReadFilter(s1, items[2..], rest);
        HasReadBoth(s, Meaning(items[1].(excluded := true)), PrintFilter(items[2..]) + rest, s1,
                    FilterMeaning(items[2..]), rest, s');
      } else {
        if |items| > 1 && items[0].form.Bare? {
          StartsWithTag(more, rest);
        }
        IsBare(items[0]);
        hide PrintFilter;
        var s1 := ReadItem(s, items[0], PrintFilter(more) + rest);
        s' := ReadFilter(s1, more, rest);
        HasReadBoth(s, Meaning(items[0]), PrintFilter(more) + rest, s1, FilterMeaning(more), rest, s');
      }
    }
  }

  ghost function AfterComma(s: State): State {
    AddFilter(s.(pos := s.pos + 1, start := s.pos))
  }

  lemma {:induction false} ReadComma(s: State, rest: string)
    requires Before(s, "," + rest) && !s.exclusion
    ensures Before(AfterComma(s), rest) && Run(s) == Run(AfterComma(s))
  {
    Split(s.arg, s.pos, ",", rest);
    assert SubString(s.(mode := Name, start := s.pos)) == "";
    assert s.filter + [] == s.filter;
    assert Step(s) == AfterComma(s);
    RunStep(s);
  }

  /** Between two filters. */
  ghost predicate AtFilter(s: State, rest: string) {
    Before(s, rest) && !s.exclusion && s.filter == []
  }

  lemma {:induction false} ReadNext(s: State, items: seq<Item>, rest: string) returns (s': State)
    requires AtFilter(s, PrintFilter(items) + ("," + rest)) && PrintableFilter(items)
    ensures AtFilter(s', rest) && Results(s) == Results(s') && s'.filters == s.filters + NonEmpty(FilterMeaning(items))
  {
    hide Run, Step, PrintFilter, FilterMeaning, PrintableFilter;
    var s1 := ReadFilter(s, items, "," + rest);
    assert s1.filter == FilterMeaning(items);
    ReadComma(s1, rest);
    s' := AfterComma(s1);
    assert s1.filters + [] == s1.filters;
  }

  /** `tail` is what is left when all of the filters have been read. */
  lemma {:induction false} ReadFilters(s: State, filters: seq<seq<Item>>, tail: string) returns (s': State)
    requires AtFilter(s, PrintSpec(filters) + tail) && PrintableSpec(filters)
    requires filters != [] ==> EndsWith(filters[|filters| - 1], tail)
    ensures Before(s', tail) && !s'.exclusion && Results(s) == Results(s') && TestSpec(s') == s.filters + SpecMeaning(filters)
    decreases filters
  {
    hide Results, PrintFilter, FilterMeaning, PrintableFilter, EndsWith;
    if filters == [] {
      assert "" + tail == tail && s.filters + [] == s.filters;
      s' := s;
    } else if |filters| == 1 {
      s' := ReadFilter(s, filters[0], tail);
      OneFilter(s.filters, filters);
      assert s'.filter == FilterMeaning(filters[0]);
    } else {
      var rest := PrintSpec(filters[1..]) + tail;
      assert PrintSpec(filters) + tail == PrintFilter(filters[0]) + ("," + rest);
      var s1 := ReadNext(s, filters[0], rest);
      s' := ReadFilters(s1, filters[1..], tail);
      Regroup(s.filters, NonEmpty(FilterMeaning(filters[0])), SpecMeaning(filters[1..]));
    }
  }

  lemma {:induction false} OneFilter(before: seq<Filter>, filters: seq<seq<Item>>)
    requires |filters| == 1
    ensures before + SpecMeaning(filters) == before + NonEmpty(FilterMeaning(filters[0])) && before + [] == before
  {
    hide FilterMeaning;
    assert filters[1..] == [];
    assert NonEmpty(FilterMeaning(filters[0])) + [] == NonEmpty(FilterMeaning(filters[0]));
  }

  lemma {:induction false} StartOf(text: string)
    ensures AtFilter(Begin(NEW, text), text) && ParseTestSpec(text) == Results(Begin(NEW, text))
  {
    assert text[0..] == text;
  }

  /** Whatever is printed is read as the list of its meanings. */
  lemma {:induction false} ParsePrinted(filters: seq<seq<Item>>)
    requires PrintableSpec(filters)
    ensures ParseTestSpec(PrintSpec(filters)) == SpecMeaning(filters)
  {
    hide PrintSpec, SpecMeaning, PrintableFilter, AddPattern, Step;
    var text := PrintSpec(filters);
    StartOf(text);
    assert text + "" == text && [] + SpecMeaning(filters) == SpecMeaning(filters);
    var s := ReadFilters(Begin(NEW, text), filters, "");
    assert Run(s) == s;
  }

  function Unclosed(item: Item): string {
    (if item.form.InBrackets? then "[" else "\"") + item.text
  }

  lemma {:induction false} ReadUnclosed(s: State, item: Item)
    requires !item.form.Bare? && Before(s, Unclosed(item)) && Printable(item)
    ensures Results(s) == TestSpec(s)
  {
    var opening := if item.form.InBrackets? then "[" else "\"";
    Split(s.arg, s.pos, opening, item.text);
    assert s.arg[s.pos + 1..s.pos + 1 + |item.text|] == item.text;
    NotInside(s.arg, s.pos + 1, item.text, Closer(item));
    hide Run, AddPattern;
    assert Step(s) == Inside(s, item);
    RunStep(s);
    SkipText(Inside(s, item), |s.arg|);
    RunEnds(Inside(s, item).(pos := |s.arg|));
  }

  lemma {:induction false} RunEnds(s: State)
    requires Ok(s) && |s.arg| <= s.pos
    ensures Run(s) == s
  {
  }

  /** A pattern in quotes or brackets that is not closed is dropped. */
  lemma {:induction false} ParseUnclosed(filters: seq<seq<Item>>, item: Item)
    requires PrintableSpec(filters) && !item.form.Bare? && Printable(item)
    requires var tail := Lead(item) + Unclosed(item); filters != [] ==> EndsWith(filters[|filters| - 1], tail)
    ensures ParseTestSpec(PrintSpec(filters) + (Lead(item) + Unclosed(item))) == SpecMeaning(filters)
  {
    hide PrintSpec, SpecMeaning, PrintableFilter, AddPattern, Step, Unclosed, Lead, Run;
    var tail := Lead(item) + Unclosed(item);
    var text := PrintSpec(filters) + tail;
    StartOf(text);
    var s := ReadFilters(Begin(NEW, text), filters, tail);
    ReadLead(s, item, Unclosed(item));
    ReadUnclosed(AtBody(s, item), item);
    assert [] + SpecMeaning(filters) == SpecMeaning(filters);
  }

  lemma {:induction false} ReadOpenEscape(s: State, item: Item)
    requires item.form.Bare? && Before(s, Body(item) + "\\") && Printable(item)
    ensures Results(s) == TestSpec(s)
  {
    ReadBare(s, item, "\\");
    var s1 := InName(s, item.text, item.form.marks);
    hide Run, AddPattern, Without, Written, Backslashes, Body, Meaning;
    assert s1.arg[s1.pos] == s1.arg[s1.pos..][0] == '\\' && |s1.arg| == s1.pos + 1;
    RunStep(s1);
    RunEnds(Step(s1));
  }

  /** A name that ends with a backslash at the end of the argument is dropped. */
  lemma {:induction false} ParseOpenEscape(filters: seq<seq<Item>>, item: Item)
    requires PrintableSpec(filters) && item.form.Bare? && Printable(item)
    requires filters != [] ==> EndsWith(filters[|filters| - 1], Print(item) + "\\")
    ensures ParseTestSpec(PrintSpec(filters) + (Print(item) + "\\")) == SpecMeaning(filters)
  {
    hide PrintSpec, SpecMeaning, PrintableFilter, AddPattern, Step, Body, Lead, Run;
    var tail := Print(item) + "\\";
    var text := PrintSpec(filters) + tail;
    StartOf(text);
    var s := ReadFilters(Begin(NEW, text), filters, tail);
    Regroup(Lead(item), Body(item), "\\");
    ReadLead(s, item, Body(item) + "\\");
    ReadOpenEscape(AtBody(s, item), item);
    assert [] + SpecMeaning(filters) == SpecMeaning(filters);
  }

  // ---------- Names and commas ----------

  /** Names without quotes, with a comma between every two. */
  function Listed(names: seq<string>, marks: seq<seq<bool>>): string
    requires |marks| == |names| && forall i :: 0 <= i < |names| ==> |marks[i]| == |names[i]|
  {
    if names == [] then ""
    else if |names| == 1 then Written(names[0], marks[0])
    else Written(names[0], marks[0]) + "," + Listed(names[1..], marks[1..])
  }

  function BareSpec(names: seq<string>, marks: seq<seq<bool>>): (r: seq<seq<Item>>)
    requires |marks| == |names| && forall i :: 0 <= i < |names| ==> |marks[i]| == |names[i]|
    ensures |r| == |names|
    ensures forall i :: 0 <= i < |names| ==> r[i] == [Item(Bare(marks[i]), 0, false, 0, names[i])]
  {
    if names == [] then []
    else [[Item(Bare(marks[0]), 0, false, 0, names[0])]] + BareSpec(names[1..], marks[1..])
  }

  lemma {:induction false} ListedIsPrinted(names: seq<string>, marks: seq<seq<bool>>)
    requires |marks| == |names| && forall i :: 0 <= i < |names| ==> |marks[i]| == |names[i]|
    ensures PrintSpec(BareSpec(names, marks)) == Listed(names, marks)
    decreases names
  {
    if names != [] {
      var item := Item(Bare(marks[0]), 0, false, 0, names[0]);
      assert PrintFilter([item]) == Print(item) + PrintFilter([]) == Written(names[0], marks[0]);
      assert BareSpec(names, marks)[1..] == BareSpec(names[1..], marks[1..]);
      ListedIsPrinted(names[1..], marks[1..]);
    }
  }

  /** Each name of a list is a filter of its own, and these are all, in order. */
  lemma {:induction false} ParseListed(names: seq<string>, marks: seq<seq<bool>>)
    requires |marks| == |names| && forall i :: 0 <= i < |names| ==> |marks[i]| == |names[i]|
    requires forall i :: 0 <= i < |names| ==> names[i] != "" && MarksSuffice(names[i], marks[i]) && !("exclude:" <= names[i])
    ensures var spec := ParseTestSpec(Listed(names, marks));
            |spec| == |names| && forall i :: 0 <= i < |names| ==> spec[i] == [NamePattern(names[i])]
  {
    var filters := BareSpec(names, marks);
    hide MarksSuffice, Print;
    ListedIsPrinted(names, marks);
    RoundTrip(filters);
  }

  lemma {:induction false} TwoItems(a: Item, b: Item)
    ensures PrintSpec([[a, b]]) == Print(a) + Print(b)
    ensures SpecLiteral([[a, b]]) == [[Literal(a), Literal(b)]]
  {
    hide Print, Literal;
    assert [a, b][1..] == [b] && [b][1..] == [];
    assert PrintFilter([b]) == Print(b);
    assert FilterLiteral([a, b]) == [Literal(a), Literal(b)];
  }

  lemma {:induction false} PrintableTwo(a: Item, b: Item)
    requires Printable(a) && Printable(b) && IsTagAtOnce(b)
    ensures PrintableSpec([[a, b]])
    ensures NoPrefixes([[a, b]]) <==> !("exclude:" <= a.text) && !("exclude:" <= b.text)
  {
    hide Printable, IsTagAtOnce;
    var filters := [[a, b]];
    assert filters[0][0] == a && filters[0][1] == b;
  }

  lemma {:induction false} OneItem(item: Item)
    ensures PrintSpec([[item]]) == Print(item) && SpecMeaning([[item]]) == NonEmpty(Meaning(item))
  {
    hide Print, Meaning;
    assert [item][1..] == [] && [[item]][1..] == [];
    assert PrintFilter([item]) == Print(item) + "";
    assert FilterMeaning([item]) == Meaning(item) + [] == Meaning(item);
    assert SpecMeaning([[item]]) == NonEmpty(Meaning(item)) + [];
  }

  lemma {:induction false} BareIs(name: string, marks: seq<bool>, excluded: bool)
    requires |marks| == |name|
    ensures Print(Item(Bare(marks), 0, excluded, 0, name)) == (if excluded then "~" else "") + Written(name, marks)
    ensures "" + Written(name, marks) == Written(name, marks)
  {
    hide Written;
    assert Blanks(0) == "";
  }

  lemma {:induction false} TagIs(tag: string)
    ensures var item := Item(InBrackets, 0, false, 0, tag); IsTagAtOnce(item) && Print(item) == "[" + tag + "]"
  {
  }

  /** A name and the tag behind it are two patterns of one filter. */
  lemma {:induction false} ParseNameAndTag(name: string, marks: seq<bool>, tag: string)
    requires |marks| == |name| && name != "" && MarksSuffice(name, marks) && !("exclude:" <= name)
    requires tag != "" && ']' !in tag[1..] && !("exclude:" <= tag)
    ensures ParseTestSpec(Written(name, marks) + ("[" + tag + "]")) == [[NamePattern(name), TagPattern(tag)]]
  {
    var a, b := Item(Bare(marks), 0, false, 0, name), Item(InBrackets, 0, false, 0, tag);
    BareIs(name, marks, false);
    TagIs(tag);
    TwoItems(a, b);
    PrintableTwo(a, b);
    hide MarksSuffice, Written, Print, PrintSpec, SpecLiteral, IsTagAtOnce, PrintableSpec, NoPrefixes, ParseTestSpec;
    RoundTrip([[a, b]]);
  }

  /** A name written with enough backslashes is read as that name. */
  lemma {:induction false} ParseEscaped(excluded: bool, name: string, marks: seq<bool>)
    requires |marks| == |name| && name != "" && MarksSuffice(name, marks)
    ensures ParseTestSpec((if excluded then "~" else "") + Written(name, marks))
         == NonEmpty(Meaning(Item(Bare(marks), 0, excluded, 0, name)))
  {
    var item := Item(Bare(marks), 0, excluded, 0, name);
    BareIs(name, marks, excluded);
    OneItem(item);
    hide MarksSuffice, Written, Meaning, Print, PrintSpec, SpecMeaning;
    ParsePrinted([[item]]);
  }

  // ---------- When printing and parsing is the identity ----------

  lemma {:induction false} MeaningIsLiteral(item: Item)
    requires item.text != ""
    ensures Meaning(item) == [Literal(item)] <==> !("exclude:" <= item.text)
    ensures |Meaning(item)| <= 1
  {
  }

  lemma {:induction false} FilterMeaningIsLiteral(items: seq<Item>)
    requires PrintableItems(items)
    ensures |FilterMeaning(items)| <= |items|
    ensures FilterMeaning(items) == FilterLiteral(items) <==>
            forall i :: 0 <= i < |items| ==> !("exclude:" <= items[i].text)
    decreases |items|
  {
    if items != [] {
      FilterRest(items, "");
      PrintableText(items[0]);
      hide Meaning, Literal, PrintFilter, Print, Printable, IsPrefixWord;
      if |items| > 1 && IsPrefixWord(items[0]) {
        FilterRest(items[1..], "");
        PrefixWordText(items[0]);
        assert items[1..][1..] == items[2..];
        FilterMeaningIsLiteral(items[2..]);
        AtMostOne(items[1].(excluded := true));
      } else {
        MeaningIsLiteral(items[0]);
        FilterMeaningIsLiteral(items[1..]);
        FirstIsLiteral(items);
      }
    }
  }

  lemma {:induction false} FirstIsLiteral(items: seq<Item>)
    requires items != [] && |Meaning(items[0])| <= 1 && |FilterMeaning(items[1..])| <= |items[1..]|
    requires FilterMeaning(items) == Meaning(items[0]) + FilterMeaning(items[1..])
    requires Meaning(items[0]) == [Literal(items[0])] <==> !("exclude:" <= items[0].text)
    requires FilterMeaning(items[1..]) == FilterLiteral(items[1..]) <==>
             forall i :: 0 <= i < |items[1..]| ==> !("exclude:" <= items[1..][i].text)
    ensures FilterMeaning(items) == FilterLiteral(items) <==>
            forall i :: 0 <= i < |items| ==> !("exclude:" <= items[i].text)
  {
    hide Meaning, Literal, FilterMeaning;
    assert FilterLiteral(items) == [Literal(items[0])] + FilterLiteral(items[1..]);
    assert forall i :: 1 <= i < |items| ==> items[i] == items[1..][i - 1];
    SameParts(Meaning(items[0]), [Literal(items[0])], FilterMeaning(items[1..]), FilterLiteral(items[1..]));
  }

  lemma {:induction false} PrintableText(item: Item)
    requires Printable(item)
    ensures item.text != ""
  {
  }

  lemma {:induction false} AtMostOne(item: Item)
    ensures |Meaning(item)| <= 1
  {
  }

  lemma {:induction false} PrefixWordText(item: Item)
    requires IsPrefixWord(item) && Printable(item)
    ensures "exclude:" <= item.text
  {
    PlainlyWritten(item.text, item.form.marks);
  }

  /** What is written without backslashes is written as it is. */
  lemma {:induction false} PlainlyWritten(name: string, marks: seq<bool>)
    requires |marks| == |name| && '\\' !in Written(name, marks)
    ensures Written(name, marks) == name
  {
    if name != "" {
      FirstLetter(name, marks, 0);
      assert '\\' in ['\\', name[0]];
      PlainlyWritten(name[1..], marks[1..]);
    }
  }

  lemma {:induction false} SameParts<T>(a: seq<T>, c: seq<T>, b: seq<T>, d: seq<T>)
    requires |a| <= |c| && |b| <= |d|
    ensures a + b == c + d <==> a == c && b == d
  {
    if a + b == c + d {
      assert a == (a + b)[..|a|] && c == (c + d)[..|a|];
      assert b == (a + b)[|a|..] && d == (c + d)[|a|..];
    }
  }

  lemma {:induction false} OnlyFilter(a: Filter, b: Filter)
    requires b != []
    ensures NonEmpty(a) == [b] <==> a == b
    ensures |NonEmpty(a)| <= 1
  {
    assert NonEmpty(a) == [b] ==> NonEmpty(a)[0] == b;
  }

  lemma {:induction false} SpecMeaningIsLiteral(filters: seq<seq<Item>>)
    requires PrintableSpec(filters)
    ensures |SpecMeaning(filters)| <= |filters|
    ensures SpecMeaning(filters) == SpecLiteral(filters) <==> NoPrefixes(filters)
  {
    hide FilterMeaning, NonEmpty, Literal;
    if filters != [] {
      var items := filters[0];
      assert forall i :: 1 <= i < |filters| ==> filters[i] == filters[1..][i - 1];
      FilterMeaningIsLiteral(items);
      SpecMeaningIsLiteral(filters[1..]);
      assert SpecLiteral(filters) == [FilterLiteral(items)] + SpecLiteral(filters[1..]);
      OnlyFilter(FilterMeaning(items), FilterLiteral(items));
      SameParts(NonEmpty(FilterMeaning(items)), [FilterLiteral(items)], SpecMeaning(filters[1..]), SpecLiteral(filters[1..]));
      assert NoPrefixes(filters) <==>
             (forall j :: 0 <= j < |items| ==> !("exclude:" <= items[j].text)) && NoPrefixes(filters[1..]);
    }
  }

  /** Parsing undoes printing exactly if no text looks like the other way to exclude a pattern. */
  lemma {:induction false} RoundTrip(filters: seq<seq<Item>>)
    requires PrintableSpec(filters)
    ensures ParseTestSpec(PrintSpec(filters)) == SpecLiteral(filters) <==> NoPrefixes(filters)
  {
    ParsePrinted(filters);
    SpecMeaningIsLiteral(filters);
  }
}
