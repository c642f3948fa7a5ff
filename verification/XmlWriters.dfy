/** Writing XML piece by piece, and a reader that says what the pieces written so far amount to. */
module XmlWriters {

  datatype Token =
    | Prolog(text: string)
    | StartTag(indent: string, name: string)
    | Attribute(name: string, value: string)
    | TagEnd
    | EmptyEnd
    | EndTag(indent: string, name: string)
    | Text(text: string)
    | Space(text: string)

  function Blanks(n: nat): (r: string)
    ensures |r| == n
  {
    if n == 0 then "" else " " + Blanks(n - 1)
  }

  /** What a reader knows: the open elements, the attributes of a start tag that has not ended, and whether the
      document has its root.  Anything that is not well formed or not indented by its depth is rejected. */
  datatype Reader = Reader(elements: seq<string>, inTag: bool, attributes: seq<string>, hasRoot: bool) | Rejected

  function Indent(elements: seq<string>): string {
    Blanks(2 * |elements|)
  }

  function ReadOne(r: Reader, t: Token): Reader
    requires r.Reader?
  {
    var n := |r.elements|;
    match t
    case Prolog(_) => if n == 0 && !r.hasRoot then r else Rejected
    case StartTag(indent, name) =>
      if r.inTag || (n == 0 && r.hasRoot) || indent != Indent(r.elements) then Rejected
      else Reader(r.elements + [name], true, [], true)
    case Attribute(name, _) =>
      if r.inTag && name !in r.attributes then r.(attributes := r.attributes + [name]) else Rejected
    case TagEnd => if r.inTag then r.(inTag := false) else Rejected
    case EmptyEnd => if r.inTag && n > 0 then r.(elements := r.elements[..n - 1], inTag := false) else Rejected
    case EndTag(indent, name) =>
      if !r.inTag && n > 0 && name == r.elements[n - 1] && indent == Indent(r.elements[..n - 1])
      then r.(elements := r.elements[..n - 1])
      else Rejected
    case Text(_) => if !r.inTag && n > 0 then r else Rejected
    case Space(text) => if !r.inTag then r else Rejected
  }

  function Read(tokens: seq<Token>): Reader {
    if tokens == [] then Reader([], false, [], false)
    else
      var before := Read(tokens[..|tokens| - 1]);
      if before.Reader? then ReadOne(before, tokens[|tokens| - 1]) else Rejected
  }

  /** What a document says, apart from its layout.  Attributes and text come with the element they belong to. */
  datatype Mark =
    | Opened(name: string)
    | HasAttribute(element: string, name: string, value: string)
    | HasText(element: string, text: string)
    | Closed(name: string)

  function Innermost(elements: seq<string>): string {
    if elements == [] then "" else elements[|elements| - 1]
  }

  function MarksOf(r: Reader, t: Token): seq<Mark>
    requires r.Reader?
  {
    match t
    case StartTag(_, name) => [Opened(name)]
    case Attribute(name, value) => [HasAttribute(Innermost(r.elements), name, value)]
    case Text(text) => [HasText(Innermost(r.elements), text)]
    case EmptyEnd => [Closed(Innermost(r.elements))]
    case EndTag(_, _) => [Closed(Innermost(r.elements))]
    case _ => []
  }

  function Content(tokens: seq<Token>): seq<Mark> {
    if tokens == [] then []
    else
      var before := tokens[..|tokens| - 1];
      Content(before) + if Read(before).Reader? then MarksOf(Read(before), tokens[|tokens| - 1]) else []
  }

  lemma {:induction false} ReadMore(tokens: seq<Token>, t: Token)
    ensures Read(tokens + [t]) == if Read(tokens).Reader? then ReadOne(Read(tokens), t) else Rejected
    ensures Content(tokens + [t]) == Content(tokens) + if Read(tokens).Reader? then MarksOf(Read(tokens), t) else []
  {
    assert (tokens + [t])[..|tokens|] == tokens;
  }

  /** Empty attributes and empty texts are left out. */
  function AttributeOf(element: string, name: string, value: string): seq<Mark> {
    if name != "" && value != "" then [HasAttribute(element, name, value)] else []
  }

  function TextOf(element: string, text: string): seq<Mark> {
    if text != "" then [HasText(element, text)] else []
  }

  /** Ends of all elements, the innermost first. */
  function AllClosed(elements: seq<string>): seq<Mark> {
    if elements == [] then []
    else [Closed(elements[|elements| - 1])] + AllClosed(elements[..|elements| - 1])
  }

  class XmlWriter {
    var tagIsOpen: bool
    var needsNewline: bool
    var tags: seq<string>
    var indent: string
    var out: seq<Token>
    ghost var reader: Reader
    ghost var content: seq<Mark>

    /** What was written is well formed, and the writer knows what is open as a reader does. */
    ghost predicate Valid()
      reads this
    {
      && Read(out) == reader && Content(out) == content && reader.Reader? && reader.elements == tags && reader.inTag == tagIsOpen
      && indent == Indent(tags) && (tagIsOpen ==> tags != [] && !needsNewline)
    }

    constructor ()
      ensures Valid() && tags == [] && !reader.hasRoot && content == []
    {
      tagIsOpen, needsNewline, tags, indent := false, false, [], "";
      out, reader, content := [], Reader([], false, [], false), [];
      new;
      Put(Prolog("<?xml version=\"1.0\" encoding=\"UTF-8\"?>\n"));
    }

    method Put(t: Token)
      requires Read(out) == reader && reader.Reader? && Content(out) == content
      modifies this`out, this`reader, this`content
      ensures reader == ReadOne(old(reader), t) && Read(out) == reader
      ensures content == old(content) + MarksOf(old(reader), t) && Content(out) == content
    {
      ReadMore(out, t);
      out := out + [t];
      content := content + MarksOf(reader, t);
      reader := ReadOne(reader, t);
    }

    method WriteStylesheetRef(url: string)
      requires Valid() && tags == [] && !reader.hasRoot
      modifies this
      ensures Valid() && tags == [] && !reader.hasRoot && content == old(content)
    {
      Put(Prolog("<?xml-stylesheet type=\"text/xsl\" href=\"" + url + "\"?>\n"));
    }

    method EnsureTagClosed()
      requires Valid()
      modifies this
      ensures Valid() && !tagIsOpen && tags == old(tags) && reader == old(reader).(inTag := false)
      ensures needsNewline == old(needsNewline) && indent == old(indent) && content == old(content)
    {
      if tagIsOpen {
        Put(TagEnd);
        tagIsOpen := false;
      }
    }

    method NewlineIfNecessary()
      requires Valid()
      modifies this
      ensures Valid() && !needsNewline && tagIsOpen == old(tagIsOpen) && tags == old(tags) && reader == old(reader)
      ensures indent == old(indent) && content == old(content)
    {
      if needsNewline {
        Put(Space("\n"));
        needsNewline := false;
      }
    }

    method StartElement(name: string)
      requires Valid() && (tags == [] ==> !reader.hasRoot)
      modifies this
      ensures Valid() && tags == old(tags) + [name] && tagIsOpen && reader.attributes == [] && reader.hasRoot
      ensures content == old(content) + [Opened(name)]
    {
      EnsureTagClosed();
      NewlineIfNecessary();
      Put(StartTag(indent, name));
      tags := tags + [name];
      MoreIndent(|indent|);
      indent := indent + "  ";
      tagIsOpen := true;
    }

    method EndElement()
      requires Valid() && tags != []
      modifies this
      ensures Valid() && tags == old(tags[..|tags| - 1]) && !tagIsOpen && reader.hasRoot == old(reader.hasRoot)
      ensures content == old(content) + [Closed(old(tags[|tags| - 1]))]
    {
      hide Read, Content, Blanks;
      NewlineIfNecessary();
      LessIndent(|indent|);
      indent := indent[..|indent| - 2];
      if tagIsOpen {
        Put(EmptyEnd);
        tagIsOpen := false;
      } else {
        Put(EndTag(indent, tags[|tags| - 1]));
      }
      Put(Space("\n"));
      tags := tags[..|tags| - 1];
    }

    /** Attributes belong to the start tag that is still open; empty ones are left out. */
    method WriteAttribute(name: string, value: string)
      requires Valid() && tagIsOpen && name !in reader.attributes
      modifies this
      ensures Valid() && tagIsOpen && tags == old(tags) && reader.hasRoot == old(reader.hasRoot)
      ensures content == old(content) + AttributeOf(tags[|tags| - 1], name, value)
      ensures reader.attributes == old(reader.attributes) + if name != "" && value != "" then [name] else []
    {
      if name != "" && value != "" {
        Put(Attribute(name, value));
      } else {
        assert reader.attributes + [] == reader.attributes;
      }
    }

    method WriteText(text: string, indented: bool)
      requires Valid() && tags != []
      modifies this
      ensures Valid() && tags == old(tags) && reader.hasRoot == old(reader.hasRoot)
      ensures content == old(content) + TextOf(tags[|tags| - 1], text)
    {
      hide Read, Content, Blanks, Indent;
      if text != "" {
        var tagWasOpen := tagIsOpen;
        EnsureTagClosed();
        if tagWasOpen && indented {
          Put(Space(indent));
        }
        Put(Text(text));
        needsNewline := true;
      }
    }

    /** When the writer goes away, it ends what is still open. */
    method Finish()
      requires Valid()
      modifies this
      ensures Valid() && tags == [] && reader.hasRoot == old(reader.hasRoot)
      ensures content == old(content) + AllClosed(old(tags))
    {
      while tags != []
        invariant Valid() && reader.hasRoot == old(reader.hasRoot)
        invariant content + AllClosed(tags) == old(content) + AllClosed(old(tags))
        decreases |tags|
      {
        Regroup(content, [Closed(tags[|tags| - 1])], AllClosed(tags[..|tags| - 1]));
        EndElement();
      }
      assert content + [] == content;
    }
  }

  lemma {:induction false} Regroup(a: seq<Mark>, b: seq<Mark>, c: seq<Mark>)
    ensures (a + b) + c == a + (b + c) && a + [] == a
  {
  }

  lemma {:induction false} MoreIndent(n: nat)
    ensures Blanks(n) + "  " == Blanks(n + 2)
  {
    if n > 0 {
      MoreIndent(n - 1);
      assert (" " + Blanks(n - 1)) + "  " == " " + (Blanks(n - 1) + "  ");
    } else {
      assert Blanks(1) == " " && Blanks(2) == "  ";
    }
  }

  lemma {:induction false} LessIndent(n: nat)
    ensures n >= 2 ==> Blanks(n)[..n - 2] == Blanks(n - 2)
  {
    if n >= 2 {
      MoreIndent(n - 2);
      assert (Blanks(n - 2) + "  ")[..n - 2] == Blanks(n - 2);
    }
  }
}
