/** A reference parser for the documents the printer writes, after sections 2.3, 2.4, 3.1 and 4.6 of
    XML 1.0: elements holding either elements or character data, attributes in either kind of quotes,
    white space inside tags, and the five predefined entities. It does not normalise attribute values. */
module XmlParser {
  import opened Xml

  datatype Parsed<+T> = Ok(value: T, rest: string) | Bad {
    predicate IsFailure() { Bad? }

    function PropagateFailure<U>(): Parsed<U>
      requires Bad?
    {
      Bad
    }

    function Extract(): (T, string)
      requires Ok?
    {
      (value, rest)
    }
  }

  predicate IsSpace(c: char) { c == ' ' || c == '\t' || c == '\r' || c == '\n' }

  function SkipSpace(s: string): (r: string)
    ensures |r| <= |s|
  {
    if s != "" && IsSpace(s[0]) then SkipSpace(s[1..]) else s
  }

  function NameLength(s: string): (n: nat)
    ensures n <= |s|
  {
    if s != "" && IsNameChar(s[0]) then 1 + NameLength(s[1..]) else 0
  }

  function ParseName(s: string): (r: Parsed<string>)
    ensures r.Ok? ==> |r.rest| < |s|
  {
    if s != "" && IsNameStart(s[0]) then Ok(s[..NameLength(s)], s[NameLength(s)..]) else Bad
  }

  function ParseReference(s: string): (r: Parsed<char>)
    ensures r.Ok? ==> |r.rest| < |s|
  {
    if "&amp;" <= s then Ok('&', s[5..])
    else if "&lt;" <= s then Ok('<', s[4..])
    else if "&gt;" <= s then Ok('>', s[4..])
    else if "&quot;" <= s then Ok('\"', s[6..])
    else if "&apos;" <= s then Ok('\'', s[6..])
    else Bad
  }

  function ParseChar(s: string): (r: Parsed<char>)
    requires s != ""
    ensures r.Ok? ==> |r.rest| < |s|
  {
    if s[0] == '&' then ParseReference(s) else Ok(s[0], s[1..])
  }

  function ParseText(s: string): (r: Parsed<string>)
    ensures r.Ok? ==> |r.rest| <= |s|
    decreases |s|
  {
    if s == "" || s[0] == '<' then Ok("", s)
    else
      var (c, rest) :- ParseChar(s);
      var (more, rest) :- ParseText(rest);
      Ok([c] + more, rest)
  }

  function ParseValue(s: string, quote: char): (r: Parsed<string>)
    ensures r.Ok? ==> |r.rest| < |s|
    decreases |s|
  {
    if s == "" || s[0] == '<' then Bad
    else if s[0] == quote then Ok("", s[1..])
    else
      var (c, rest) :- ParseChar(s);
      var (more, rest) :- ParseValue(rest, quote);
      Ok([c] + more, rest)
  }

  function ParseAttr(s: string): (r: Parsed<Attr>)
    ensures r.Ok? ==> |r.rest| < |s|
  {
    var (name, rest) :- ParseName(s);
    var equals := SkipSpace(rest);
    if !("=" <= equals) then Bad
    else
      var quoted := SkipSpace(equals[1..]);
      if !("\"" <= quoted || "'" <= quoted) then Bad
      else
        var (value, rest) :- ParseValue(quoted[1..], quoted[0]);
        Ok(Attr(name, value), rest)
  }

  function ParseAttrs(s: string): (r: Parsed<seq<Attr>>)
    ensures r.Ok? ==> |r.rest| <= |s|
    decreases |s|
  {
    var t := SkipSpace(s);
    if ">" <= t || "/" <= t then Ok([], t)
    else if |t| == |s| then Bad
    else
      var (a, rest) :- ParseAttr(t);
      var (more, rest) :- ParseAttrs(rest);
      Ok([a] + more, rest)
  }

  /** The close tag must name the element it closes. */
  function ParseClose(s: string, name: string): (r: Parsed<()>)
    ensures r.Ok? ==> |r.rest| < |s|
  {
    if !("</" + name <= s) then Bad
    else
      var t := SkipSpace(s[2 + |name|..]);
      if ">" <= t then Ok((), t[1..]) else Bad
  }

  function ParseElement(s: string): (r: Parsed<Element>)
    ensures r.Ok? ==> |r.rest| < |s|
    decreases |s|, 0
  {
    if !("<" <= s) then Bad
    else
      var (name, rest) :- ParseName(s[1..]);
      var (attrs, rest) :- ParseAttrs(rest);
      if "/>" <= rest then Ok(Element(name, attrs, "", [], false), rest[2..])
      else if !(">" <= rest) then Bad
      else if "<" <= rest[1..] && !("</" <= rest[1..]) then
        var (children, rest) :- ParseChildren(rest[1..]);
        var (_, rest) :- ParseClose(rest, name);
        Ok(Element(name, attrs, "", children, false), rest)
      else
        var (text, rest) :- ParseText(rest[1..]);
        var (_, rest) :- ParseClose(rest, name);
        Ok(Element(name, attrs, text, [], true), rest)
  }

  function ParseChildren(s: string): (r: Parsed<seq<Element>>)
    ensures r.Ok? ==> |r.rest| <= |s|
    decreases |s|, 1
  {
    if "</" <= s then Ok([], s)
    else
      var (e, rest) :- ParseElement(s);
      var (more, rest) :- ParseChildren(rest);
      Ok([e] + more, rest)
  }

  function ParseDocument(s: string): Parsed<Element> {
    if !(DECLARATION <= s) then Bad
    else
      var (root, rest) :- ParseElement(SkipSpace(s[|DECLARATION|..]));
      if SkipSpace(rest) == "" then Ok(root, "") else Bad
  }

  // ----- Reading back what is written -----

  lemma {:induction false} NameReadBack(name: string, tail: string)
    requires forall c :: c in name ==> IsNameChar(c)
    requires tail == "" || !IsNameChar(tail[0])
    ensures NameLength(name + tail) == |name|
  {
    if name == "" {
      assert name + tail == tail;
    } else {
      assert (name + tail)[1..] == name[1..] + tail;
      NameReadBack(name[1..], tail);
    }
  }

  lemma {:induction false} ParseNameReadBack(name: string, tail: string)
    requires IsName(name) && (tail == "" || !IsNameChar(tail[0]))
    ensures ParseName(name + tail) == Ok(name, tail)
  {
    NameReadBack(name, tail);
  }

  lemma {:induction false} CharReadBack(escaped: string, c: char, tail: string)
    requires escaped == TextEscape(c) || escaped == AttrEscape(c)
    ensures ParseChar(escaped + tail) == Ok(c, tail)
    ensures escaped[0] == c || escaped[0] == '&'
    ensures escaped[0] != '<' && (escaped == AttrEscape(c) ==> escaped[0] != '\"')
  {
    var s := escaped + tail;
    assert s[|escaped|..] == tail && escaped <= s;
    if escaped != [c] {
      assert s[0] == '&' && s[1] == escaped[1] && s[2] == escaped[2];
    }
  }

  lemma {:induction false} TextStep(s: string, c: char, more: string, text: string, tail: string)
    requires s != "" && s[0] != '<' && ParseChar(s) == Ok(c, more) && ParseText(more) == Ok(text, tail)
    ensures ParseText(s) == Ok([c] + text, tail)
  {
  }

  lemma {:induction false} TextReadBack(text: string, tail: string)
    requires "<" <= tail
    ensures ParseText(EscapedText(text) + tail) == Ok(text, tail)
  {
    if text == "" {
      assert EscapedText(text) + tail == tail;
    } else {
      TextReadBack(text[1..], tail);
      OneTextReadBack(text[0], text[1..], EscapedText(text[1..]), tail);
      assert [text[0]] + text[1..] == text;
    }
  }

  /** One escaped character of a text in front of some that read back. */
  lemma {:induction false} OneTextReadBack(c: char, text: string, others: string, tail: string)
    requires ParseText(others + tail) == Ok(text, tail)
    ensures ParseText(TextEscape(c) + others + tail) == Ok([c] + text, tail)
  {
    var escaped, more := TextEscape(c), others + tail;
    CharReadBack(escaped, c, more);
    Assoc(escaped, others, tail);
    assert (escaped + more)[0] == escaped[0];
    TextStep(escaped + more, c, more, text, tail);
  }

  lemma {:induction false} ValueReadBack(value: string, tail: string)
    ensures ParseValue(EscapedAttr(value) + "\"" + tail, '\"') == Ok(value, tail)
  {
    if value == "" {
      assert EscapedAttr(value) + "\"" + tail == "\"" + tail;
    } else {
      ValueReadBack(value[1..], tail);
      OneCharReadBack(value[0], value[1..], EscapedAttr(value[1..]), tail);
      assert [value[0]] + value[1..] == value;
    }
  }

  /** One escaped character in front of some that read back. */
  lemma {:induction false} OneCharReadBack(c: char, value: string, others: string, tail: string)
    requires ParseValue(others + "\"" + tail, '\"') == Ok(value, tail)
    ensures ParseValue(AttrEscape(c) + others + "\"" + tail, '\"') == Ok([c] + value, tail)
  {
    var escaped, more := AttrEscape(c), others + "\"" + tail;
    CharReadBack(escaped, c, more);
    assert escaped + others + "\"" + tail == escaped + more && (escaped + more)[0] == escaped[0];
    ValueStep(escaped + more, c, more, value, tail);
  }

  lemma {:induction false} ValueStep(s: string, c: char, more: string, value: string, tail: string)
    requires s != "" && s[0] != '\"' && s[0] != '<' && ParseChar(s) == Ok(c, more) && ParseValue(more, '\"') == Ok(value, tail)
    ensures ParseValue(s, '\"') == Ok([c] + value, tail)
  {
  }

  lemma {:induction false} AttrReadBack(a: Attr, tail: string)
    requires IsName(a.name)
    ensures ParseAttr(a.name + ("=\"" + (EscapedAttr(a.value) + "\"" + tail))) == Ok(a, tail)
  {
    var value := EscapedAttr(a.value) + "\"" + tail;
    var after := "=\"" + value;
    ParseNameReadBack(a.name, after);
    assert SkipSpace(after) == after && after[1..] == "\"" + value && SkipSpace(after[1..]) == after[1..];
    assert after[1..][1..] == value;
    ValueReadBack(a.value, tail);
  }

  lemma {:induction false} AttrsStep(t: string, a: Attr, more: string, attrs: seq<Attr>, tail: string)
    requires t != "" && IsNameStart(t[0]) && ParseAttr(t) == Ok(a, more) && ParseAttrs(more) == Ok(attrs, tail)
    ensures ParseAttrs(" " + t) == Ok([a] + attrs, tail)
  {
    assert (" " + t)[1..] == t && SkipSpace(t) == t;
  }

  lemma {:induction false} NoAttrsReadBack(tail: string)
    requires ">" <= tail || "/" <= tail
    ensures ParseAttrs(tail) == Ok([], tail)
  {
    assert SkipSpace(tail) == tail;
  }

  /** One attribute in front of some that read back. */
  lemma {:induction false} OneAttrReadBack(a: Attr, attrs: seq<Attr>, others: string, tail: string)
    requires IsName(a.name) && ParseAttrs(others + tail) == Ok(attrs, tail)
    ensures ParseAttrs(RenderedAttr(a) + others + tail) == Ok([a] + attrs, tail)
  {
    var t := a.name + ("=\"" + (EscapedAttr(a.value) + "\"" + (others + tail)));
    AttrReadBack(a, others + tail);
    RenderedAttrFirst(a, others, tail);
    AttrsStep(t, a, others + tail, attrs, tail);
  }

  lemma {:induction false} AttrsReadBack(attrs: seq<Attr>, tail: string)
    requires forall a :: a in attrs ==> IsName(a.name)
    requires ">" <= tail || "/" <= tail
    ensures ParseAttrs(RenderedAttrs(attrs) + tail) == Ok(attrs, tail)
  {
    if attrs == [] {
      assert RenderedAttrs(attrs) + tail == tail;
      NoAttrsReadBack(tail);
    } else {
      AttrsReadBack(attrs[1..], tail);
      OneAttrReadBack(attrs[0], attrs[1..], RenderedAttrs(attrs[1..]), tail);
      assert [attrs[0]] + attrs[1..] == attrs;
    }
  }

  lemma {:induction false} RenderedAttrFirst(a: Attr, others: string, tail: string)
    ensures RenderedAttr(a) + others + tail
         == " " + (a.name + ("=\"" + (EscapedAttr(a.value) + "\"" + (others + tail))))
  {
  }

  lemma {:induction false} CloseReadBack(name: string, tail: string)
    ensures ParseClose("</" + name + ">" + tail, name) == Ok((), tail)
  {
    var s := "</" + name + ">" + tail;
    assert s[2 + |name|..] == ">" + tail;
    assert "</" + name <= s;
    assert SkipSpace(">" + tail) == ">" + tail;
  }

  /** How a non-empty element starts and ends: what is inside is read up to the close tag. */
  lemma {:induction false} OpenTagReadBack(e: Element, inside: string)
    requires IsName(e.name) && forall a :: a in e.attrs ==> IsName(a.name)
    requires ">" <= inside || "/" <= inside
    ensures var s := Head(e) + inside;
            && "<" <= s
            && ParseName(s[1..]) == Ok(e.name, RenderedAttrs(e.attrs) + inside)
            && ParseAttrs(RenderedAttrs(e.attrs) + inside) == Ok(e.attrs, inside)
  {
    var after := RenderedAttrs(e.attrs) + inside;
    assert (Head(e) + inside)[1..] == e.name + after;
    if e.attrs == [] {
      assert after == inside;
    } else {
      RenderedAttrFirst(e.attrs[0], RenderedAttrs(e.attrs[1..]), inside);
      assert after[0] == ' ';
    }
    ParseNameReadBack(e.name, after);
    AttrsReadBack(e.attrs, inside);
  }

  lemma {:induction false} EmptyReadBack(e: Element, tail: string)
    requires Built(e) && IsEmpty(e)
    ensures ParseElement(Rendered(e) + tail) == Ok(e, tail)
  {
    OpenTagReadBack(e, "/>" + tail);
    Assoc(Head(e), "/>", tail);
    assert ("/>" + tail)[2..] == tail;
  }

  lemma {:induction false} WithTextReadBack(e: Element, tail: string)
    requires Built(e) && !IsEmpty(e) && e.hasText
    ensures ParseElement(Rendered(e) + tail) == Ok(e, tail)
  {
    var close := "</" + e.name + ">" + tail;
    var inside := EscapedText(e.text) + close;
    TextLayout(e, "</" + e.name + ">", tail);
    OpenTagReadBack(e, ">" + inside);
    assert (">" + inside)[1..] == inside;
    CloseReadBack(e.name, tail);
    TextReadBack(e.text, close);
    TextStartsNoElement(e.text, close);
  }

  lemma {:induction false} WithChildrenReadBack(e: Element, tail: string, close: string)
    requires Built(e) && !IsEmpty(e) && !e.hasText && close == "</" + e.name + ">" + tail
    requires ParseChildren(RenderedAll(e.children) + close) == Ok(e.children, close)
    ensures ParseElement(Rendered(e) + tail) == Ok(e, tail)
  {
    var inside := RenderedAll(e.children) + close;
    ChildrenLayout(e, "</" + e.name + ">", tail);
    OpenTagReadBack(e, ">" + inside);
    assert (">" + inside)[1..] == inside;
    CloseReadBack(e.name, tail);
    ChildrenStartElement(e.children, close);
  }

  lemma {:induction false} ElementReadBack(e: Element, tail: string)
    requires Built(e)
    ensures ParseElement(Rendered(e) + tail) == Ok(e, tail)
    decreases e, 0
  {
    if IsEmpty(e) {
      EmptyReadBack(e, tail);
    } else if e.hasText {
      WithTextReadBack(e, tail);
    } else {
      var close := "</" + e.name + ">" + tail;
      ChildrenReadBack(e.children, close);
      WithChildrenReadBack(e, tail, close);
    }
  }

  /** Four pieces and what follows, however they are put together. */
  lemma {:induction false} PiecesInOrder(a: string, b: string, c: string, d: string, tail: string)
    ensures a + (">" + b) + c + d + tail == a + (">" + (b + c + (d + tail)))
  {
  }

  lemma {:induction false} TextLayout(e: Element, close: string, tail: string)
    requires Built(e) && e.hasText && close == "</" + e.name + ">"
    ensures Rendered(e) + tail == Head(e) + (">" + (EscapedText(e.text) + (close + tail)))
  {
    var text := EscapedText(e.text);
    assert RenderedAll(e.children) == "";
    PiecesInOrder(Head(e), text, "", close, tail);
    assert text + "" == text;
  }

  lemma {:induction false} ChildrenLayout(e: Element, close: string, tail: string)
    requires Built(e) && !IsEmpty(e) && !e.hasText && close == "</" + e.name + ">"
    ensures Rendered(e) + tail == Head(e) + (">" + (RenderedAll(e.children) + (close + tail)))
  {
    var inner := RenderedAll(e.children);
    PiecesInOrder(Head(e), "", inner, close, tail);
    assert "" + inner == inner;
  }

  lemma {:induction false} TextStartsNoElement(text: string, close: string)
    requires "</" <= close
    ensures var s := EscapedText(text) + close; !("<" <= s && !("</" <= s))
  {
    if text == "" {
      assert EscapedText(text) + close == close;
    } else {
      CharReadBack(TextEscape(text[0]), text[0], "");
      assert (EscapedText(text) + close)[0] == TextEscape(text[0])[0];
    }
  }

  lemma {:induction false} RenderedStart(e: Element, tail: string)
    requires Built(e)
    ensures var s := Rendered(e) + tail; "<" <= s && !("</" <= s)
  {
    assert Rendered(e)[0] == '<' && Rendered(e)[1] == e.name[0];
    assert (Rendered(e) + tail)[1] == e.name[0];
  }

  lemma {:induction false} ChildrenStartElement(es: seq<Element>, close: string)
    requires es != [] && forall e :: e in es ==> Built(e)
    ensures var s := RenderedAll(es) + close; "<" <= s && !("</" <= s)
  {
    RenderedStart(es[0], RenderedAll(es[1..]) + close);
    Assoc(Rendered(es[0]), RenderedAll(es[1..]), close);
  }

  lemma {:induction false} ChildrenReadBack(es: seq<Element>, tail: string)
    requires "</" <= tail && forall e :: e in es ==> Built(e)
    ensures ParseChildren(RenderedAll(es) + tail) == Ok(es, tail)
    decreases es, 1
  {
    if es == [] {
      assert RenderedAll(es) + tail == tail;
    } else {
      var more := RenderedAll(es[1..]) + tail;
      ElementReadBack(es[0], more);
      ChildrenReadBack(es[1..], tail);
      RenderedStart(es[0], more);
      Assoc(Rendered(es[0]), RenderedAll(es[1..]), tail);
      assert [es[0]] + es[1..] == es;
    }
  }

  /** Main result: parsing a rendered tree gives back that tree, so the printer's tags nest and close,
      its quotes and escapes are read as they were meant, and `<x/>` stays apart from `<x></x>`. */
  lemma {:induction false} RenderReadsBack(root: Element)
    requires Built(root)
    ensures ParseDocument(Document(root)) == Ok(root, "")
  {
    var s := Document(root);
    assert s[|DECLARATION|..] == Rendered(root);
    assert Rendered(root) + "" == Rendered(root);
    ElementReadBack(root, "");
    RenderedStart(root, "");
    assert SkipSpace(Rendered(root)) == Rendered(root);
  }

  /** Different trees are rendered differently. */
  lemma {:induction false} RenderIsInjective(a: Element, b: Element)
    requires Built(a) && Built(b) && Document(a) == Document(b)
    ensures a == b
  {
    RenderReadsBack(a);
    RenderReadsBack(b);
  }

  // ----- A document spelled out -----

  const TEXT_CHILD := Element("v", [], "1<2", [], true)
  const BARE_TEXT_CHILD := Element("w", [], "", [], true)
  const EMPTY_CHILD := Element("x", [], "", [], false)
  const SAMPLE := Element("m", [Attr("k", "a\"b")], "", [TEXT_CHILD, BARE_TEXT_CHILD, EMPTY_CHILD], false)

  lemma SampleEscapes()
    ensures EscapedText("1<2") == "1&lt;2" && EscapedAttr("a\"b") == "a&quot;b"
  {
    assert "1<2"[1..] == "<2" && "<2"[1..] == "2" && "2"[1..] == "";
    assert EscapedText("2") == "2" && EscapedText("<2") == "&lt;" + "2";
    assert "a\"b"[1..] == "\"b" && "\"b"[1..] == "b" && "b"[1..] == "";
    assert EscapedAttr("b") == "b" && EscapedAttr("\"b") == "&quot;" + "b";
  }

  lemma SampleChildren()
    ensures Rendered(TEXT_CHILD) == "<v>1&lt;2</v>" && Rendered(BARE_TEXT_CHILD) == "<w></w>"
    ensures Rendered(EMPTY_CHILD) == "<x/>"
  {
    SampleEscapes();
    assert RenderedAttrs([]) == "" && RenderedAll([]) == "" && EscapedText("") == "";
  }

  lemma SampleHead()
    ensures Head(SAMPLE) == "<m k=\"a&quot;b\""
  {
    SampleEscapes();
    var attr := SAMPLE.attrs[0];
    assert SAMPLE.attrs[1..] == [] && RenderedAttrs([]) == "";
    assert RenderedAttr(attr) == " " + "k" + "=\"" + "a&quot;b" + "\"";
    assert RenderedAttrs(SAMPLE.attrs) == RenderedAttr(attr) + "" == RenderedAttr(attr);
  }

  lemma RenderedThree(a: Element, b: Element, c: Element)
    ensures RenderedAll([a, b, c]) == Rendered(a) + (Rendered(b) + (Rendered(c) + ""))
  {
    assert [a, b, c][1..] == [b, c] && [b, c][1..] == [c] && [c][1..] == [];
    assert RenderedAll([]) == "";
    assert RenderedAll([c]) == Rendered(c) + "";
    assert RenderedAll([b, c]) == Rendered(b) + RenderedAll([c]);
  }

  /** Main result: the layout, to the byte: nothing is indented or spaced out, and only an element with neither
      text nor children closes itself. */
  lemma DocumentSpelledOut()
    ensures Document(SAMPLE)
         == "<?xml version=\"1.0\" encoding=\"UTF-8\"?>"
            + ("<m k=\"a&quot;b\"" + ">" + ("<v>1&lt;2</v>" + ("<w></w>" + ("<x/>" + ""))) + "</m>")
  {
    SampleHead();
    SampleChildren();
    RenderedThree(TEXT_CHILD, BARE_TEXT_CHILD, EMPTY_CHILD);
    assert TextPart(SAMPLE) == "" && ">" + "" == ">" && "</" + SAMPLE.name + ">" == "</m>";
    assert Rendered(SAMPLE) == Head(SAMPLE) + ">" + RenderedAll(SAMPLE.children) + "</m>";
  }
}
