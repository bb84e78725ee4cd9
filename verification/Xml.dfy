/** The hand-written XML printer, and a parser that reads back what it writes. */
module Xml {

  datatype Attr = Attr(name: string, value: string)

  /** `hasText` tells `<x></x>` from `<x/>`. */
  datatype Element = Element(name: string, attrs: seq<Attr>, text: string, children: seq<Element>, hasText: bool)

  datatype Child = Absent | Present(element: Element)

  function Kept(children: seq<Child>): seq<Element> {
    if children == [] then []
    else (match children[0] case Absent => [] case Present(e) => [e]) + Kept(children[1..])
  }

  method Elem(name: string, attrs: seq<Attr>, children: seq<Child>) returns (e: Element)
    ensures e == Element(name, attrs, "", Kept(children), false)
    ensures LegalTag(name, attrs) && (forall c :: c in children && c.Present? ==> Built(c.element)) ==> Built(e)
  {
    if forall c :: c in children && c.Present? ==> Built(c.element) { KeptAreBuilt(children); }
    var kept := [];
    assert children[0..] == children;
    for i := 0 to |children|
      invariant Kept(children) == kept + Kept(children[i..])
    {
      KeptFrom(children, i);
      if children[i].Present? {
        Assoc(kept, [children[i].element], Kept(children[i + 1..]));
        kept := kept + [children[i].element];
      } else {
        Assoc(kept, [], Kept(children[i + 1..]));
        assert kept + [] == kept;
      }
    }
    return Element(name, attrs, "", kept, false);
  }

  lemma Assoc<T>(a: seq<T>, b: seq<T>, c: seq<T>)
    ensures a + (b + c) == (a + b) + c
  {
  }

  lemma KeptFrom(children: seq<Child>, i: nat)
    requires i < |children|
    ensures Kept(children[i..])
         == (match children[i] case Absent => [] case Present(e) => [e]) + Kept(children[i + 1..])
  {
    assert children[i..][0] == children[i] && children[i..][1..] == children[i + 1..];
  }

  function Text(name: string, attrs: seq<Attr>, text: string): (e: Element)
    ensures LegalTag(name, attrs) ==> Built(e)
  {
    Element(name, attrs, text, [], true)
  }

  // ----- Names: productions [4], [4a] and [5] of section 2.3 of XML 1.0 -----

  predicate IsNameStart(c: char) {
    || c == ':' || 'A' <= c <= 'Z' || c == '_' || 'a' <= c <= 'z'
    || '\U{C0}' <= c <= '\U{D6}' || '\U{D8}' <= c <= '\U{F6}' || '\U{F8}' <= c <= '\U{2FF}'
    || '\U{370}' <= c <= '\U{37D}' || '\U{37F}' <= c <= '\U{1FFF}' || '\U{200C}' <= c <= '\U{200D}'
    || '\U{2070}' <= c <= '\U{218F}' || '\U{2C00}' <= c <= '\U{2FEF}' || '\U{3001}' <= c <= '\U{D7FF}'
    || '\U{F900}' <= c <= '\U{FDCF}' || '\U{FDF0}' <= c <= '\U{FFFD}' || '\U{10000}' <= c <= '\U{EFFFF}'
  }

  predicate IsNameChar(c: char) {
    || IsNameStart(c) || c == '-' || c == '.' || '0' <= c <= '9' || c == '\U{B7}'
    || '\U{300}' <= c <= '\U{36F}' || '\U{203F}' <= c <= '\U{2040}'
  }

  predicate IsName(s: string) {
    s != "" && IsNameStart(s[0]) && forall c :: c in s ==> IsNameChar(c)
  }

  predicate LegalTag(name: string, attrs: seq<Attr>) { IsName(name) && forall a :: a in attrs ==> IsName(a.name) }

  /** A tree the two builders can make out of legal names. */
  predicate Built(e: Element) {
    && LegalTag(e.name, e.attrs)
    && (if e.hasText then e.children == [] else e.text == "")
    && forall c :: c in e.children ==> Built(c)
  }

  lemma {:induction false} KeptAreBuilt(children: seq<Child>)
    requires forall c :: c in children && c.Present? ==> Built(c.element)
    ensures forall e :: e in Kept(children) ==> Built(e)
  {
    if children != [] {
      KeptAreBuilt(children[1..]);
    }
  }

  // ----- Printing -----

  const DECLARATION := "<?xml version=\"1.0\" encoding=\"UTF-8\"?>"

  function TextEscape(c: char): string {
    match c case '&' => "&amp;" case '<' => "&lt;" case '>' => "&gt;" case _ => [c]
  }

  function AttrEscape(c: char): string {
    if c == '\"' then "&quot;" else TextEscape(c)
  }

  function EscapedText(s: string): string {
    if s == "" then "" else TextEscape(s[0]) + EscapedText(s[1..])
  }

  function EscapedAttr(s: string): string {
    if s == "" then "" else AttrEscape(s[0]) + EscapedAttr(s[1..])
  }

  predicate IsMarkup(c: char) { c == '<' || c == '>' || c == '&' }

  /** None of the characters of a text need escaping, or of a value when `quoted`. */
  predicate IsPlain(s: string, quoted: bool) { forall c :: c in s ==> !IsMarkup(c) && !(quoted && c == '\"') }

  lemma PlainStep(s: string, quoted: bool)
    requires s != ""
    ensures IsPlain(s, quoted) <==> IsPlain([s[0]], quoted) && IsPlain(s[1..], quoted)
  {
    assert s == [s[0]] + s[1..];
  }

  lemma EscapeOne(c: char)
    ensures TextEscape(c) == [c] <==> IsPlain([c], false)
    ensures AttrEscape(c) == [c] <==> IsPlain([c], true)
  {
    assert c in [c];
  }

  lemma NotInEither(c: char, a: string, b: string)
    ensures c in a + b <==> c in a || c in b
  {
  }

  /** Main result: escaped text holds no raw angle bracket. */
  lemma {:induction false} TextHoldsNoMarkup(s: string)
    ensures '<' !in EscapedText(s) && '>' !in EscapedText(s) && |s| <= |EscapedText(s)|
  {
    if s != "" {
      TextHoldsNoMarkup(s[1..]);
      NotInEither('<', TextEscape(s[0]), EscapedText(s[1..]));
      NotInEither('>', TextEscape(s[0]), EscapedText(s[1..]));
    }
  }

  /** Main result: and an escaped value no quotation mark either. */
  lemma {:induction false} ValueHoldsNoMarkup(s: string)
    ensures '<' !in EscapedAttr(s) && '>' !in EscapedAttr(s) && '\"' !in EscapedAttr(s) && |s| <= |EscapedAttr(s)|
  {
    if s != "" {
      ValueHoldsNoMarkup(s[1..]);
      NotInEither('<', AttrEscape(s[0]), EscapedAttr(s[1..]));
      NotInEither('>', AttrEscape(s[0]), EscapedAttr(s[1..]));
      NotInEither('\"', AttrEscape(s[0]), EscapedAttr(s[1..]));
    }
  }

  /** Main result: and either is what it was exactly when it held none: apostrophes and white space stay as they
      are, and so do quotation marks in a text. */
  lemma {:induction false} EscapedStaysPlain(s: string)
    ensures EscapedText(s) == s <==> IsPlain(s, false)
    ensures EscapedAttr(s) == s <==> IsPlain(s, true)
  {
    if s != "" {
      EscapedStaysPlain(s[1..]);
      TextHoldsNoMarkup(s[1..]);
      ValueHoldsNoMarkup(s[1..]);
      EscapedSame(s, TextEscape(s[0]), EscapedText(s[1..]));
      EscapedSame(s, AttrEscape(s[0]), EscapedAttr(s[1..]));
      EscapeOne(s[0]);
      PlainStep(s, false);
      PlainStep(s, true);
    }
  }

  lemma EscapedSame(s: string, first: string, rest: string)
    requires s != "" && first != "" && |s| - 1 <= |rest|
    ensures first + rest == s <==> first == [s[0]] && rest == s[1..]
  {
    if first + rest == s {
      assert |first| == 1 && (first + rest)[1..] == rest;
    }
  }

  function RenderedAttr(a: Attr): string { " " + a.name + "=\"" + EscapedAttr(a.value) + "\"" }

  function RenderedAttrs(attrs: seq<Attr>): string {
    if attrs == [] then "" else RenderedAttr(attrs[0]) + RenderedAttrs(attrs[1..])
  }

  function Head(e: Element): string { "<" + e.name + RenderedAttrs(e.attrs) }

  predicate IsEmpty(e: Element) { !e.hasText && e.children == [] }

  function TextPart(e: Element): string { if e.hasText then EscapedText(e.text) else "" }

  function Rendered(e: Element): string
    decreases e, 0
  {
    if IsEmpty(e) then Head(e) + "/>"
    else Head(e) + (">" + TextPart(e)) + RenderedAll(e.children) + ("</" + e.name + ">")
  }

  function RenderedAll(es: seq<Element>): string
    decreases es
  {
    if es == [] then "" else Rendered(es[0]) + RenderedAll(es[1..])
  }

  class Writer {
    var out: string

    constructor ()
      ensures out == ""
    {
      out := "";
    }

    method Write(s: string)
      modifies this
      ensures out == old(out) + s
    {
      out := out + s;
    }

    method WriteElement(e: Element)
      modifies this
      ensures out == old(out) + Rendered(e)
      decreases e
    {
      ghost var start := out;
      Write("<" + e.name);
      assert e.attrs[0..] == e.attrs;
      Assoc(start, "<" + e.name, RenderedAttrs(e.attrs));
      for i := 0 to |e.attrs|
        invariant start + Head(e) == out + RenderedAttrs(e.attrs[i..])
      {
        AttrsFrom(e.attrs, i);
        Assoc(out, RenderedAttr(e.attrs[i]), RenderedAttrs(e.attrs[i + 1..]));
        Write(RenderedAttr(e.attrs[i]));
      }
      assert out == start + Head(e);
      if !e.hasText && e.children == [] {
        Assoc(start, Head(e), "/>");
        Write("/>");
        return;
      }
      Write(">");
      if e.hasText {
        Write(EscapedText(e.text));
      }
      Assoc(start + Head(e), ">", TextPart(e));
      assert out == start + Head(e) + (">" + TextPart(e));
      ghost var inside := out + RenderedAll(e.children);
      assert e.children[0..] == e.children;
      for i := 0 to |e.children|
        invariant inside == out + RenderedAll(e.children[i..])
      {
        AllFrom(e.children, i);
        Assoc(out, Rendered(e.children[i]), RenderedAll(e.children[i + 1..]));
        WriteElement(e.children[i]);
      }
      assert out == inside;
      Write("</" + e.name + ">");
      WholeElement(start, e);
    }
  }

  lemma WholeElement(start: string, e: Element)
    requires !IsEmpty(e)
    ensures start + Head(e) + (">" + TextPart(e)) + RenderedAll(e.children) + ("</" + e.name + ">")
         == start + Rendered(e)
  {
    var middle, end := ">" + TextPart(e), "</" + e.name + ">";
    Assoc(start, Head(e), middle);
    Assoc(start, Head(e) + middle, RenderedAll(e.children));
    Assoc(start, Head(e) + middle + RenderedAll(e.children), end);
  }

  lemma AttrsFrom(attrs: seq<Attr>, i: nat)
    requires i < |attrs|
    ensures RenderedAttrs(attrs[i..]) == RenderedAttr(attrs[i]) + RenderedAttrs(attrs[i + 1..])
  {
    assert attrs[i..][0] == attrs[i] && attrs[i..][1..] == attrs[i + 1..];
  }

  lemma AllFrom(es: seq<Element>, i: nat)
    requires i < |es|
    ensures RenderedAll(es[i..]) == Rendered(es[i]) + RenderedAll(es[i + 1..])
  {
    assert es[i..][0] == es[i] && es[i..][1..] == es[i + 1..];
  }

  function Document(root: Element): string { DECLARATION + Rendered(root) }

  method Render(root: Element) returns (s: string)
    ensures s == Document(root)
  {
    var writer := new Writer();
    writer.Write(DECLARATION);
    writer.WriteElement(root);
    s := writer.out;
  }
}
