// The validator of raw index data of tape_ops/index_validator.rs: a chain
// of checks over the bytes and their lossy text (blank data, angle-bracket
// balance, a tag-stack scan, the LTFS root tags, the required elements,
// truncation), each recording an error and, in strict mode, failing at once;
// the verdict is "no error, root tag present, scan passed". The validation
// runs the corrected scan; the scan as written is kept beside it.

module IndexDataValidator {
  import opened Wrappers
  import opened Bytes
  import opened Strings
  import opened Utf8

  // ---------------------------------------------------------------------------
  // basic_xml_parse_check: the tag-stack scan

  /**
   * Rust `char::is_alphanumeric`, narrowed to ASCII letters and digits, plus
   * the three punctuation characters the scan keeps in tag names.
   */
  predicate NameChar(c: char)
  {
    IsAsciiAlphanumeric(c) || c == '_' || c == '-' || c == ':'
  }

  /** The scan's variables: the open-tag stack, whether it is inside `<...>`, the name gathered, and whether the tag closes. */
  datatype Scan = Scan(stack: seq<string>, inTag: bool, tagName: string, isClosing: bool)

  const START: Scan := Scan([], false, [], false)

  /**
   * One character of `basic_xml_parse_check`. '<' starts a tag; '>' ends it
   * and, for a non-empty name, skips names starting with '?' or '!' and
   * names ending in '/', pops and compares for a closing tag, and pushes
   * otherwise; '/' right after '<' marks a closing tag; inside a tag only
   * name characters are kept.
   */
  function ScanChar(st: Scan, ch: char): (r: Result<Scan>)
    ensures r.Err? ==> r.error.kind == Parse
  {
    if ch == '<' then Ok(Scan(st.stack, true, [], false))
    else if ch == '>' then
      if st.inTag && st.tagName != [] then
        var name := st.tagName;
        if name[0] == '?' || name[0] == '!' || name[|name| - 1] == '/' then Ok(st.(inTag := false))
        else if st.isClosing then
          if st.stack == [] then Fail(Parse, "Extra closing tag: " + name)
          else if st.stack[|st.stack| - 1] != name then
            Fail(Parse, "XML tag mismatch: expected " + st.stack[|st.stack| - 1] + ", found " + name)
          else Ok(st.(stack := st.stack[..|st.stack| - 1], inTag := false))
        else Ok(st.(stack := st.stack + [name], inTag := false))
      else Ok(st.(inTag := false))
    else if ch == '/' && st.inTag && st.tagName == [] then Ok(st.(isClosing := true))
    else if st.inTag && NameChar(ch) then Ok(st.(tagName := st.tagName + [ch]))
    else Ok(st)
  }

  /** The scan over s from state st, stopping at the first error. */
  function Run(s: string, st: Scan): (r: Result<Scan>)
    ensures r.Err? ==> r.error.kind == Parse
  {
    if s == [] then Ok(st)
    else
      var st' :- ScanChar(st, s[0]);
      Run(s[1..], st')
  }

  /** `basic_xml_parse_check`: the scan, then any tag left open is an error. */
  function BasicXmlParseCheck(xml: string): (r: Result<()>)
    ensures r.Err? ==> r.error.kind == Parse
  {
    var st :- Run(xml, START);
    if st.stack != [] then Fail(Parse, "Unclosed XML tags") else Ok(())
  }

  /** The scan as the source writes it: one pass over the characters. */
  method BasicXmlParseCheckLoop(xml: string) returns (r: Result<()>)
    ensures r == BasicXmlParseCheck(xml)
  {
    var stack: seq<string> := [];
    var inTag := false;
    var tagName: string := [];
    var isClosing := false;
    var i := 0;
    while i < |xml|
      invariant i <= |xml|
      invariant Run(xml[i..], Scan(stack, inTag, tagName, isClosing)) == Run(xml, START)
    {
      var ch := xml[i];
      assert xml[i..][1..] == xml[i + 1..];
      if ch == '<' {
        inTag := true;
        tagName := [];
        isClosing := false;
      } else if ch == '>' {
        if inTag && tagName != [] {
          if tagName[0] == '?' || tagName[0] == '!' || tagName[|tagName| - 1] == '/' {
          } else if isClosing {
            if stack == [] {
              return Fail(Parse, "Extra closing tag: " + tagName);
            }
            var last := stack[|stack| - 1];
            stack := stack[..|stack| - 1];
            if last != tagName {
              return Fail(Parse, "XML tag mismatch: expected " + last + ", found " + tagName);
            }
          } else {
            stack := stack + [tagName];
          }
        }
        inTag := false;
      } else if ch == '/' && inTag && tagName == [] {
        isClosing := true;
      } else if inTag && NameChar(ch) {
        tagName := tagName + [ch];
      }
      i := i + 1;
    }
    if stack != [] {
      return Fail(Parse, "Unclosed XML tags");
    }
    return Ok(());
  }

  /** The scan of a concatenation is the scan of the second part from where the first left off. */
  lemma {:induction false} RunConcat(a: string, b: string, st: Scan)
    ensures Run(a + b, st) == (if Run(a, st).Err? then Run(a, st) else Run(b, Run(a, st).value))
    decreases |a|
  {
    if a != [] {
      assert (a + b)[1..] == a[1..] + b;
      assert (a + b)[0] == a[0];
      if ScanChar(st, a[0]).Ok? {
        RunConcat(a[1..], b, ScanChar(st, a[0]).value);
      }
    } else {
      assert a + b == b;
    }
  }

  /** A tag name: one or more name characters. */
  predicate TagName(t: string)
  {
    |t| > 0 && forall i :: 0 <= i < |t| ==> NameChar(t[i])
  }

  /** Name characters inside a tag are appended to the name. */
  lemma {:induction false} NameRun(t: string, st: Scan)
    requires st.inTag && forall i :: 0 <= i < |t| ==> NameChar(t[i])
    ensures Run(t, st).Ok? && Run(t, st).value == st.(tagName := st.tagName + t)
    decreases |t|
  {
    if t != [] {
      var st' := st.(tagName := st.tagName + [t[0]]);
      assert ScanChar(st, t[0]) == Ok(st');
      NameRun(t[1..], st');
      assert st'.tagName + t[1..] == st.tagName + t;
    }
  }

  /** An opening tag `<t>` pushes t. */
  lemma OpenPushes(t: string, st: Scan)
    requires TagName(t) && !st.inTag
    ensures Run("<" + t + ">", st).Ok?
    ensures var e := Run("<" + t + ">", st).value; e.stack == st.stack + [t] && !e.inTag
  {
    var st1 := Scan(st.stack, true, [], false);
    assert ("<" + t + ">")[1..] == t + ">";
    NameRun(t, st1);
    RunConcat(t, ">", st1);
    assert [] + t == t;
  }

  /** Inside a tag, a run of name characters and then '>' ends the tag with the name gathered. */
  lemma NameThenClose(t: string, st: Scan)
    requires st.inTag && forall i :: 0 <= i < |t| ==> NameChar(t[i])
    ensures Run(t + ">", st) == ScanChar(st.(tagName := st.tagName + t), '>')
  {
    NameRun(t, st);
    RunConcat(t, ">", st);
    assert ">"[1..] == [];
  }

  /** A closing tag `</t>` reaches its '>' with t gathered as a closing name. */
  lemma CloseGathers(t: string, st: Scan)
    requires TagName(t) && !st.inTag
    ensures Run("</" + t + ">", st) == ScanChar(Scan(st.stack, true, t, true), '>')
  {
    var st2 := Scan(st.stack, true, [], true);
    assert ("</" + t + ">")[1..] == "/" + t + ">";
    assert ("/" + t + ">")[1..] == t + ">";
    assert Run("</" + t + ">", st) == Run(t + ">", st2);
    NameThenClose(t, st2);
    assert [] + t == t;
  }

  /** A closing tag `</t>` pops t when t is on top of the stack, and is an error otherwise. */
  lemma ClosePops(t: string, st: Scan)
    requires TagName(t) && !st.inTag
    ensures st.stack != [] && st.stack[|st.stack| - 1] == t ==>
      Run("</" + t + ">", st).Ok? &&
      Run("</" + t + ">", st).value.stack == st.stack[..|st.stack| - 1] && !Run("</" + t + ">", st).value.inTag
    ensures (st.stack == [] || st.stack[|st.stack| - 1] != t) ==> Run("</" + t + ">", st).Err?
  {
    CloseGathers(t, st);
    assert NameChar(t[0]) && NameChar(t[|t| - 1]);
  }

  /** A small XML document: elements with names and nested elements, without attributes or text. */
  datatype Element = Element(name: string, children: seq<Element>)

  function Render(e: Element): string
  {
    "<" + e.name + ">" + RenderAll(e.children) + "</" + e.name + ">"
  }

  function RenderAll(es: seq<Element>): string
  {
    if es == [] then [] else Render(es[0]) + RenderAll(es[1..])
  }

  predicate WellNamed(e: Element)
  {
    TagName(e.name) && forall i :: 0 <= i < |e.children| ==> WellNamed(e.children[i])
  }

  /** A rendered element leaves the stack as it found it, outside any tag. */
  lemma {:induction false} RenderNeutral(e: Element, st: Scan)
    requires WellNamed(e) && !st.inTag
    ensures Run(Render(e), st).Ok?
    ensures Run(Render(e), st).value.stack == st.stack && !Run(Render(e), st).value.inTag
    decreases e, 1
  {
    var open, body, close := "<" + e.name + ">", RenderAll(e.children), "</" + e.name + ">";
    assert Render(e) == open + (body + close);
    RunConcat(open, body + close, st);
    OpenPushes(e.name, st);
    var st1 := Run(open, st).value;
    RunConcat(body, close, st1);
    RenderAllNeutral(e.children, st1);
    var st2 := Run(body, st1).value;
    ClosePops(e.name, st2);
    assert st2.stack[..|st2.stack| - 1] == st.stack;
  }

  lemma {:induction false} RenderAllNeutral(es: seq<Element>, st: Scan)
    requires (forall i :: 0 <= i < |es| ==> WellNamed(es[i])) && !st.inTag
    ensures Run(RenderAll(es), st).Ok?
    ensures Run(RenderAll(es), st).value.stack == st.stack && !Run(RenderAll(es), st).value.inTag
    decreases es, 0
  {
    if es != [] {
      RunConcat(Render(es[0]), RenderAll(es[1..]), st);
      RenderNeutral(es[0], st);
      RenderAllNeutral(es[1..], Run(Render(es[0]), st).value);
    }
  }

  /** Properly nested elements without attributes pass the scan. */
  lemma NestedElementsPass(e: Element)
    requires WellNamed(e)
    ensures BasicXmlParseCheck(Render(e)) == Ok(())
  {
    RenderNeutral(e, START);
  }

  /** An unclosed opening tag in front of a complete document fails the scan. */
  lemma UnclosedTagFails(t: string, e: Element)
    requires TagName(t) && WellNamed(e)
    ensures BasicXmlParseCheck("<" + t + ">" + Render(e)).Err?
  {
    RunConcat("<" + t + ">", Render(e), START);
    OpenPushes(t, START);
    RenderNeutral(e, Run("<" + t + ">", START).value);
  }

  /** A closing tag with nothing open fails the scan. */
  lemma ExtraClosingTagFails(t: string)
    requires TagName(t)
    ensures BasicXmlParseCheck("</" + t + ">").Err?
  {
    ClosePops(t, START);
  }

  /** A closing tag that does not match the innermost open tag fails the scan. */
  lemma MismatchedCloseFails(t: string, u: string)
    requires TagName(t) && TagName(u) && t != u
    ensures BasicXmlParseCheck(("<" + t + ">") + ("</" + u + ">")).Err?
  {
    RunConcat("<" + t + ">", "</" + u + ">", START);
    OpenPushes(t, START);
    ClosePops(u, Run("<" + t + ">", START).value);
  }

  // ---------------------------------------------------------------------------
  // What the scan does to declarations and attributes

  /** The name characters of s, in order. */
  function NameChars(s: string): (r: string)
    ensures forall i :: 0 <= i < |r| ==> NameChar(r[i])
  {
    if s == [] then [] else (if NameChar(s[0]) then [s[0]] else []) + NameChars(s[1..])
  }

  /** Tag text without '<', '>' and '/'. */
  predicate PlainTagText(w: string)
  {
    forall i :: 0 <= i < |w| ==> w[i] != '<' && w[i] != '>' && w[i] != '/'
  }

  /** As written, inside a tag only the name characters of the text are kept, whatever separates them. */
  lemma {:induction false} FilteredRun(w: string, st: Scan)
    requires st.inTag && PlainTagText(w)
    ensures Run(w, st).Ok? && Run(w, st).value == st.(tagName := st.tagName + NameChars(w))
    decreases |w|
  {
    if w != [] {
      var st' := if NameChar(w[0]) then st.(tagName := st.tagName + [w[0]]) else st;
      assert ScanChar(st, w[0]) == Ok(st');
      FilteredRun(w[1..], st');
      assert (if NameChar(w[0]) then [w[0]] else []) + NameChars(w[1..]) == NameChars(w);
    }
  }

  /** As written, a tag `<w>` whose text holds some name character pushes those characters as one name. */
  lemma TagPushesNameChars(w: string, st: Scan)
    requires PlainTagText(w) && NameChars(w) != [] && !st.inTag
    ensures Run("<" + w + ">", st).Ok?
    ensures Run("<" + w + ">", st).value.stack == st.stack + [NameChars(w)] && !Run("<" + w + ">", st).value.inTag
  {
    var st1 := Scan(st.stack, true, [], false);
    assert ("<" + w + ">")[1..] == w + ">";
    FilteredRun(w, st1);
    RunConcat(w, ">", st1);
    assert [] + NameChars(w) == NameChars(w);
  }

  /**
   * As written, an XML declaration in front of a document is pushed as an
   * open tag (its '?' is never kept, so the declaration test never fires)
   * and left open: every document with a declaration fails the scan.
   */
  lemma DeclarationLeftOpen(w: string, e: Element)
    requires PlainTagText(w) && WellNamed(e)
    ensures BasicXmlParseCheck("<?xml" + w + "?>" + Render(e)).Err?
  {
    var decl := "?xml" + w + "?";
    assert "<?xml" + w + "?>" == "<" + decl + ">";
    assert decl == "?xml" + (w + "?");
    assert NameChars(decl)[..0] == [] by {
      assert NameChars(decl) == NameChars(decl[1..]);
    }
    assert NameChars(decl) != [] by {
      assert decl[1..] == "xml" + (w + "?");
      assert decl[1..][0] == 'x';
    }
    TagPushesNameChars(decl, START);
    RunConcat("<" + decl + ">", Render(e), START);
    RenderNeutral(e, Run("<" + decl + ">", START).value);
  }

  /**
   * As written, an attribute glues its name characters to the element name,
   * so the element's own closing tag no longer matches.
   */
  lemma AttributeBreaksMatch(t: string, w: string)
    requires TagName(t) && PlainTagText(w) && NameChars(w) != []
    ensures BasicXmlParseCheck(("<" + t + " " + w + ">") + ("</" + t + ">")).Err?
  {
    var tag := t + " " + w;
    assert "<" + t + " " + w + ">" == "<" + tag + ">";
    AttributeTag(t, w);
    TagPushesNameChars(tag, START);
    RunConcat("<" + tag + ">", "</" + t + ">", START);
    ClosePops(t, Run("<" + tag + ">", START).value);
  }

  /** A name, a space and attribute text make plain tag text whose name characters are longer than the name. */
  lemma AttributeTag(t: string, w: string)
    requires TagName(t) && PlainTagText(w) && NameChars(w) != []
    ensures PlainTagText(t + " " + w) && NameChars(t + " " + w) != t
  {
    var tag := t + " " + w;
    forall i | 0 <= i < |tag|
      ensures tag[i] != '<' && tag[i] != '>' && tag[i] != '/'
    {
      if i < |t| {
        assert tag[i] == t[i];
      } else if i > |t| {
        assert tag[i] == w[i - |t| - 1];
      }
    }
    NameCharsConcat(t, " " + w);
    NameCharsConcat(" ", w);
    NameCharsOfName(t);
    assert tag == t + (" " + w);
  }

  lemma {:induction false} NameCharsConcat(a: string, b: string)
    ensures NameChars(a + b) == NameChars(a) + NameChars(b)
    decreases |a|
  {
    if a != [] {
      assert (a + b)[1..] == a[1..] + b;
      NameCharsConcat(a[1..], b);
    } else {
      assert a + b == b;
    }
  }

  lemma {:induction false} NameCharsOfName(t: string)
    requires forall i :: 0 <= i < |t| ==> NameChar(t[i])
    ensures NameChars(t) == t
    decreases |t|
  {
    if t != [] {
      NameCharsOfName(t[1..]);
    }
  }

  // ---------------------------------------------------------------------------
  // The scan as its comments describe it

  /**
   * The scan with the evident intent of its comments: the tag name is the
   * run of characters after '<' (and an optional '/'), a leading '?' or '!'
   * is kept so that declarations and comments are recognised, the name ends
   * at the first character that cannot be in it, and a '/' just before '>'
   * marks a self-closing tag.
   */
  datatype FixedScan = FixedScan(stack: seq<string>, inTag: bool, tagName: string, isClosing: bool,
                                 nameDone: bool, lastSlash: bool)

  const FIXED_START: FixedScan := FixedScan([], false, [], false, false, false)

  function FixedScanChar(st: FixedScan, ch: char): (r: Result<FixedScan>)
    ensures r.Err? ==> r.error.kind == Parse
  {
    if ch == '<' then Ok(FixedScan(st.stack, true, [], false, false, false))
    else if ch == '>' then
      if st.inTag && st.tagName != [] then
        var name := st.tagName;
        if name[0] == '?' || name[0] == '!' || st.lastSlash then Ok(st.(inTag := false))
        else if st.isClosing then
          if st.stack == [] then Fail(Parse, "Extra closing tag: " + name)
          else if st.stack[|st.stack| - 1] != name then
            Fail(Parse, "XML tag mismatch: expected " + st.stack[|st.stack| - 1] + ", found " + name)
          else Ok(st.(stack := st.stack[..|st.stack| - 1], inTag := false))
        else Ok(st.(stack := st.stack + [name], inTag := false))
      else Ok(st.(inTag := false))
    else if ch == '/' && st.inTag && st.tagName == [] then Ok(st.(isClosing := true))
    else if st.inTag then
      var keep := !st.nameDone && (NameChar(ch) || (st.tagName == [] && (ch == '?' || ch == '!')));
      if keep then Ok(st.(tagName := st.tagName + [ch], lastSlash := false))
      else Ok(st.(nameDone := st.tagName != [], lastSlash := ch == '/'))
    else Ok(st)
  }

  function FixedRun(s: string, st: FixedScan): (r: Result<FixedScan>)
    ensures r.Err? ==> r.error.kind == Parse
  {
    if s == [] then Ok(st)
    else
      var st' :- FixedScanChar(st, s[0]);
      FixedRun(s[1..], st')
  }

  /** The corrected `basic_xml_parse_check`. */
  function BasicXmlParseCheckFixed(xml: string): (r: Result<()>)
    ensures r.Err? ==> r.error.kind == Parse
  {
    var st :- FixedRun(xml, FIXED_START);
    if st.stack != [] then Fail(Parse, "Unclosed XML tags") else Ok(())
  }

  lemma {:induction false} FixedRunConcat(a: string, b: string, st: FixedScan)
    ensures FixedRun(a + b, st) == (if FixedRun(a, st).Err? then FixedRun(a, st) else FixedRun(b, FixedRun(a, st).value))
    decreases |a|
  {
    if a != [] {
      assert (a + b)[1..] == a[1..] + b;
      assert (a + b)[0] == a[0];
      if FixedScanChar(st, a[0]).Ok? {
        FixedRunConcat(a[1..], b, FixedScanChar(st, a[0]).value);
      }
    } else {
      assert a + b == b;
    }
  }

  lemma {:induction false} FixedNameRun(t: string, st: FixedScan)
    requires st.inTag && !st.nameDone && forall i :: 0 <= i < |t| ==> NameChar(t[i])
    ensures FixedRun(t, st).Ok?
    ensures var e := FixedRun(t, st).value;
      e.stack == st.stack && e.inTag && !e.nameDone && e.isClosing == st.isClosing && e.tagName == st.tagName + t &&
      (t != [] ==> !e.lastSlash) && (t == [] ==> e.lastSlash == st.lastSlash)
    decreases |t|
  {
    if t != [] {
      var st' := st.(tagName := st.tagName + [t[0]], lastSlash := false);
      assert FixedScanChar(st, t[0]) == Ok(st');
      FixedNameRun(t[1..], st');
      assert st'.tagName + t[1..] == st.tagName + t;
    }
  }

  lemma FixedOpenPushes(t: string, st: FixedScan)
    requires TagName(t) && !st.inTag
    ensures FixedRun("<" + t + ">", st).Ok?
    ensures var e := FixedRun("<" + t + ">", st).value; e.stack == st.stack + [t] && !e.inTag
  {
    var st1 := FixedScan(st.stack, true, [], false, false, false);
    assert ("<" + t + ">")[1..] == t + ">";
    FixedNameRun(t, st1);
    FixedRunConcat(t, ">", st1);
    assert [] + t == t;
  }

  lemma FixedClosePops(t: string, st: FixedScan)
    requires TagName(t) && !st.inTag && st.stack != [] && st.stack[|st.stack| - 1] == t
    ensures FixedRun("</" + t + ">", st).Ok?
    ensures var e := FixedRun("</" + t + ">", st).value; e.stack == st.stack[..|st.stack| - 1] && !e.inTag
  {
    var st2 := FixedScan(st.stack, true, [], true, false, false);
    assert ("</" + t + ">")[1..] == "/" + t + ">";
    assert ("/" + t + ">")[1..] == t + ">";
    assert FixedRun("</" + t + ">", st) == FixedRun(t + ">", st2);
    FixedNameThenClose(t, st2);
    assert [] + t == t;
    assert NameChar(t[0]);
  }

  /** Inside a tag whose name is still open, name characters and then '>' end the tag with the name gathered. */
  lemma FixedNameThenClose(t: string, st: FixedScan)
    requires st.inTag && !st.nameDone && t != [] && forall i :: 0 <= i < |t| ==> NameChar(t[i])
    ensures FixedRun(t + ">", st) == FixedScanChar(st.(tagName := st.tagName + t, lastSlash := false), '>')
  {
    FixedNameRun(t, st);
    FixedRunConcat(t, ">", st);
    assert ">"[1..] == [];
  }

  lemma {:induction false} FixedRenderNeutral(e: Element, st: FixedScan)
    requires WellNamed(e) && !st.inTag
    ensures FixedRun(Render(e), st).Ok?
    ensures FixedRun(Render(e), st).value.stack == st.stack && !FixedRun(Render(e), st).value.inTag
    decreases e, 1
  {
    var open, body, close := "<" + e.name + ">", RenderAll(e.children), "</" + e.name + ">";
    assert Render(e) == open + (body + close);
    FixedRunConcat(open, body + close, st);
    FixedOpenPushes(e.name, st);
    var st1 := FixedRun(open, st).value;
    FixedRunConcat(body, close, st1);
    FixedRenderAllNeutral(e.children, st1);
    var st2 := FixedRun(body, st1).value;
    FixedClosePops(e.name, st2);
    assert st2.stack[..|st2.stack| - 1] == st.stack;
  }

  lemma {:induction false} FixedRenderAllNeutral(es: seq<Element>, st: FixedScan)
    requires (forall i :: 0 <= i < |es| ==> WellNamed(es[i])) && !st.inTag
    ensures FixedRun(RenderAll(es), st).Ok?
    ensures FixedRun(RenderAll(es), st).value.stack == st.stack && !FixedRun(RenderAll(es), st).value.inTag
    decreases es, 0
  {
    if es != [] {
      FixedRunConcat(Render(es[0]), RenderAll(es[1..]), st);
      FixedRenderNeutral(es[0], st);
      FixedRenderAllNeutral(es[1..], FixedRun(Render(es[0]), st).value);
    }
  }

  /** Inside a tag whose name is settled, text without '<', '>' and '/' changes nothing but the flags. */
  lemma {:induction false} FixedSkipRun(w: string, st: FixedScan)
    requires st.inTag && st.tagName != [] && PlainTagText(w)
    ensures FixedRun(w, st).Ok?
    ensures var e := FixedRun(w, st).value;
      e.stack == st.stack && e.inTag && e.isClosing == st.isClosing &&
      |e.tagName| >= |st.tagName| && e.tagName[0] == st.tagName[0] &&
      (w != [] ==> !e.lastSlash) && (w == [] ==> e.lastSlash == st.lastSlash) &&
      (st.nameDone ==> e.nameDone && e.tagName == st.tagName)
    decreases |w|
  {
    if w != [] {
      var keep := !st.nameDone && NameChar(w[0]);
      var st' := if keep then st.(tagName := st.tagName + [w[0]], lastSlash := false)
                 else st.(nameDone := true, lastSlash := false);
      assert FixedScanChar(st, w[0]) == Ok(st');
      FixedSkipRun(w[1..], st');
    }
  }

  /** Corrected, a declaration `<?xml...?>` is skipped and leaves the stack alone. */
  lemma FixedDeclarationSkipped(w: string, st: FixedScan)
    requires PlainTagText(w) && !st.inTag
    ensures FixedRun("<?xml" + w + "?>", st).Ok?
    ensures FixedRun("<?xml" + w + "?>", st).value.stack == st.stack && !FixedRun("<?xml" + w + "?>", st).value.inTag
  {
    var st1 := FixedScan(st.stack, true, [], false, false, false);
    var st2 := st1.(tagName := "?");
    var s := "<?xml" + w + "?>";
    assert s[1..] == "?" + ("xml" + w + "?" + ">");
    assert [] + ['?'] == "?";
    assert FixedScanChar(st1, '?') == Ok(st2);
    assert FixedRun(s, st) == FixedRun("xml" + w + "?" + ">", st2);
    var rest := "xml" + w + "?";
    assert PlainTagText(rest) by {
      forall i | 0 <= i < |rest|
        ensures rest[i] != '<' && rest[i] != '>' && rest[i] != '/'
      {
        if 3 <= i < 3 + |w| {
          assert rest[i] == w[i - 3];
        }
      }
    }
    FixedSkipRun(rest, st2);
    FixedRunConcat(rest, ">", st2);
  }

  /** Corrected, a document with a declaration in front passes the scan. */
  lemma FixedDeclarationPasses(w: string, e: Element)
    requires PlainTagText(w) && WellNamed(e)
    ensures BasicXmlParseCheckFixed("<?xml" + w + "?>" + Render(e)) == Ok(())
  {
    FixedRunConcat("<?xml" + w + "?>", Render(e), FIXED_START);
    FixedDeclarationSkipped(w, FIXED_START);
    FixedRenderNeutral(e, FixedRun("<?xml" + w + "?>", FIXED_START).value);
  }

  /** Corrected, an attribute after the name leaves the element's closing tag matching. */
  lemma FixedAttributePasses(t: string, w: string)
    requires TagName(t) && PlainTagText(w)
    ensures BasicXmlParseCheckFixed(("<" + t + " " + w + ">") + ("</" + t + ">")) == Ok(())
  {
    var st1 := FixedScan([], true, [], false, false, false);
    var open := "<" + t + " " + w + ">";
    assert open[1..] == t + (" " + w + ">");
    FixedRunConcat(t, " " + w + ">", st1);
    FixedNameRun(t, st1);
    var st2 := FixedRun(t, st1).value;
    assert st2.tagName == t;
    var st3 := st2.(nameDone := true, lastSlash := false);
    assert FixedScanChar(st2, ' ') == Ok(st3);
    assert (" " + w + ">")[1..] == w + ">";
    assert FixedRun(open, FIXED_START) == FixedRun(t + (" " + w + ">"), st1);
    assert FixedRun(" " + w + ">", st2) == FixedRun(w + ">", st3);
    FixedRunConcat(w, ">", st3);
    FixedSkipRun(w, st3);
    var st4 := FixedRun(w, st3).value;
    assert st4.tagName == t && !st4.isClosing && !st4.lastSlash && st4.inTag && st4.stack == [];
    assert NameChar(t[0]);
    assert t[0] != '?' && t[0] != '!';
    assert st4.stack + [st4.tagName] == [t];
    assert FixedScanChar(st4, '>') == Ok(st4.(stack := [t], inTag := false));
    assert FixedRun(">", st4) == Ok(st4.(stack := [t], inTag := false));
    assert FixedRun(open, FIXED_START).Ok? && FixedRun(open, FIXED_START).value.stack == [t];
    FixedRunConcat(open, "</" + t + ">", FIXED_START);
    FixedClosePops(t, FixedRun(open, FIXED_START).value);
  }

  // ---------------------------------------------------------------------------
  // The extractors

  /** The text between the first `open` and the next `close` after it. */
  function Between(xml: string, open: string, close: string): (r: Option<string>)
    ensures r.Some? ==> Contains(xml, open)
  {
    match Find(xml, open)
    case None => None
    case Some(start) =>
      var from := start + |open|;
      match Find(xml[from..], close)
      case None => None
      case Some(stop) => Some(xml[from..from + stop])
  }

  /** The text found lies between the opening tag and a closing tag in the document, and holds no closing tag. */
  lemma BetweenEnclosed(xml: string, open: string, close: string)
    ensures var r := Between(xml, open, close);
      r.Some? ==> Contains(xml, open + r.value + close) && (|close| > 0 ==> !Contains(r.value, close))
  {
    if Between(xml, open, close).Some? {
      var start := Find(xml, open).value;
      var from := start + |open|;
      var rest := xml[from..];
      var stop := Find(rest, close).value;
      var v := xml[from..from + stop];
      BetweenAt(xml, open, close, start, stop);
      Enclosed(xml, open, close, start, stop);
      ContainsAt(xml, open + v + close, start);
      if |close| > 0 {
        NoEarlierMatch(rest, close, stop);
        assert rest[..stop] == v;
      }
    }
  }

  /** The text after an opening tag up to the first closing tag after it is enclosed by the two. */
  lemma Enclosed(xml: string, open: string, close: string, start: nat, stop: nat)
    requires MatchAt(xml, open, start) && FindFrom(xml[start + |open|..], close, 0) == Some(stop)
    ensures start + |open| + stop <= |xml|
    ensures MatchAt(xml, open + xml[start + |open|..start + |open| + stop] + close, start)
  {
    var from := start + |open|;
    var v := xml[from..from + stop];
    var rest := xml[from..];
    assert MatchAt(rest, close, stop);
    assert xml[from + stop..from + stop + |close|] == rest[stop..stop + |close|] == close;
    SliceThree(xml, start, from, from + stop, from + stop + |close|);
  }

  /** Before the first match of a non-empty p in s, the prefix holds no match of p. */
  lemma NoEarlierMatch(s: string, p: string, stop: nat)
    requires |p| > 0 && FindFrom(s, p, 0) == Some(stop)
    ensures !Contains(s[..stop], p)
  {
    var v := s[..stop];
    forall i: nat | MatchAt(v, p, i)
      ensures MatchAt(s, p, i) && i < stop
    {
      assert s[i..i + |p|] == v[i..i + |p|];
    }
    ContainsIff(v, p);
  }

  /**
   * Round trip: in `a + open + v + close + b`, with no `open` before the one
   * written and no `close` inside `v`, the text between the tags is `v`.
   */
  lemma BetweenReadsBack(a: string, open: string, v: string, close: string, b: string)
    requires |open| > 0 && |close| > 0
    requires forall j :: 0 <= j < |a| ==> !MatchAt(a + open + v + close + b, open, j)
    requires forall j :: 0 <= j < |v| ==> !MatchAt(v + close + b, close, j)
    ensures Between(a + open + v + close + b, open, close) == Some(v)
  {
    var xml := a + open + v + close + b;
    var t := v + close + b;
    assert xml == a + open + t;
    assert Find(xml, open) == Some(|a|) by {
      MatchAfter(a, open, t);
      FindFromFirst(xml, open, 0, |a|);
    }
    assert Find(t, close) == Some(|v|) by {
      MatchAfter(v, close, b);
      FindFromFirst(t, close, 0, |v|);
    }
    MatchAfter(a, open, t);
    assert xml[|a| + |open|..] == t;
    assert xml[|a| + |open|..|a| + |open| + |v|] == t[..|v|] == v;
    BetweenAt(xml, open, close, |a|, |v|);
  }

  /** Between reads the text from the end of the first opening tag up to the first closing tag after it. */
  lemma BetweenAt(xml: string, open: string, close: string, start: nat, stop: nat)
    requires Find(xml, open) == Some(start) && Find(xml[start + |open|..], close) == Some(stop)
    ensures Between(xml, open, close) == Some(xml[start + |open|..start + |open| + stop])
  {
  }

  /** `extract_ltfs_version`: the text of the first `version="..."` attribute. */
  function ExtractLtfsVersion(xml: string): (r: Option<string>)
    ensures r.Some? ==> Contains(xml, "version=\"" + r.value + "\"") && !Contains(r.value, "\"")
  {
    BetweenEnclosed(xml, "version=\"", "\"");
    Between(xml, "version=\"", "\"")
  }

  /** `extract_volume_uuid`. */
  function ExtractVolumeUuid(xml: string): (r: Option<string>)
    ensures r.Some? ==> Contains(xml, "<volumeuuid>" + r.value + "</volumeuuid>") && !Contains(r.value, "</volumeuuid>")
  {
    BetweenEnclosed(xml, "<volumeuuid>", "</volumeuuid>");
    Between(xml, "<volumeuuid>", "</volumeuuid>")
  }

  /** `extract_generation_number`: the text between the tags parsed as a u64, or None. */
  function ExtractGenerationNumber(xml: string): (r: Option<u64>)
    ensures r.Some? ==> (exists d :: Contains(xml, "<generationnumber>" + d + "</generationnumber>")
                                   && ParseUnsigned(d, U64_LIMIT) == Some(r.value as nat))
  {
    BetweenEnclosed(xml, "<generationnumber>", "</generationnumber>");
    match Between(xml, "<generationnumber>", "</generationnumber>")
    case None => None
    case Some(text) =>
      match ParseUnsigned(text, U64_LIMIT)
      case None => None
      case Some(n) => Some(n as u64)
  }

  /** Round trip: a generation number written as decimal between its tags reads back. */
  lemma GenerationNumberReadsBack(a: string, n: u64, b: string)
    requires forall j :: 0 <= j < |a| ==>
      !MatchAt(a + "<generationnumber>" + NatToDecimal(n) + "</generationnumber>" + b, "<generationnumber>", j)
    ensures ExtractGenerationNumber(a + "<generationnumber>" + NatToDecimal(n) + "</generationnumber>" + b) == Some(n)
  {
    var d := NatToDecimal(n);
    var xml := a + "<generationnumber>" + d + "</generationnumber>" + b;
    assert Between(xml, "<generationnumber>", "</generationnumber>") == Some(d) by {
      DigitsBetween(a, "<generationnumber>", d, "</generationnumber>", b);
    }
    assert ParseUnsigned(d, U64_LIMIT) == Some(n as nat) by {
      NatToDecimalValue(n);
    }
  }

  /** Digits between two tags, the closing one not starting with a digit, are read back whole. */
  lemma DigitsBetween(a: string, open: string, d: string, close: string, b: string)
    requires |open| > 0 && |close| > 0 && !IsAsciiDigit(close[0]) && AllDigits(d)
    requires forall j :: 0 <= j < |a| ==> !MatchAt(a + open + d + close + b, open, j)
    ensures Between(a + open + d + close + b, open, close) == Some(d)
  {
    forall j | 0 <= j < |d|
      ensures !MatchAt(d + close + b, close, j)
    {
      assert (d + close + b)[j] == d[j];
      assert IsAsciiDigit(d[j]);
    }
    BetweenReadsBack(a, open, d, close, b);
  }

  /** `estimate_file_count`: the number of "<file>" occurrences, None when there are none. */
  function EstimateFileCount(xml: string): (r: Option<nat>)
    ensures r.None? <==> !Contains(xml, "<file>")
    ensures r.Some? ==> r.value == CountMatches(xml, "<file>") && r.value > 0
  {
    CountMatchesZero(xml, "<file>");
    var n := CountMatches(xml, "<file>");
    if n > 0 then Some(n) else None
  }

  // ---------------------------------------------------------------------------
  // validate_index_data

  /** `ValidationResult`. */
  datatype ValidationResult = ValidationResult(
    isValid: bool,
    dataSize: nat,
    hasLtfsIdentifier: bool,
    xmlWellFormed: bool,
    ltfsVersion: Option<string>,
    volumeUuid: Option<string>,
    generationNumber: Option<u64>,
    fileCountEstimate: Option<nat>,
    warnings: seq<string>,
    errors: seq<string>)

  function Warn(res: ValidationResult, w: string): ValidationResult
  {
    res.(warnings := res.warnings + [w])
  }

  /** A failed check: the error is recorded, and strict mode stops with an LTFS index error. */
  function Flag(strict: bool, res: ValidationResult, error: string, failure: string): (r: Result<ValidationResult>)
    ensures strict <==> r.Err?
    ensures r.Ok? ==> r.value == res.(errors := res.errors + [error])
  {
    if strict then Fail(LtfsIndex, failure) else Ok(res.(errors := res.errors + [error]))
  }

  predicate AllZero(data: seq<byte>)
  {
    forall i :: 0 <= i < |data| ==> data[i] == 0
  }

  function PrintableCount(data: seq<byte>): (r: nat)
    ensures r <= |data|
  {
    if data == [] then 0 else (if 32 <= data[0] <= 126 then 1 else 0) + PrintableCount(data[1..])
  }

  /** The checks of `validate_basic_data` that record an error: the data is not empty and not all zero (empty data is all zero). */
  predicate BasicPass(data: seq<byte>)
  {
    !AllZero(data)
  }

  /**
   * `validate_basic_data` (the printable-ratio test `ratio < 0.5` in
   * integers; with no data the ratio is NaN and the test is false).
   */
  function BasicData(strict: bool, data: seq<byte>, res: ValidationResult): (r: Result<ValidationResult>)
    ensures strict ==> (r.Ok? <==> BasicPass(data))
    ensures !strict ==> r.Ok?
    ensures r.Ok? ==> (r.value.errors == [] <==> res.errors == [] && BasicPass(data))
    ensures r.Ok? ==> r.value.hasLtfsIdentifier == res.hasLtfsIdentifier && r.value.xmlWellFormed == res.xmlWellFormed
    ensures r.Ok? ==> r.value.dataSize == res.dataSize
  {
    var r1 :- if |data| == 0 then Flag(strict, res, "Index data is empty", "Index data is empty") else Ok(res);
    var r2 :- if AllZero(data) then Flag(strict, r1, "Index data is all zero", "Index data is all zero") else Ok(r1);
    var r3 := if |data| < 100 then Warn(r2, "Index data is small, may be incomplete")
              else if |data| > 100_000_000 then Warn(r2, "Index data is large, may hold other content")
              else r2;
    Ok(if 2 * PrintableCount(data) < |data| then Warn(r3, "Low share of printable characters") else r3)
  }

  /** Rust `char::is_control`: the Unicode Cc category. */
  predicate IsControl(c: char)
  {
    c <= '\U{1F}' || ('\U{7F}' <= c <= '\U{9F}')
  }

  predicate HasStrayControl(xml: string)
  {
    exists i :: 0 <= i < |xml| && IsControl(xml[i]) && xml[i] != '\n' && xml[i] != '\r' && xml[i] != '\t'
  }

  /** The checks of `validate_xml_format` that record an error: as many '<' as '>', and the corrected tag-stack scan passes. */
  predicate XmlPass(xml: string)
  {
    CountMatches(xml, "<") == CountMatches(xml, ">") && BasicXmlParseCheckFixed(xml).Ok?
  }

  /** `validate_xml_format`, with the corrected scan. */
  function XmlFormat(strict: bool, xml: string, res: ValidationResult): (r: Result<ValidationResult>)
    ensures strict ==> (r.Ok? <==> XmlPass(xml))
    ensures !strict ==> r.Ok?
    ensures r.Ok? ==> (r.value.errors == [] <==> res.errors == [] && XmlPass(xml))
    ensures r.Ok? ==> r.value.hasLtfsIdentifier == res.hasLtfsIdentifier
    ensures r.Ok? ==> (r.value.xmlWellFormed <==> res.xmlWellFormed || BasicXmlParseCheckFixed(xml).Ok?)
    ensures r.Ok? ==> r.value.dataSize == res.dataSize
  {
    var r1 := if !StartsWith(TrimStart(xml), "<?xml") then Warn(res, "Missing XML declaration") else res;
    var r2 :- if CountMatches(xml, "<") != CountMatches(xml, ">") then
                Flag(strict, r1, "XML tag count mismatch", "Invalid XML format: tag count mismatch")
              else Ok(r1);
    var r3 := if HasStrayControl(xml) then Warn(r2, "XML holds control characters") else r2;
    match BasicXmlParseCheckFixed(xml)
    case Ok(_) => Ok(r3.(xmlWellFormed := true))
    case Err(e) => Flag(strict, r3, "XML parse failed: " + Display(e), "Invalid XML format: " + Display(e))
  }

  /** The checks of `validate_ltfs_identifier` that record an error: both root tags are present. */
  predicate IdentifierPass(xml: string)
  {
    Contains(xml, "<ltfsindex") && Contains(xml, "</ltfsindex>")
  }

  /** `validate_ltfs_identifier`. */
  function LtfsIdentifier(strict: bool, xml: string, res: ValidationResult): (r: Result<ValidationResult>)
    ensures strict ==> (r.Ok? <==> IdentifierPass(xml))
    ensures !strict ==> r.Ok?
    ensures r.Ok? ==> (r.value.errors == [] <==> res.errors == [] && IdentifierPass(xml))
    ensures r.Ok? ==> (r.value.hasLtfsIdentifier <==> res.hasLtfsIdentifier || Contains(xml, "<ltfsindex"))
    ensures r.Ok? ==> r.value.xmlWellFormed == res.xmlWellFormed
    ensures r.Ok? ==> r.value.dataSize == res.dataSize
  {
    var r1 :- if Contains(xml, "<ltfsindex") then Ok(res.(hasLtfsIdentifier := true))
              else Flag(strict, res, "Missing LTFS root element <ltfsindex>", "Missing LTFS identifier: no <ltfsindex>");
    var r2 :- if !Contains(xml, "</ltfsindex>") then
                Flag(strict, r1, "Missing LTFS closing tag </ltfsindex>", "Missing LTFS identifier: no </ltfsindex>")
              else Ok(r1);
    match ExtractLtfsVersion(xml)
    case Some(v) =>
      var r3 := r2.(ltfsVersion := Some(v));
      Ok(if !StartsWith(v, "2.") then Warn(r3, "LTFS version may not be compatible") else r3)
    case None => Ok(Warn(r2, "Cannot extract the LTFS version"))
  }

  /** An element present as `<e>` or `<e ...`. */
  predicate HasElement(xml: string, e: string)
  {
    Contains(xml, "<" + e + ">") || Contains(xml, "<" + e + " ")
  }

  /** The descriptions of the required elements that are missing, in order. */
  function MissingElements(xml: string): (r: seq<string>)
    ensures r == [] <==>
      HasElement(xml, "volumeuuid") && HasElement(xml, "generationnumber") &&
      HasElement(xml, "updatetime") && HasElement(xml, "directory")
  {
    (if HasElement(xml, "volumeuuid") then [] else ["volume UUID"]) +
    (if HasElement(xml, "generationnumber") then [] else ["generation number"]) +
    (if HasElement(xml, "updatetime") then [] else ["update time"]) +
    (if HasElement(xml, "directory") then [] else ["root directory"])
  }

  function Join(parts: seq<string>, sep: string): string
  {
    if parts == [] then [] else if |parts| == 1 then parts[0] else parts[0] + sep + Join(parts[1..], sep)
  }

  /** `validate_ltfs_structure`. */
  function LtfsStructure(strict: bool, xml: string, res: ValidationResult): (r: Result<ValidationResult>)
    ensures strict ==> (r.Ok? <==> MissingElements(xml) == [])
    ensures !strict ==> r.Ok?
    ensures r.Ok? ==> (r.value.errors == [] <==> res.errors == [] && MissingElements(xml) == [])
    ensures r.Ok? ==> r.value.hasLtfsIdentifier == res.hasLtfsIdentifier && r.value.xmlWellFormed == res.xmlWellFormed
    ensures r.Ok? ==> r.value.dataSize == res.dataSize
  {
    var missing := MissingElements(xml);
    var r1 :- if missing != [] then
                Flag(strict, res, "Missing required elements: " + Join(missing, ", "),
                     "Incomplete LTFS structure: " + Join(missing, ", "))
              else Ok(res);
    Ok(r1.(volumeUuid := ExtractVolumeUuid(xml), generationNumber := ExtractGenerationNumber(xml),
           fileCountEstimate := EstimateFileCount(xml)))
  }

  /** The check of `validate_content_integrity` that records an error: the text ends with the closing root tag. */
  predicate IntegrityPass(xml: string)
  {
    EndsWith(TrimEnd(xml), "</ltfsindex>")
  }

  /** `validate_content_integrity`. */
  function ContentIntegrity(strict: bool, xml: string, res: ValidationResult): (r: Result<ValidationResult>)
    ensures strict ==> (r.Ok? <==> IntegrityPass(xml))
    ensures !strict ==> r.Ok?
    ensures r.Ok? ==> (r.value.errors == [] <==> res.errors == [] && IntegrityPass(xml))
    ensures r.Ok? ==> r.value.hasLtfsIdentifier == res.hasLtfsIdentifier && r.value.xmlWellFormed == res.xmlWellFormed
    ensures r.Ok? ==> r.value.dataSize == res.dataSize
  {
    var r1 :- if !IntegrityPass(xml) then
                Flag(strict, res, "LTFS index may be truncated", "Content validation failed: index incomplete")
              else Ok(res);
    var r2 := if !Contains(xml, "<file>") && !Contains(xml, "<directory>") then Warn(r1, "No file or directory found") else r1;
    var r3 := if Contains(xml, "\0") then Warn(r2, "Index holds NUL characters") else r2;
    Ok(if Utf8Len(xml) < 500 then Warn(r3, "Index content is short") else r3)
  }

  /** The checks of the lossy text, steps two to five of `validate_index_data`. */
  predicate TextPass(xml: string)
  {
    XmlPass(xml) && IdentifierPass(xml) && MissingElements(xml) == [] && IntegrityPass(xml)
  }

  /** Steps two to five of `validate_index_data`, in order. */
  function TextChecks(strict: bool, xml: string, res: ValidationResult): (r: Result<ValidationResult>)
    ensures strict ==> (r.Ok? <==> TextPass(xml))
    ensures !strict ==> r.Ok?
    ensures r.Ok? ==> (r.value.errors == [] <==> res.errors == [] && TextPass(xml))
    ensures r.Ok? ==> (r.value.xmlWellFormed <==> res.xmlWellFormed || BasicXmlParseCheckFixed(xml).Ok?)
    ensures r.Ok? ==> (r.value.hasLtfsIdentifier <==> res.hasLtfsIdentifier || Contains(xml, "<ltfsindex"))
    ensures r.Ok? ==> r.value.dataSize == res.dataSize
  {
    var r2 :- XmlFormat(strict, xml, res);
    var r3 :- LtfsIdentifier(strict, xml, r2);
    var r4 :- LtfsStructure(strict, xml, r3);
    ContentIntegrity(strict, xml, r4)
  }

  /** Every check `validate_index_data` makes that records an error, passed. */
  predicate AllChecksPass(data: seq<byte>)
  {
    BasicPass(data) && TextPass(DecodeLossy(data))
  }

  /**
   * `validate_index_data`: the five checks in order on the bytes and their
   * lossy text, then the verdict. Lenient mode always returns a result;
   * the data is judged valid exactly when every check passed; strict mode
   * fails outright otherwise.
   */
  function Validate(strict: bool, data: seq<byte>): (r: Result<ValidationResult>)
    ensures !strict ==> r.Ok?
    ensures strict ==> (r.Ok? <==> AllChecksPass(data))
    ensures r.Ok? ==> (r.value.isValid <==> AllChecksPass(data))
    ensures r.Ok? ==> r.value.dataSize == |data|
  {
    var res := ValidationResult(false, |data|, false, false, None, None, None, None, [], []);
    var r1 :- BasicData(strict, data, res);
    var r5 :- TextChecks(strict, DecodeLossy(data), r1);
    Ok(r5.(isValid := r5.errors == [] && r5.hasLtfsIdentifier && r5.xmlWellFormed))
  }

  /** Strict mode rejects empty and all-zero data. */
  lemma StrictRejectsBlank(data: seq<byte>)
    requires AllZero(data)
    ensures Validate(true, data).Err?
  {
  }

  /**
   * With the corrected scan, a document that starts with an XML declaration
   * is judged well formed by the XML step, where the scan as written
   * rejects it (DeclarationLeftOpen).
   */
  lemma DeclaredDocumentWellFormed(xml: string, res: ValidationResult, w: string, e: Element)
    requires xml == "<?xml" + w + "?>" + Render(e)
    requires PlainTagText(w) && WellNamed(e)
    ensures XmlFormat(false, xml, res).Ok? && XmlFormat(false, xml, res).value.xmlWellFormed
    ensures BasicXmlParseCheck(xml).Err?
  {
    FixedDeclarationPasses(w, e);
    DeclarationLeftOpen(w, e);
  }

  /** `IndexValidator`: the strict and debug switches. */
  class IndexValidator {
    var strictMode: bool
    var debugMode: bool

    /** `IndexValidator::new`: strict. */
    constructor ()
      ensures strictMode && !debugMode
    {
      strictMode := true;
      debugMode := false;
    }

    /** `IndexValidator::new_lenient`. */
    constructor Lenient()
      ensures !strictMode && !debugMode
    {
      strictMode := false;
      debugMode := false;
    }

    method SetStrictMode(enabled: bool)
      modifies this
      ensures strictMode == enabled && debugMode == old(debugMode)
    {
      strictMode := enabled;
    }

    method SetDebugMode(enabled: bool)
      modifies this
      ensures debugMode == enabled && strictMode == old(strictMode)
    {
      debugMode := enabled;
    }

    /** `validate_index_data` (the debug printout is left out). */
    function ValidateIndexData(data: seq<byte>): (r: Result<ValidationResult>)
      reads this
      ensures !strictMode ==> r.Ok?
      ensures strictMode ==> (r.Ok? <==> AllChecksPass(data))
      ensures r.Ok? ==> (r.value.isValid <==> AllChecksPass(data)) && r.value.dataSize == |data|
    {
      Validate(strictMode, data)
    }
  }

  /** `is_valid_index_data`: strict validation, any failure read as false. */
  function IsValidIndexData(data: seq<byte>): (r: bool)
    ensures r <==> AllChecksPass(data)
  {
    Validate(true, data).Ok? && Validate(true, data).value.isValid
  }
}
