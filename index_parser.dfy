// Reading an LTFS index out of XML text (ltfs_index/parser.rs): the
// ltfsindex element is cut out of text that may also hold an ltfslabel, an
// XML declaration is put in front when missing, and the text then goes
// through the structure check, the deserialiser and the parsed-index checks,
// stopping at the first failure. The deserialiser (quick_xml) is a parameter.

module LtfsIndexParser {
  import opened Wrappers
  import opened Bytes
  import opened Strings
  import opened Utf8
  import opened Utils
  import opened IndexTypes
  import opened LtfsIndexValidator

  const OpenTag: string := "<ltfsindex"
  const CloseTag: string := "</ltfsindex>"
  const Declaration: string := "<?xml" + " version=\"1.0\" encoding=\"UTF-8\"?>"

  /** The declaration goes in front unless the section, leading White_Space aside, starts with "<?xml". */
  function WithDeclaration(section: string): string
  {
    if StartsWith(TrimStart(section), "<?xml") then section else Declaration + "\n" + section
  }

  /**
   * After the declaration step the text, leading White_Space aside, always
   * starts with "<?xml", the section is kept whole at its end, and a section
   * that had a declaration is left alone.
   */
  lemma DeclarationFirst(section: string)
    ensures StartsWith(TrimStart(WithDeclaration(section)), "<?xml")
    ensures EndsWith(WithDeclaration(section), section)
    ensures StartsWith(TrimStart(section), "<?xml") ==> WithDeclaration(section) == section
  {
    var r := WithDeclaration(section);
    if !StartsWith(TrimStart(section), "<?xml") {
      assert r == Declaration + "\n" + section;
      assert r == "<?xml" + (Declaration[5..] + "\n" + section);
      TrimStartKeeps(r);
      assert r[|r| - |section|..] == section;
    } else {
      assert r[|r| - |section|..] == section;
    }
  }

  // The two extractions below take the tags and the declaration step as
  // parameters, so that their properties are proved for any tags and any
  // declaration step; the source's are OpenTag, CloseTag and WithDeclaration.

  /**
   * `extract_ltfs_index_section` as written: the first closing tag is
   * searched in the whole text, so a closing tag before the opening one
   * makes the slice run backwards, which panics in Rust.
   */
  function ExtractAsWrittenWith(xml: string, open: string, close: string, decl: string -> string): Outcome<Result<string>>
  {
    match Find(xml, open)
    case None => Returns(Fail(Parse, "No LTFS index section found in XML content"))
    case Some(start) =>
      match Find(xml, close)
      case None => Returns(Ok(xml))
      case Some(c) =>
        var end := c + |close|;
        if end < start then Panics
        else Returns(Ok(decl(xml[start..end])))
  }

  function ExtractAsWritten(xml: string): Outcome<Result<string>>
  {
    ExtractAsWrittenWith(xml, OpenTag, CloseTag, WithDeclaration)
  }

  /**
   * The extraction the source evidently intends: the closing tag is the
   * first one at or after the opening tag, so the slice never runs
   * backwards; without one the whole text is taken, as the source's
   * fallback does.
   */
  function ExtractSectionWith(xml: string, open: string, close: string, decl: string -> string): (r: Result<string>)
    ensures r.Err? <==> !Contains(xml, open)
    ensures r.Err? ==> r.error == Error(Parse, "No LTFS index section found in XML content")
  {
    match Find(xml, open)
    case None => Fail(Parse, "No LTFS index section found in XML content")
    case Some(start) =>
      match FindFrom(xml, close, start)
      case None => Ok(xml)
      case Some(c) => Ok(decl(xml[start..c + |close|]))
  }

  function ExtractSection(xml: string): (r: Result<string>)
    ensures r.Err? <==> !Contains(xml, OpenTag)
    ensures r.Err? ==> r.error == Error(Parse, "No LTFS index section found in XML content")
  {
    ExtractSectionWith(xml, OpenTag, CloseTag, WithDeclaration)
  }

  /** The as-written extraction panics exactly when the first closing tag ends before the first opening tag. */
  lemma ExtractPanicsIff(xml: string, open: string, close: string, decl: string -> string)
    ensures ExtractAsWrittenWith(xml, open, close, decl) == Panics <==>
      Contains(xml, open) && Contains(xml, close) && Find(xml, close).value + |close| < Find(xml, open).value
  {
  }

  /** An ltfslabel-style text whose index element follows a stray closing tag. */
  lemma ExtractPanicExample(xml: string)
    requires xml == "</ltfsindex> <ltfsindex>"
    ensures ExtractAsWritten(xml) == Panics
  {
    assert MatchAt(xml, CloseTag, 0);
    ContainsAt(xml, CloseTag, 0);
    assert MatchAt(xml, OpenTag, 13);
    forall j | 0 <= j < 13
      ensures !MatchAt(xml, OpenTag, j)
    {
      if j == 0 {
        assert xml[1] == '/';
      } else {
        assert xml[j] != '<';
      }
    }
    FindFromFirst(xml, OpenTag, 0, 13);
    ExtractPanicsIff(xml, OpenTag, CloseTag, WithDeclaration);
  }

  /**
   * The extracted section runs from the first opening tag through the end
   * of the first closing tag after it, passed through the declaration
   * step: it starts and ends with the two tags.
   */
  lemma ExtractSectionShape(xml: string, open: string, close: string, decl: string -> string, start: nat, c: nat)
    requires 0 < |open| <= |close|
    requires Find(xml, open) == Some(start) && FindFrom(xml, close, start) == Some(c)
    ensures start < c + |close| <= |xml|
    ensures ExtractSectionWith(xml, open, close, decl).Ok?
    ensures ExtractSectionWith(xml, open, close, decl).value == decl(xml[start..c + |close|])
    ensures StartsWith(xml[start..c + |close|], open)
    ensures EndsWith(xml[start..c + |close|], close)
  {
    SectionBounds(xml, open, close, start, c);
    SectionValue(xml, open, close, decl, start, c);
    SliceBetween(xml, open, close, start, c);
  }

  lemma SectionValue(xml: string, open: string, close: string, decl: string -> string, start: nat, c: nat)
    requires Find(xml, open) == Some(start) && FindFrom(xml, close, start) == Some(c)
    ensures ExtractSectionWith(xml, open, close, decl).Ok?
    ensures ExtractSectionWith(xml, open, close, decl).value == decl(xml[start..c + |close|])
  {
  }

  lemma SectionBounds(xml: string, open: string, close: string, start: nat, c: nat)
    requires 0 < |open| <= |close|
    requires Find(xml, open) == Some(start) && FindFrom(xml, close, start) == Some(c)
    ensures start < c + |close| <= |xml|
  {
  }

  /**
   * A section that starts with "<ltfsindex" never starts with "<?xml", even
   * after trimming: the declaration is always put in front of an extracted section.
   */
  lemma DeclarationAlwaysAdded(section: string)
    requires StartsWith(section, OpenTag)
    ensures WithDeclaration(section) == Declaration + "\n" + section
  {
    assert section[..|OpenTag|] == OpenTag;
    assert section[0] == '<' && section[1] == 'l';
    TrimStartKeeps(section);
  }

  /** The extracted section of text with both tags in order: the declaration, a newline, then the section. */
  lemma ExtractedSection(xml: string, start: nat, c: nat)
    requires Find(xml, OpenTag) == Some(start) && FindFrom(xml, CloseTag, start) == Some(c)
    ensures ExtractSection(xml).Ok?
    ensures ExtractSection(xml).value == Declaration + "\n" + xml[start..c + |CloseTag|]
  {
    ExtractSectionShape(xml, OpenTag, CloseTag, WithDeclaration, start, c);
    DeclarationAlwaysAdded(xml[start..c + |CloseTag|]);
  }

  /** With no closing tag after the opening one, the section is the whole text. */
  lemma ExtractSectionWhole(xml: string, open: string, close: string, decl: string -> string)
    requires Contains(xml, open) && FindFrom(xml, close, Find(xml, open).value).None?
    ensures ExtractSectionWith(xml, open, close, decl) == Ok(xml)
  {
  }

  /** Where the two agree: whenever the first closing tag comes after the opening tag, the fix changes nothing. */
  lemma ExtractAgrees(xml: string, open: string, close: string, decl: string -> string)
    requires Contains(xml, open) && Contains(xml, close)
    requires Find(xml, open).value <= Find(xml, close).value
    ensures ExtractAsWrittenWith(xml, open, close, decl) == Returns(ExtractSectionWith(xml, open, close, decl))
  {
    FindFromFirst(xml, close, Find(xml, open).value, Find(xml, close).value);
  }

  /** The error `from_xml` reports when the deserialiser rejects the section. */
  function DeserialiseError(e: Error, section: string): Error
  {
    Error(Parse, "Failed to parse LTFS index XML: " + e.message + " (XML size: " + NatToDecimal(Utf8Len(section)) + " bytes)")
  }

  /**
   * The steps of `from_xml` after the extraction: check the structure,
   * deserialise (the parameter `deserialise` stands for quick_xml), then
   * check the parsed index.
   */
  function ParseSection(section: string, deserialise: string -> Result<Index>): (r: Result<Index>)
    ensures r.Err? ==> r.error.kind == Parse
  {
    match XmlStructureCheck(section)
    case Err(e) => Err(e)
    case Ok(_) =>
      match deserialise(section)
      case Err(e) => Err(DeserialiseError(e, section))
      case Ok(index) =>
        match ParsedIndexCheck(index)
        case Err(e) => Err(e)
        case Ok(_) => Ok(index)
  }

  /** `from_xml`: extract the index section, then parse it. */
  function FromXml(xml: string, deserialise: string -> Result<Index>): (r: Result<Index>)
    ensures r.Err? ==> r.error.kind == Parse
  {
    match ExtractSection(xml)
    case Err(e) => Err(e)
    case Ok(section) => ParseSection(section, deserialise)
  }

  /** A successful parse went through every step, and what it returns is a valid index. */
  lemma FromXmlSteps(xml: string, deserialise: string -> Result<Index>)
    ensures FromXml(xml, deserialise).Ok? <==>
      && ExtractSection(xml).Ok?
      && XmlStructureCheck(ExtractSection(xml).value).Ok?
      && deserialise(ExtractSection(xml).value).Ok?
      && ValidIndex(deserialise(ExtractSection(xml).value).value)
    ensures FromXml(xml, deserialise).Ok? ==> FromXml(xml, deserialise).value == deserialise(ExtractSection(xml).value).value
  {
    if ExtractSection(xml).Ok? && XmlStructureCheck(ExtractSection(xml).value).Ok? && deserialise(ExtractSection(xml).value).Ok? {
      ParsedIndexOk(deserialise(ExtractSection(xml).value).value);
    }
  }

  /** How many bytes of the section the failure warning shows. */
  const PREVIEW_BYTES: nat := 1000

  /** Byte `n` of `s` starts a character or is its end: some prefix of the characters takes exactly `n` bytes. */
  predicate OnBoundary(s: string, n: nat)
  {
    Utf8Len(s[..CharsWithin(s, n)]) == n
  }

  /** The boundary test in plain terms. */
  lemma OnBoundaryIff(s: string, n: nat)
    ensures !OnBoundary(s, n) <==> forall k :: 0 <= k <= |s| ==> Utf8Len(s[..k]) != n
  {
    var c := CharsWithin(s, n);
    if !OnBoundary(s, n) {
      forall k | 0 <= k <= |s|
        ensures Utf8Len(s[..k]) != n
      {
        if k <= c {
          PrefixLenMonotone(s, k, c);
        } else {
          PrefixLenMonotone(s, c + 1, k);
        }
      }
    }
  }

  /** The byte length of the preview: the first 1000 bytes, or the whole section when shorter. */
  function PreviewLen(section: string): (n: nat)
    ensures n <= Utf8Len(section) && n <= PREVIEW_BYTES
    ensures n == PREVIEW_BYTES || n == Utf8Len(section)
  {
    if Utf8Len(section) < PREVIEW_BYTES then Utf8Len(section) else PREVIEW_BYTES
  }

  /**
   * The warning on a deserialiser failure previews `&index_xml[..min(1000, len)]`,
   * a byte slice that panics when byte 1000 falls inside a character. The
   * slice is a plain statement of the error closure, whatever the log level.
   */
  predicate PreviewSplits(section: string, deserialise: string -> Result<Index>)
  {
    XmlStructureCheck(section).Ok? && deserialise(section).Err? && !OnBoundary(section, PreviewLen(section))
  }

  /** `from_xml` as written: the extraction as written, then the parse with its preview slice. */
  function FromXmlAsWritten(xml: string, deserialise: string -> Result<Index>): (r: Outcome<Result<Index>>)
    ensures r.Returns? && r.value.Err? ==> r.value.error.kind == Parse
  {
    match ExtractAsWritten(xml)
    case Panics => Panics
    case Returns(Err(e)) => Returns(Err(e))
    case Returns(Ok(section)) =>
      if PreviewSplits(section, deserialise) then Panics else Returns(ParseSection(section, deserialise))
  }

  /** With the tags in order, the extraction as written returns what the corrected one does. */
  lemma ExtractAsWrittenAgrees(xml: string)
    requires Contains(xml, OpenTag) && Contains(xml, CloseTag) ==> Find(xml, OpenTag).value <= Find(xml, CloseTag).value
    ensures ExtractAsWritten(xml) == Returns(ExtractSection(xml))
  {
    if Contains(xml, OpenTag) && Contains(xml, CloseTag) {
      ExtractAgrees(xml, OpenTag, CloseTag, WithDeclaration);
    } else if Contains(xml, OpenTag) {
      assert FindFrom(xml, CloseTag, Find(xml, OpenTag).value).None?;
    }
  }

  /**
   * Where the first closing tag does not come before the opening tag, the
   * parse as written, whenever it returns, returns what `FromXml` does.
   */
  lemma FromXmlAgrees(xml: string, deserialise: string -> Result<Index>)
    requires Contains(xml, OpenTag) && Contains(xml, CloseTag) ==> Find(xml, OpenTag).value <= Find(xml, CloseTag).value
    ensures FromXmlAsWritten(xml, deserialise).Returns? ==> FromXmlAsWritten(xml, deserialise).value == FromXml(xml, deserialise)
  {
    ExtractAsWrittenAgrees(xml);
  }

  /** The preview never splits a character of ASCII text, nor of a section of at most 1000 bytes. */
  lemma PreviewSafe(section: string)
    requires (forall i :: 0 <= i < |section| ==> section[i] as int < 0x80) || Utf8Len(section) <= PREVIEW_BYTES
    ensures OnBoundary(section, PreviewLen(section))
  {
    var n := PreviewLen(section);
    assert section[..|section|] == section;
    if Utf8Len(section) > PREVIEW_BYTES {
      AsciiLen(section);
      AsciiLen(section[..n]);
    }
    OnBoundaryIff(section, n);
  }

  /** Text ending at byte 999 followed by a two-byte character: byte 1000 falls inside that character. */
  lemma SplitCharOffBoundary(p: string, q: string)
    requires Utf8Len(p) == PREVIEW_BYTES - 1
    ensures !OnBoundary(p + "é" + q, PREVIEW_BYTES)
  {
    var s := p + "é" + q;
    assert Encode("é") == [0xC3, 0xA9] + Encode([]);
    forall k | 0 <= k <= |s|
      ensures Utf8Len(s[..k]) != PREVIEW_BYTES
    {
      if k <= |p| {
        assert s[..|p|] == p;
        PrefixLenMonotone(s, k, |p|);
      } else {
        assert s[..|p| + 1] == p + "é";
        EncodeConcat(p, "é");
        PrefixLenMonotone(s, |p| + 1, k);
      }
    }
    OnBoundaryIff(s, PREVIEW_BYTES);
  }

  /** Text of 999 bytes, a two-byte character, then more: the preview is 1000 bytes long. */
  lemma SplitCharPreviewLen(p: string, q: string)
    requires Utf8Len(p) == PREVIEW_BYTES - 1
    ensures PreviewLen(p + "é" + q) == PREVIEW_BYTES
  {
    assert Encode("é") == [0xC3, 0xA9] + Encode([]);
    EncodeConcat(p, "é");
    EncodeConcat(p + "é", q);
  }

  /**
   * A section that passes the structure check and is rejected by the
   * deserialiser, with byte 1000 inside a character, makes the parse as
   * written panic.
   */
  lemma PreviewOffBoundaryPanics(xml: string, deserialise: string -> Result<Index>, section: string)
    requires ExtractAsWritten(xml) == Returns(Ok(section))
    requires XmlStructureCheck(section).Ok? && deserialise(section).Err?
    requires !OnBoundary(section, PreviewLen(section))
    ensures FromXmlAsWritten(xml, deserialise) == Panics
  {
  }

  /**
   * Text of 999 bytes, a two-byte character, then more, as the section:
   * the parse as written panics.
   */
  lemma PreviewPanics(xml: string, deserialise: string -> Result<Index>, p: string, q: string)
    requires ExtractAsWritten(xml) == Returns(Ok(p + "é" + q)) && Utf8Len(p) == PREVIEW_BYTES - 1
    requires XmlStructureCheck(p + "é" + q).Ok? && deserialise(p + "é" + q).Err?
    ensures FromXmlAsWritten(xml, deserialise) == Panics
  {
    SplitCharPreviewLen(p, q);
    SplitCharOffBoundary(p, q);
    PreviewOffBoundaryPanics(xml, deserialise, p + "é" + q);
  }

  /** The stray closing tag before the index element makes the whole parse as written panic. */
  lemma FromXmlTagOrderPanics(xml: string, deserialise: string -> Result<Index>)
    requires xml == "</ltfsindex> <ltfsindex>"
    ensures FromXmlAsWritten(xml, deserialise) == Panics
  {
    ExtractPanicExample(xml);
  }

  /** The steps fail in order: text without "<ltfsindex" never reaches the deserialiser. */
  lemma FromXmlNoIndex(xml: string, deserialise: string -> Result<Index>)
    requires !Contains(xml, OpenTag)
    ensures FromXml(xml, deserialise) == Fail(Parse, "No LTFS index section found in XML content")
  {
  }
}
