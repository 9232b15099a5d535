/** Qt Linguist phrase books (.qph): the reader that turns the XML tokens of
    a phrase book into translator messages, and the writer that emits one. */
module Qph {
  import opened Wrappers
  import opened Text
  import opened DataModel
  import opened QphEscape

  /** Translator::TextVariantSeparator and BinaryVariantSeparator: how the
      separator between length variants is written in text and held in
      memory. */
  const TEXT_SEPARATOR: CodeUnit := 0x2762
  const BINARY_SEPARATOR: CodeUnit := 0x9C
  const AT: CodeUnit := 0x40
  const SPACE: CodeUnit := 0x20

  /** Translator::LocationsType. */
  datatype LocationsType = AbsoluteLocations | RelativeLocations | NoLocations

  /** The part of a Translator that phrase books read and write. */
  datatype Translator = Translator(
    messages: seq<TranslatorMessage>,
    languageCode: UString,
    sourceLanguageCode: UString,
    locationsType: LocationsType)

  // ---------------------------------------------------------------------
  // XML tokens

  datatype Attribute = Attribute(name: UString, value: UString)

  /** One token of QXmlStreamReader: a start tag with its attributes, an end
      tag, character data (entities already decoded), or anything else
      (document start and end, DOCTYPE, comments). */
  datatype XmlEvent =
    | StartElement(name: UString, attributes: seq<Attribute>)
    | EndElement(name: UString)
    | Characters(text: UString)
    | OtherToken

  const QPH_TAG: UString := Ascii("QPH")
  const PHRASE_TAG: UString := Ascii("phrase")
  const SOURCE_TAG: UString := Ascii("source")
  const TARGET_TAG: UString := Ascii("target")
  const DEFINITION_TAG: UString := Ascii("definition")
  const LANGUAGE: UString := Ascii("language")
  const SOURCE_LANGUAGE: UString := Ascii("sourcelanguage")
  const C_LOCALE: UString := Ascii("C")

  /** QXmlStreamAttributes::value: the value of the first attribute of that
      name, empty when there is none. */
  function AttributeValue(atts: seq<Attribute>, name: UString): (v: UString)
    ensures (forall i | 0 <= i < |atts| :: atts[i].name != name) ==> v == []
    ensures atts != [] && atts[0].name == name ==> v == atts[0].value
  {
    if atts == [] then []
    else if atts[0].name == name then atts[0].value
    else AttributeValue(atts[1..], name)
  }

  /** trimmed().isEmpty(): every unit is white space. */
  predicate AllSpace(s: UString, isSpace: CodeUnit -> bool) {
    forall i | 0 <= i < |s| :: isSpace(s[i])
  }

  /** QString::replace(before, after) for single units. */
  function ReplaceUnit(s: UString, before: CodeUnit, after: CodeUnit): (r: UString)
    ensures |r| == |s|
    ensures forall i | 0 <= i < |s| :: r[i] == if s[i] == before then after else s[i]
  {
    seq(|s|, i requires 0 <= i < |s| => if s[i] == before then after else s[i])
  }

  /** Replacing `before` by `after` and back restores a text that did not
      hold `after`. */
  lemma ReplaceBack(s: UString, before: CodeUnit, after: CodeUnit)
    requires forall i | 0 <= i < |s| :: s[i] != after
    ensures ReplaceUnit(ReplaceUnit(s, before, after), after, before) == s
  {
  }

  // ---------------------------------------------------------------------
  // Reading (QPHReader::read)

  /** QPHReader's DataField: which element's text is being collected. */
  datatype DataField = NoField | SourceField | TargetField | DefinitionField

  /** The reader's state together with the translator it fills. */
  datatype Reading = Reading(
    field: DataField,
    source: UString,
    target: UString,
    definition: UString,
    translator: Translator)
  {
    /** No text collected since the last phrase. */
    predicate Clear() { source == [] && target == [] && definition == [] }
  }

  /** The message a phrase becomes: source text, one translation (the target
      with the text separator turned back into the binary one), and the
      definition as comment; everything else as a default message has it. */
  function PhraseMessage(source: UString, target: UString, definition: UString): (m: TranslatorMessage)
    ensures m.sourceText == source && m.comment == definition && m.msgType == Unfinished
    ensures |m.translations| == 1 && |m.translations[0]| == |target|
    ensures forall i | 0 <= i < |target| :: m.translations[0][i] != TEXT_SEPARATOR
  {
    TranslatorMessage([], source, definition, [], [], [ReplaceUnit(target, TEXT_SEPARATOR, BINARY_SEPARATOR)], Unfinished)
  }

  /** How one token changes the reader. */
  function Step(r: Reading, ev: XmlEvent, isSpace: CodeUnit -> bool): (r': Reading)
    ensures |r'.translator.messages| == |r.translator.messages| + (if ev == EndElement(PHRASE_TAG) then 1 else 0)
    ensures r'.translator.messages[..|r.translator.messages|] == r.translator.messages
    ensures ev != EndElement(PHRASE_TAG) ==> r'.translator.messages == r.translator.messages
  {
    match ev
    case StartElement(name, atts) =>
      if name == SOURCE_TAG then r.(field := SourceField)
      else if name == TARGET_TAG then r.(field := TargetField)
      else if name == DEFINITION_TAG then r.(field := DefinitionField)
      else if name == QPH_TAG then
        r.(field := NoField,
           translator := r.translator.(languageCode := AttributeValue(atts, LANGUAGE),
                                       sourceLanguageCode := AttributeValue(atts, SOURCE_LANGUAGE)))
      else r.(field := NoField)
    case Characters(text) =>
      if AllSpace(text, isSpace) then r
      else if r.field == SourceField then r.(source := r.source + text)
      else if r.field == TargetField then r.(target := r.target + text)
      else if r.field == DefinitionField then r.(definition := r.definition + text)
      else r
    case EndElement(name) =>
      if name == PHRASE_TAG then
        r.(source := [], target := [], definition := [],
           translator := r.translator.(messages := r.translator.messages
                                         + [PhraseMessage(r.source, r.target, r.definition)]))
      else r
    case OtherToken => r
  }

  /** The reader after the tokens `evs`, one step per token. */
  function Replay(r: Reading, evs: seq<XmlEvent>, isSpace: CodeUnit -> bool): (r': Reading)
    ensures |r.translator.messages| <= |r'.translator.messages| <= |r.translator.messages| + |evs|
    ensures r'.translator.messages[..|r.translator.messages|] == r.translator.messages
  {
    if evs == [] then r else Step(Replay(r, evs[..|evs| - 1], isSpace), evs[|evs| - 1], isSpace)
  }

  lemma {:induction false} ReplayConcat(r: Reading, a: seq<XmlEvent>, b: seq<XmlEvent>, isSpace: CodeUnit -> bool)
    ensures Replay(r, a + b, isSpace) == Replay(Replay(r, a, isSpace), b, isSpace)
    decreases |b|
  {
    if b == [] {
      assert a + b == a;
    } else {
      assert (a + b)[..|a + b| - 1] == a + b[..|b| - 1];
      ReplayConcat(r, a, b[..|b| - 1], isSpace);
    }
  }

  lemma ReplayOne(r: Reading, e: XmlEvent, isSpace: CodeUnit -> bool)
    ensures Replay(r, [e], isSpace) == Step(r, e, isSpace)
  {
    assert [e][..0] == [];
  }

  /** QPHReader: the field being collected and the three accumulators. */
  class QphReader {
    var field: DataField
    var source: UString
    var target: UString
    var definition: UString

    /** A new reader has collected nothing. */
    constructor()
      ensures source == [] && target == [] && definition == []
    {
      field := NoField;
      source := [];
      target := [];
      definition := [];
    }

    /** read(translator): processes every token; the field starts out
        empty, the accumulators as they were. Always succeeds. */
    method Read(events: seq<XmlEvent>, translator: Translator, isSpace: CodeUnit -> bool)
      returns (ok: bool, result: Translator)
      modifies this
      ensures ok
      ensures Reading(field, source, target, definition, result)
              == Replay(Reading(NoField, old(source), old(target), old(definition), translator), events, isSpace)
    {
      ghost var start := Reading(NoField, source, target, definition, translator);
      field := NoField;
      result := translator;
      var i := 0;
      while i < |events|
        invariant 0 <= i <= |events|
        invariant Reading(field, source, target, definition, result) == Replay(start, events[..i], isSpace)
      {
        var ev := events[i];
        if ev.StartElement? {
          if ev.name == SOURCE_TAG {
            field := SourceField;
          } else if ev.name == TARGET_TAG {
            field := TargetField;
          } else if ev.name == DEFINITION_TAG {
            field := DefinitionField;
          } else {
            field := NoField;
            if ev.name == QPH_TAG {
              result := result.(languageCode := AttributeValue(ev.attributes, LANGUAGE));
              result := result.(sourceLanguageCode := AttributeValue(ev.attributes, SOURCE_LANGUAGE));
            }
          }
        } else if ev.Characters? && AllSpace(ev.text, isSpace) {
          // white space between elements is ignored
        } else if ev.Characters? {
          if field == SourceField {
            source := source + ev.text;
          } else if field == TargetField {
            target := target + ev.text;
          } else if field == DefinitionField {
            definition := definition + ev.text;
          }
        } else if ev.EndElement? && ev.name == PHRASE_TAG {
          target := ReplaceUnit(target, TEXT_SEPARATOR, BINARY_SEPARATOR);
          var msg := TranslatorMessage([], source, definition, [], [], [target], Unfinished);
          result := result.(messages := result.messages + [msg]);
          source := [];
          target := [];
          definition := [];
        }
        assert events[..i + 1][..i] == events[..i];
        i := i + 1;
      }
      assert events[..i] == events;
      ok := true;
    }
  }

  /** loadQPH: the translator stops recording locations, then a new reader
      reads the whole document into it. */
  method LoadQph(translator: Translator, events: seq<XmlEvent>, isSpace: CodeUnit -> bool)
    returns (ok: bool, result: Translator)
    ensures ok
    ensures result == Replay(Reading(NoField, [], [], [], translator.(locationsType := NoLocations)), events, isSpace).translator
  {
    var t := translator.(locationsType := NoLocations);
    var reader := new QphReader();
    ok, result := reader.Read(events, t, isSpace);
  }

  // ---------------------------------------------------------------------
  // What the reader does with each kind of token

  /** White-space-only text is ignored wherever it appears. */
  lemma WhiteSpaceIgnored(r: Reading, text: UString, isSpace: CodeUnit -> bool)
    requires AllSpace(text, isSpace)
    ensures Step(r, Characters(text), isSpace) == r
  {
  }

  /** Other text goes to the element last opened among source, target and
      definition; outside those it is dropped. */
  lemma TextCollected(r: Reading, text: UString, isSpace: CodeUnit -> bool)
    requires !AllSpace(text, isSpace)
    ensures var r' := Step(r, Characters(text), isSpace);
            && r'.field == r.field && r'.translator == r.translator
            && r'.source == (if r.field == SourceField then r.source + text else r.source)
            && r'.target == (if r.field == TargetField then r.target + text else r.target)
            && r'.definition == (if r.field == DefinitionField then r.definition + text else r.definition)
  {
  }

  /** Any start tag but source, target and definition ends collection: the
      text tokens after it change nothing. Only the QPH tag touches the
      translator, setting both language codes from its attributes. */
  lemma OtherTagStopsCollection(r: Reading, name: UString, atts: seq<Attribute>, texts: seq<XmlEvent>,
                                isSpace: CodeUnit -> bool)
    requires name != SOURCE_TAG && name != TARGET_TAG && name != DEFINITION_TAG
    requires forall i | 0 <= i < |texts| :: texts[i].Characters?
    ensures var r' := Replay(r, [StartElement(name, atts)] + texts, isSpace);
            && r'.field == NoField
            && r'.source == r.source && r'.target == r.target && r'.definition == r.definition
            && r'.translator.messages == r.translator.messages
            && r'.translator.languageCode == (if name == QPH_TAG then AttributeValue(atts, LANGUAGE) else r.translator.languageCode)
            && r'.translator.sourceLanguageCode
               == (if name == QPH_TAG then AttributeValue(atts, SOURCE_LANGUAGE) else r.translator.sourceLanguageCode)
  {
    ReplayConcat(r, [StartElement(name, atts)], texts, isSpace);
    ReplayOne(r, StartElement(name, atts), isSpace);
    UncollectedText(Step(r, StartElement(name, atts), isSpace), texts, isSpace);
  }

  /** With no field open, text tokens change nothing. */
  lemma {:induction false} UncollectedText(r: Reading, texts: seq<XmlEvent>, isSpace: CodeUnit -> bool)
    requires r.field == NoField
    requires forall i | 0 <= i < |texts| :: texts[i].Characters?
    ensures Replay(r, texts, isSpace) == r
    decreases |texts|
  {
    if texts != [] {
      UncollectedText(r, texts[..|texts| - 1], isSpace);
    }
  }

  /** End tags other than phrase change nothing, not even the open field. */
  lemma OtherEndTagIgnored(r: Reading, name: UString, isSpace: CodeUnit -> bool)
    requires name != PHRASE_TAG
    ensures Step(r, EndElement(name), isSpace) == r
  {
  }

  /** The end of a phrase appends one message made of the collected text
      and clears the accumulators. */
  lemma PhraseEndAppends(r: Reading, isSpace: CodeUnit -> bool)
    ensures var r' := Step(r, EndElement(PHRASE_TAG), isSpace);
            && r'.Clear() && r'.field == r.field
            && r'.translator.messages == r.translator.messages + [PhraseMessage(r.source, r.target, r.definition)]
            && r'.translator.(messages := r.translator.messages) == r.translator
  {
  }

  /** The number of phrase end tags among `evs`. */
  function PhraseEnds(evs: seq<XmlEvent>): (n: nat)
    ensures n <= |evs|
  {
    if evs == [] then 0
    else PhraseEnds(evs[..|evs| - 1]) + (if evs[|evs| - 1] == EndElement(PHRASE_TAG) then 1 else 0)
  }

  /** Reading keeps the messages the translator had and appends one per
      phrase end tag. */
  lemma {:induction false} ReadAppendsPerPhrase(r: Reading, evs: seq<XmlEvent>, isSpace: CodeUnit -> bool)
    ensures r.translator.messages <= Replay(r, evs, isSpace).translator.messages
    ensures |Replay(r, evs, isSpace).translator.messages| == |r.translator.messages| + PhraseEnds(evs)
    decreases |evs|
  {
    if evs != [] {
      ReadAppendsPerPhrase(r, evs[..|evs| - 1], isSpace);
    }
  }

  // ---------------------------------------------------------------------
  // Writing (saveQPH)

  /** Translator messages keep one translation per plural form; a phrase
      book joins them with '@' (QStringList::join). */
  function Join(parts: seq<UString>, sep: CodeUnit): (r: UString)
    ensures |parts| == 1 ==> r == parts[0]
  {
    if parts == [] then []
    else if |parts| == 1 then parts[0]
    else Join(parts[..|parts| - 1], sep) + [sep] + parts[|parts| - 1]
  }

  /** A piece of the written document: markup, written as it is, with the
      tokens an XML reader reports for it (including the white space just
      before it), or character data, written escaped. */
  datatype Piece = Markup(text: UString, events: seq<XmlEvent>) | CharData(data: UString)

  function RenderPiece(p: Piece): UString {
    match p
    case Markup(text, _) => text
    case CharData(data) => Protect(data)
  }

  /** Escaped character data comes back from the reader decoded, as one text
      token; empty data gives no token. */
  function PieceTokens(p: Piece): seq<XmlEvent> {
    match p
    case Markup(_, evs) => evs
    case CharData(data) => if data == [] then [] else [Characters(Unprotect(Protect(data)))]
  }

  /** The text of a document. */
  function Render(ps: seq<Piece>): UString { FlatMap(ps, RenderPiece) }

  /** The tokens an XML reader reports for a document. */
  function Tokens(ps: seq<Piece>): seq<XmlEvent> { FlatMap(ps, PieceTokens) }

  const DOCTYPE_OPEN: UString := Ascii("<!DOCTYPE QPH>\n<QPH")
  const LANGUAGE_PREFIX: UString := Ascii(" language=\"")
  const SOURCE_LANGUAGE_PREFIX: UString := Ascii(" sourcelanguage=\"")
  const ATTRIBUTE_END: UString := Ascii("\"")
  const HEADER_CLOSE: UString := Ascii(">\n")
  const PHRASE_OPEN: UString := Ascii("<phrase>\n")
  const SOURCE_OPEN: UString := Ascii("    <source>")
  const SOURCE_CLOSE: UString := Ascii("</source>\n")
  const TARGET_OPEN: UString := Ascii("    <target>")
  const TARGET_CLOSE: UString := Ascii("</target>\n")
  const DEFINITION_OPEN: UString := Ascii("    <definition>")
  const DEFINITION_CLOSE: UString := Ascii("</definition>\n")
  const PHRASE_CLOSE: UString := Ascii("</phrase>\n")
  const QPH_CLOSE: UString := Ascii("</QPH>\n")
  /** The white space before an indented tag: the end of the previous line
      and four spaces. */
  const INDENT: UString := [0x0A, SPACE, SPACE, SPACE, SPACE]
  const NEWLINE: UString := [0x0A]

  /** A language code is written unless it is empty or "C". */
  predicate Written(code: UString) { code != [] && code != C_LOCALE }

  function LanguageAttribute(prefix: UString, code: UString): UString {
    if Written(code) then prefix + code + ATTRIBUTE_END else []
  }

  /** The attributes of the QPH tag as a reader sees them. */
  function HeaderAttributes(tr: Translator): seq<Attribute> {
    (if Written(tr.languageCode) then [Attribute(LANGUAGE, tr.languageCode)] else [])
    + (if Written(tr.sourceLanguageCode) then [Attribute(SOURCE_LANGUAGE, tr.sourceLanguageCode)] else [])
  }

  function HeaderPieces(tr: Translator): seq<Piece> {
    [Markup(DOCTYPE_OPEN + LanguageAttribute(LANGUAGE_PREFIX, tr.languageCode)
              + LanguageAttribute(SOURCE_LANGUAGE_PREFIX, tr.sourceLanguageCode) + HEADER_CLOSE,
            [OtherToken, StartElement(QPH_TAG, HeaderAttributes(tr))])]
  }

  /** One indented element holding escaped text. */
  function FieldPieces(open: UString, close: UString, name: UString, data: UString): seq<Piece> {
    [Markup(open, [Characters(INDENT), StartElement(name, [])]), CharData(data), Markup(close, [EndElement(name)])]
  }

  /** The target a phrase book holds for a message: the translations joined
      with '@', with the binary separator written as the text one. */
  function SavedTarget(m: TranslatorMessage): (t: UString)
    ensures |t| == |Join(m.translations, AT)|
    ensures forall i | 0 <= i < |t| :: t[i] != BINARY_SEPARATOR
  {
    ReplaceUnit(Join(m.translations, AT), BINARY_SEPARATOR, TEXT_SEPARATOR)
  }

  /** One phrase: source, target, and the definition if the comment is not
      empty. */
  function PhrasePieces(m: TranslatorMessage): seq<Piece> {
    [Markup(PHRASE_OPEN, [Characters(NEWLINE), StartElement(PHRASE_TAG, [])])]
    + FieldPieces(SOURCE_OPEN, SOURCE_CLOSE, SOURCE_TAG, m.sourceText)
    + FieldPieces(TARGET_OPEN, TARGET_CLOSE, TARGET_TAG, SavedTarget(m))
    + (if m.comment != [] then FieldPieces(DEFINITION_OPEN, DEFINITION_CLOSE, DEFINITION_TAG, m.comment) else [])
    + [Markup(PHRASE_CLOSE, [Characters(NEWLINE), EndElement(PHRASE_TAG)])]
  }

  function PhrasesPieces(ms: seq<TranslatorMessage>): seq<Piece> {
    FlatMap(ms, PhrasePieces)
  }

  const FOOTER: seq<Piece> := [Markup(QPH_CLOSE, [Characters(NEWLINE), EndElement(QPH_TAG), OtherToken])]

  /** The whole phrase book: header, one phrase per message in order,
      footer. */
  function DocumentPieces(tr: Translator): seq<Piece> {
    HeaderPieces(tr) + PhrasesPieces(tr.messages) + FOOTER
  }

  /** The text of one field, as the writer emits it. */
  function FieldText(open: UString, data: UString, close: UString): UString {
    open + Protect(data) + close
  }

  lemma RenderField(open: UString, close: UString, name: UString, data: UString)
    ensures Render(FieldPieces(open, close, name, data)) == FieldText(open, data, close)
  {
    var ps := FieldPieces(open, close, name, data);
    assert ps == [ps[0]] + [ps[1]] + [ps[2]];
    FlatMapConcat([ps[0]] + [ps[1]], [ps[2]], RenderPiece);
    FlatMapConcat([ps[0]], [ps[1]], RenderPiece);
    FlatMapSnoc([], ps[0], RenderPiece);
    FlatMapSnoc([], ps[1], RenderPiece);
    FlatMapSnoc([], ps[2], RenderPiece);
    assert [] + [ps[0]] == [ps[0]] && [] + [ps[1]] == [ps[1]] && [] + [ps[2]] == [ps[2]];
  }

  /** The text of one phrase, as the writer emits it. */
  function PhraseText(m: TranslatorMessage): UString {
    PHRASE_OPEN
    + FieldText(SOURCE_OPEN, m.sourceText, SOURCE_CLOSE)
    + FieldText(TARGET_OPEN, SavedTarget(m), TARGET_CLOSE)
    + (if m.comment != [] then FieldText(DEFINITION_OPEN, m.comment, DEFINITION_CLOSE) else [])
    + PHRASE_CLOSE
  }

  lemma RenderConcat(a: seq<Piece>, b: seq<Piece>)
    ensures Render(a + b) == Render(a) + Render(b)
  {
    FlatMapConcat(a, b, RenderPiece);
  }

  lemma RenderOne(p: Piece)
    ensures Render([p]) == RenderPiece(p)
  {
    FlatMapSnoc([], p, RenderPiece);
    assert [] + [p] == [p];
  }

  lemma RenderPhrase(m: TranslatorMessage)
    ensures Render(PhrasePieces(m)) == PhraseText(m)
  {
    var a := [Markup(PHRASE_OPEN, [Characters(NEWLINE), StartElement(PHRASE_TAG, [])])];
    var b := FieldPieces(SOURCE_OPEN, SOURCE_CLOSE, SOURCE_TAG, m.sourceText);
    var c := FieldPieces(TARGET_OPEN, TARGET_CLOSE, TARGET_TAG, SavedTarget(m));
    var d := if m.comment != [] then FieldPieces(DEFINITION_OPEN, DEFINITION_CLOSE, DEFINITION_TAG, m.comment) else [];
    var e := [Markup(PHRASE_CLOSE, [Characters(NEWLINE), EndElement(PHRASE_TAG)])];
    assert PhrasePieces(m) == a + b + c + d + e;
    RenderConcat(a + b + c + d, e);
    RenderConcat(a + b + c, d);
    RenderConcat(a + b, c);
    RenderConcat(a, b);
    RenderOne(a[0]);
    RenderOne(e[0]);
    RenderField(SOURCE_OPEN, SOURCE_CLOSE, SOURCE_TAG, m.sourceText);
    RenderField(TARGET_OPEN, TARGET_CLOSE, TARGET_TAG, SavedTarget(m));
    var rd := if m.comment != [] then FieldText(DEFINITION_OPEN, m.comment, DEFINITION_CLOSE) else [];
    if m.comment != [] {
      RenderField(DEFINITION_OPEN, DEFINITION_CLOSE, DEFINITION_TAG, m.comment);
    }
    assert Render(d) == rd;
    calc {
      Render(PhrasePieces(m));
      Render(a) + Render(b) + Render(c) + Render(d) + Render(e);
      PHRASE_OPEN + FieldText(SOURCE_OPEN, m.sourceText, SOURCE_CLOSE)
      + FieldText(TARGET_OPEN, SavedTarget(m), TARGET_CLOSE) + rd + PHRASE_CLOSE;
    }
  }

  /** The writes for one message of saveQPH. */
  method WritePhrase(msg: TranslatorMessage) returns (text: UString)
    ensures text == PhraseText(msg)
  {
    text := PHRASE_OPEN;
    var src := QphProtect(msg.sourceText);
    text := text + (SOURCE_OPEN + src + SOURCE_CLOSE);
    var str := Join(msg.translations, AT);
    str := ReplaceUnit(str, BINARY_SEPARATOR, TEXT_SEPARATOR);
    var tgt := QphProtect(str);
    text := text + (TARGET_OPEN + tgt + TARGET_CLOSE);
    if msg.comment != [] {
      var def := QphProtect(msg.comment);
      text := text + (DEFINITION_OPEN + def + DEFINITION_CLOSE);
    } else {
      assert text + [] == text;
    }
    text := text + PHRASE_CLOSE;
  }

  /** The text of the header. */
  lemma RenderHeader(tr: Translator)
    ensures Render(HeaderPieces(tr)) == DOCTYPE_OPEN + LanguageAttribute(LANGUAGE_PREFIX, tr.languageCode)
              + LanguageAttribute(SOURCE_LANGUAGE_PREFIX, tr.sourceLanguageCode) + HEADER_CLOSE
  {
    FlatMapSnoc([], HeaderPieces(tr)[0], RenderPiece);
    assert [] + [HeaderPieces(tr)[0]] == HeaderPieces(tr);
  }

  /** Adding one message to the phrases adds its text. */
  lemma RenderMorePhrases(ms: seq<TranslatorMessage>, m: TranslatorMessage)
    ensures Render(PhrasesPieces(ms + [m])) == Render(PhrasesPieces(ms)) + PhraseText(m)
  {
    RenderPhrase(m);
    FlatMapSnoc(ms, m, PhrasePieces);
    FlatMapConcat(PhrasesPieces(ms), PhrasePieces(m), RenderPiece);
  }

  /** The document text is the header, the phrases and the closing tag. */
  lemma RenderDocument(tr: Translator)
    ensures Render(DocumentPieces(tr)) == Render(HeaderPieces(tr)) + Render(PhrasesPieces(tr.messages)) + QPH_CLOSE
  {
    FlatMapSnoc([], FOOTER[0], RenderPiece);
    assert [] + [FOOTER[0]] == FOOTER;
    FlatMapConcat(HeaderPieces(tr), PhrasesPieces(tr.messages), RenderPiece);
    FlatMapConcat(HeaderPieces(tr) + PhrasesPieces(tr.messages), FOOTER, RenderPiece);
  }

  lemma Assoc(a: UString, b: UString, c: UString)
    ensures a + b + c == a + (b + c)
  {
  }

  /** saveQPH: writes the header with the language codes that are set, one
      phrase per message, and the closing tag. Always succeeds. */
  method SaveQph(tr: Translator) returns (ok: bool, out: UString)
    ensures ok
    ensures out == Render(DocumentPieces(tr))
  {
    out := DOCTYPE_OPEN;
    var languageCode := tr.languageCode;
    if languageCode != [] && languageCode != C_LOCALE {
      out := out + (LANGUAGE_PREFIX + languageCode + ATTRIBUTE_END);
    } else {
      assert out + [] == out;
    }
    languageCode := tr.sourceLanguageCode;
    if languageCode != [] && languageCode != C_LOCALE {
      out := out + (SOURCE_LANGUAGE_PREFIX + languageCode + ATTRIBUTE_END);
    } else {
      assert out + [] == out;
    }
    out := out + HEADER_CLOSE;
    RenderHeader(tr);
    ghost var header := out;
    var ms := tr.messages;
    assert PhrasesPieces(ms[..0]) == [];
    for i := 0 to |ms|
      invariant out == header + Render(PhrasesPieces(ms[..i]))
    {
      var text := WritePhrase(ms[i]);
      ghost var done := Render(PhrasesPieces(ms[..i]));
      RenderMorePhrases(ms[..i], ms[i]);
      assert ms[..i + 1] == ms[..i] + [ms[i]];
      Assoc(header, done, text);
      out := out + text;
    }
    assert ms[..|ms|] == ms;
    out := out + QPH_CLOSE;
    RenderDocument(tr);
    ok := true;
  }

  // ---------------------------------------------------------------------
  // Reading back what was written

  /** What the reader keeps of a text: nothing if it is all white space. */
  function Kept(s: UString, isSpace: CodeUnit -> bool): UString {
    if AllSpace(s, isSpace) then [] else s
  }

  /** The message a saved message becomes when the phrase book is read
      back: source and comment survive unless they are all white space,
      the translations come back as their '@'-joined target, and every
      other field is reset. */
  function Reloaded(m: TranslatorMessage, isSpace: CodeUnit -> bool): TranslatorMessage {
    PhraseMessage(Kept(m.sourceText, isSpace), Kept(SavedTarget(m), isSpace), Kept(m.comment, isSpace))
  }

  function ReloadedAll(ms: seq<TranslatorMessage>, isSpace: CodeUnit -> bool): (r: seq<TranslatorMessage>)
    ensures |r| == |ms|
    ensures forall i | 0 <= i < |ms| :: r[i] == Reloaded(ms[i], isSpace)
  {
    seq(|ms|, i requires 0 <= i < |ms| => Reloaded(ms[i], isSpace))
  }

  /** The language code a reader finds for a written one. */
  function ReadBack(code: UString): UString {
    if Written(code) then code else []
  }

  /** The white space the writer puts between tags counts as white space. */
  predicate SpacesAreSpace(isSpace: CodeUnit -> bool) {
    isSpace(0x0A) && isSpace(SPACE)
  }

  lemma TokensConcat(a: seq<Piece>, b: seq<Piece>)
    ensures Tokens(a + b) == Tokens(a) + Tokens(b)
  {
    FlatMapConcat(a, b, PieceTokens);
  }

  lemma TokensOne(p: Piece)
    ensures Tokens([p]) == PieceTokens(p)
  {
    FlatMapSnoc([], p, PieceTokens);
    assert [] + [p] == [p];
  }

  /** The element names a phrase book uses differ from one another. */
  lemma TagsDistinct()
    ensures SOURCE_TAG != PHRASE_TAG && TARGET_TAG != PHRASE_TAG && DEFINITION_TAG != PHRASE_TAG
    ensures QPH_TAG != PHRASE_TAG && QPH_TAG != SOURCE_TAG && QPH_TAG != TARGET_TAG && QPH_TAG != DEFINITION_TAG
    ensures PHRASE_TAG != SOURCE_TAG && PHRASE_TAG != TARGET_TAG && PHRASE_TAG != DEFINITION_TAG
    ensures LANGUAGE != SOURCE_LANGUAGE
  {
    assert SOURCE_TAG[0] != PHRASE_TAG[0] && TARGET_TAG[0] != PHRASE_TAG[0];
    assert |DEFINITION_TAG| != |PHRASE_TAG| && |QPH_TAG| != |PHRASE_TAG| && |QPH_TAG| != |SOURCE_TAG|;
    assert |QPH_TAG| != |DEFINITION_TAG|;
    assert |LANGUAGE| != |SOURCE_LANGUAGE|;
  }

  lemma ReplayTwo(r: Reading, a: XmlEvent, b: XmlEvent, isSpace: CodeUnit -> bool)
    ensures Replay(r, [a, b], isSpace) == Step(Step(r, a, isSpace), b, isSpace)
  {
    assert [a, b][..1] == [a];
    ReplayOne(r, a, isSpace);
  }

  /** Which field an element's text goes to. */
  function FieldOf(name: UString): DataField {
    if name == SOURCE_TAG then SourceField
    else if name == TARGET_TAG then TargetField
    else DefinitionField
  }

  /** The accumulator of field `f`. */
  function Collected(r: Reading, f: DataField): UString {
    match f
    case SourceField => r.source
    case TargetField => r.target
    case DefinitionField => r.definition
    case NoField => []
  }

  /** The tokens a reader reports for one written field. */
  function FieldTokens(name: UString, data: UString): seq<XmlEvent> {
    [Characters(INDENT), StartElement(name, [])]
    + (if data == [] then [] else [Characters(Unprotect(Protect(data)))])
    + [EndElement(name)]
  }

  lemma TokensField(open: UString, close: UString, name: UString, data: UString)
    ensures Tokens(FieldPieces(open, close, name, data)) == FieldTokens(name, data)
  {
    var ps := FieldPieces(open, close, name, data);
    assert ps == [ps[0]] + [ps[1]] + [ps[2]];
    TokensConcat([ps[0]] + [ps[1]], [ps[2]]);
    TokensConcat([ps[0]], [ps[1]]);
    TokensOne(ps[0]);
    TokensOne(ps[1]);
    TokensOne(ps[2]);
  }

  /** Reading one written field: its element opens the field, the decoded
      text lands in that field's (empty) accumulator unless it is all white
      space, and nothing else changes. */
  lemma ReadField(r: Reading, name: UString, data: UString, isSpace: CodeUnit -> bool)
    requires name == SOURCE_TAG || name == TARGET_TAG || name == DEFINITION_TAG
    requires SpacesAreSpace(isSpace)
    requires Collected(r, FieldOf(name)) == []
    ensures var r' := Replay(r, FieldTokens(name, data), isSpace);
            && r'.field == FieldOf(name) && r'.translator == r.translator
            && Collected(r', FieldOf(name)) == Kept(data, isSpace)
            && (FieldOf(name) != SourceField ==> r'.source == r.source)
            && (FieldOf(name) != TargetField ==> r'.target == r.target)
            && (FieldOf(name) != DefinitionField ==> r'.definition == r.definition)
  {
    TagsDistinct();
    var head := [Characters(INDENT), StartElement(name, [])];
    var mid := if data == [] then [] else [Characters(Unprotect(Protect(data)))];
    assert FieldTokens(name, data) == head + mid + [EndElement(name)];
    ReplayConcat(r, head + mid, [EndElement(name)], isSpace);
    ReplayConcat(r, head, mid, isSpace);
    ReplayTwo(r, Characters(INDENT), StartElement(name, []), isSpace);
    assert AllSpace(INDENT, isSpace);
    var r1 := Replay(r, head, isSpace);
    assert r1 == r.(field := FieldOf(name));
    if data != [] {
      UnprotectProtect(data);
      ReplayOne(r1, Characters(data), isSpace);
    }
    var r2 := Replay(r1, mid, isSpace);
    ReplayOne(r2, EndElement(name), isSpace);
  }

  /** The tokens a reader reports for one written phrase. */
  function PhraseTokens(m: TranslatorMessage): seq<XmlEvent> {
    [Characters(NEWLINE), StartElement(PHRASE_TAG, [])]
    + FieldTokens(SOURCE_TAG, m.sourceText)
    + FieldTokens(TARGET_TAG, SavedTarget(m))
    + (if m.comment != [] then FieldTokens(DEFINITION_TAG, m.comment) else [])
    + [Characters(NEWLINE), EndElement(PHRASE_TAG)]
  }

  lemma TokensPhrase(m: TranslatorMessage)
    ensures Tokens(PhrasePieces(m)) == PhraseTokens(m)
  {
    var a := [Markup(PHRASE_OPEN, [Characters(NEWLINE), StartElement(PHRASE_TAG, [])])];
    var b := FieldPieces(SOURCE_OPEN, SOURCE_CLOSE, SOURCE_TAG, m.sourceText);
    var c := FieldPieces(TARGET_OPEN, TARGET_CLOSE, TARGET_TAG, SavedTarget(m));
    var d := if m.comment != [] then FieldPieces(DEFINITION_OPEN, DEFINITION_CLOSE, DEFINITION_TAG, m.comment) else [];
    var e := [Markup(PHRASE_CLOSE, [Characters(NEWLINE), EndElement(PHRASE_TAG)])];
    assert PhrasePieces(m) == a + b + c + d + e;
    TokensConcat(a + b + c + d, e);
    TokensConcat(a + b + c, d);
    TokensConcat(a + b, c);
    TokensConcat(a, b);
    TokensOne(a[0]);
    TokensOne(e[0]);
    TokensField(SOURCE_OPEN, SOURCE_CLOSE, SOURCE_TAG, m.sourceText);
    TokensField(TARGET_OPEN, TARGET_CLOSE, TARGET_TAG, SavedTarget(m));
    if m.comment != [] {
      TokensField(DEFINITION_OPEN, DEFINITION_CLOSE, DEFINITION_TAG, m.comment);
    }
  }

  /** Reading the fields of a phrase after its start tag: source, target
      and definition are collected, the translator is left alone. */
  lemma ReadFields(r: Reading, m: TranslatorMessage, isSpace: CodeUnit -> bool)
    requires SpacesAreSpace(isSpace) && r.Clear()
    ensures var r' := Replay(r, FieldTokens(SOURCE_TAG, m.sourceText) + FieldTokens(TARGET_TAG, SavedTarget(m))
                                  + (if m.comment != [] then FieldTokens(DEFINITION_TAG, m.comment) else []), isSpace);
            && r'.source == Kept(m.sourceText, isSpace) && r'.target == Kept(SavedTarget(m), isSpace)
            && r'.definition == Kept(m.comment, isSpace) && r'.translator == r.translator
  {
    TagsDistinct();
    var tb, tc := FieldTokens(SOURCE_TAG, m.sourceText), FieldTokens(TARGET_TAG, SavedTarget(m));
    var td := if m.comment != [] then FieldTokens(DEFINITION_TAG, m.comment) else [];
    ReplayConcat(r, tb + tc, td, isSpace);
    ReplayConcat(r, tb, tc, isSpace);
    ReadField(r, SOURCE_TAG, m.sourceText, isSpace);
    var rb := Replay(r, tb, isSpace);
    ReadField(rb, TARGET_TAG, SavedTarget(m), isSpace);
    var rc := Replay(rb, tc, isSpace);
    if m.comment != [] {
      ReadField(rc, DEFINITION_TAG, m.comment, isSpace);
    }
  }

  /** Reading one written phrase from a clear reader appends the reloaded
      message and leaves the reader clear. */
  lemma ReadPhrase(r: Reading, m: TranslatorMessage, isSpace: CodeUnit -> bool)
    requires SpacesAreSpace(isSpace) && r.Clear()
    ensures var r' := Replay(r, PhraseTokens(m), isSpace);
            && r'.Clear()
            && r'.translator == Appended(r.translator, [Reloaded(m, isSpace)])
  {
    TagsDistinct();
    var ta := [Characters(NEWLINE), StartElement(PHRASE_TAG, [])];
    var tf := FieldTokens(SOURCE_TAG, m.sourceText) + FieldTokens(TARGET_TAG, SavedTarget(m))
              + (if m.comment != [] then FieldTokens(DEFINITION_TAG, m.comment) else []);
    var te := [Characters(NEWLINE), EndElement(PHRASE_TAG)];
    assert PhraseTokens(m) == ta + tf + te;
    ReplayConcat(r, ta + tf, te, isSpace);
    ReplayConcat(r, ta, tf, isSpace);
    assert AllSpace(NEWLINE, isSpace);
    ReplayTwo(r, Characters(NEWLINE), StartElement(PHRASE_TAG, []), isSpace);
    var ra := Replay(r, ta, isSpace);
    assert ra == r.(field := NoField);
    ReadFields(ra, m, isSpace);
    var rd := Replay(ra, tf, isSpace);
    ReplayTwo(rd, Characters(NEWLINE), EndElement(PHRASE_TAG), isSpace);
    PhraseEndAppends(rd, isSpace);
  }

  /** The translator with `ms` appended to its messages. */
  function Appended(t: Translator, ms: seq<TranslatorMessage>): Translator {
    t.(messages := t.messages + ms)
  }

  lemma AppendedTwice(t: Translator, a: seq<TranslatorMessage>, b: seq<TranslatorMessage>)
    ensures Appended(Appended(t, a), b) == Appended(t, a + b)
  {
    assert t.messages + a + b == t.messages + (a + b);
  }

  lemma ReloadedAllSnoc(ms: seq<TranslatorMessage>, m: TranslatorMessage, isSpace: CodeUnit -> bool)
    ensures ReloadedAll(ms + [m], isSpace) == ReloadedAll(ms, isSpace) + [Reloaded(m, isSpace)]
  {
  }

  /** Reading the written phrases of `ms` from a clear reader appends their
      reloaded messages in order. */
  lemma {:induction false} ReadPhrases(r: Reading, ms: seq<TranslatorMessage>, isSpace: CodeUnit -> bool)
    requires SpacesAreSpace(isSpace) && r.Clear()
    ensures var r' := Replay(r, Tokens(PhrasesPieces(ms)), isSpace);
            && r'.Clear()
            && r'.translator == Appended(r.translator, ReloadedAll(ms, isSpace))
    decreases |ms|
  {
    if ms == [] {
      assert r.translator.messages + ReloadedAll(ms, isSpace) == r.translator.messages;
    } else {
      var init, m := ms[..|ms| - 1], ms[|ms| - 1];
      assert ms == init + [m];
      var ti := Tokens(PhrasesPieces(init));
      ReadPhrases(r, init, isSpace);
      TokensPhrasesSnoc(init, m);
      ReplayConcat(r, ti, PhraseTokens(m), isSpace);
      var ri := Replay(r, ti, isSpace);
      ReadPhrase(ri, m, isSpace);
      ReloadedAllSnoc(init, m, isSpace);
      AppendedTwice(r.translator, ReloadedAll(init, isSpace), [Reloaded(m, isSpace)]);
    }
  }

  lemma TokensPhrasesSnoc(ms: seq<TranslatorMessage>, m: TranslatorMessage)
    ensures Tokens(PhrasesPieces(ms + [m])) == Tokens(PhrasesPieces(ms)) + PhraseTokens(m)
  {
    FlatMapSnoc(ms, m, PhrasePieces);
    TokensConcat(PhrasesPieces(ms), PhrasePieces(m));
    TokensPhrase(m);
  }

  /** The QPH tag's attributes give back the language codes that were
      written. */
  lemma HeaderRead(tr: Translator)
    ensures AttributeValue(HeaderAttributes(tr), LANGUAGE) == ReadBack(tr.languageCode)
    ensures AttributeValue(HeaderAttributes(tr), SOURCE_LANGUAGE) == ReadBack(tr.sourceLanguageCode)
  {
    TagsDistinct();
    var atts := HeaderAttributes(tr);
    if Written(tr.languageCode) {
      assert atts[1..] == (if Written(tr.sourceLanguageCode) then [Attribute(SOURCE_LANGUAGE, tr.sourceLanguageCode)] else []);
    }
  }

  /** The tokens a reader reports for a whole phrase book. */
  lemma TokensDocument(tr: Translator)
    ensures Tokens(DocumentPieces(tr))
            == [OtherToken, StartElement(QPH_TAG, HeaderAttributes(tr))]
               + Tokens(PhrasesPieces(tr.messages))
               + [Characters(NEWLINE), EndElement(QPH_TAG), OtherToken]
  {
    var h, p := HeaderPieces(tr), PhrasesPieces(tr.messages);
    TokensConcat(h + p, FOOTER);
    TokensConcat(h, p);
    TokensOne(h[0]);
    TokensOne(FOOTER[0]);
  }

  /** The header sets the language codes and leaves the reader clear. */
  lemma ReadHeader(r: Reading, tr: Translator, isSpace: CodeUnit -> bool)
    requires r.Clear()
    ensures var r' := Replay(r, [OtherToken, StartElement(QPH_TAG, HeaderAttributes(tr))], isSpace);
            && r'.Clear()
            && r'.translator == r.translator.(languageCode := ReadBack(tr.languageCode),
                                              sourceLanguageCode := ReadBack(tr.sourceLanguageCode))
  {
    TagsDistinct();
    ReplayTwo(r, OtherToken, StartElement(QPH_TAG, HeaderAttributes(tr)), isSpace);
    HeaderRead(tr);
  }

  /** The footer changes nothing the reader keeps. */
  lemma ReadFooter(r: Reading, isSpace: CodeUnit -> bool)
    requires SpacesAreSpace(isSpace)
    ensures Replay(r, [Characters(NEWLINE), EndElement(QPH_TAG), OtherToken], isSpace) == r
  {
    TagsDistinct();
    var t := [Characters(NEWLINE), EndElement(QPH_TAG), OtherToken];
    assert t == [Characters(NEWLINE), EndElement(QPH_TAG)] + [OtherToken];
    assert AllSpace(NEWLINE, isSpace);
    ReplayConcat(r, [Characters(NEWLINE), EndElement(QPH_TAG)], [OtherToken], isSpace);
    ReplayTwo(r, Characters(NEWLINE), EndElement(QPH_TAG), isSpace);
    ReplayOne(Replay(r, [Characters(NEWLINE), EndElement(QPH_TAG)], isSpace), OtherToken, isSpace);
  }

  /** Loading a saved phrase book into a translator appends every message in
      order, as Reloaded says, and takes over the language codes that were
      written. */
  lemma LoadOfSave(tr: Translator, into: Translator, isSpace: CodeUnit -> bool)
    requires SpacesAreSpace(isSpace)
    ensures Replay(Reading(NoField, [], [], [], into), Tokens(DocumentPieces(tr)), isSpace).translator
            == into.(messages := into.messages + ReloadedAll(tr.messages, isSpace),
                     languageCode := ReadBack(tr.languageCode),
                     sourceLanguageCode := ReadBack(tr.sourceLanguageCode))
  {
    var r0 := Reading(NoField, [], [], [], into);
    var th := [OtherToken, StartElement(QPH_TAG, HeaderAttributes(tr))];
    var tp := Tokens(PhrasesPieces(tr.messages));
    var tf := [Characters(NEWLINE), EndElement(QPH_TAG), OtherToken];
    TokensDocument(tr);
    ReplayConcat(r0, th + tp, tf, isSpace);
    ReplayConcat(r0, th, tp, isSpace);
    ReadHeader(r0, tr, isSpace);
    var rh := Replay(r0, th, isSpace);
    ReadPhrases(rh, tr.messages, isSpace);
    ReadFooter(Replay(rh, tp, isSpace), isSpace);
  }

  /** A message with exactly one translation that holds no text separator,
      and whose source, translation and comment are not all white space,
      comes back with the same source, translation and comment. */
  lemma ReloadedSingle(m: TranslatorMessage, isSpace: CodeUnit -> bool)
    requires |m.translations| == 1
    requires forall i | 0 <= i < |m.translations[0]| :: m.translations[0][i] != TEXT_SEPARATOR
    requires !AllSpace(m.sourceText, isSpace) && !AllSpace(SavedTarget(m), isSpace)
    requires m.comment == [] || !AllSpace(m.comment, isSpace)
    ensures Reloaded(m, isSpace).sourceText == m.sourceText
    ensures Reloaded(m, isSpace).translations == m.translations
    ensures Reloaded(m, isSpace).comment == m.comment
  {
    var t := m.translations[0];
    assert Join(m.translations, AT) == t;
    ReplaceBack(t, BINARY_SEPARATOR, TEXT_SEPARATOR);
  }

  /** A phrase book keeps no structure among several translations: they come
      back joined with '@' as a single one. */
  lemma ReloadedJoins(m: TranslatorMessage, isSpace: CodeUnit -> bool)
    requires forall i | 0 <= i < |Join(m.translations, AT)| :: Join(m.translations, AT)[i] != TEXT_SEPARATOR
    requires !AllSpace(SavedTarget(m), isSpace)
    ensures Reloaded(m, isSpace).translations == [Join(m.translations, AT)]
  {
    ReplaceBack(Join(m.translations, AT), BINARY_SEPARATOR, TEXT_SEPARATOR);
  }

  /** A source text of white space only is lost on the way: a phrase book
      saved with source " " loads back with an empty source. */
  lemma WhiteSpaceSourceLost(m: TranslatorMessage, isSpace: CodeUnit -> bool)
    requires m.sourceText == [SPACE] && isSpace(SPACE)
    ensures Reloaded(m, isSpace).sourceText == []
  {
  }
}
