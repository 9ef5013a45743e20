/**
 The Tableau preferences emitter of scripts/build.py: `get_tableau_type` and
 the line list built by `generate_tableau_preferences`, whose file text is
 the lines joined by a line feed plus one final line feed.
 */
module Tableau {
  import opened Results
  import opened Text
  import opened Palettes

  /** The XML declaration, the two opening wrapper tags and the three header comments. */
  const Prolog: seq<string> := [
    "<?xml version='1.0'?>",
    "<workbook>",
    "  <preferences>",
    "    <!-- " + HeaderNotes[0] + " -->",
    "    <!-- " + HeaderNotes[1] + " -->",
    "    <!-- " + HeaderNotes[2] + " -->"
  ]

  const Epilog: seq<string> := ["  </preferences>", "</workbook>"]

  const PaletteOpen := "    <color-palette name=\""
  const PaletteClose := "    </color-palette>"
  const CommentOpen := "      <!-- "
  const CommentClose := " -->"
  const ColorOpen := "      <color>"
  const ColorClose := "</color>"

  /** The three `type` attributes a Tableau colour palette can carry. */
  const TableauTypes: set<string> := {"regular", "ordered-sequential", "ordered-diverging"}

  /** `get_tableau_type`: a total table from palette type to Tableau type,
      falling back to "regular" for every unlisted type. */
  function GetTableauType(paletteType: string): (tag: string)
    ensures tag in TableauTypes
    ensures tag == "ordered-sequential" <==> paletteType == "sequential"
    ensures tag == "ordered-diverging" <==> paletteType == "diverging"
    ensures tag == "regular" <==> paletteType != "sequential" && paletteType != "diverging"
  {
    var table := map["categorical" := "regular",
                     "sequential" := "ordered-sequential",
                     "diverging" := "ordered-diverging"];
    if paletteType in table then table[paletteType] else "regular"
  }

  // ------------------------------------------------------ line structure

  function Comment(text: string): string { CommentOpen + text + CommentClose }

  function ColorElement(value: string): string { ColorOpen + value + ColorClose }

  /** The `<color-palette ...>` opening line of a palette. */
  function PaletteHead(p: Palette): string {
    PaletteOpen + NameOf(p) + "\" type=\"" + GetTableauType(TypeOf(p)) + "\">"
  }

  /** The lines of one colour: its key as a comment when the key is non-empty,
      then its value element. */
  function EntryLines(c: ColorEntry): seq<string> {
    (if KeyOf(c) != "" then [Comment(KeyOf(c))] else []) + [ColorElement(ValueOf(c))]
  }

  function DescriptionLines(p: Palette): seq<string> {
    if DescriptionOf(p) != "" then [Comment(DescriptionOf(p))] else []
  }

  /** The block of one palette. */
  function PaletteLines(p: Palette): seq<string> {
    [PaletteHead(p)] + DescriptionLines(p) + ConcatMap(ColorsOf(p), EntryLines) + [PaletteClose]
  }

  /** The whole line list: the fixed prolog, each palette's block in order, the epilog. */
  function DocumentLines(palettes: seq<Palette>): (lines: seq<string>)
    ensures |lines| >= |Prolog| + |Epilog|
    ensures lines[..|Prolog|] == Prolog
    ensures lines[|lines| - |Epilog|..] == Epilog
    ensures palettes == [] ==> lines == Prolog + Epilog && |lines| == 8
  {
    var body := ConcatMap(palettes, PaletteLines);
    assert (Prolog + body + Epilog)[..|Prolog|] == Prolog;
    Prolog + body + Epilog
  }

  /** The text written to Preferences.tps: the lines joined by line feeds, plus one more. */
  function PreferencesText(palettes: seq<Palette>): (text: string)
    ensures |text| > 0 && text[|text| - 1] == '\n'
  {
    Join(DocumentLines(palettes), "\n") + "\n"
  }

  // ---------------------------------------------------------- the emitter

  /** `generate_tableau_preferences` line building: the prolog, then for each
      palette its opening tag, its description comment when there is one, its
      colours and its closing tag, then the epilog. */
  method GenerateTableauPreferences(palettes: seq<Palette>) returns (lines: seq<string>)
    ensures lines == Prolog + ConcatMap(palettes, PaletteLines) + Epilog
  {
    lines := Prolog;
    var i := 0;
    while i < |palettes|
      invariant 0 <= i <= |palettes|
      invariant lines == Prolog + ConcatMap(palettes[..i], PaletteLines)
    {
      var palette := palettes[i];
      var block := [PaletteHead(palette)];
      if DescriptionOf(palette) != "" {
        block := block + [Comment(DescriptionOf(palette))];
      }
      block := AppendColors(block, ColorsOf(palette));
      block := block + [PaletteClose];
      assert block == PaletteLines(palette);
      ConcatMapPrefixStep(palettes, i, PaletteLines);
      AppendAssoc(Prolog, ConcatMap(palettes[..i], PaletteLines), block);
      lines := lines + block;
      i := i + 1;
    }
    assert palettes[..i] == palettes;
    lines := lines + Epilog;
  }

  /** The colour loop of one palette: each colour's lines appended in list order. */
  method AppendColors(lines: seq<string>, colors: seq<ColorEntry>) returns (out: seq<string>)
    ensures out == lines + ConcatMap(colors, EntryLines)
  {
    out := lines;
    var j := 0;
    while j < |colors|
      invariant 0 <= j <= |colors|
      invariant out == lines + ConcatMap(colors[..j], EntryLines)
    {
      var color := colors[j];
      if KeyOf(color) != "" {
        out := out + [Comment(KeyOf(color))];
      }
      out := out + [ColorElement(ValueOf(color))];
      ConcatMapPrefixStep(colors, j, EntryLines);
      j := j + 1;
    }
    assert colors[..j] == colors;
  }

  // ------------------------------------------------------------- lemmas

  /** Blocks are emitted palette by palette: the body of a concatenation is
      the concatenation of the bodies. */
  lemma PaletteOrderPreserved(a: seq<Palette>, b: seq<Palette>)
    ensures ConcatMap(a + b, PaletteLines) == ConcatMap(a, PaletteLines) + ConcatMap(b, PaletteLines)
  {
    ConcatMapAppend(a, b, PaletteLines);
  }

  /** Number of colours of `cs` with a non-empty key. */
  function KeyedCount(cs: seq<ColorEntry>): nat {
    if |cs| == 0 then 0 else (if KeyOf(cs[0]) != "" then 1 else 0) + KeyedCount(cs[1..])
  }

  lemma {:induction false} EntriesLength(cs: seq<ColorEntry>)
    ensures |ConcatMap(cs, EntryLines)| == |cs| + KeyedCount(cs)
  {
    if |cs| > 0 {
      EntriesLength(cs[1..]);
    }
  }

  /** The shape of one palette block: the head names the palette and its mapped
      type, a description comment follows exactly when the description is
      non-empty, then one or two lines per colour, then the closing tag. */
  lemma PaletteBlockShape(p: Palette)
    ensures var block := PaletteLines(p);
      && |block| == 2 + (if DescriptionOf(p) != "" then 1 else 0) + |ColorsOf(p)| + KeyedCount(ColorsOf(p))
      && block[0] == PaletteOpen + NameOf(p) + "\" type=\"" + GetTableauType(TypeOf(p)) + "\">"
      && block[|block| - 1] == PaletteClose
      && (DescriptionOf(p) != "" ==> block[1] == CommentOpen + DescriptionOf(p) + CommentClose)
      && (DescriptionOf(p) == "" ==> block[1..|block| - 1] == ConcatMap(ColorsOf(p), EntryLines))
      && (DescriptionOf(p) != "" ==> block[2..|block| - 1] == ConcatMap(ColorsOf(p), EntryLines))
  {
    EntriesLength(ColorsOf(p));
    var block := PaletteLines(p);
    if DescriptionOf(p) == "" {
      assert block == [PaletteHead(p)] + ConcatMap(ColorsOf(p), EntryLines) + [PaletteClose];
    } else {
      assert block == [PaletteHead(p), CommentOpen + DescriptionOf(p) + CommentClose] + ConcatMap(ColorsOf(p), EntryLines) + [PaletteClose];
    }
  }

  /** One colour gives its value element, preceded by a key comment exactly
      when the key is non-empty. */
  lemma ColorEntryShape(c: ColorEntry)
    ensures KeyOf(c) != "" ==> EntryLines(c) == [CommentOpen + KeyOf(c) + CommentClose, ColorOpen + ValueOf(c) + ColorClose]
    ensures KeyOf(c) == "" ==> EntryLines(c) == [ColorOpen + ValueOf(c) + ColorClose]
  {
  }

  // ------------------------------------------------- reading lines back

  /** The value inside a `<color>` element line; None for every other line. */
  function ColorValueOf(line: string): Option<string> {
    if |ColorOpen| + |ColorClose| <= |line|
       && line[..|ColorOpen|] == ColorOpen
       && line[|line| - |ColorClose|..] == ColorClose
    then Some(line[|ColorOpen|..|line| - |ColorClose|])
    else None
  }

  function ValueList(line: string): seq<string> {
    match ColorValueOf(line)
    case Some(v) => [v]
    case None => []
  }

  /** The colour values a reader of the file finds, in file order. */
  function ColorValuesIn(lines: seq<string>): seq<string> {
    ConcatMap(lines, ValueList)
  }

  function EntryValue(c: ColorEntry): seq<string> { [ValueOf(c)] }

  function PaletteValues(p: Palette): seq<string> { ConcatMap(ColorsOf(p), EntryValue) }

  lemma NotColorLine(line: string, k: nat)
    requires k < |ColorOpen| && k < |line| && line[k] != ColorOpen[k]
    ensures ColorValueOf(line) == None
  {
    if |ColorOpen| <= |line| {
      assert line[..|ColorOpen|][k] == line[k];
    }
  }

  lemma ColorElementRoundTrip(v: string)
    ensures ColorValueOf(ColorOpen + v + ColorClose) == Some(v)
  {
    var line := ColorOpen + v + ColorClose;
    assert line[..|ColorOpen|] == ColorOpen;
    assert line[|line| - |ColorClose|..] == ColorClose;
    assert line[|ColorOpen|..|line| - |ColorClose|] == v;
  }

  lemma CommentIsNotColor(text: string)
    ensures ColorValueOf(CommentOpen + text + CommentClose) == None
  {
    var line := CommentOpen + text + CommentClose;
    assert line[7] == '!';
    NotColorLine(line, 7);
  }

  lemma {:induction false} EntriesValues(cs: seq<ColorEntry>)
    ensures ColorValuesIn(ConcatMap(cs, EntryLines)) == ConcatMap(cs, EntryValue)
  {
    if |cs| > 0 {
      var c := cs[0];
      ColorElementRoundTrip(ValueOf(c));
      ConcatMapOne(ColorElement(ValueOf(c)), ValueList);
      if KeyOf(c) != "" {
        CommentIsNotColor(KeyOf(c));
        ConcatMapOne(Comment(KeyOf(c)), ValueList);
        ConcatMapAppend([Comment(KeyOf(c))], [ColorElement(ValueOf(c))], ValueList);
      }
      if KeyOf(c) == "" {
        assert EntryLines(c) == [ColorElement(ValueOf(c))];
      }
      assert ColorValuesIn(EntryLines(c)) == [ValueOf(c)];
      ConcatMapAppend(EntryLines(c), ConcatMap(cs[1..], EntryLines), ValueList);
      EntriesValues(cs[1..]);
    }
  }

  lemma BlockValues(p: Palette)
    ensures ColorValuesIn(PaletteLines(p)) == PaletteValues(p)
  {
    var head := [PaletteHead(p)];
    var entries := ConcatMap(ColorsOf(p), EntryLines);
    HeadHasNoValues(p);
    DescriptionHasNoValues(p);
    NotColorLine(PaletteClose, 4);
    ConcatMapOne(PaletteClose, ValueList);
    EntriesValues(ColorsOf(p));
    ConcatMapAppend(head, DescriptionLines(p), ValueList);
    ConcatMapAppend(head + DescriptionLines(p), entries, ValueList);
    ConcatMapAppend(head + DescriptionLines(p) + entries, [PaletteClose], ValueList);
  }

  lemma HeadHasNoValues(p: Palette)
    ensures ColorValuesIn([PaletteHead(p)]) == []
  {
    assert PaletteHead(p)[4] == '<';
    NotColorLine(PaletteHead(p), 4);
    ConcatMapOne(PaletteHead(p), ValueList);
  }

  lemma DescriptionHasNoValues(p: Palette)
    ensures ColorValuesIn(DescriptionLines(p)) == []
  {
    if DescriptionOf(p) != "" {
      CommentIsNotColor(DescriptionOf(p));
      ConcatMapOne(Comment(DescriptionOf(p)), ValueList);
    }
  }

  lemma {:induction false} BodyValues(ps: seq<Palette>)
    ensures ColorValuesIn(ConcatMap(ps, PaletteLines)) == ConcatMap(ps, PaletteValues)
  {
    if |ps| > 0 {
      BlockValues(ps[0]);
      BodyValues(ps[1..]);
      ConcatMapAppend(PaletteLines(ps[0]), ConcatMap(ps[1..], PaletteLines), ValueList);
    }
  }

  lemma {:induction false} NoColorLines(lines: seq<string>)
    requires forall i :: 0 <= i < |lines| ==> ColorValueOf(lines[i]) == None
    ensures ColorValuesIn(lines) == []
  {
    if |lines| > 0 {
      NoColorLines(lines[1..]);
    }
  }

  lemma PrologHasNoColors()
    ensures ColorValuesIn(Prolog) == []
  {
    NotColorLine(Prolog[0], 0);
    NotColorLine(Prolog[1], 0);
    NotColorLine(Prolog[2], 2);
    NotColorLine(Prolog[3], 4);
    NotColorLine(Prolog[4], 4);
    NotColorLine(Prolog[5], 4);
    NoColorLines(Prolog);
  }

  lemma EpilogHasNoColors()
    ensures ColorValuesIn(Epilog) == []
  {
    NotColorLine(Epilog[0], 2);
    NotColorLine(Epilog[1], 0);
    NoColorLines(Epilog);
  }

  /** Reading the `<color>` lines of the file back yields every colour value
      of every palette, palettes in source order and colours in list order,
      verbatim. */
  lemma ColorValuesInOrder(palettes: seq<Palette>)
    ensures ColorValuesIn(DocumentLines(palettes)) == ConcatMap(palettes, PaletteValues)
  {
    var body := ConcatMap(palettes, PaletteLines);
    PrologHasNoColors();
    EpilogHasNoColors();
    BodyValues(palettes);
    ConcatMapAppend(Prolog, body, ValueList);
    ConcatMapAppend(Prolog + body, Epilog, ValueList);
  }

  // --------------------------------------------------- palette heads

  /** The line itself if it opens a `<color-palette>` element, else nothing. */
  function HeadList(line: string): seq<string> {
    if |PaletteOpen| <= |line| && line[..|PaletteOpen|] == PaletteOpen then [line] else []
  }

  /** The `<color-palette>` opening lines a reader of the file finds, in file order. */
  function PaletteHeadsIn(lines: seq<string>): seq<string> {
    ConcatMap(lines, HeadList)
  }

  lemma NotHeadLine(line: string, k: nat)
    requires k < |PaletteOpen| && k < |line| && line[k] != PaletteOpen[k]
    ensures HeadList(line) == []
  {
    if |PaletteOpen| <= |line| {
      assert line[..|PaletteOpen|][k] == line[k];
    }
  }

  lemma {:induction false} NoHeadLines(lines: seq<string>)
    requires forall i :: 0 <= i < |lines| ==> HeadList(lines[i]) == []
    ensures PaletteHeadsIn(lines) == []
  {
    if |lines| > 0 {
      NoHeadLines(lines[1..]);
    }
  }

  lemma {:induction false} EntriesHaveNoHeads(cs: seq<ColorEntry>)
    ensures PaletteHeadsIn(ConcatMap(cs, EntryLines)) == []
  {
    if |cs| > 0 {
      var c := cs[0];
      var lines := EntryLines(c);
      forall i | 0 <= i < |lines| ensures HeadList(lines[i]) == [] {
        if KeyOf(c) != "" && i == 0 {
          NotHeadLine(Comment(KeyOf(c)), 4);
        } else {
          NotHeadLine(ColorElement(ValueOf(c)), 4);
        }
      }
      NoHeadLines(lines);
      EntriesHaveNoHeads(cs[1..]);
      ConcatMapAppend(lines, ConcatMap(cs[1..], EntryLines), HeadList);
    }
  }

  lemma BlockHead(p: Palette)
    ensures PaletteHeadsIn(PaletteLines(p)) == [PaletteHead(p)]
  {
    var head := [PaletteHead(p)];
    var entries := ConcatMap(ColorsOf(p), EntryLines);
    HeadIsHead(p);
    DescriptionHasNoHeads(p);
    EntriesHaveNoHeads(ColorsOf(p));
    NotHeadLine(PaletteClose, 5);
    ConcatMapOne(PaletteClose, HeadList);
    ConcatMapAppend(head, DescriptionLines(p), HeadList);
    ConcatMapAppend(head + DescriptionLines(p), entries, HeadList);
    ConcatMapAppend(head + DescriptionLines(p) + entries, [PaletteClose], HeadList);
  }

  lemma HeadIsHead(p: Palette)
    ensures PaletteHeadsIn([PaletteHead(p)]) == [PaletteHead(p)]
  {
    assert PaletteHead(p)[..|PaletteOpen|] == PaletteOpen;
    ConcatMapOne(PaletteHead(p), HeadList);
  }

  lemma DescriptionHasNoHeads(p: Palette)
    ensures PaletteHeadsIn(DescriptionLines(p)) == []
  {
    if DescriptionOf(p) != "" {
      NotHeadLine(Comment(DescriptionOf(p)), 4);
      ConcatMapOne(Comment(DescriptionOf(p)), HeadList);
    }
  }

  lemma {:induction false} BodyHeads(ps: seq<Palette>)
    ensures var heads := PaletteHeadsIn(ConcatMap(ps, PaletteLines));
      |heads| == |ps| && forall i :: 0 <= i < |ps| ==> heads[i] == PaletteHead(ps[i])
  {
    if |ps| > 0 {
      BlockHead(ps[0]);
      BodyHeads(ps[1..]);
      ConcatMapAppend(PaletteLines(ps[0]), ConcatMap(ps[1..], PaletteLines), HeadList);
    }
  }

  /** Exactly one `<color-palette name=... type=...>` line per palette, in
      source order, each naming its palette verbatim and carrying the mapped type. */
  lemma PaletteHeadsInOrder(palettes: seq<Palette>)
    ensures var heads := PaletteHeadsIn(DocumentLines(palettes));
      && |heads| == |palettes|
      && forall i :: 0 <= i < |palettes| ==>
           heads[i] == PaletteOpen + NameOf(palettes[i]) + "\" type=\"" + GetTableauType(TypeOf(palettes[i])) + "\">"
  {
    var body := ConcatMap(palettes, PaletteLines);
    PrologHasNoHeads();
    EpilogHasNoHeads();
    BodyHeads(palettes);
    ConcatMapAppend(Prolog, body, HeadList);
    ConcatMapAppend(Prolog + body, Epilog, HeadList);
  }

  lemma PrologHasNoHeads()
    ensures PaletteHeadsIn(Prolog) == []
  {
    NotHeadLine(Prolog[0], 0);
    NotHeadLine(Prolog[1], 0);
    NotHeadLine(Prolog[2], 2);
    NotHeadLine(Prolog[3], 5);
    NotHeadLine(Prolog[4], 5);
    NotHeadLine(Prolog[5], 5);
    NoHeadLines(Prolog);
  }

  lemma EpilogHasNoHeads()
    ensures PaletteHeadsIn(Epilog) == []
  {
    NotHeadLine(Epilog[0], 2);
    NotHeadLine(Epilog[1], 0);
    NoHeadLines(Epilog);
  }

  // -------------------------------------------------------- file text

  lemma TableauTypeSingleLine(t: string)
    ensures '\n' !in GetTableauType(t)
  {
    var tag := GetTableauType(t);
    assert tag == "regular" || tag == "ordered-sequential" || tag == "ordered-diverging";
  }

  lemma BlockSingleLine(p: Palette)
    requires SingleLineFields(p)
    ensures FreeOf(PaletteLines(p), '\n')
  {
    TableauTypeSingleLine(TypeOf(p));
    var cs := ColorsOf(p);
    forall j | 0 <= j < |cs| ensures FreeOf(EntryLines(cs[j]), '\n') {
      assert '\n' !in KeyOf(cs[j]) && '\n' !in ValueOf(cs[j]);
    }
    FreeOfConcatMap(cs, EntryLines, '\n');
    FreeOfAppend([PaletteHead(p)], DescriptionLines(p), '\n');
    FreeOfAppend([PaletteHead(p)] + DescriptionLines(p), ConcatMap(cs, EntryLines), '\n');
    FreeOfAppend([PaletteHead(p)] + DescriptionLines(p) + ConcatMap(cs, EntryLines), [PaletteClose], '\n');
  }

  lemma DocumentSingleLine(palettes: seq<Palette>)
    requires AllSingleLine(palettes)
    ensures FreeOf(DocumentLines(palettes), '\n')
  {
    HeaderNotesSingleLine();
    assert FreeOf(Prolog, '\n') by {
      assert '\n' !in HeaderNotes[0] && '\n' !in HeaderNotes[1] && '\n' !in HeaderNotes[2];
    }
    forall i | 0 <= i < |palettes| ensures FreeOf(PaletteLines(palettes[i]), '\n') {
      BlockSingleLine(palettes[i]);
    }
    FreeOfConcatMap(palettes, PaletteLines, '\n');
    FreeOfAppend(Prolog, ConcatMap(palettes, PaletteLines), '\n');
    FreeOfAppend(Prolog + ConcatMap(palettes, PaletteLines), Epilog, '\n');
  }

  /** When no field holds a line feed, splitting the written text at line
      feeds gives back exactly the line list followed by one empty part:
      the lines joined by line feeds, with a single trailing line feed. */
  lemma PreferencesTextLines(palettes: seq<Palette>)
    requires AllSingleLine(palettes)
    ensures Split(PreferencesText(palettes), "\n") == DocumentLines(palettes) + [""]
  {
    DocumentSingleLine(palettes);
    TerminatedLinesSplit(DocumentLines(palettes));
  }
}
