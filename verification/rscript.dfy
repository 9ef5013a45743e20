/**
 The R script emitter of scripts/build.py: `sanitize_variable_name`,
 `format_r_type` and the line list built by `generate_r_script`, whose file
 text is the lines joined by line feeds with no final line feed added.
 */
module RScript {
  import opened Text
  import opened Palettes

  /** The three header comments and the blank line that follows them. */
  const Header: seq<string> := ["# " + HeaderNotes[0], "# " + HeaderNotes[1], "# " + HeaderNotes[2], ""]

  const VariablePrefix := "color_values_"
  const EntryOpen := "    \""

  // --------------------------------------------------------- identifiers

  /** What one input character becomes in a variable name: a space becomes an
      underscore, a letter, digit or underscore is kept (letters lower-cased),
      anything else is dropped. */
  function IdentifierPiece(c: char): (piece: string)
    ensures |piece| <= 1
  {
    if c == ' ' then "_"
    else if IsAlnum(c) || c == '_' then [LowerChar(c)]
    else ""
  }

  /** A character `sanitize_variable_name` can produce. */
  predicate IsIdentifierChar(c: char) {
    IsLower(c) || IsDigit(c) || c == '_'
  }

  /** The variable-name suffix derived from `name`, one character at a time. */
  function IdentifierOf(name: string): string {
    if |name| == 0 then "" else IdentifierPiece(name[0]) + IdentifierOf(name[1..])
  }

  function KeepIdentifierChar(c: char): string {
    if IsAlnum(c) || c == '_' then [c] else ""
  }

  /** `sanitize_variable_name`: lower-case, replace each space by an
      underscore, then drop every character that is neither alphanumeric nor
      an underscore. */
  function SanitizeVariableName(name: string): (r: string)
    ensures r == IdentifierOf(name)
    ensures forall i :: 0 <= i < |r| ==> IsIdentifierChar(r[i])
    ensures |r| <= |name|
    ensures Count('_', r) == Count(' ', name) + Count('_', name)
  {
    var lowered := Lower(name);
    var spaced := Replace(lowered, " ", "_");
    ReplaceOneChar(lowered, ' ', '_');
    KeptPieces(spaced, name, KeepIdentifierChar);
    PiecesAreIdentifierChars(name);
    PiecesLength(name);
    PiecesUnderscores(name);
    ConcatMap(spaced, KeepIdentifierChar)
  }

  lemma {:induction false} KeptPieces(t: string, s: string, f: char -> string)
    requires |t| == |s|
    requires forall i :: 0 <= i < |s| ==> f(t[i]) == IdentifierPiece(s[i])
    ensures ConcatMap(t, f) == IdentifierOf(s)
  {
    if |s| > 0 {
      KeptPieces(t[1..], s[1..], f);
    }
  }

  lemma {:induction false} PiecesAreIdentifierChars(s: string)
    ensures var r := IdentifierOf(s); forall i :: 0 <= i < |r| ==> IsIdentifierChar(r[i])
  {
    if |s| > 0 {
      PiecesAreIdentifierChars(s[1..]);
      var head := IdentifierPiece(s[0]);
      var r := IdentifierOf(s);
      forall i | 0 <= i < |r| ensures IsIdentifierChar(r[i]) {
        if i < |head| {
          assert r[i] == head[i];
        } else {
          assert r[i] == IdentifierOf(s[1..])[i - |head|];
        }
      }
    }
  }

  lemma {:induction false} PiecesLength(s: string)
    ensures |IdentifierOf(s)| <= |s|
  {
    if |s| > 0 {
      PiecesLength(s[1..]);
    }
  }

  lemma {:induction false} PiecesUnderscores(s: string)
    ensures Count('_', IdentifierOf(s)) == Count(' ', s) + Count('_', s)
  {
    if |s| > 0 {
      PiecesUnderscores(s[1..]);
      CountConcat('_', IdentifierPiece(s[0]), IdentifierOf(s[1..]));
      var c := s[0];
      if c != ' ' && c != '_' && (IsAlnum(c)) {
        assert LowerChar(c) != '_';
      }
    }
  }

  lemma {:induction false} IdentifierOfConcat(a: string, b: string)
    ensures IdentifierOf(a + b) == IdentifierOf(a) + IdentifierOf(b)
  {
    if |a| == 0 {
      assert a + b == b;
    } else {
      assert (a + b)[0] == a[0];
      assert (a + b)[1..] == a[1..] + b;
      IdentifierOfConcat(a[1..], b);
    }
  }

  /** Sanitizing works character by character, so it distributes over concatenation. */
  lemma SanitizeConcat(a: string, b: string)
    ensures SanitizeVariableName(a + b) == SanitizeVariableName(a) + SanitizeVariableName(b)
  {
    IdentifierOfConcat(a, b);
  }

  /** A name made only of lower-case letters, digits and underscores is left as it is. */
  lemma {:induction false} SanitizeFixedPoint(name: string)
    requires forall i :: 0 <= i < |name| ==> IsIdentifierChar(name[i])
    ensures SanitizeVariableName(name) == name
  {
    if |name| > 0 {
      SanitizeFixedPoint(name[1..]);
      assert [name[0]] + name[1..] == name;
    }
  }

  /** Sanitizing twice is sanitizing once. */
  lemma SanitizeIdempotent(name: string)
    ensures SanitizeVariableName(SanitizeVariableName(name)) == SanitizeVariableName(name)
  {
    SanitizeFixedPoint(SanitizeVariableName(name));
  }

  // ---------------------------------------------------------- type label

  /** `format_r_type`: the palette type with its first character upper-cased
      and the rest lower-cased; it differs from its input in letter case only. */
  function FormatRType(paletteType: string): (formatted: string)
    ensures |formatted| == |paletteType|
    ensures |formatted| > 0 ==> !IsLower(formatted[0]) && LowerChar(formatted[0]) == LowerChar(paletteType[0])
    ensures forall i :: 0 < i < |formatted| ==> !IsUpper(formatted[i])
    ensures Lower(formatted) == Lower(paletteType)
  {
    CapitalizeKeepsLetters(paletteType);
    Capitalize(paletteType)
  }

  // ------------------------------------------------------- line structure

  /** The opening line of a palette's assignment. */
  function AssignLine(p: Palette): string {
    VariablePrefix + SanitizeVariableName(NameOf(p)) + " <- c("
  }

  function TypeLine(p: Palette): string { "    # Type: " + FormatRType(TypeOf(p)) }

  function DescriptionLine(p: Palette): string { "    # Description: " + DescriptionOf(p) }

  /** The line of one colour, followed by `comma`. */
  function EntryLine(c: ColorEntry, comma: string): string {
    EntryOpen + KeyOf(c) + "\" = \"" + ValueOf(c) + "\"" + comma
  }

  /** The colour lines of a palette: a comma after every entry that has a successor. */
  function EntryLines(cs: seq<ColorEntry>): seq<string> {
    if |cs| == 0 then []
    else [EntryLine(cs[0], if |cs| == 1 then "" else ",")] + EntryLines(cs[1..])
  }

  /** The block of one palette: assignment, type comment, description comment
      (also when the description is empty), colour lines, `)`, blank line. */
  function PaletteBlock(p: Palette): seq<string> {
    [AssignLine(p), TypeLine(p), DescriptionLine(p)] + EntryLines(ColorsOf(p)) + [")", ""]
  }

  /** The whole line list: the header, then each palette's block in order. */
  function ScriptLines(palettes: seq<Palette>): (lines: seq<string>)
    ensures |lines| >= |Header|
    ensures lines[..|Header|] == Header
    ensures palettes == [] ==> lines == Header
  {
    var body := ConcatMap(palettes, PaletteBlock);
    assert (Header + body)[..|Header|] == Header;
    Header + body
  }

  /** The text written to ir_color_palettes.R: the lines joined by line feeds,
      with none added after them. Because the line list always ends with an
      empty line, the text still ends with exactly one line feed. */
  function ScriptText(palettes: seq<Palette>): (text: string)
    ensures |text| >= 2 && text[|text| - 1] == '\n' && text[|text| - 2] != '\n'
  {
    ScriptLinesEnd(palettes);
    JoinEndsOnce(ScriptLines(palettes), '\n');
    Join(ScriptLines(palettes), "\n")
  }

  /** The line list ends with an empty line, after a non-empty line that holds
      no line feed: the closing `)` of the last palette, or the last header
      note when there is no palette. */
  lemma ScriptLinesEnd(palettes: seq<Palette>)
    ensures var lines := ScriptLines(palettes);
      && |lines| >= 4 && lines[|lines| - 1] == ""
      && lines[|lines| - 2] != [] && '\n' !in lines[|lines| - 2]
  {
    var lines := ScriptLines(palettes);
    if palettes == [] {
      ThirdNoteSingleLine();
    } else {
      var n := |palettes| - 1;
      assert palettes == palettes[..n] + [palettes[n]];
      ConcatMapSnoc(palettes[..n], palettes[n], PaletteBlock);
      var front, block := ConcatMap(palettes[..n], PaletteBlock), PaletteBlock(palettes[n]);
      AppendAssoc(Header, front, block);
      BlockEnd(palettes[n]);
      LastTwoOfConcat(Header + front, block);
    }
  }

  /** A palette block closes with `)` and a blank line. */
  lemma BlockEnd(p: Palette)
    ensures var block := PaletteBlock(p);
      |block| >= 5 && block[|block| - 2] == ")" && block[|block| - 1] == ""
  {
  }

  // ---------------------------------------------------------- the emitter

  /** `generate_r_script` line building: the header, then for each palette
      its assignment, type and description lines, its colour entries, the
      closing parenthesis and a blank line. */
  method GenerateRScript(palettes: seq<Palette>) returns (lines: seq<string>)
    ensures lines == Header + ConcatMap(palettes, PaletteBlock)
  {
    lines := Header;
    var i := 0;
    while i < |palettes|
      invariant 0 <= i <= |palettes|
      invariant lines == Header + ConcatMap(palettes[..i], PaletteBlock)
    {
      var palette := palettes[i];
      var block := [AssignLine(palette), TypeLine(palette), DescriptionLine(palette)];
      block := AppendColors(block, ColorsOf(palette));
      block := block + [")", ""];
      assert block == PaletteBlock(palette);
      ConcatMapPrefixStep(palettes, i, PaletteBlock);
      AppendAssoc(Header, ConcatMap(palettes[..i], PaletteBlock), block);
      lines := lines + block;
      i := i + 1;
    }
    assert palettes[..i] == palettes;
  }

  /** The colour loop of one palette, deciding the comma by the entry's index. */
  method AppendColors(lines: seq<string>, colors: seq<ColorEntry>) returns (out: seq<string>)
    ensures out == lines + EntryLines(colors)
  {
    EntryLinesIndexed(colors);
    out := lines;
    var i := 0;
    while i < |colors|
      invariant 0 <= i <= |colors|
      invariant out == lines + EntryLines(colors)[..i]
    {
      var comma := if i < |colors| - 1 then "," else "";
      out := out + [EntryLine(colors[i], comma)];
      assert EntryLines(colors)[..i + 1] == EntryLines(colors)[..i] + [EntryLines(colors)[i]];
      i := i + 1;
    }
    assert EntryLines(colors)[..i] == EntryLines(colors);
  }

  // ------------------------------------------------------------- lemmas

  /** Colour line `i` carries a comma exactly when another colour follows it. */
  lemma {:induction false} EntryLinesIndexed(cs: seq<ColorEntry>)
    ensures |EntryLines(cs)| == |cs|
    ensures forall i :: 0 <= i < |cs| ==> EntryLines(cs)[i] == EntryLine(cs[i], if i < |cs| - 1 then "," else "")
  {
    if |cs| > 0 {
      EntryLinesIndexed(cs[1..]);
      forall i | 0 < i < |cs|
        ensures EntryLines(cs)[i] == EntryLine(cs[i], if i < |cs| - 1 then "," else "")
      {
        assert EntryLines(cs)[i] == EntryLines(cs[1..])[i - 1];
        assert cs[1..][i - 1] == cs[i];
      }
    }
  }

  predicate EndsWithComma(line: string) {
    |line| > 0 && line[|line| - 1] == ','
  }

  /** The no-trailing-comma rule: colour line `i` ends with a comma if and
      only if it is not the palette's last colour line. */
  lemma CommaRule(cs: seq<ColorEntry>)
    ensures |EntryLines(cs)| == |cs|
    ensures forall i :: 0 <= i < |cs| ==> (EndsWithComma(EntryLines(cs)[i]) <==> i < |cs| - 1)
  {
    EntryLinesIndexed(cs);
    forall i | 0 <= i < |cs|
      ensures EndsWithComma(EntryLines(cs)[i]) <==> i < |cs| - 1
    {
      var line := EntryLines(cs)[i];
      if i < |cs| - 1 {
        assert line == EntryOpen + KeyOf(cs[i]) + "\" = \"" + ValueOf(cs[i]) + "\"" + ",";
      } else {
        assert line == EntryOpen + KeyOf(cs[i]) + "\" = \"" + ValueOf(cs[i]) + "\"" + "";
      }
    }
  }

  /** The shape of one palette block. */
  lemma PaletteBlockShape(p: Palette)
    ensures var block := PaletteBlock(p); var cs := ColorsOf(p);
      && |block| == 5 + |cs|
      && block[0] == VariablePrefix + SanitizeVariableName(NameOf(p)) + " <- c("
      && block[1] == "    # Type: " + FormatRType(TypeOf(p))
      && block[2] == "    # Description: " + DescriptionOf(p)
      && (forall i :: 0 <= i < |cs| ==>
            block[3 + i] == EntryOpen + KeyOf(cs[i]) + "\" = \"" + ValueOf(cs[i]) + "\"" + (if i < |cs| - 1 then "," else ""))
      && block[|block| - 2] == ")"
      && block[|block| - 1] == ""
  {
    EntryLinesIndexed(ColorsOf(p));
  }

  /** Blocks are emitted palette by palette, in source order. */
  lemma PaletteOrderPreserved(a: seq<Palette>, b: seq<Palette>)
    ensures ConcatMap(a + b, PaletteBlock) == ConcatMap(a, PaletteBlock) + ConcatMap(b, PaletteBlock)
  {
    ConcatMapAppend(a, b, PaletteBlock);
  }

  // ------------------------------------------------- reading lines back

  /** The line itself if it is a colour line (it opens with four spaces and a
      double quote), else nothing. */
  function EntryList(line: string): seq<string> {
    if |EntryOpen| <= |line| && line[..|EntryOpen|] == EntryOpen then [line] else []
  }

  /** The colour lines a reader of the script finds, in file order. */
  function EntryLinesIn(lines: seq<string>): seq<string> {
    ConcatMap(lines, EntryList)
  }

  function PaletteEntryLines(p: Palette): seq<string> { EntryLines(ColorsOf(p)) }

  lemma NotEntryLine(line: string, k: nat)
    requires k < |EntryOpen| && k < |line| && line[k] != EntryOpen[k]
    ensures EntryList(line) == []
  {
    if |EntryOpen| <= |line| {
      assert line[..|EntryOpen|][k] == line[k];
    }
  }

  lemma {:induction false} NoEntryLines(lines: seq<string>)
    requires forall i :: 0 <= i < |lines| ==> EntryList(lines[i]) == []
    ensures EntryLinesIn(lines) == []
  {
    if |lines| > 0 {
      NoEntryLines(lines[1..]);
    }
  }

  lemma {:induction false} OnlyEntryLines(cs: seq<ColorEntry>)
    ensures EntryLinesIn(EntryLines(cs)) == EntryLines(cs)
  {
    if |cs| > 0 {
      var line := EntryLine(cs[0], if |cs| == 1 then "" else ",");
      assert line[..|EntryOpen|] == EntryOpen;
      ConcatMapOne(line, EntryList);
      OnlyEntryLines(cs[1..]);
      ConcatMapAppend([line], EntryLines(cs[1..]), EntryList);
    }
  }

  lemma BlockEntries(p: Palette)
    ensures EntryLinesIn(PaletteBlock(p)) == PaletteEntryLines(p)
  {
    var front := [AssignLine(p), TypeLine(p), DescriptionLine(p)];
    var entries := EntryLines(ColorsOf(p));
    NotEntryLine(AssignLine(p), 0);
    NotEntryLine(TypeLine(p), 4);
    NotEntryLine(DescriptionLine(p), 4);
    NoEntryLines(front);
    NotEntryLine(")", 0);
    NoEntryLines([")", ""]);
    OnlyEntryLines(ColorsOf(p));
    ConcatMapAppend(front, entries, EntryList);
    ConcatMapAppend(front + entries, [")", ""], EntryList);
  }

  lemma {:induction false} BodyEntries(ps: seq<Palette>)
    ensures EntryLinesIn(ConcatMap(ps, PaletteBlock)) == ConcatMap(ps, PaletteEntryLines)
  {
    if |ps| > 0 {
      BlockEntries(ps[0]);
      BodyEntries(ps[1..]);
      ConcatMapAppend(PaletteBlock(ps[0]), ConcatMap(ps[1..], PaletteBlock), EntryList);
    }
  }

  /** Reading the colour lines of the script back yields every palette's
      colour lines, palettes in source order and colours in list order. */
  lemma EntryLinesInOrder(palettes: seq<Palette>)
    ensures EntryLinesIn(ScriptLines(palettes)) == ConcatMap(palettes, PaletteEntryLines)
  {
    NotEntryLine(Header[0], 0);
    NotEntryLine(Header[1], 0);
    NotEntryLine(Header[2], 0);
    NoEntryLines(Header);
    BodyEntries(palettes);
    ConcatMapAppend(Header, ConcatMap(palettes, PaletteBlock), EntryList);
  }

  // -------------------------------------------------------- file text

  lemma FormatRTypeSingleLine(t: string)
    requires '\n' !in t
    ensures '\n' !in FormatRType(t)
  {
    var r := FormatRType(t);
    forall i | 0 <= i < |r| ensures r[i] != '\n' {
      if i == 0 {
        assert r[0] == UpperChar(t[0]);
      } else {
        assert r[i] == LowerChar(t[i]);
      }
    }
  }

  lemma IdentifierSingleLine(name: string)
    ensures '\n' !in SanitizeVariableName(name)
  {
    var r := SanitizeVariableName(name);
    forall i | 0 <= i < |r| ensures r[i] != '\n' {
      assert IsIdentifierChar(r[i]);
    }
  }

  lemma EntryLineSingleLine(c: ColorEntry, comma: string)
    requires '\n' !in KeyOf(c) && '\n' !in ValueOf(c) && '\n' !in comma
    ensures '\n' !in EntryLine(c, comma)
  {
    assert '\n' !in EntryOpen;
    assert '\n' !in "\" = \"";
    assert '\n' !in "\"";
  }

  lemma {:induction false} EntriesSingleLine(cs: seq<ColorEntry>)
    requires forall j :: 0 <= j < |cs| ==> '\n' !in KeyOf(cs[j]) && '\n' !in ValueOf(cs[j])
    ensures FreeOf(EntryLines(cs), '\n')
  {
    if |cs| > 0 {
      EntryLineSingleLine(cs[0], if |cs| == 1 then "" else ",");
      EntriesSingleLine(cs[1..]);
      FreeOfAppend([EntryLine(cs[0], if |cs| == 1 then "" else ",")], EntryLines(cs[1..]), '\n');
    }
  }

  lemma BlockSingleLine(p: Palette)
    requires SingleLineFields(p)
    ensures FreeOf(PaletteBlock(p), '\n')
  {
    FrontSingleLine(p);
    EntriesSingleLine(ColorsOf(p));
    var front := [AssignLine(p), TypeLine(p), DescriptionLine(p)];
    FreeOfAppend(front, EntryLines(ColorsOf(p)), '\n');
    FreeOfAppend(front + EntryLines(ColorsOf(p)), [")", ""], '\n');
  }

  /** The assignment, type and description lines of a single-line palette. */
  lemma FrontSingleLine(p: Palette)
    requires SingleLineFields(p)
    ensures FreeOf([AssignLine(p), TypeLine(p), DescriptionLine(p)], '\n')
  {
    IdentifierSingleLine(NameOf(p));
    assert '\n' !in AssignLine(p) by {
      assert '\n' !in VariablePrefix && '\n' !in " <- c(";
    }
    FormatRTypeSingleLine(TypeOf(p));
    assert '\n' !in TypeLine(p) by {
      assert '\n' !in "    # Type: ";
    }
    assert '\n' !in DescriptionLine(p) by {
      assert '\n' !in "    # Description: ";
    }
  }

  /** When no field holds a line feed, splitting the written text at line
      feeds gives back exactly the line list: the lines joined by line feeds,
      with no line feed added at the end. */
  lemma ScriptTextLines(palettes: seq<Palette>)
    requires AllSingleLine(palettes)
    ensures Split(ScriptText(palettes), "\n") == ScriptLines(palettes)
  {
    HeaderNotesSingleLine();
    assert FreeOf(Header, '\n') by {
      assert '\n' !in HeaderNotes[0] && '\n' !in HeaderNotes[1] && '\n' !in HeaderNotes[2];
    }
    forall i | 0 <= i < |palettes| ensures FreeOf(PaletteBlock(palettes[i]), '\n') {
      BlockSingleLine(palettes[i]);
    }
    FreeOfConcatMap(palettes, PaletteBlock, '\n');
    FreeOfAppend(Header, ConcatMap(palettes, PaletteBlock), '\n');
    JoinedLinesSplit(ScriptLines(palettes));
  }
}
