/**
 The palette records read from `palettes.yml` and the schema gate of
 `load_palettes` (scripts/build.py). Every field of a palette or colour
 entry may be missing from the YAML mapping; the emitters read them with
 `.get(field, default)`, modelled by the `...Of` accessors below.
 */
module Palettes {
  import opened Results
  import opened Text

  /** One item of a palette's `colors` list. */
  datatype ColorEntry = ColorEntry(key: Option<string>, value: Option<string>)

  /** One item of the document's `palettes` list; `paletteType` is the YAML key `type`. */
  datatype Palette = Palette(
    name: Option<string>,
    paletteType: Option<string>,
    description: Option<string>,
    colors: Option<seq<ColorEntry>>)

  const DefaultType := "categorical"

  /** The three provenance notes both generated files open with, each
      written as a comment in the file's own syntax. Each note is spelled in
      pieces of at most 40 characters: the verifier reads the characters of a
      short literal but not of a long one, and `HeaderNotesSingleLine` needs
      them. */
  const HeaderNotes: seq<string> := [
    "Color palettes based on the " + "IR Data Visualization Color Guidelines",
    "This file is created automatically. " + "Do NOT edit manually.",
    "See: https://github.com/" + "akita-international-university/" + "ir-color-guide"
  ]

  lemma HeaderNotesSingleLine()
    ensures FreeOf(HeaderNotes, '\n')
  {
    NoLineFeed2("Color palettes based on the ", "IR Data Visualization Color Guidelines");
    NoLineFeed2("This file is created automatically. ", "Do NOT edit manually.");
    ThirdNoteSingleLine();
  }

  lemma ThirdNoteSingleLine()
    ensures '\n' !in HeaderNotes[2]
  {
    NoLineFeed2("See: https://github.com/", "akita-international-university/");
    NoLineFeed2("See: https://github.com/" + "akita-international-university/", "ir-color-guide");
  }

  lemma NoLineFeed2(a: string, b: string)
    requires forall i :: 0 <= i < |a| ==> a[i] != '\n'
    requires forall i :: 0 <= i < |b| ==> b[i] != '\n'
    ensures '\n' !in a + b
  {
  }

  function NameOf(p: Palette): string { p.name.GetOr("") }

  function TypeOf(p: Palette): string { p.paletteType.GetOr(DefaultType) }

  function DescriptionOf(p: Palette): string { p.description.GetOr("") }

  function ColorsOf(p: Palette): seq<ColorEntry> { p.colors.GetOr([]) }

  function KeyOf(c: ColorEntry): string { c.key.GetOr("") }

  function ValueOf(c: ColorEntry): string { c.value.GetOr("") }

  /** The `.get` defaults: a missing name, description, key or value reads
      as empty, a missing type as categorical and missing colours as none;
      a present field reads as itself. */
  lemma MissingFieldDefaults(p: Palette, c: ColorEntry)
    ensures NameOf(p) == (if p.name.Some? then p.name.value else "")
    ensures TypeOf(p) == (if p.paletteType.Some? then p.paletteType.value else "categorical")
    ensures DescriptionOf(p) == (if p.description.Some? then p.description.value else "")
    ensures ColorsOf(p) == (if p.colors.Some? then p.colors.value else [])
    ensures KeyOf(c) == (if c.key.Some? then c.key.value else "")
    ensures ValueOf(c) == (if c.value.Some? then c.value.value else "")
  {
  }

  /** No text field of the palette, nor any key or value of its colours,
      contains a line feed. */
  predicate SingleLineFields(p: Palette) {
    && '\n' !in NameOf(p)
    && '\n' !in TypeOf(p)
    && '\n' !in DescriptionOf(p)
    && forall j :: 0 <= j < |ColorsOf(p)| ==> '\n' !in KeyOf(ColorsOf(p)[j]) && '\n' !in ValueOf(ColorsOf(p)[j])
  }

  predicate AllSingleLine(palettes: seq<Palette>) {
    forall i :: 0 <= i < |palettes| ==> SingleLineFields(palettes[i])
  }

  /** A value bound to a top-level key of the YAML document. */
  datatype Node = PaletteList(palettes: seq<Palette>) | OtherValue

  /** What `yaml.safe_load` returns for the source file: nothing (an empty
      file) or a mapping from top-level keys to values. */
  datatype Document = NoContent | Mapping(entries: map<string, Node>)

  const PalettesKey := "palettes"

  datatype LoadError = MissingPalettesKey

  /** The text of the `ValueError` `load_palettes` raises; it quotes the
      key that is missing. */
  function LoadErrorMessage(e: LoadError): (m: string)
    ensures OccursAt(m, "'" + PalettesKey + "'", |SchemaIntro|)
  {
    SchemaIntro + "'" + PalettesKey + "' key"
  }

  const SchemaIntro := "YAML file must contain "

  /** Python truthiness of the loaded document: `None` and `{}` are false. */
  predicate IsFalsy(doc: Document) {
    doc.NoContent? || |doc.entries| == 0
  }

  /** The schema check of `load_palettes`: rejects a falsy document or one
      without a `palettes` key, and otherwise hands the bound value on as is. */
  function LoadPalettes(doc: Document): (r: Result<Node, LoadError>)
    ensures r.Ok? <==> doc.Mapping? && PalettesKey in doc.entries
    ensures r.Ok? ==> r.value == doc.entries[PalettesKey]
    ensures r.Err? ==> r.error == MissingPalettesKey
  {
    if IsFalsy(doc) || PalettesKey !in doc.entries then Err(MissingPalettesKey)
    else Ok(doc.entries[PalettesKey])
  }

  /** A present but empty `palettes` list passes the gate, whatever else the
      document holds: only the document as a whole is tested for emptiness. */
  lemma EmptyPaletteListAccepted(entries: map<string, Node>)
    requires PalettesKey in entries && entries[PalettesKey] == PaletteList([])
    ensures LoadPalettes(Mapping(entries)) == Ok(PaletteList([]))
  {
  }
}
