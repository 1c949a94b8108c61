/** The generator's fixed classification tables: read-only constants, fixed once
    and shared by both segmenters. Sinhala glyphs are written as code-point escapes;
    the comment beside each gives the letters it spells. */
module Tables {

  /** Kaldi's two mandatory entries, always the first lines of the lexicon. */
  const ConstantSymbols: seq<string> := ["<UNK> SPN\n", "<SIL> SIL\n"]

  /** Markers that send a transliteration to the ambiguous path when any occurs in it. */
  const TwoCharPhones: seq<string> :=
    ["ae", "ae:", "ri", "ri:", "ai", "au", "ah", "ng", "cn", "jn", "nj", "nd", "nd^", "mb"]

  /** Two- and three-letter codes that are always a single phone. */
  const TwoCharOk: seq<string> :=
    ["a:", "ae", "i:", "u:", "e:", "ai", "o:", "au", "c^", "cn", "t^", "d^", "s^"]
  const ThreeCharOk: seq<string> := ["ae:"]

  /** Codes that are one phone or two, depending on the word's Sinhala spelling. */
  const TwoCharLook: seq<string> := ["ri", "ru", "ng", "jn", "nj", "nd", "mb"]
  const ThreeCharLook: seq<string> := ["ri:", "ru:", "nd^"]

  /** A Sinhala glyph pattern and whether, when it occurs, the run should be split. */
  datatype Glyph = Glyph(pattern: string, split: bool)

  /** One entry of an ambiguous-run table: the code and its glyph patterns, in the
      order the table lists them. */
  datatype LookEntry = LookEntry(code: string, glyphs: seq<Glyph>)

  /** The two-letter ambiguous runs; `ah` has no entry. */
  const SinTwoCharLook: seq<LookEntry> := [
    LookEntry("ri", [Glyph("\U{0D8D}", false),                           // iruyanna
                     Glyph("\U{0DBB}\U{0DD2}", true)]),                  // rayanna + ketti is-pilla
    LookEntry("ru", [Glyph("\U{0DD8}", false),                           // gaetta-pilla
                     Glyph("\U{0DBB}\U{0DD4}", true)]),                  // rayanna + ketti paa-pilla
    LookEntry("ng", [Glyph("\U{0D9F}", false),                           // sanyaka gayanna
                     Glyph("\U{0DB1}\U{0DCA}\U{0D9C}", true),            // dantaja nayanna + al-lakuna + alpapraana gayanna
                     Glyph("\U{0DAB}\U{0DCA}\U{0D9C}", true),            // muurdhaja nayanna + al-lakuna + alpapraana gayanna
                     Glyph("\U{0DB1}\U{0DCA}\U{0D9D}", true),            // dantaja nayanna + al-lakuna + mahaapraana gayanna
                     Glyph("\U{0DAB}\U{0DCA}\U{0D9D}", true)]),          // muurdhaja nayanna + al-lakuna + mahaapraana gayanna
    LookEntry("jn", [Glyph("\U{0DA5}", false),                           // taaluja sanyooga naaksikyaya
                     Glyph("\U{0DA2}\U{0DCA}\U{0DB1}", true),            // alpapraana jayanna + al-lakuna + dantaja nayanna
                     Glyph("\U{0DA2}\U{0DCA}\U{0DAB}", true),            // alpapraana jayanna + al-lakuna + muurdhaja nayanna
                     Glyph("\U{0DA3}\U{0DCA}\U{0DB1}", true),            // mahaapraana jayanna + al-lakuna + dantaja nayanna
                     Glyph("\U{0DA3}\U{0DCA}\U{0DAB}", true)]),          // mahaapraana jayanna + al-lakuna + muurdhaja nayanna
    LookEntry("nj", [Glyph("\U{0DA6}", false),                           // sanyaka jayanna
                     Glyph("\U{0DB1}\U{0DCA}\U{0DA2}", true),            // dantaja nayanna + al-lakuna + alpapraana jayanna
                     Glyph("\U{0DAB}\U{0DCA}\U{0DA2}", true),            // muurdhaja nayanna + al-lakuna + alpapraana jayanna
                     Glyph("\U{0DB1}\U{0DCA}\U{0DA3}", true),            // dantaja nayanna + al-lakuna + mahaapraana jayanna
                     Glyph("\U{0DAB}\U{0DCA}\U{0DA3}", true)]),          // muurdhaja nayanna + al-lakuna + mahaapraana jayanna
    LookEntry("nd", [Glyph("\U{0DAC}", false),                           // sanyaka ddayanna
                     Glyph("\U{0DB1}\U{0DCA}\U{0DA9}", true),            // dantaja nayanna + al-lakuna + alpapraana ddayanna
                     Glyph("\U{0DAB}\U{0DCA}\U{0DA9}", true),            // muurdhaja nayanna + al-lakuna + alpapraana ddayanna
                     Glyph("\U{0DB1}\U{0DCA}\U{0DAA}", true),            // dantaja nayanna + al-lakuna + mahaapraana ddayanna
                     Glyph("\U{0DAB}\U{0DCA}\U{0DAA}", true)]),          // muurdhaja nayanna + al-lakuna + mahaapraana ddayanna
    LookEntry("mb", [Glyph("\U{0DB9}", false),                           // amba bayanna
                     Glyph("\U{0DB8}\U{0DCA}\U{0DB6}", true),            // mayanna + al-lakuna + alpapraana bayanna
                     Glyph("\U{0DB8}\U{0DCA}\U{0DB7}", true)])           // mayanna + al-lakuna + mahaapraana bayanna
  ]

  /** The three-letter ambiguous runs. */
  const SinThreeCharLook: seq<LookEntry> := [
    LookEntry("ri:", [Glyph("\U{0D8E}", false),                          // iruuyanna
                      Glyph("\U{0DBB}\U{0DD3}", true)]),                 // rayanna + diga is-pilla
    LookEntry("ru:", [Glyph("\U{0DF2}", false),                          // diga gaetta-pilla
                      Glyph("\U{0DBB}\U{0DD6}", true)]),                 // rayanna + diga paa-pilla
    LookEntry("nd^", [Glyph("\U{0DB3}", false),                          // sanyaka dayanna
                      Glyph("\U{0DB1}\U{0DCA}\U{0DAF}", true),           // dantaja nayanna + al-lakuna + alpapraana dayanna
                      Glyph("\U{0DAB}\U{0DCA}\U{0DAF}", true),           // muurdhaja nayanna + al-lakuna + alpapraana dayanna
                      Glyph("\U{0DB1}\U{0DCA}\U{0DB0}", true),           // dantaja nayanna + al-lakuna + mahaapraana dayanna
                      Glyph("\U{0DAB}\U{0DCA}\U{0DB0}", true)])          // muurdhaja nayanna + al-lakuna + mahaapraana dayanna
  ]

  /** The quirks of the marker list against the ambiguous tables: every two-letter run is a
      marker except `ru`, and the marker `ah` has neither a run entry nor a safe code. */
  lemma MarkerQuirks()
    ensures "ru" in TwoCharLook && "ru" !in TwoCharPhones
    ensures forall c :: c in TwoCharLook && c != "ru" ==> c in TwoCharPhones
    ensures "ah" in TwoCharPhones && "ah" !in TwoCharLook && "ah" !in TwoCharOk
    ensures forall e :: e in SinTwoCharLook ==> e.code != "ah"
  {
  }

  /** Every code of a table has the length its lookahead reads. */
  lemma CodeLengths()
    ensures forall i :: 0 <= i < |TwoCharLook| ==> |TwoCharLook[i]| == 2
    ensures forall i :: 0 <= i < |TwoCharOk| ==> |TwoCharOk[i]| == 2
    ensures forall i :: 0 <= i < |ThreeCharLook| ==> |ThreeCharLook[i]| == 3
    ensures forall i :: 0 <= i < |ThreeCharOk| ==> |ThreeCharOk[i]| == 3
    ensures forall i :: 0 <= i < |TwoCharPhones| ==> 2 <= |TwoCharPhones[i]| <= 3
  {
  }

  /** The glyph tables list the ambiguous runs in the order of the code lists. */
  lemma LookTablesFollowCodes()
    ensures |SinTwoCharLook| == |TwoCharLook| && |SinThreeCharLook| == |ThreeCharLook|
    ensures forall i :: 0 <= i < |TwoCharLook| ==> SinTwoCharLook[i].code == TwoCharLook[i]
    ensures forall i :: 0 <= i < |ThreeCharLook| ==> SinThreeCharLook[i].code == ThreeCharLook[i]
  {
  }

  /** In an entry the first pattern is the single conjunct glyph, which keeps the run whole,
      and every other pattern, a letter, a virama and a second letter, splits it. */
  predicate EntryShape(e: LookEntry)
  {
    |e.glyphs| >= 2 && !e.glyphs[0].split && |e.glyphs[0].pattern| == 1 &&
    forall k :: 1 <= k < |e.glyphs| ==> e.glyphs[k].split && |e.glyphs[k].pattern| >= 2
  }

  /** Every entry of both glyph tables has that shape, so no pattern is empty. */
  lemma GlyphTablesShape()
    ensures forall i :: 0 <= i < |SinTwoCharLook| ==> EntryShape(SinTwoCharLook[i])
    ensures forall i :: 0 <= i < |SinThreeCharLook| ==> EntryShape(SinThreeCharLook[i])
  {
  }
}
