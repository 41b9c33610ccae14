/** `FormatWord` of utils/formatter.py: the static helpers that render a word
    of utils/types.py as HTML. The records' own `to_html` (LegacyTypes) and
    this class call each other: `Definition.to_html` numbers its related words
    through `parse_related_words`, and `to_html` here renders each definition
    through `Definition.to_html`. */
module LegacyFormatter {

  import opened Common
  import opened PyText
  import opened Helpers
  import opened Html
  import opened LegacyTypes

  const PronunciationsOpen: string := "<p><b>Pronunciations:</b></p> <p>"
  const PronunciationsClose: string := "</p>"

  /** Every definition has texts to number, so each renders. */
  predicate Renderable(defs: seq<Definition>)
  {
    forall i :: 0 <= i < |defs| ==> defs[i].texts.Some?
  }

  /** The rendering of every definition, in order. */
  function DefinitionsHtml(defs: seq<Definition>): (r: seq<string>)
    requires Renderable(defs)
    ensures |r| == |defs|
    ensures forall i :: 0 <= i < |defs| ==> DefinitionHtml(defs[i]) == Success(r[i])
  {
    seq(|defs|, i requires 0 <= i < |defs| => DefinitionHtml(defs[i]).value)
  }

  /** The sections `to_html` collects, in order: the etymology when it is not
      empty, the first pronunciation when there are some, then one section per
      definition when there are some. Fails with TypeError when a definition
      has no texts. */
  function Sections(w: WordData): (r: Result<seq<string>>)
  {
    if !Truthy(w.definitionList) then Success(Head(w))
    else if Renderable(w.definitionList.value) then Success(Head(w) + DefinitionsHtml(w.definitionList.value))
    else Failure(TypeError)
  }

  /** The sections before the definitions. */
  function Head(w: WordData): seq<string>
  {
    (if w.etymology != "" then [EtymologyHtml(w.etymology)] else [])
    + (if Truthy(w.pronunciations) then [FormatWord.ParsePronunciations(w).value.value] else [])
  }

  class FormatWord {
    const wordData: WordData

    constructor(word: WordData)
      ensures wordData == word
    {
      wordData := word;
    }

    static function ParseEtymology(w: WordData): string
    {
      EtymologyHtml(w.etymology)
    }

    /** Only the first pronunciation is rendered. Iterating over None raises
        TypeError; with no pronunciation the result is None. */
    static function ParsePronunciations(w: WordData): (r: Result<Option<string>>)
      ensures r.Failure? <==> w.pronunciations.None?
      ensures r.Failure? ==> r.error == TypeError
      ensures r == Success(None) <==> w.pronunciations == Some([])
      ensures r.Success? && r.value.Some? ==>
        Truthy(w.pronunciations) &&
        r.value.value == PronunciationsOpen + ConvertToList(w.pronunciations.value[0].text) + PronunciationsClose
    {
      match w.pronunciations
      case None => Failure(TypeError)
      case Some(ps) =>
        if |ps| == 0 then Success(None)
        else Success(Some(PronunciationsOpen + PronunciationHtml(ps[0]) + PronunciationsClose))
    }

    /** One line per related word, in order; iterating over None raises
        TypeError. */
    static method ParseRelatedWords(d: Definition) returns (r: Result<seq<string>>)
      ensures r.Failure? <==> d.relatedWords.None?
      ensures r.Failure? ==> r.error == TypeError
      ensures r.Success? ==> r.value == RelatedWordsHtml(d.relatedWords.value)
    {
      if d.relatedWords.None? {
        return Failure(TypeError);
      }
      var rws := d.relatedWords.value;
      var relatedWords: seq<string> := [];
      for i := 0 to |rws|
        invariant relatedWords == RelatedWordsHtml(rws[..i])
      {
        assert rws[..i + 1] == rws[..i] + [rws[i]];
        relatedWords := relatedWords + [RelatedWordHtml(rws[i])];
      }
      assert rws[..|rws|] == rws;
      return Success(relatedWords);
    }

    /** One section per definition, in order. Iterating over None raises
        TypeError, and so does the first definition without texts. */
    static method ParseDefinitions(w: WordData) returns (r: Result<seq<string>>)
      ensures r.Success? <==> w.definitionList.Some? && Renderable(w.definitionList.value)
      ensures r.Failure? ==> r.error == TypeError
      ensures r.Success? ==> r.value == DefinitionsHtml(w.definitionList.value)
    {
      if w.definitionList.None? {
        return Failure(TypeError);
      }
      var defs := w.definitionList.value;
      var definitions: seq<string> := [];
      for i := 0 to |defs|
        invariant Renderable(defs[..i])
        invariant |definitions| == i
        invariant forall j :: 0 <= j < i ==> DefinitionHtml(defs[j]) == Success(definitions[j])
      {
        var section := DefinitionHtml(defs[i]);
        if section.Failure? {
          return Failure(section.error);
        }
        definitions := definitions + [section.value];
      }
      assert defs[..|defs|] == defs;
      return Success(definitions);
    }

    static method ToHtml(w: WordData) returns (r: Result<string>)
      ensures r.Failure? <==> Sections(w).Failure?
      ensures r.Failure? ==> r.error == TypeError
      ensures r.Success? ==> r.value == Page(Sections(w).value)
    {
      var htmlVersion: seq<string> := [];
      if w.etymology != "" {
        htmlVersion := htmlVersion + [ParseEtymology(w)];
      }
      if Truthy(w.pronunciations) {
        var p := ParsePronunciations(w);
        htmlVersion := htmlVersion + [p.value.value];
      }
      assert htmlVersion == Head(w);
      if Truthy(w.definitionList) {
        var definitions := ParseDefinitions(w);
        if definitions.Failure? {
          return Failure(definitions.error);
        }
        htmlVersion := htmlVersion + definitions.value;
      }
      return Success(Page(htmlVersion));
    }
  }

  /** Before the definitions come a section for the etymology and one for
      the pronunciations, each only when present, in that order. */
  lemma HeadPresent(w: WordData)
    ensures
      var e := if w.etymology != "" then 1 else 0;
      var p := if Truthy(w.pronunciations) then 1 else 0;
      && |Head(w)| == e + p
      && (w.etymology != "" ==> Head(w)[0] == EtymologyHtml(w.etymology))
      && (Truthy(w.pronunciations) ==> FormatWord.ParsePronunciations(w) == Success(Some(Head(w)[e])))
  {
  }

  /** A definition without texts makes the whole page fail; otherwise the
      sections are those before the definitions, then one per definition, in
      order. */
  lemma SectionsPresent(w: WordData)
    ensures Sections(w).Failure? <==> Truthy(w.definitionList) && !Renderable(w.definitionList.value)
    ensures Sections(w).Success? ==>
      var ss := Sections(w).value;
      && |ss| == |Head(w)| + |ListOrEmpty(w.definitionList)|
      && ss[..|Head(w)|] == Head(w)
      && (forall k :: 0 <= k < |ListOrEmpty(w.definitionList)| ==>
            DefinitionHtml(w.definitionList.value[k]) == Success(ss[|Head(w)| + k]))
  {
    var h := Head(w);
    if Truthy(w.definitionList) && Renderable(w.definitionList.value) {
      var defs := w.definitionList.value;
      var ss := h + DefinitionsHtml(defs);
      assert ss[..|h|] == h;
      forall k | 0 <= k < |defs| ensures DefinitionHtml(defs[k]) == Success(ss[|h| + k]) {
        assert ss[|h| + k] == DefinitionsHtml(defs)[k];
      }
    } else if !Truthy(w.definitionList) {
      assert h[..|h|] == h;
    }
  }

  /** The page is empty exactly when the word has no etymology, no
      pronunciation and no definition. */
  lemma PageEmptyWhenNothing(w: WordData)
    requires Sections(w).Success?
    ensures Page(Sections(w).value) == "" <==>
      w.etymology == "" && !Truthy(w.pronunciations) && !Truthy(w.definitionList)
  {
    PageEmpty(Sections(w).value);
  }
}
