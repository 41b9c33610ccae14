/** `BaseAPIFormatter` of english_dictionary/utils/formatter.py: renders one
    word as HTML. The word class it formats comes from a module that is not
    part of this model, so the formatter sees the word through the three
    fields it reads, and the `to_html` of a pronunciation and of a meaning are
    parameters of the formatter. */
module Formatter {

  import opened Common
  import opened PyText
  import opened Html

  /** The fields of a word the formatter reads: `etymology`,
      `pronunciations` and `meanings`. */
  datatype WordView<P, M> = WordView(
    etymology: string,
    pronunciations: Option<seq<P>>,
    meanings: Option<seq<M>>)

  const PronunciationsOpen: string := "<p><b>Pronunciations:</b> "
  const PronunciationsClose: string := "</p>"

  /** One rendering per element, in order. */
  function Rendered<T>(render: T -> string, xs: seq<T>): (r: seq<string>)
    ensures |r| == |xs|
    ensures forall i :: 0 <= i < |xs| ==> r[i] == render(xs[i])
  {
    seq(|xs|, i requires 0 <= i < |xs| => render(xs[i]))
  }

  class BaseApiFormatter<P, M> {
    /** `_word_data`: the formatter only ever reads it. */
    const wordData: WordView<P, M>
    const pronunciationHtml: P -> string
    const meaningHtml: M -> string

    constructor(word: WordView<P, M>, pronunciationHtml: P -> string, meaningHtml: M -> string)
      ensures this.wordData == word
      ensures this.pronunciationHtml == pronunciationHtml
      ensures this.meaningHtml == meaningHtml
    {
      this.wordData := word;
      this.pronunciationHtml := pronunciationHtml;
      this.meaningHtml := meaningHtml;
    }

    function ParseEtymology(): string
    {
      EtymologyHtml(wordData.etymology)
    }

    /** Only the first pronunciation is rendered. Iterating over None raises
        TypeError; with no pronunciation the loop body never runs and the
        method returns None. */
    function ParsePronunciations(): (r: Result<Option<string>>)
      ensures r.Failure? <==> wordData.pronunciations.None?
      ensures r.Failure? ==> r.error == TypeError
      ensures r == Success(None) <==> wordData.pronunciations == Some([])
      ensures r.Success? && r.value.Some? ==>
        Truthy(wordData.pronunciations) &&
        r.value.value == PronunciationsOpen + pronunciationHtml(wordData.pronunciations.value[0]) + PronunciationsClose
    {
      match wordData.pronunciations
      case None => Failure(TypeError)
      case Some(ps) =>
        if |ps| == 0 then Success(None)
        else Success(Some(PronunciationsOpen + pronunciationHtml(ps[0]) + PronunciationsClose))
    }

    /** The renderings of the meanings, in order, joined with "<hr />". */
    method ParseMeanings() returns (r: Result<string>)
      ensures r.Failure? <==> wordData.meanings.None?
      ensures r.Failure? ==> r.error == TypeError
      ensures r.Success? ==> r.value == Join(Rule, Rendered(meaningHtml, wordData.meanings.value))
    {
      if wordData.meanings.None? {
        return Failure(TypeError);
      }
      var ms := wordData.meanings.value;
      var meanings: seq<string> := [];
      for i := 0 to |ms|
        invariant meanings == Rendered(meaningHtml, ms[..i])
      {
        meanings := meanings + [meaningHtml(ms[i])];
      }
      assert ms[..|ms|] == ms;
      r := Success(Join(Rule, meanings));
    }

    /** The sections `to_html` collects, in order: the etymology when it is
        not empty, the pronunciations when there are some, the meanings when
        there are some. */
    function Sections(): (r: seq<string>)
    {
      EtymologySection() + PronunciationsSection() + MeaningsSection()
    }

    function EtymologySection(): seq<string>
    {
      if wordData.etymology != "" then [ParseEtymology()] else []
    }

    function PronunciationsSection(): seq<string>
    {
      if Truthy(wordData.pronunciations) then [ParsePronunciations().value.value] else []
    }

    function MeaningsSection(): seq<string>
    {
      if Truthy(wordData.meanings) then [Join(Rule, Rendered(meaningHtml, wordData.meanings.value))] else []
    }

    method ToHtml() returns (r: string)
      ensures r == Page(Sections())
    {
      var htmlVersion: seq<string> := [];
      if wordData.etymology != "" {
        htmlVersion := htmlVersion + [ParseEtymology()];
      }
      assert htmlVersion == EtymologySection();
      if Truthy(wordData.pronunciations) {
        var p := ParsePronunciations();
        htmlVersion := htmlVersion + [p.value.value];
      }
      assert htmlVersion == EtymologySection() + PronunciationsSection();
      if Truthy(wordData.meanings) {
        var m := ParseMeanings();
        htmlVersion := htmlVersion + [m.value];
      }
      assert htmlVersion == EtymologySection() + PronunciationsSection() + MeaningsSection();
      r := Page(htmlVersion);
    }

    /** A section per non-empty field, in the order etymology, pronunciations,
        meanings. */
    lemma SectionsPresent()
      ensures |Sections()| ==
        (if wordData.etymology != "" then 1 else 0)
        + (if Truthy(wordData.pronunciations) then 1 else 0)
        + (if Truthy(wordData.meanings) then 1 else 0)
      ensures wordData.etymology != "" ==> Sections()[0] == ParseEtymology()
      ensures wordData.etymology == "" && Truthy(wordData.pronunciations) ==>
        ParsePronunciations() == Success(Some(Sections()[0]))
      ensures Truthy(wordData.meanings) ==>
        Sections()[|Sections()| - 1] == Join(Rule, Rendered(meaningHtml, wordData.meanings.value))
    {
      var e, p, m := EtymologySection(), PronunciationsSection(), MeaningsSection();
      assert Sections() == e + p + m;
      if wordData.etymology != "" {
        assert Sections()[0] == e[0];
      } else if Truthy(wordData.pronunciations) {
        assert Sections()[0] == p[0];
      }
      if Truthy(wordData.meanings) {
        assert Sections()[|Sections()| - 1] == m[0];
      }
    }

    /** The page is empty exactly when every field is empty. */
    lemma PageEmptyWhenNothing()
      ensures Page(Sections()) == "" <==>
        wordData.etymology == "" && !Truthy(wordData.pronunciations) && !Truthy(wordData.meanings)
    {
      PageEmpty(Sections());
    }

    /** With no meanings the meanings section is empty text; with one it is
        that meaning's rendering alone; with more each rendering after the
        first follows a rule. */
    lemma MeaningsJoined(ms: seq<M>, m: M)
      ensures Join(Rule, Rendered(meaningHtml, [])) == ""
      ensures Join(Rule, Rendered(meaningHtml, [m])) == meaningHtml(m)
      ensures |ms| > 0 ==>
        Join(Rule, Rendered(meaningHtml, ms + [m])) == Join(Rule, Rendered(meaningHtml, ms)) + Rule + meaningHtml(m)
    {
      if |ms| > 0 {
        assert Rendered(meaningHtml, ms + [m]) == Rendered(meaningHtml, ms) + [meaningHtml(m)];
        JoinAppend(Rule, Rendered(meaningHtml, ms), meaningHtml(m));
      }
    }
  }
}
