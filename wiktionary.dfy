/** The records of wiktionaryparser/utils.py (`Definition`, `RelatedWord`,
    `Pronunciation`, `WordData`): constructors that replace missing or falsy
    arguments by empty values, the two list properties whose setters refuse
    anything but a list, and `to_json`. */
module Wiktionary {

  import opened Common
  import opened PyText

  /** What a caller may pass where a list is expected: None, a list, or some
      other object, of which only its truthiness matters here. */
  datatype Arg<T> = NoneArg | ListArg(items: seq<T>) | OtherArg(truthy: bool)

  predicate ArgTruthy<T>(a: Arg<T>)
  {
    match a
    case NoneArg => false
    case ListArg(items) => |items| > 0
    case OtherArg(truthy) => truthy
  }

  /** What a list property's setter does with its argument: None becomes the
      empty list, a list is kept, anything else raises TypeError. */
  function SetList<T>(a: Arg<T>): (r: Result<seq<T>>)
    ensures r.Failure? <==> a.OtherArg?
    ensures r.Failure? ==> r.error == TypeError
    ensures a.NoneArg? ==> r == Success([])
    ensures a.ListArg? ==> r == Success(a.items)
  {
    match a
    case NoneArg => Success([])
    case ListArg(items) => Success(items)
    case OtherArg(_) => Failure(TypeError)
  }

  // ---------------------------------------------------------------------------
  // JSON values, as `to_json` builds them (dictionaries keep insertion order)
  // ---------------------------------------------------------------------------

  datatype Json = Str(s: string) | Arr(items: seq<Json>) | Obj(fields: seq<(string, Json)>)

  function Keys(j: Json): seq<string>
    requires j.Obj?
  {
    seq(|j.fields|, i requires 0 <= i < |j.fields| => j.fields[i].0)
  }

  function Strings(xs: seq<string>): (j: Json)
    ensures j.Arr? && |j.items| == |xs|
    ensures forall i :: 0 <= i < |xs| ==> j.items[i] == Str(xs[i])
  {
    Arr(seq(|xs|, i requires 0 <= i < |xs| => Str(xs[i])))
  }

  function DecodeStrings(j: Json): Option<seq<string>>
  {
    if j.Arr? && forall i :: 0 <= i < |j.items| ==> j.items[i].Str?
    then Some(seq(|j.items|, i requires 0 <= i < |j.items| => j.items[i].s))
    else None
  }

  lemma StringsRoundTrip(xs: seq<string>)
    ensures DecodeStrings(Strings(xs)) == Some(xs)
  {
    var j := Strings(xs);
    assert forall i :: 0 <= i < |j.items| ==> j.items[i].Str?;
    var back := DecodeStrings(j).value;
    assert |back| == |xs|;
    forall i | 0 <= i < |xs| ensures back[i] == xs[i] {
      assert j.items[i] == Str(xs[i]);
    }
    assert back == xs;
  }

  // ---------------------------------------------------------------------------
  // RelatedWord and Pronunciation
  // ---------------------------------------------------------------------------

  datatype RelatedWord = RelatedWord(relationshipType: string, words: seq<string>)

  /** `RelatedWord(relationship_type, words)`: a falsy type becomes "", falsy
      words become []. */
  function MakeRelatedWord(relationshipType: Option<string> := None, words: Option<seq<string>> := None): (r: RelatedWord)
    ensures r.relationshipType == (if relationshipType.Some? then relationshipType.value else "")
    ensures r.words == (if words.Some? then words.value else [])
  {
    RelatedWord(TextOrEmpty(relationshipType), ListOrEmpty(words))
  }

  /** `RelatedWord.to_json()`: exactly the keys "relationship_type" and
      "words", in that order. */
  function RelatedWordJson(rw: RelatedWord): (j: Json)
    ensures j.Obj? && Keys(j) == ["relationship_type", "words"]
  {
    Obj([("relationship_type", Str(rw.relationshipType)), ("words", Strings(rw.words))])
  }

  function DecodeRelatedWord(j: Json): Option<RelatedWord>
  {
    if j.Obj? && |j.fields| == 2
       && j.fields[0].0 == "relationship_type" && j.fields[0].1.Str?
       && j.fields[1].0 == "words" && DecodeStrings(j.fields[1].1).Some?
    then Some(RelatedWord(j.fields[0].1.s, DecodeStrings(j.fields[1].1).value))
    else None
  }

  lemma RelatedWordRoundTrip(rw: RelatedWord)
    ensures DecodeRelatedWord(RelatedWordJson(rw)) == Some(rw)
  {
    StringsRoundTrip(rw.words);
  }

  datatype Pronunciation = Pronunciation(text: seq<string>, audio: seq<string>)

  /** `Pronunciation(text, audio)`: only None becomes []; a given empty list
      is kept. */
  function MakePronunciation(text: Option<seq<string>> := None, audio: Option<seq<string>> := None): (r: Pronunciation)
    ensures text.Some? ==> r.text == text.value
    ensures text.None? ==> r.text == []
    ensures audio.Some? ==> r.audio == audio.value
    ensures audio.None? ==> r.audio == []
  {
    Pronunciation(if text.Some? then text.value else [], if audio.Some? then audio.value else [])
  }

  // ---------------------------------------------------------------------------
  // Definition
  // ---------------------------------------------------------------------------

  /** The state of a `Definition`. The texts are the empty string when the
      constructor was given none, which `to_json` writes as "". */
  datatype DefinitionFields = DefinitionFields(
    partOfSpeech: string,
    texts: seq<string>,
    relatedWords: seq<RelatedWord>,
    exampleUses: seq<string>)

  function TextsJson(texts: seq<string>): Json
  {
    if |texts| == 0 then Str("") else Strings(texts)
  }

  function DecodeTexts(j: Json): Option<seq<string>>
  {
    if j == Str("") then Some([]) else DecodeStrings(j)
  }

  function RelatedWordsJson(rws: seq<RelatedWord>): (j: Json)
    ensures j.Arr? && |j.items| == |rws|
    ensures forall i :: 0 <= i < |rws| ==> j.items[i] == RelatedWordJson(rws[i])
  {
    Arr(seq(|rws|, i requires 0 <= i < |rws| => RelatedWordJson(rws[i])))
  }

  function DecodeRelatedWords(j: Json): Option<seq<RelatedWord>>
  {
    if j.Arr? && forall i :: 0 <= i < |j.items| ==> DecodeRelatedWord(j.items[i]).Some?
    then Some(seq(|j.items|, i requires 0 <= i < |j.items| => DecodeRelatedWord(j.items[i]).value))
    else None
  }

  /** `Definition.to_json()`: the four fields, the related words each through
      `RelatedWord.to_json()` in order. */
  function DefinitionJson(d: DefinitionFields): (j: Json)
    ensures j.Obj? && Keys(j) == ["part_of_speech", "texts", "related_words", "example_uses"]
  {
    Obj([
      ("part_of_speech", Str(d.partOfSpeech)),
      ("texts", TextsJson(d.texts)),
      ("related_words", RelatedWordsJson(d.relatedWords)),
      ("example_uses", Strings(d.exampleUses))])
  }

  function DecodeDefinition(j: Json): Option<DefinitionFields>
  {
    if j.Obj? && |j.fields| == 4
       && j.fields[0].0 == "part_of_speech" && j.fields[0].1.Str?
       && j.fields[1].0 == "texts" && DecodeTexts(j.fields[1].1).Some?
       && j.fields[2].0 == "related_words" && DecodeRelatedWords(j.fields[2].1).Some?
       && j.fields[3].0 == "example_uses" && DecodeStrings(j.fields[3].1).Some?
    then Some(DefinitionFields(
      j.fields[0].1.s,
      DecodeTexts(j.fields[1].1).value,
      DecodeRelatedWords(j.fields[2].1).value,
      DecodeStrings(j.fields[3].1).value))
    else None
  }

  lemma RelatedWordsRoundTrip(rws: seq<RelatedWord>)
    ensures DecodeRelatedWords(RelatedWordsJson(rws)) == Some(rws)
  {
    var j := RelatedWordsJson(rws);
    forall i | 0 <= i < |rws| ensures DecodeRelatedWord(j.items[i]) == Some(rws[i]) {
      RelatedWordRoundTrip(rws[i]);
    }
    var back := DecodeRelatedWords(j).value;
    assert |back| == |rws|;
    forall i | 0 <= i < |rws| ensures back[i] == rws[i] {
      assert DecodeRelatedWord(j.items[i]) == Some(rws[i]);
    }
    assert back == rws;
  }

  /** Everything `to_json` writes of a definition can be read back. */
  lemma DefinitionRoundTrip(d: DefinitionFields)
    ensures DecodeDefinition(DefinitionJson(d)) == Some(d)
  {
    StringsRoundTrip(d.texts);
    StringsRoundTrip(d.exampleUses);
    RelatedWordsRoundTrip(d.relatedWords);
  }

  class Definition {
    var partOfSpeech: string
    var texts: seq<string>
    var relatedWords: seq<RelatedWord>
    var exampleUses: seq<string>

    constructor()
      ensures partOfSpeech == "" && texts == [] && relatedWords == [] && exampleUses == []
    {
      partOfSpeech := "";
      texts := [];
      relatedWords := [];
      exampleUses := [];
    }

    function Fields(): DefinitionFields
      reads this
    {
      DefinitionFields(partOfSpeech, texts, relatedWords, exampleUses)
    }

    function ToJson(): (j: Json)
      reads this
      ensures DecodeDefinition(j) == Some(Fields())
    {
      DefinitionRoundTrip(Fields());
      DefinitionJson(Fields())
    }

    /** The `related_words` setter: None stores [], a list is stored as it is,
        anything else raises TypeError and leaves the definition as it was. */
    method SetRelatedWords(relatedWords: Arg<RelatedWord>) returns (o: Outcome)
      modifies this
      ensures o.Fail? <==> relatedWords.OtherArg?
      ensures o.Fail? ==> o.error == TypeError && unchanged(this)
      ensures o.Pass? ==>
        && Success(this.relatedWords) == SetList(relatedWords)
        && partOfSpeech == old(partOfSpeech) && texts == old(texts) && exampleUses == old(exampleUses)
    {
      match relatedWords
      case NoneArg =>
        this.relatedWords := [];
        o := Pass;
      case ListArg(items) =>
        this.relatedWords := items;
        o := Pass;
      case OtherArg(_) =>
        o := Fail(TypeError);
    }

    /** `Definition(part_of_speech, text, related_words, example_uses)`: falsy
        arguments become "" or []; a truthy `related_words` that is not a list
        raises TypeError in the setter. */
    static method Create(
      partOfSpeech: Option<string>,
      text: Option<seq<string>>,
      relatedWords: Arg<RelatedWord>,
      exampleUses: Option<seq<string>>) returns (r: Result<Definition>)
      ensures r.Failure? <==> relatedWords.OtherArg? && relatedWords.truthy
      ensures r.Failure? ==> r.error == TypeError
      ensures r.Success? ==> fresh(r.value) && r.value.Fields() == DefinitionFields(
        TextOrEmpty(partOfSpeech),
        ListOrEmpty(text),
        if ArgTruthy(relatedWords) then relatedWords.items else [],
        ListOrEmpty(exampleUses))
    {
      var d := new Definition();
      d.partOfSpeech := TextOrEmpty(partOfSpeech);
      d.texts := ListOrEmpty(text);
      var o := d.SetRelatedWords(if ArgTruthy(relatedWords) then relatedWords else ListArg([]));
      if o.Fail? {
        return Failure(o.error);
      }
      d.exampleUses := ListOrEmpty(exampleUses);
      return Success(d);
    }
  }

  // ---------------------------------------------------------------------------
  // WordData
  // ---------------------------------------------------------------------------

  /** The state of a `WordData`, with its definitions' states. */
  datatype WordFields = WordFields(
    etymology: string,
    definitions: seq<DefinitionFields>,
    pronunciations: seq<string>,
    audioLinks: seq<string>)

  /** `WordData.to_json()`: the etymology, every definition through
      `Definition.to_json()` in order, and the pronunciation texts and audio
      links packed under "pronunciations". */
  function WordJson(w: WordFields): (j: Json)
    ensures j.Obj? && Keys(j) == ["etymology", "definitions", "pronunciations"]
    ensures j.fields[1].1.Arr? && |j.fields[1].1.items| == |w.definitions|
    ensures forall i :: 0 <= i < |w.definitions| ==> j.fields[1].1.items[i] == DefinitionJson(w.definitions[i])
    ensures j.fields[2].1 == Obj([("text", Strings(w.pronunciations)), ("audio", Strings(w.audioLinks))])
  {
    Obj([
      ("etymology", Str(w.etymology)),
      ("definitions", Arr(seq(|w.definitions|, i requires 0 <= i < |w.definitions| => DefinitionJson(w.definitions[i])))),
      ("pronunciations", Obj([("text", Strings(w.pronunciations)), ("audio", Strings(w.audioLinks))]))])
  }

  function DecodeDefinitions(j: Json): Option<seq<DefinitionFields>>
  {
    if j.Arr? && forall i :: 0 <= i < |j.items| ==> DecodeDefinition(j.items[i]).Some?
    then Some(seq(|j.items|, i requires 0 <= i < |j.items| => DecodeDefinition(j.items[i]).value))
    else None
  }

  function DecodeWord(j: Json): Option<WordFields>
  {
    if j.Obj? && |j.fields| == 3
       && j.fields[0].0 == "etymology" && j.fields[0].1.Str?
       && j.fields[1].0 == "definitions" && DecodeDefinitions(j.fields[1].1).Some?
       && j.fields[2].0 == "pronunciations" && j.fields[2].1.Obj? && |j.fields[2].1.fields| == 2
       && j.fields[2].1.fields[0].0 == "text" && DecodeStrings(j.fields[2].1.fields[0].1).Some?
       && j.fields[2].1.fields[1].0 == "audio" && DecodeStrings(j.fields[2].1.fields[1].1).Some?
    then Some(WordFields(
      j.fields[0].1.s,
      DecodeDefinitions(j.fields[1].1).value,
      DecodeStrings(j.fields[2].1.fields[0].1).value,
      DecodeStrings(j.fields[2].1.fields[1].1).value))
    else None
  }

  /** Everything `to_json` writes of a word can be read back. */
  lemma WordRoundTrip(w: WordFields)
    ensures DecodeWord(WordJson(w)) == Some(w)
  {
    var j := WordJson(w);
    var ds := j.fields[1].1;
    forall i | 0 <= i < |w.definitions| ensures DecodeDefinition(ds.items[i]) == Some(w.definitions[i]) {
      DefinitionRoundTrip(w.definitions[i]);
    }
    var back := DecodeDefinitions(ds).value;
    assert |back| == |w.definitions|;
    forall i | 0 <= i < |w.definitions| ensures back[i] == w.definitions[i] {
      assert DecodeDefinition(ds.items[i]) == Some(w.definitions[i]);
    }
    assert back == w.definitions;
    StringsRoundTrip(w.pronunciations);
    StringsRoundTrip(w.audioLinks);
  }

  class WordData {
    var etymology: string
    var definitionList: seq<Definition>
    var pronunciations: seq<string>
    var audioLinks: seq<string>

    constructor()
      ensures etymology == "" && definitionList == [] && pronunciations == [] && audioLinks == []
    {
      etymology := "";
      definitionList := [];
      pronunciations := [];
      audioLinks := [];
    }

    function Fields(): (w: WordFields)
      reads this, definitionList
      ensures |w.definitions| == |definitionList|
      ensures forall i :: 0 <= i < |definitionList| ==> w.definitions[i] == definitionList[i].Fields()
    {
      var defs := definitionList;
      WordFields(
        etymology,
        seq(|defs|, i requires 0 <= i < |defs| reads defs => defs[i].Fields()),
        pronunciations,
        audioLinks)
    }

    function ToJson(): (j: Json)
      reads this, definitionList
      ensures DecodeWord(j) == Some(Fields())
    {
      WordRoundTrip(Fields());
      WordJson(Fields())
    }

    /** The `definition_list` setter: None stores [], a list is stored as it
        is, anything else raises TypeError and leaves the word as it was. */
    method SetDefinitionList(definitions: Arg<Definition>) returns (o: Outcome)
      modifies this
      ensures o.Fail? <==> definitions.OtherArg?
      ensures o.Fail? ==> o.error == TypeError && unchanged(this)
      ensures o.Pass? ==>
        && Success(definitionList) == SetList(definitions)
        && etymology == old(etymology) && pronunciations == old(pronunciations) && audioLinks == old(audioLinks)
    {
      match definitions
      case NoneArg =>
        definitionList := [];
        o := Pass;
      case ListArg(items) =>
        definitionList := items;
        o := Pass;
      case OtherArg(_) =>
        o := Fail(TypeError);
    }

    /** `WordData(etymology, definitions, pronunciations, audio_links)`: a
        falsy etymology, pronunciations or audio links become "" or []; the
        definitions go to the setter as given, so any non-list, falsy or not,
        raises TypeError. */
    static method Create(
      etymology: Option<string>,
      definitions: Arg<Definition>,
      pronunciations: Option<seq<string>>,
      audioLinks: Option<seq<string>>) returns (r: Result<WordData>)
      ensures r.Failure? <==> definitions.OtherArg?
      ensures r.Failure? ==> r.error == TypeError
      ensures r.Success? ==>
        && fresh(r.value)
        && r.value.etymology == TextOrEmpty(etymology)
        && Success(r.value.definitionList) == SetList(definitions)
        && r.value.pronunciations == ListOrEmpty(pronunciations)
        && r.value.audioLinks == ListOrEmpty(audioLinks)
    {
      var w := new WordData();
      w.etymology := TextOrEmpty(etymology);
      var o := w.SetDefinitionList(definitions);
      if o.Fail? {
        return Failure(o.error);
      }
      w.pronunciations := ListOrEmpty(pronunciations);
      w.audioLinks := ListOrEmpty(audioLinks);
      return Success(w);
    }
  }
}
