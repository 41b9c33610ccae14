/** english_dictionary/api.py, `BaseAPIBuilder.from_free_dictionary_api`: the
    records of the Free Dictionary API reshaped into the dictionary's own
    `{name, etymology, pronunciations, meanings[definitions[related_words]]}`
    form. A key the code reads with `.get` is an `Option`: an absent key and a
    JSON null both read as `None`. */
module Api {

  import opened Common

  // ---------------------------------------------------------------------------
  // The API's records (only the keys the builder reads)
  // ---------------------------------------------------------------------------

  /** One element of `phonetics`; the builder passes these through untouched. */
  datatype Phonetic = Phonetic(text: Option<string>, audio: Option<string>)

  datatype RawDefinition = RawDefinition(
    definition: Option<string>,
    example: Option<string>,
    synonyms: Option<seq<string>>,
    antonyms: Option<seq<string>>)

  datatype RawMeaning = RawMeaning(
    partOfSpeech: Option<string>,
    definitions: Option<seq<RawDefinition>>)

  datatype RawRecord = RawRecord(
    word: Option<string>,
    phonetics: Option<seq<Phonetic>>,
    origin: Option<string>,
    meanings: Option<seq<RawMeaning>>)

  // ---------------------------------------------------------------------------
  // The canonical form
  // ---------------------------------------------------------------------------

  datatype RelatedWords = RelatedWords(relationshipType: string, words: Option<seq<string>>)

  datatype Definition = Definition(
    definition: Option<string>,
    example: Option<string>,
    relatedWords: seq<RelatedWords>)

  datatype Meaning = Meaning(partOfSpeech: Option<string>, definitions: seq<Definition>)

  datatype Entry = Entry(
    name: Option<string>,
    pronunciations: Option<seq<Phonetic>>,
    etymology: Option<string>,
    meanings: seq<Meaning>)

  const Synonyms: string := "synonyms"
  const Antonyms: string := "antonyms"

  // ---------------------------------------------------------------------------
  // from_free_dictionary_api
  // ---------------------------------------------------------------------------

  /** The innermost dict: `definition` and `example` copied, and always the two
      groups "synonyms" then "antonyms", each holding whatever the key held. */
  function NormalizeDefinition(d: RawDefinition): Definition
  {
    Definition(d.definition, d.example,
      [RelatedWords(Synonyms, d.synonyms), RelatedWords(Antonyms, d.antonyms)])
  }

  function NormalizeDefinitions(ds: seq<RawDefinition>): (r: seq<Definition>)
    ensures |r| == |ds|
    ensures forall i :: 0 <= i < |ds| ==> r[i] == NormalizeDefinition(ds[i])
  {
    seq(|ds|, i requires 0 <= i < |ds| => NormalizeDefinition(ds[i]))
  }

  /** One meaning; iterating a missing `definitions` (None) raises TypeError. */
  function NormalizeMeaning(m: RawMeaning): (r: Result<Meaning>)
    ensures r.Success? <==> m.definitions.Some?
    ensures r.Failure? ==> r.error == TypeError
    ensures r.Success? ==>
      r.value.partOfSpeech == m.partOfSpeech &&
      r.value.definitions == NormalizeDefinitions(m.definitions.value)
  {
    match m.definitions
    case None => Failure(TypeError)
    case Some(ds) => Success(Meaning(m.partOfSpeech, NormalizeDefinitions(ds)))
  }

  /** The list comprehension over `meanings`, which raises as soon as one
      meaning does. */
  function NormalizeMeanings(ms: seq<RawMeaning>): (r: Result<seq<Meaning>>)
    ensures r.Success? <==> forall i :: 0 <= i < |ms| ==> ms[i].definitions.Some?
    ensures r.Failure? ==> r.error == TypeError
    ensures r.Success? ==>
      |r.value| == |ms| &&
      (forall i :: 0 <= i < |ms| ==> NormalizeMeaning(ms[i]) == Success(r.value[i]))
  {
    if |ms| == 0 then Success([])
    else
      match NormalizeMeaning(ms[0])
      case Failure(e) => Failure(e)
      case Success(m) =>
        match NormalizeMeanings(ms[1..])
        case Failure(e) => Failure(e)
        case Success(rest) => Success([m] + rest)
  }

  /** Every record has its meanings, and every meaning its definitions: the
      inputs the builder does not raise on. */
  predicate Complete(g: RawRecord)
  {
    g.meanings.Some? &&
    forall i :: 0 <= i < |g.meanings.value| ==> g.meanings.value[i].definitions.Some?
  }

  /** One record: `name`, `pronunciations` and `etymology` are `word`,
      `phonetics` and `origin` as they are; a missing `meanings` raises. */
  function NormalizeRecord(g: RawRecord): (r: Result<Entry>)
    ensures r.Success? <==> Complete(g)
    ensures r.Failure? ==> r.error == TypeError
    ensures r.Success? ==>
      r.value.name == g.word && r.value.pronunciations == g.phonetics &&
      r.value.etymology == g.origin &&
      NormalizeMeanings(g.meanings.value) == Success(r.value.meanings)
  {
    match g.meanings
    case None => Failure(TypeError)
    case Some(ms) =>
      match NormalizeMeanings(ms)
      case Failure(e) => Failure(e)
      case Success(meanings) => Success(Entry(g.word, g.phonetics, g.origin, meanings))
  }

  /** `from_free_dictionary_api(api)`: one entry per record, in order, or the
      TypeError of the first incomplete record. */
  function FromFreeDictionaryApi(api: seq<RawRecord>): (r: Result<seq<Entry>>)
    ensures r.Success? <==> forall i :: 0 <= i < |api| ==> Complete(api[i])
    ensures r.Failure? ==> r.error == TypeError
    ensures r.Success? ==>
      |r.value| == |api| &&
      (forall i :: 0 <= i < |api| ==> NormalizeRecord(api[i]) == Success(r.value[i]))
  {
    if |api| == 0 then Success([])
    else
      match NormalizeRecord(api[0])
      case Failure(e) => Failure(e)
      case Success(entry) =>
        match FromFreeDictionaryApi(api[1..])
        case Failure(e) => Failure(e)
        case Success(rest) => Success([entry] + rest)
  }

  // ---------------------------------------------------------------------------
  // The partner: reading the canonical form back as API records
  // ---------------------------------------------------------------------------

  /** A canonical definition as the builder makes them: exactly the groups
      "synonyms" and "antonyms", in that order. */
  predicate WellFormedDefinition(d: Definition)
  {
    |d.relatedWords| == 2 &&
    d.relatedWords[0].relationshipType == Synonyms &&
    d.relatedWords[1].relationshipType == Antonyms
  }

  predicate WellFormedEntry(e: Entry)
  {
    forall i, j :: 0 <= i < |e.meanings| && 0 <= j < |e.meanings[i].definitions| ==>
      WellFormedDefinition(e.meanings[i].definitions[j])
  }

  function WordsOf(d: Definition, k: nat): Option<seq<string>>
  {
    if k < |d.relatedWords| then d.relatedWords[k].words else None
  }

  function DefinitionToRaw(d: Definition): RawDefinition
  {
    RawDefinition(d.definition, d.example, WordsOf(d, 0), WordsOf(d, 1))
  }

  function MeaningToRaw(m: Meaning): RawMeaning
  {
    RawMeaning(m.partOfSpeech,
      Some(seq(|m.definitions|, j requires 0 <= j < |m.definitions| => DefinitionToRaw(m.definitions[j]))))
  }

  function EntryToRaw(e: Entry): RawRecord
  {
    RawRecord(e.name, e.pronunciations, e.etymology,
      Some(seq(|e.meanings|, i requires 0 <= i < |e.meanings| => MeaningToRaw(e.meanings[i]))))
  }

  lemma RecordWellFormed(g: RawRecord)
    requires NormalizeRecord(g).Success?
    ensures WellFormedEntry(NormalizeRecord(g).value)
  {
    var e := NormalizeRecord(g).value;
    var ms := g.meanings.value;
    forall i, j | 0 <= i < |e.meanings| && 0 <= j < |e.meanings[i].definitions|
      ensures WellFormedDefinition(e.meanings[i].definitions[j])
    {
      assert NormalizeMeaning(ms[i]) == Success(e.meanings[i]);
    }
  }

  /** Every definition the builder produces has the two groups "synonyms" and
      "antonyms", in that order. */
  lemma FromApiWellFormed(api: seq<RawRecord>)
    requires FromFreeDictionaryApi(api).Success?
    ensures forall k :: 0 <= k < |api| ==> WellFormedEntry(FromFreeDictionaryApi(api).value[k])
  {
    forall k | 0 <= k < |api| ensures WellFormedEntry(FromFreeDictionaryApi(api).value[k]) {
      RecordWellFormed(api[k]);
    }
  }

  lemma MeaningLossless(m: RawMeaning)
    requires m.definitions.Some?
    ensures MeaningToRaw(NormalizeMeaning(m).value) == m
  {
    var back := MeaningToRaw(NormalizeMeaning(m).value).definitions.value;
    assert back == m.definitions.value;
  }

  lemma RecordLossless(g: RawRecord)
    requires NormalizeRecord(g).Success?
    ensures EntryToRaw(NormalizeRecord(g).value) == g
  {
    var e := NormalizeRecord(g).value;
    var ms := g.meanings.value;
    forall i | 0 <= i < |ms| ensures MeaningToRaw(e.meanings[i]) == ms[i] {
      assert NormalizeMeaning(ms[i]) == Success(e.meanings[i]);
      MeaningLossless(ms[i]);
    }
    assert EntryToRaw(e).meanings.value == ms;
  }

  /** Nothing the builder reads is lost: every entry reads back as the record
      it came from. */
  lemma FromApiLossless(api: seq<RawRecord>)
    requires FromFreeDictionaryApi(api).Success?
    ensures forall k :: 0 <= k < |api| ==> EntryToRaw(FromFreeDictionaryApi(api).value[k]) == api[k]
  {
    forall k | 0 <= k < |api| ensures EntryToRaw(FromFreeDictionaryApi(api).value[k]) == api[k] {
      RecordLossless(api[k]);
    }
  }

  lemma DefinitionReadBack(d: Definition)
    requires WellFormedDefinition(d)
    ensures NormalizeDefinition(DefinitionToRaw(d)) == d
  {
    assert d.relatedWords == [d.relatedWords[0], d.relatedWords[1]];
  }

  lemma MeaningReadBack(m: Meaning)
    requires forall j :: 0 <= j < |m.definitions| ==> WellFormedDefinition(m.definitions[j])
    ensures NormalizeMeaning(MeaningToRaw(m)) == Success(m)
  {
    var got := NormalizeMeaning(MeaningToRaw(m)).value;
    forall j | 0 <= j < |m.definitions| ensures got.definitions[j] == m.definitions[j] {
      DefinitionReadBack(m.definitions[j]);
    }
    assert got.definitions == m.definitions;
  }

  lemma EntryReadBack(e: Entry)
    requires WellFormedEntry(e)
    ensures NormalizeRecord(EntryToRaw(e)) == Success(e)
  {
    var ms := EntryToRaw(e).meanings.value;
    forall i | 0 <= i < |ms| ensures NormalizeMeaning(ms[i]) == Success(e.meanings[i]) {
      MeaningReadBack(e.meanings[i]);
    }
    var got := NormalizeRecord(EntryToRaw(e)).value;
    assert got.meanings == e.meanings;
  }

  /** Conversely every well-formed canonical entry is what the builder makes of
      its read-back record. */
  lemma FromApiOfReadBack(es: seq<Entry>)
    requires forall k :: 0 <= k < |es| ==> WellFormedEntry(es[k])
    ensures FromFreeDictionaryApi(seq(|es|, k requires 0 <= k < |es| => EntryToRaw(es[k]))) == Success(es)
  {
    var api := seq(|es|, k requires 0 <= k < |es| => EntryToRaw(es[k]));
    forall k | 0 <= k < |es| ensures NormalizeRecord(api[k]) == Success(es[k]) {
      EntryReadBack(es[k]);
    }
    var r := FromFreeDictionaryApi(api).value;
    assert r == es;
  }

  /** A record shaped like the first meaning of the "hello" fixture, with
      no phonetics: no `synonyms` and no `antonyms` key gives both groups
      with `words` None, not an empty list; a record with no `origin` gives
      etymology None. */
  lemma MissingGroupsGiveNone()
    ensures var hello := RawRecord(Some("hello"), Some([]), None,
        Some([RawMeaning(Some("exclamation"), Some([RawDefinition(Some("Used as a greeting"), Some("hello there"), None, None)]))]));
      var r := FromFreeDictionaryApi([hello]);
      r.Success? && r.value[0].etymology.None? &&
      r.value[0].meanings[0].definitions[0].relatedWords ==
        [RelatedWords("synonyms", None), RelatedWords("antonyms", None)]
  {
  }
}
