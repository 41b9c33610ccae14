/** The dict a word is stored as, which both revisions of `WordData.from_dict`
    read (english_dictionary/types.py and utils/types.py): `{"name": ...,
    "data": [{"etymology": ..., "definitions": [{"part_of_speech", "texts",
    "related_words": [{"relationship_type", "words"}], "example_uses"}]}]}`.
    A key read with `.get` is an `Option`; a key read with `[...]` is a `Slot`,
    because there a missing key (KeyError) and a null differ. */
module Stored {

  import opened Common

  /** A related-words dict. It is falsy only when empty, i.e. when neither of
      its two keys is present. */
  datatype StoredRelated = StoredRelated(relationshipType: Slot<string>, words: Slot<seq<string>>)

  predicate NonEmpty(r: StoredRelated)
  {
    !r.relationshipType.Missing? || !r.words.Missing?
  }

  datatype StoredDefinition = StoredDefinition(
    partOfSpeech: Option<string>,
    texts: Option<seq<string>>,
    relatedWords: Slot<seq<StoredRelated>>,
    exampleUses: Option<seq<string>>)

  datatype StoredData = StoredData(etymology: Option<string>, definitions: Slot<seq<StoredDefinition>>)

  datatype StoredWord = StoredWord(name: Option<string>, data: Option<seq<StoredData>>)

  /** What both `from_dict`s take out of one element of `data`: the first
      definition, and its first related-words dict when that is truthy.
      `definitions` is read with `[...]` and indexed, `related_words` too. */
  function FirstDefinition(data: StoredData): (r: Result<(StoredDefinition, Option<StoredRelated>)>)
    ensures data.definitions.Missing? ==> r == Failure(KeyError)
    ensures data.definitions.Null? ==> r == Failure(TypeError)
    ensures data.definitions.Given? && |data.definitions.value| == 0 ==> r == Failure(IndexError)
    ensures data.definitions.Given? && |data.definitions.value| > 0 ==>
      var d := data.definitions.value[0];
      (d.relatedWords.Missing? <==> r == Failure(KeyError)) &&
      (r.Success? ==>
        && r.value.0 == d
        && (r.value.1.Some? <==> d.relatedWords.Given? && |d.relatedWords.value| > 0 && NonEmpty(d.relatedWords.value[0]))
        && (r.value.1.Some? ==> r.value.1.value == d.relatedWords.value[0]))
  {
    match data.definitions
    case Missing => Failure(KeyError)
    case Null => Failure(TypeError)
    case Given(defs) =>
      if |defs| == 0 then Failure(IndexError)
      else
        var d := defs[0];
        match d.relatedWords
        case Missing => Failure(KeyError)
        case Null => Success((d, None))
        case Given(related) =>
          if |related| > 0 && NonEmpty(related[0]) then Success((d, Some(related[0])))
          else Success((d, None))
  }
}
