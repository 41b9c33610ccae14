/** utils/types.py, the older revision of the container and the records: an
    `OrderedList` whose `append` scans linearly, whose `find` repeats the
    binary search inline and whose `index` collects every position in a loop;
    the records `RelatedWord`, `Pronunciation`, `Definition` and `WordData`
    with their `to_html`; and the `Dictionary` of words. */
module LegacyTypes {

  import opened Common
  import opened PyText
  import opened Ordering
  import opened Helpers
  import opened Stored

  // ---------------------------------------------------------------------------
  // Records
  // ---------------------------------------------------------------------------

  datatype RelatedWord = RelatedWord(relationshipType: string, words: seq<string>)

  /** `RelatedWord(relationship_type, words)`: a falsy type is stored as "",
      falsy words as []. */
  function MakeRelatedWord(relationshipType: Option<string>, words: Option<seq<string>>): (r: RelatedWord)
    ensures relationshipType.Some? && relationshipType.value != "" ==> r.relationshipType == relationshipType.value
    ensures relationshipType.None? || relationshipType.value == "" ==> r.relationshipType == ""
    ensures Truthy(words) ==> r.words == words.value
    ensures !Truthy(words) ==> r.words == []
  {
    RelatedWord(TextOrEmpty(relationshipType), if Truthy(words) then words.value else [])
  }

  datatype Pronunciation = Pronunciation(text: seq<string>, audio: seq<string>)

  /** `Pronunciation(text, audio)`: only `None` is replaced by [], so a given
      empty list is kept. */
  function MakePronunciation(text: Option<seq<string>> := None, audio: Option<seq<string>> := None): (r: Pronunciation)
    ensures text.Some? ==> r.text == text.value
    ensures text.None? ==> r.text == []
    ensures audio.Some? ==> r.audio == audio.value
    ensures audio.None? ==> r.audio == []
  {
    Pronunciation(if text.Some? then text.value else [], if audio.Some? then audio.value else [])
  }

  /** The `Definition` record: every field kept as given. */
  datatype Definition = Definition(
    partOfSpeech: Option<string>,
    texts: Option<seq<string>>,
    relatedWords: Option<seq<RelatedWord>>,
    exampleUses: Option<seq<string>>)

  datatype WordData = WordData(
    name: string,
    etymology: string,
    definitionList: Option<seq<Definition>>,
    pronunciations: Option<seq<Pronunciation>>)

  /** `WordData(name, etymology, definitions, pronunciations)`: the name is
      lower-cased (`None.lower()` raises AttributeError), a falsy etymology
      becomes "", the lists are kept as given. */
  function MakeWordData(
    name: Option<string>,
    etymology: Option<string> := None,
    definitions: Option<seq<Definition>> := None,
    pronunciations: Option<seq<Pronunciation>> := None): (r: Result<WordData>)
    ensures r.Failure? <==> name.None?
    ensures r.Failure? ==> r.error == AttributeError
    ensures r.Success? ==>
      && r.value.name == Lower(name.value) && IsLowerCase(r.value.name)
      && (etymology.Some? && etymology.value != "" ==> r.value.etymology == etymology.value)
      && (etymology.None? || etymology.value == "" ==> r.value.etymology == "")
      && r.value.definitionList == definitions
      && r.value.pronunciations == pronunciations
  {
    match name
    case None => Failure(AttributeError)
    case Some(n) => Success(WordData(Lower(n), TextOrEmpty(etymology), definitions, pronunciations))
  }

  // ---------------------------------------------------------------------------
  // to_html of the records
  // ---------------------------------------------------------------------------

  /** `RelatedWord.to_html()`: "Synonyms: a, b". */
  function RelatedWordHtml(rw: RelatedWord): string
  {
    Capitalize(rw.relationshipType) + ": " + Join(", ", rw.words)
  }

  /** `FormatWord.parse_related_words(definition)`: one line per related word. */
  function RelatedWordsHtml(rws: seq<RelatedWord>): (lines: seq<string>)
    ensures |lines| == |rws|
    ensures forall i :: 0 <= i < |rws| ==> lines[i] == RelatedWordHtml(rws[i])
  {
    seq(|rws|, i requires 0 <= i < |rws| => RelatedWordHtml(rws[i]))
  }

  /** `Pronunciation.to_html()`: the texts as a numbered list. */
  function PronunciationHtml(p: Pronunciation): string
  {
    ConvertToList(p.text)
  }

  /** The part of `Definition.to_html()` that is always there. */
  function DefinitionHeader(partOfSpeech: Option<string>): string
  {
    "<b>Part of speech:</b> " + OptionalText(partOfSpeech) + "<br />"
  }

  function ExamplesSection(d: Definition): string
  {
    if Truthy(d.exampleUses) then "<p><b>Examples:</b></p> <p>" + ConvertToList(d.exampleUses.value) + "</p>"
    else ""
  }

  function RelatedSection(d: Definition): string
  {
    if Truthy(d.relatedWords) then "<p><b>Related Words:</b></p> <p>" + ConvertToList(RelatedWordsHtml(d.relatedWords.value)) + "</p>"
    else ""
  }

  /** `Definition.to_html()`: the part of speech and the numbered texts, then
      the examples and the related words when there are any. Numbering `None`
      texts raises TypeError. */
  function DefinitionHtml(d: Definition): (r: Result<string>)
    ensures r.Failure? <==> d.texts.None?
    ensures r.Failure? ==> r.error == TypeError
  {
    if d.texts.None? then Failure(TypeError)
    else Success(DefinitionHeader(d.partOfSpeech) + ConvertToList(d.texts.value) + ExamplesSection(d) + RelatedSection(d))
  }

  /** The optional sections only ever append: the header and texts come first,
      and nothing follows them exactly when there are neither example uses nor
      related words. */
  lemma DefinitionSectionsAppend(d: Definition)
    requires d.texts.Some?
    ensures var bare := DefinitionHeader(d.partOfSpeech) + ConvertToList(d.texts.value);
      var html := DefinitionHtml(d).value;
      && |bare| <= |html| && html[..|bare|] == bare
      && (html == bare <==> !Truthy(d.exampleUses) && !Truthy(d.relatedWords))
  {
    var bare := DefinitionHeader(d.partOfSpeech) + ConvertToList(d.texts.value);
    var tail := ExamplesSection(d) + RelatedSection(d);
    assert DefinitionHtml(d).value == bare + tail;
    assert |tail| == 0 <==> !Truthy(d.exampleUses) && !Truthy(d.relatedWords) by {
      assert Truthy(d.exampleUses) ==> |ExamplesSection(d)| > 0;
      assert Truthy(d.relatedWords) ==> |RelatedSection(d)| > 0;
    }
    PrefixOfConcat(bare, tail);
  }

  /** The texts of a definition read back from its HTML when nothing follows
      them. */
  lemma DefinitionTextsReadBack(d: Definition)
    requires Truthy(d.texts) && SingleLines(d.texts.value)
    requires !Truthy(d.exampleUses) && !Truthy(d.relatedWords)
    ensures var header := DefinitionHeader(d.partOfSpeech);
      var html := DefinitionHtml(d).value;
      && |header| <= |html| && html[..|header|] == header
      && ReadNumberedList(html[|header|..], 1) == d.texts.value
  {
    var header := DefinitionHeader(d.partOfSpeech);
    var html := DefinitionHtml(d).value;
    assert html == header + ConvertToList(d.texts.value);
    assert html[|header|..] == ConvertToList(d.texts.value);
    ConvertToListRoundTrip(d.texts.value, 1);
  }

  // ---------------------------------------------------------------------------
  // from_dict
  // ---------------------------------------------------------------------------

  function RelatedOf(related: Option<StoredRelated>): Option<seq<RelatedWord>>
  {
    match related
    case None => None
    case Some(rw) => Some([MakeRelatedWord(Get(rw.relationshipType), Get(rw.words))])
  }

  /** `WordData.from_dict(word_data)` of this revision: `data` is indexed
      without a check, so `None` raises TypeError and [] IndexError; the word
      keeps the first definition of the first group, with only its first
      related-words group. */
  function FromDict(d: StoredWord): (r: Result<WordData>)
    ensures d.data.None? ==> r == Failure(TypeError)
    ensures d.data.Some? && |d.data.value| == 0 ==> r == Failure(IndexError)
    ensures d.data.Some? && |d.data.value| > 0 && FirstDefinition(d.data.value[0]).Success? ==>
      (r.Success? <==> d.name.Some?)
    ensures r.Success? ==>
      && d.name.Some? && r.value.name == Lower(d.name.value)
      && r.value.etymology == TextOrEmpty(d.data.value[0].etymology)
      && r.value.pronunciations.None?
      && r.value.definitionList.Some? && |r.value.definitionList.value| == 1
      && (var def := r.value.definitionList.value[0];
          def.relatedWords.None? || |def.relatedWords.value| == 1)
    ensures r.Success? ==>
      d.data.value[0].definitions.Given? && |d.data.value[0].definitions.value| > 0
    ensures r.Success? ==>
      var d0 := d.data.value[0].definitions.value[0];
      var def := r.value.definitionList.value[0];
      && def.partOfSpeech == d0.partOfSpeech && def.texts == d0.texts && def.exampleUses == d0.exampleUses
      && (def.relatedWords.Some? <==>
            d0.relatedWords.Given? && |d0.relatedWords.value| > 0 && NonEmpty(d0.relatedWords.value[0]))
      && (def.relatedWords.Some? ==>
            var rw := d0.relatedWords.value[0];
            def.relatedWords.value == [MakeRelatedWord(Get(rw.relationshipType), Get(rw.words))])
  {
    match d.data
    case None => Failure(TypeError)
    case Some(groups) =>
      if |groups| == 0 then Failure(IndexError)
      else
        match FirstDefinition(groups[0])
        case Failure(e) => Failure(e)
        case Success((definition, related)) =>
          MakeWordData(d.name, groups[0].etymology,
            Some([Definition(definition.partOfSpeech, definition.texts, RelatedOf(related), definition.exampleUses)]))
  }

  /** The dict a word is written as. */
  function StoreDefinition(def: Definition): StoredDefinition
  {
    StoredDefinition(def.partOfSpeech, def.texts,
      match def.relatedWords
      case None => Null
      case Some(rws) => Given(seq(|rws|, i requires 0 <= i < |rws| =>
        StoredRelated(Given(rws[i].relationshipType), Given(rws[i].words)))),
      def.exampleUses)
  }

  function StoreWord(w: WordData): StoredWord
  {
    var defs := if w.definitionList.Some? then w.definitionList.value else [];
    StoredWord(Some(w.name), Some([StoredData(Some(w.etymology),
      Given(seq(|defs|, i requires 0 <= i < |defs| => StoreDefinition(defs[i]))))]))
  }

  /** The words `from_dict` can give back whole: a lower-case name, no
      pronunciations, exactly one definition, and at most one related-words
      group in it. */
  predicate Storable(w: WordData)
  {
    && IsLowerCase(w.name)
    && w.pronunciations.None?
    && w.definitionList.Some? && |w.definitionList.value| == 1
    && (var rw := w.definitionList.value[0].relatedWords; rw.None? || |rw.value| == 1)
  }

  /** `from_dict` reads back every storable word from its dict. */
  lemma FromDictOfStored(w: WordData)
    requires Storable(w)
    ensures FromDict(StoreWord(w)) == Success(w)
  {
    LowerOfLowerCase(w.name);
    var def := w.definitionList.value[0];
    assert w.definitionList.value == [def];
    var stored := StoreWord(w).data.value[0];
    assert stored.definitions.value[0] == StoreDefinition(def);
    match def.relatedWords
    case None =>
    case Some(rws) =>
      var rw := rws[0];
      assert StoreDefinition(def).relatedWords.value[0] == StoredRelated(Given(rw.relationshipType), Given(rw.words));
      assert MakeRelatedWord(Some(rw.relationshipType), Some(rw.words)) == rw;
      assert rws == [rw];
  }

  // ---------------------------------------------------------------------------
  // The elements of an OrderedList
  // ---------------------------------------------------------------------------

  datatype Item = IntItem(n: int) | StrItem(s: string) | WordItem(word: WordData)

  datatype Tag = IntTag | StrTag | WordTag

  function TypeOf(x: Item): Tag
  {
    match x
    case IntItem(_) => IntTag
    case StrItem(_) => StrTag
    case WordItem(_) => WordTag
  }

  /** What `==`, `>` and `<` see of an element: a `WordData` compares by its
      name (utils/types.py `__gt__`, `__eq__`). */
  function KeyOf(x: Item): Key
  {
    match x
    case IntItem(n) => IntKey(n)
    case StrItem(s) => StrKey(s)
    case WordItem(w) => StrKey(w.name)
  }

  function Keys(list: seq<Item>): (ks: seq<Key>)
    ensures |ks| == |list|
    ensures forall i :: 0 <= i < |list| ==> ks[i] == KeyOf(list[i])
  {
    seq(|list|, i requires 0 <= i < |list| => KeyOf(list[i]))
  }

  /** `str(x)`; a `WordData` prints as its name. */
  function Str(x: Item): string
  {
    match x
    case IntItem(n) => Decimal(n)
    case StrItem(s) => s
    case WordItem(w) => w.name
  }

  function Names(list: seq<Item>): (names: seq<string>)
    ensures |names| == |list|
    ensures forall i :: 0 <= i < |list| ==> names[i] == Str(list[i])
  {
    seq(|list|, i requires 0 <= i < |list| => Str(list[i]))
  }

  // ---------------------------------------------------------------------------
  // What the OrderedList operations do, as functions of the list
  // ---------------------------------------------------------------------------

  predicate ValidList(list: seq<Item>, allowDuplicates: bool, instance: Tag)
  {
    && (forall i :: 0 <= i < |list| ==> TypeOf(list[i]) == instance)
    && Sorted(Keys(list))
    && (!allowDuplicates ==> StrictlySorted(Keys(list)))
  }

  /** `append(item)`: ValueError for a wrong type; nothing when duplicates are
      not allowed and an equal element is in the list (`item in self`, a
      linear scan); otherwise an insertion before the first element the item
      is not greater than, or at the end. */
  function AppendResult(list: seq<Item>, allowDuplicates: bool, instance: Tag, item: Item): Result<seq<Item>>
  {
    if TypeOf(item) != instance then Failure(ValueError)
    else if !allowDuplicates && exists j :: 0 <= j < |list| && KeyOf(list[j]) == KeyOf(item) then Success(list)
    else
      var ks := Keys(list);
      Success(Insert(list, InsertionPoint(ks, KeyOf(item)), item))
  }

  /** `append` keeps the list sorted (strictly without duplicates), adds
      exactly the item or nothing for a duplicate, and fails only on the type
      check. */
  lemma {:induction false} AppendKeepsValid(list: seq<Item>, allowDuplicates: bool, instance: Tag, item: Item)
    requires ValidList(list, allowDuplicates, instance)
    ensures var r := AppendResult(list, allowDuplicates, instance, item);
      && (r.Failure? <==> TypeOf(item) != instance)
      && (r.Failure? ==> r.error == ValueError)
      && (r.Success? ==> ValidList(r.value, allowDuplicates, instance) && KeyOf(item) in Keys(r.value))
      && (r.Success? && !allowDuplicates && KeyOf(item) in Keys(list) ==> r.value == list)
      && (r.Success? && (allowDuplicates || KeyOf(item) !in Keys(list)) ==>
            multiset(r.value) == multiset(list) + multiset{item})
  {
    var ks := Keys(list);
    var k := KeyOf(item);
    AppendStaysValid(list, allowDuplicates, instance, item);
    if TypeOf(item) == instance && (allowDuplicates || k !in ks) {
      assert Keys(Insert(list, InsertionPoint(ks, k), item))[InsertionPoint(ks, k)] == k;
    } else if TypeOf(item) == instance {
      var j :| 0 <= j < |ks| && ks[j] == k;
      assert KeyOf(list[j]) == k;
    }
  }

  /** The part of `AppendKeepsValid` the class needs: a successful `append`
      leaves a valid list. */
  lemma AppendStaysValid(list: seq<Item>, allowDuplicates: bool, instance: Tag, item: Item)
    requires ValidList(list, allowDuplicates, instance)
    ensures var r := AppendResult(list, allowDuplicates, instance, item);
      r.Success? ==> ValidList(r.value, allowDuplicates, instance)
  {
    var ks := Keys(list);
    var k := KeyOf(item);
    if TypeOf(item) == instance && (allowDuplicates || k !in ks) {
      if !allowDuplicates {
        assert !exists j :: 0 <= j < |list| && KeyOf(list[j]) == k by {
          forall j | 0 <= j < |list| ensures KeyOf(list[j]) != k {
            assert ks[j] == KeyOf(list[j]);
          }
        }
      }
      var p := InsertionPoint(ks, k);
      assert AppendResult(list, allowDuplicates, instance, item) == Success(Insert(list, p, item));
      KeysInsert(list, p, item);
      InsertKeepsSorted(ks, k);
    }
  }

  lemma KeysInsert(list: seq<Item>, p: nat, x: Item)
    requires p <= |list|
    ensures Keys(Insert(list, p, x)) == Insert(Keys(list), p, KeyOf(x))
  {
  }

  /** `append_multiple(items)`: one `append` after another, stopping at the
      first that raises (the earlier ones stay done). */
  function AppendAll(list: seq<Item>, allowDuplicates: bool, instance: Tag, items: seq<Item>): (seq<Item>, Outcome)
    decreases |items|
  {
    if |items| == 0 then (list, Pass)
    else
      match AppendResult(list, allowDuplicates, instance, items[0])
      case Failure(e) => (list, Fail(e))
      case Success(next) => AppendAll(next, allowDuplicates, instance, items[1..])
  }

  /** `append_multiple` keeps the invariant, and when it passes every item is
      in the list afterwards, as is every element that was there before. */
  lemma {:induction false} AppendAllKeepsValid(list: seq<Item>, allowDuplicates: bool, instance: Tag, items: seq<Item>)
    requires ValidList(list, allowDuplicates, instance)
    ensures var (r, o) := AppendAll(list, allowDuplicates, instance, items);
      && ValidList(r, allowDuplicates, instance)
      && multiset(list) <= multiset(r)
      && (o.Pass? ==> forall i :: 0 <= i < |items| ==> KeyOf(items[i]) in Keys(r))
      && (o.Fail? ==> o.error == ValueError)
    decreases |items|
  {
    if |items| > 0 {
      AppendKeepsValid(list, allowDuplicates, instance, items[0]);
      var step := AppendResult(list, allowDuplicates, instance, items[0]);
      if step.Success? {
        var next := step.value;
        AppendAllKeepsValid(next, allowDuplicates, instance, items[1..]);
        var (r, o) := AppendAll(next, allowDuplicates, instance, items[1..]);
        assert (r, o) == AppendAll(list, allowDuplicates, instance, items);
        KeysKept(next, r);
        if o.Pass? {
          forall i | 0 <= i < |items| ensures KeyOf(items[i]) in Keys(r) {
            if i > 0 {
              assert items[1..][i - 1] == items[i];
            }
          }
        }
      }
    }
  }

  /** One round of `append_multiple`: appending `items[i]` either stops the
      run or leaves the rest to do. */
  lemma AppendAllStep(list: seq<Item>, allowDuplicates: bool, instance: Tag, items: seq<Item>, i: nat)
    requires i < |items|
    ensures var step := AppendResult(list, allowDuplicates, instance, items[i]);
      && (step.Failure? ==> AppendAll(list, allowDuplicates, instance, items[i..]) == (list, Fail(step.error)))
      && (step.Success? ==>
            AppendAll(list, allowDuplicates, instance, items[i..]) ==
            AppendAll(step.value, allowDuplicates, instance, items[i + 1..]))
  {
    assert items[i..][1..] == items[i + 1..];
  }

  /** Keys survive into any list whose multiset contains the old one. */
  lemma KeysKept(a: seq<Item>, b: seq<Item>)
    requires multiset(a) <= multiset(b)
    ensures forall k :: k in Keys(a) ==> k in Keys(b)
  {
    forall k | k in Keys(a) ensures k in Keys(b) {
      var i :| 0 <= i < |a| && Keys(a)[i] == k;
      assert a[i] in multiset(b);
      var j :| 0 <= j < |b| && b[j] == a[i];
      assert Keys(b)[j] == k;
    }
  }

  /** `list.remove(item)` in `remove_word`: the first equal element goes;
      ValueError when there is none. */
  function RemoveFirst(list: seq<Item>, item: Item): Result<seq<Item>>
  {
    var ks := Keys(list);
    assert ks[0..] == ks;
    if KeyOf(item) in ks then Success(RemoveAt(list, IndexFrom(ks, KeyOf(item), 0)))
    else Failure(ValueError)
  }

  /** `remove` takes out one element equal to the item and keeps the rest in
      order and valid; without duplicates none equal to it is left. */
  lemma {:induction false} RemoveFirstKeepsValid(list: seq<Item>, allowDuplicates: bool, instance: Tag, item: Item)
    requires ValidList(list, allowDuplicates, instance)
    ensures var r := RemoveFirst(list, item);
      && (r.Failure? <==> KeyOf(item) !in Keys(list))
      && (r.Failure? ==> r.error == ValueError)
      && (r.Success? ==>
            && ValidList(r.value, allowDuplicates, instance)
            && exists p :: 0 <= p < |list| && KeyOf(list[p]) == KeyOf(item) && r.value == RemoveAt(list, p))
      && (r.Success? && !allowDuplicates ==> KeyOf(item) !in Keys(r.value))
  {
    var ks := Keys(list);
    var k := KeyOf(item);
    assert ks[0..] == ks;
    if k in ks {
      var p := IndexFrom(ks, k, 0);
      var r := RemoveAt(list, p);
      assert Keys(r) == RemoveAt(ks, p);
      RemoveKeepsSorted(ks, p);
      if !allowDuplicates {
        RemovedKeyGone(ks, p);
      }
      assert 0 <= p < |list| && KeyOf(list[p]) == k;
    }
  }

  datatype IndexValue = Position(at: int) | Positions(ats: seq<int>)

  // ---------------------------------------------------------------------------
  // OrderedList
  // ---------------------------------------------------------------------------

  class OrderedList {
    const allowDuplicates: bool
    const instance: Tag
    var list: seq<Item>

    predicate Valid()
      reads this
    {
      ValidList(list, allowDuplicates, instance)
    }

    constructor(allowDuplicates: bool := false, instance: Tag := IntTag)
      ensures this.allowDuplicates == allowDuplicates && this.instance == instance
      ensures list == [] && Valid()
    {
      this.allowDuplicates := allowDuplicates;
      this.instance := instance;
      list := [];
    }

    /** `append(item)`: the type check, the duplicate check, then the linear
        scan for the first element the item is not greater than. */
    method Append(item: Item) returns (o: Outcome)
      requires Valid()
      modifies this
      ensures Valid()
      ensures var expected := AppendResult(old(list), allowDuplicates, instance, item);
        && (expected.Success? ==> o == Pass && list == expected.value)
        && (expected.Failure? ==> o == Fail(expected.error) && list == old(list))
    {
      AppendStaysValid(list, allowDuplicates, instance, item);
      if TypeOf(item) != instance {
        return Fail(ValueError);
      }
      if !allowDuplicates && Contains(item) {
        return Pass;
      }
      var at := |list|;
      if |list| >= 1 {
        at := ScanPosition(list, item);
      } else {
        InsertionPointUnique(Keys(list), KeyOf(item), 0);
      }
      list := Insert(list, at, item);
      o := Pass;
    }

    /** The `for` loop of `append`: the first index whose element the item is
        not greater than, or the length when there is none, which on a sorted
        list is the insertion point. */
    static method ScanPosition(list: seq<Item>, item: Item) returns (at: nat)
      ensures at == InsertionPoint(Keys(list), KeyOf(item))
    {
      ghost var ks := Keys(list);
      for i := 0 to |list|
        invariant forall j :: 0 <= j < i ==> Less(ks[j], KeyOf(item))
      {
        // `item > self._list[i]`: keep scanning.
        if !Less(KeyOf(list[i]), KeyOf(item)) {
          InsertionPointUnique(ks, KeyOf(item), i);
          return i;
        }
      }
      InsertionPointUnique(ks, KeyOf(item), |ks|);
      return |list|;
    }

    /** `__contains__`: `item in self._list`, a linear scan comparing with
        `==`. */
    predicate Contains(item: Item)
      reads this
    {
      exists j :: 0 <= j < |list| && KeyOf(list[j]) == KeyOf(item)
    }

    /** `append_multiple(iterable)` */
    method AppendMultiple(items: seq<Item>) returns (o: Outcome)
      requires Valid()
      modifies this
      ensures Valid()
      ensures (list, o) == AppendAll(old(list), allowDuplicates, instance, items)
    {
      ghost var expected := AppendAll(list, allowDuplicates, instance, items);
      var i := 0;
      while i < |items|
        invariant 0 <= i <= |items| && Valid()
        invariant AppendAll(list, allowDuplicates, instance, items[i..]) == expected
      {
        AppendAllStep(list, allowDuplicates, instance, items, i);
        var step := Append(items[i]);
        if step.Fail? {
          assert expected == (list, step);
          return step;
        }
        i := i + 1;
      }
      assert items[i..] == [];
      return Pass;
    }

    /** `find(target)`: the binary search written out inline, the same loop
        as `binary_search`. */
    method Find(target: Item) returns (r: int)
      ensures r == -1 || (0 <= r < |list| && KeyOf(list[r]) == KeyOf(target))
      ensures Sorted(Keys(list)) ==> (r == -1 <==> KeyOf(target) !in Keys(list))
      ensures |list| == 0 ==> r == -1
    {
      r := BinarySearch(Keys(list), KeyOf(target));
    }

    /** `index(item)`: ValueError when absent; `list.index(item)` without
        duplicates; with duplicates, `list.count(item)` searches each starting
        after the previous find, which collects every position in order. Holds
        for any list, sorted or not. */
    method Index(item: Item) returns (r: Result<IndexValue>)
      ensures r.Failure? <==> KeyOf(item) !in Keys(list)
      ensures r.Failure? ==> r.error == ValueError
      ensures r.Success? && !allowDuplicates ==> r == Success(Position(IndexFrom(Keys(list), KeyOf(item), 0)))
      ensures r.Success? && allowDuplicates ==>
        r.value.Positions? && AllPositions(r.value.ats, Keys(list), KeyOf(item))
    {
      var ks := Keys(list);
      var k := KeyOf(item);
      if k !in ks {
        return Failure(ValueError);
      }
      assert ks[0..] == ks;
      if !allowDuplicates {
        return Success(Position(IndexFrom(ks, k, 0)));
      }
      var indexes := CollectPositions(ks, k);
      return Success(Positions(indexes));
    }

    /** The loop of `index` with duplicates allowed: `count` times
        `list.index(item, start)`, each search starting after the last find. */
    static method CollectPositions(ks: seq<Key>, k: Key) returns (indexes: seq<int>)
      ensures AllPositions(indexes, ks, k)
    {
      var count := CountOf(ks, k);
      indexes := [];
      var start := 0;
      PositionsNone(ks, k);
      for i := 0 to count
        invariant 0 <= start <= |ks|
        invariant CountOf(ks[start..], k) == count - i
        invariant PositionsBelow(indexes, ks, k, start)
      {
        var current := IndexFrom(ks, k, start);
        PositionsStep(indexes, ks, k, start, count - i, current);
        indexes := indexes + [current];
        start := current + 1;
      }
      PositionsComplete(indexes, ks, k, start);
    }

    /** `pop(index=-1)`: IndexError on an empty list, then `list.pop(index)`,
        which counts a negative index from the end and raises IndexError
        outside the list. */
    method Pop(index: int := -1) returns (r: Result<Item>)
      requires Valid()
      modifies this
      ensures Valid()
      ensures |old(list)| == 0 ==> r == Failure(IndexError) && list == old(list)
      ensures var p := if index < 0 then |old(list)| + index else index;
        && (0 <= p < |old(list)| ==> r == Success(old(list)[p]) && list == RemoveAt(old(list), p))
        && (!(0 <= p < |old(list)|) ==> r == Failure(IndexError) && list == old(list))
    {
      if |list| <= 0 {
        return Failure(IndexError);
      }
      var p := if index < 0 then |list| + index else index;
      if !(0 <= p < |list|) {
        return Failure(IndexError);
      }
      RemoveKeepsSorted(Keys(list), p);
      assert Keys(RemoveAt(list, p)) == RemoveAt(Keys(list), p);
      var x := list[p];
      list := RemoveAt(list, p);
      return Success(x);
    }

    /** `clear()` */
    method Clear()
      modifies this
      ensures list == [] && Valid()
    {
      list := [];
    }
  }

  // ---------------------------------------------------------------------------
  // Dictionary
  // ---------------------------------------------------------------------------

  class Dictionary {
    /** The `OrderedList` part of the object: no duplicates, `WordData` only. */
    const store: OrderedList

    predicate Valid()
      reads this, store
    {
      store.Valid() && !store.allowDuplicates && store.instance == WordTag
    }

    constructor()
      ensures Valid() && fresh(store) && store.list == []
    {
      store := new OrderedList(false, WordTag);
    }

    /** `peek()`: the names in stored order, which in a valid dictionary are
        exactly the keys the list is ordered by. */
    function Peek(): (names: seq<string>)
      reads this, store
      ensures |names| == |store.list|
      ensures forall i :: 0 <= i < |names| ==> names[i] == Str(store.list[i])
      ensures Valid() ==> StrKeys(names) == Keys(store.list)
    {
      var names := Names(store.list);
      assert Valid() ==> StrKeys(names) == Keys(store.list);
      names
    }

    /** `remove_word(word)`: `self._list.remove(word)`. */
    method RemoveWord(word: WordData) returns (o: Outcome)
      requires Valid()
      modifies store
      ensures Valid()
      ensures var expected := RemoveFirst(old(store.list), WordItem(word));
        && (expected.Success? ==> o == Pass && store.list == expected.value)
        && (expected.Failure? ==> o == Fail(expected.error) && store.list == old(store.list))
    {
      RemoveFirstKeepsValid(store.list, false, WordTag, WordItem(word));
      var ks := Keys(store.list);
      assert ks[0..] == ks;
      if StrKey(word.name) !in ks {
        return Fail(ValueError);
      }
      store.list := RemoveAt(store.list, IndexFrom(ks, StrKey(word.name), 0));
      return Pass;
    }

    /** `edit_word(old, new)`: `remove_word(old)` then `append(new)`; a missing
        `old` raises before anything changes. */
    method EditWord(oldWord: WordData, newWord: WordData) returns (o: Outcome)
      requires Valid()
      modifies store
      ensures Valid()
      ensures var removed := RemoveFirst(old(store.list), WordItem(oldWord));
        && (removed.Failure? ==> o == Fail(removed.error) && store.list == old(store.list))
        && (removed.Success? ==>
              o == Pass && store.list == AppendResult(removed.value, false, WordTag, WordItem(newWord)).value)
    {
      o := RemoveWord(oldWord);
      if o.Fail? {
        return;
      }
      o := store.Append(WordItem(newWord));
    }

    /** `find_word(word)`: `find(word)`. */
    method FindWord(word: WordData) returns (r: int)
      requires Valid()
      ensures r == -1 <==> word.name !in Peek()
      ensures r != -1 ==> 0 <= r < |store.list| && Peek()[r] == word.name
    {
      r := store.Find(WordItem(word));
      if r != -1 {
        assert TypeOf(store.list[r]) == WordTag;
      }
      if word.name in Peek() {
        var j :| 0 <= j < |Peek()| && Peek()[j] == word.name;
        assert Keys(store.list)[j] == StrKey(word.name);
      }
    }

    /** `get_word_details(word)`: `self._list[self.peek().index(word)]`, which
        raises ValueError for a name that is not stored. */
    method GetWordDetails(word: string) returns (r: Result<WordData>)
      requires Valid()
      ensures r.Success? <==> word in Peek()
      ensures r.Failure? ==> r.error == ValueError
      ensures r.Success? ==> r.value.name == word && WordItem(r.value) in store.list
    {
      var names := Peek();
      var ks := StrKeys(names);
      assert ks[0..] == ks;
      var i := IndexFrom(ks, StrKey(word), 0);
      if i == |names| {
        forall j | 0 <= j < |names| ensures names[j] != word {
          assert ks[j] == StrKey(names[j]);
        }
        return Failure(ValueError);
      }
      var item := store.list[i];
      assert TypeOf(item) == WordTag;
      return Success(item.word);
    }
  }
}
