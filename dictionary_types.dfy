/** english_dictionary/types.py: the sorted container `OrderedList`, the word
    record `WordData` with its `from_api`/`from_dict` readers, and the
    `Dictionary` of words. */
module DictionaryTypes {

  import opened Common
  import opened PyText
  import opened Ordering
  import opened Helpers
  import Api
  import opened Stored

  // ---------------------------------------------------------------------------
  // Records
  // ---------------------------------------------------------------------------

  /** The `RelatedWord` dataclass; `from_dict` fills both fields from `.get`. */
  datatype RelatedWord = RelatedWord(relationshipType: Option<string>, words: Option<seq<string>>)

  /** The `Definition` dataclass: every field optional, no defaulting. */
  datatype Definition = Definition(
    partOfSpeech: Option<string>,
    texts: Option<seq<string>>,
    relatedWords: Option<seq<RelatedWord>>,
    exampleUses: Option<seq<string>>)

  /** A `WordData` object. `meanings` is the `meanings` keyword argument, which
      `from_api` passes in the canonical form of english_dictionary/api.py. */
  datatype WordData = WordData(
    name: string,
    etymology: string,
    definitionList: Option<seq<Definition>>,
    pronunciations: Option<seq<Api.Phonetic>>,
    meanings: Option<seq<Api.Meaning>>)

  /** `WordData(name, etymology, definitions, pronunciations, meanings=...)`:
      the name is lower-cased (`None.lower()` raises AttributeError) and a
      falsy etymology becomes "". */
  function MakeWordData(
    name: Option<string>,
    etymology: Option<string> := None,
    definitions: Option<seq<Definition>> := None,
    pronunciations: Option<seq<Api.Phonetic>> := None,
    meanings: Option<seq<Api.Meaning>> := None): (r: Result<WordData>)
    ensures r.Failure? <==> name.None?
    ensures r.Failure? ==> r.error == AttributeError
    ensures r.Success? ==>
      && r.value.name == Lower(name.value)
      && r.value.etymology == TextOrEmpty(etymology)
      && r.value.definitionList == definitions
      && r.value.pronunciations == pronunciations
      && r.value.meanings == meanings
  {
    match name
    case None => Failure(AttributeError)
    case Some(n) => Success(WordData(Lower(n), TextOrEmpty(etymology), definitions, pronunciations, meanings))
  }

  // ---------------------------------------------------------------------------
  // Comparisons: by name only
  // ---------------------------------------------------------------------------

  /** `a == b` */
  predicate Eq(a: WordData, b: WordData) { a.name == b.name }

  /** `a > b` */
  predicate Gt(a: WordData, b: WordData) { StrLt(b.name, a.name) }

  /** `a < b`: there is no `__lt__`, so Python answers with the reflected
      `b > a`. */
  predicate Lt(a: WordData, b: WordData) { Gt(b, a) }

  /** `a <= b` as written: `self._name < other.get_name()`, a strict test. */
  predicate Le(a: WordData, b: WordData) { StrLt(a.name, b.name) }

  /** `a <= b` as evidently intended. */
  predicate LeIntended(a: WordData, b: WordData) { Lt(a, b) || Eq(a, b) }

  /** Two words built from names that differ only in case are equal, and of
      any two words exactly one of `<`, `==`, `>` holds. */
  lemma WordComparisonsTotal(a: WordData, b: WordData)
    ensures Lt(a, b) || Eq(a, b) || Gt(a, b)
    ensures !(Lt(a, b) && Eq(a, b)) && !(Lt(a, b) && Gt(a, b)) && !(Eq(a, b) && Gt(a, b))
  {
    StrLtTotal(a.name, b.name);
    StrLtIrreflexive(a.name);
    if Lt(a, b) && Gt(a, b) {
      StrLtTransitive(a.name, b.name, a.name);
    }
  }

  /** Names are compared after lower-casing: "King" and "king" make equal words. */
  lemma CaseInsensitiveEquality(n1: string, n2: string)
    requires Lower(n1) == Lower(n2)
    ensures Eq(MakeWordData(Some(n1)).value, MakeWordData(Some(n2)).value)
  {
  }

  /** As written, `<=` is false between equal words: `w <= w` does not hold. */
  lemma LeIsStrict(a: WordData)
    ensures !Le(a, a)
  {
    StrLtIrreflexive(a.name);
  }

  /** The intended `<=` is reflexive and is exactly "not greater than". */
  lemma LeIntendedIsNotGreater(a: WordData, b: WordData)
    ensures LeIntended(a, a)
    ensures LeIntended(a, b) <==> !Gt(a, b)
  {
    WordComparisonsTotal(a, b);
  }

  // ---------------------------------------------------------------------------
  // from_api and from_dict
  // ---------------------------------------------------------------------------

  /** `WordData.from_api(api)`, i.e. `WordData(**api[0])`: the first canonical
      entry's `name`, `etymology`, `pronunciations` and `meanings`. */
  function FromApi(api: seq<Api.Entry>): (r: Result<WordData>)
    ensures |api| == 0 ==> r == Failure(IndexError)
    ensures |api| > 0 ==> (r.Success? <==> api[0].name.Some?)
    ensures |api| > 0 && r.Failure? ==> r.error == AttributeError
    ensures r.Success? ==>
      && r.value.name == Lower(api[0].name.value)
      && r.value.etymology == TextOrEmpty(api[0].etymology)
      && r.value.pronunciations == api[0].pronunciations
      && r.value.meanings == Some(api[0].meanings)
      && r.value.definitionList.None?
  {
    if |api| == 0 then Failure(IndexError)
    else MakeWordData(api[0].name, api[0].etymology, None, api[0].pronunciations, Some(api[0].meanings))
  }

  /** The path the application takes from the remote records to a word:
      `WordData.from_api(from_free_dictionary_api(raw))` keeps the first
      record's word (lower-cased), origin, phonetics and meanings. */
  lemma WordFromRemoteRecords(raw: seq<Api.RawRecord>)
    requires Api.FromFreeDictionaryApi(raw).Success?
    requires |raw| > 0 && raw[0].word.Some?
    ensures FromApi(Api.FromFreeDictionaryApi(raw).value) ==
      Success(WordData(Lower(raw[0].word.value), TextOrEmpty(raw[0].origin),
        None, raw[0].phonetics, Some(Api.NormalizeMeanings(raw[0].meanings.value).value)))
  {
  }

  function RelatedOf(related: Option<StoredRelated>): Option<seq<RelatedWord>>
  {
    match related
    case None => None
    case Some(rw) => Some([RelatedWord(Get(rw.relationshipType), Get(rw.words))])
  }

  /** `WordData.from_dict(word_data)`: without (truthy) `data` only the name;
      otherwise the etymology and first definition of the first data group,
      keeping only that definition's first related-words group. */
  function FromDict(d: StoredWord): (r: Result<WordData>)
    ensures (d.data.None? || |d.data.value| == 0) ==> r == MakeWordData(d.name)
    ensures r.Success? ==> d.name.Some? && r.value.name == Lower(d.name.value)
    ensures r.Success? && d.data.Some? && |d.data.value| > 0 ==>
      && r.value.etymology == TextOrEmpty(d.data.value[0].etymology)
      && r.value.definitionList.Some? && |r.value.definitionList.value| == 1
      && (var def := r.value.definitionList.value[0];
          def.relatedWords.None? || |def.relatedWords.value| == 1)
    ensures r.Success? && d.data.Some? && |d.data.value| > 0 ==>
      d.data.value[0].definitions.Given? && |d.data.value[0].definitions.value| > 0
    ensures r.Success? && d.data.Some? && |d.data.value| > 0 ==>
      var d0 := d.data.value[0].definitions.value[0];
      var def := r.value.definitionList.value[0];
      && def.partOfSpeech == d0.partOfSpeech && def.texts == d0.texts && def.exampleUses == d0.exampleUses
      && (def.relatedWords.Some? <==>
            d0.relatedWords.Given? && |d0.relatedWords.value| > 0 && NonEmpty(d0.relatedWords.value[0]))
      && (def.relatedWords.Some? ==>
            var rw := d0.relatedWords.value[0];
            def.relatedWords.value == [RelatedWord(Get(rw.relationshipType), Get(rw.words))])
  {
    if d.data.None? || |d.data.value| == 0 then MakeWordData(d.name)
    else
      match FirstDefinition(d.data.value[0])
      case Failure(e) => Failure(e)
      case Success((definition, related)) =>
        MakeWordData(d.name, d.data.value[0].etymology,
          Some([Definition(definition.partOfSpeech, definition.texts, RelatedOf(related), definition.exampleUses)]))
  }

  /** The dict a word reads back from, writing a None field as null. */
  function SlotOf<T>(x: Option<T>): Slot<T>
  {
    if x.Some? then Given(x.value) else Null
  }

  function StoreDefinition(def: Definition): StoredDefinition
  {
    StoredDefinition(def.partOfSpeech, def.texts,
      match def.relatedWords
      case None => Null
      case Some(rws) => Given(seq(|rws|, i requires 0 <= i < |rws| =>
        StoredRelated(SlotOf(rws[i].relationshipType), SlotOf(rws[i].words)))),
      def.exampleUses)
  }

  function StoreWord(w: WordData): StoredWord
  {
    match w.definitionList
    case None => StoredWord(Some(w.name), Some([]))
    case Some(defs) => StoredWord(Some(w.name), Some([StoredData(Some(w.etymology),
      Given(seq(|defs|, i requires 0 <= i < |defs| => StoreDefinition(defs[i]))))]))
  }

  /** The words `from_dict` can give back whole: a lower-case name, no
      pronunciations or meanings, and either no definitions and no etymology,
      or one definition with at most one related-words group. */
  predicate Storable(w: WordData)
  {
    && IsLowerCase(w.name)
    && w.pronunciations.None? && w.meanings.None?
    && (w.definitionList.None? ==> w.etymology == "")
    && (w.definitionList.Some? ==>
         |w.definitionList.value| == 1 &&
         (var rw := w.definitionList.value[0].relatedWords; rw.None? || |rw.value| == 1))
  }

  /** `from_dict` reads back every storable word from its dict. */
  lemma FromDictOfStored(w: WordData)
    requires Storable(w)
    ensures FromDict(StoreWord(w)) == Success(w)
  {
    LowerOfLowerCase(w.name);
    if w.definitionList.Some? {
      var def := w.definitionList.value[0];
      assert w.definitionList.value == [def];
      var stored := StoreWord(w).data.value[0];
      assert stored.definitions.value[0] == StoreDefinition(def);
      match def.relatedWords
      case None =>
      case Some(rws) =>
        assert StoreDefinition(def).relatedWords.value[0] ==
          StoredRelated(SlotOf(rws[0].relationshipType), SlotOf(rws[0].words));
        assert rws == [rws[0]];
    }
  }

  // ---------------------------------------------------------------------------
  // The elements of an OrderedList
  // ---------------------------------------------------------------------------

  /** The values an `OrderedList` is given; `Tag` is the class its `instance`
      names, for the `isinstance` check. */
  datatype Item = IntItem(n: int) | StrItem(s: string) | WordItem(word: WordData)

  datatype Tag = IntTag | StrTag | WordTag

  function TypeOf(x: Item): Tag
  {
    match x
    case IntItem(_) => IntTag
    case StrItem(_) => StrTag
    case WordItem(_) => WordTag
  }

  /** What comparisons see of an element: a `WordData` compares by its name. */
  function KeyOf(x: Item): Key
  {
    match x
    case IntItem(n) => IntKey(n)
    case StrItem(s) => StrKey(s)
    case WordItem(w) => StrKey(w.name)
  }

  function Keys(list: seq<Item>): (ks: seq<Key>)
    ensures |ks| == |list|
    ensures forall i :: 0 <= i < |list| ==> ks[i] == KeyOf(list[i])
  {
    seq(|list|, i requires 0 <= i < |list| => KeyOf(list[i]))
  }

  /** `str(x)`; a `WordData` prints as its name. */
  function Str(x: Item): string
  {
    match x
    case IntItem(n) => Decimal(n)
    case StrItem(s) => s
    case WordItem(w) => w.name
  }

  function Names(list: seq<Item>): (names: seq<string>)
    ensures |names| == |list|
    ensures forall i :: 0 <= i < |list| ==> names[i] == Str(list[i])
  {
    seq(|list|, i requires 0 <= i < |list| => Str(list[i]))
  }

  lemma KeysInsert(list: seq<Item>, p: nat, x: Item)
    requires p <= |list|
    ensures Keys(Insert(list, p, x)) == Insert(Keys(list), p, KeyOf(x))
  {
  }

  lemma KeysRemove(list: seq<Item>, p: nat)
    requires p < |list|
    ensures Keys(RemoveAt(list, p)) == RemoveAt(Keys(list), p)
  {
  }

  // ---------------------------------------------------------------------------
  // What the OrderedList operations do, as functions of the list
  // ---------------------------------------------------------------------------

  /** The invariant every operation keeps: each element is an instance of the
      configured class, and the list ascends, strictly unless duplicates are
      allowed. */
  predicate ValidList(list: seq<Item>, allowDuplicates: bool, instance: Tag)
  {
    && (forall i :: 0 <= i < |list| ==> TypeOf(list[i]) == instance)
    && Sorted(Keys(list))
    && (!allowDuplicates ==> StrictlySorted(Keys(list)))
  }

  /** `append(item)`: ValueError for a wrong type, nothing for a duplicate
      when duplicates are not allowed, otherwise an insertion before the first
      element not less than the item. */
  function AppendResult(list: seq<Item>, allowDuplicates: bool, instance: Tag, item: Item): Result<seq<Item>>
  {
    if TypeOf(item) != instance then Failure(ValueError)
    else if !allowDuplicates && KeyOf(item) in Keys(list) then Success(list)
    else Success(Insert(list, InsertionPoint(Keys(list), KeyOf(item)), item))
  }

  /** `append` keeps the invariant, adds exactly the item (or nothing for a
      duplicate), and fails only on the type check. */
  lemma AppendKeepsValid(list: seq<Item>, allowDuplicates: bool, instance: Tag, item: Item)
    requires ValidList(list, allowDuplicates, instance)
    ensures var r := AppendResult(list, allowDuplicates, instance, item);
      && (r.Failure? <==> TypeOf(item) != instance)
      && (r.Failure? ==> r.error == ValueError)
      && (r.Success? ==> ValidList(r.value, allowDuplicates, instance) && KeyOf(item) in Keys(r.value))
      && (r.Success? && !allowDuplicates && KeyOf(item) in Keys(list) ==> r.value == list)
      && (r.Success? && (allowDuplicates || KeyOf(item) !in Keys(list)) ==>
            multiset(r.value) == multiset(list) + multiset{item})
  {
    var ks := Keys(list);
    var k := KeyOf(item);
    if TypeOf(item) == instance && (allowDuplicates || k !in ks) {
      var p := InsertionPoint(ks, k);
      var r := Insert(list, p, item);
      KeysInsert(list, p, item);
      InsertKeepsSorted(ks, k);
      assert Keys(r)[p] == k;
    } else if TypeOf(item) == instance {
      var j :| 0 <= j < |ks| && ks[j] == k;
      assert Keys(list)[j] == k;
    }
  }

  datatype IndexValue = Position(at: int) | Positions(ats: seq<int>)

  /** `index(item)`: ValueError when absent; the one position without
      duplicates; the block first..first+count-1 with duplicates. */
  function IndexResult(list: seq<Item>, allowDuplicates: bool, item: Item): Result<IndexValue>
  {
    var ks := Keys(list);
    var k := KeyOf(item);
    if k !in ks then Failure(ValueError)
    else if !allowDuplicates then Success(Position(IndexFrom(ks, k, 0)))
    else
      var first := IndexFrom(ks, k, 0);
      Success(Positions(Range(first, first + CountOf(ks, k))))
  }

  /** On a valid list `index` finds the item exactly: the one position holding
      it, or all positions holding it, in ascending order. */
  lemma IndexFindsAll(list: seq<Item>, allowDuplicates: bool, instance: Tag, item: Item)
    requires ValidList(list, allowDuplicates, instance)
    ensures var r := IndexResult(list, allowDuplicates, item);
      && (r.Failure? <==> KeyOf(item) !in Keys(list))
      && (r.Failure? ==> r.error == ValueError)
      && (r.Success? && !allowDuplicates ==>
            && r.value.Position?
            && 0 <= r.value.at < |list| && KeyOf(list[r.value.at]) == KeyOf(item)
            && forall j :: 0 <= j < |list| && KeyOf(list[j]) == KeyOf(item) ==> j == r.value.at)
      && (r.Success? && allowDuplicates ==>
            r.value.Positions? && AllPositions(r.value.ats, Keys(list), KeyOf(item)))
  {
    var ks := Keys(list);
    var k := KeyOf(item);
    if k in ks {
      assert ks[0..] == ks;
      var first := IndexFrom(ks, k, 0);
      if !allowDuplicates {
        forall j | 0 <= j < |list| && KeyOf(list[j]) == k ensures j == first {
          StrictlySortedUnique(ks, j, first);
        }
      } else {
        BlockIsAllPositions(ks, k);
      }
    }
  }

  /** `list.pop(index)`: a negative index counts from the end; IndexError
      outside the list, and so always on an empty list. */
  function PopResult(list: seq<Item>, index: int): Result<(Item, seq<Item>)>
  {
    var p := if index < 0 then |list| + index else index;
    if 0 <= p < |list| then Success((list[p], RemoveAt(list, p))) else Failure(IndexError)
  }

  /** `pop` fails exactly outside -len..len-1, returns the element it removes,
      and keeps the invariant. */
  lemma PopKeepsValid(list: seq<Item>, allowDuplicates: bool, instance: Tag, index: int)
    requires ValidList(list, allowDuplicates, instance)
    ensures var r := PopResult(list, index);
      && (r.Success? <==> -|list| <= index < |list|)
      && (r.Failure? ==> r.error == IndexError)
      && (r.Success? ==>
            ValidList(r.value.1, allowDuplicates, instance) &&
            multiset(r.value.1) + multiset{r.value.0} == multiset(list))
  {
    var p := if index < 0 then |list| + index else index;
    if 0 <= p < |list| {
      KeysRemove(list, p);
      RemoveKeepsSorted(Keys(list), p);
    }
  }

  /** `remove(item)`, i.e. `pop(index(item))`: with duplicates allowed `index`
      gives a list, which `pop` rejects with TypeError. */
  function RemoveResult(list: seq<Item>, allowDuplicates: bool, item: Item): Result<seq<Item>>
  {
    match IndexResult(list, allowDuplicates, item)
    case Failure(e) => Failure(e)
    case Success(Positions(_)) => Failure(TypeError)
    case Success(Position(p)) =>
      match PopResult(list, p)
      case Failure(e) => Failure(e)
      case Success((_, rest)) => Success(rest)
  }

  /** On a list without duplicates `remove` excises exactly the matching
      element and keeps the rest in order; an absent item is a ValueError. */
  lemma RemoveExcises(list: seq<Item>, instance: Tag, item: Item)
    requires ValidList(list, false, instance)
    ensures var r := RemoveResult(list, false, item);
      && (r.Failure? <==> KeyOf(item) !in Keys(list))
      && (r.Failure? ==> r.error == ValueError)
      && (r.Success? ==> exists p :: 0 <= p < |list| && KeyOf(list[p]) == KeyOf(item) && r.value == RemoveAt(list, p))
      && (r.Success? ==> ValidList(r.value, false, instance) && KeyOf(item) !in Keys(r.value))
  {
    IndexFindsAll(list, false, instance, item);
    var ks := Keys(list);
    var k := KeyOf(item);
    if k in ks {
      var p := IndexResult(list, false, item).value.at;
      PopKeepsValid(list, false, instance, p);
      var rest := RemoveAt(list, p);
      assert RemoveResult(list, false, item) == Success(rest);
    }
  }

  /** With duplicates allowed `remove` never succeeds. */
  lemma RemoveWithDuplicatesFails(list: seq<Item>, instance: Tag, item: Item)
    requires ValidList(list, true, instance)
    ensures var r := RemoveResult(list, true, item);
      r.Failure? && (r.error == ValueError <==> KeyOf(item) !in Keys(list)) &&
      (r.error == TypeError <==> KeyOf(item) in Keys(list))
  {
  }

  /** `append_multiple(items)`: one `append` after another, stopping at the
      first that raises (the earlier ones stay done). */
  function AppendAll(list: seq<Item>, allowDuplicates: bool, instance: Tag, items: seq<Item>): (seq<Item>, Outcome)
    decreases |items|
  {
    if |items| == 0 then (list, Pass)
    else
      match AppendResult(list, allowDuplicates, instance, items[0])
      case Failure(e) => (list, Fail(e))
      case Success(next) => AppendAll(next, allowDuplicates, instance, items[1..])
  }

  /** `append_multiple` keeps the invariant, and when it passes every item is
      in the list afterwards, as is every element that was there before. */
  lemma {:induction false} AppendAllKeepsValid(list: seq<Item>, allowDuplicates: bool, instance: Tag, items: seq<Item>)
    requires ValidList(list, allowDuplicates, instance)
    ensures var (r, o) := AppendAll(list, allowDuplicates, instance, items);
      && ValidList(r, allowDuplicates, instance)
      && multiset(list) <= multiset(r)
      && (o.Pass? ==> forall i :: 0 <= i < |items| ==> KeyOf(items[i]) in Keys(r))
      && (o.Fail? ==> o.error == ValueError)
    decreases |items|
  {
    if |items| > 0 {
      AppendKeepsValid(list, allowDuplicates, instance, items[0]);
      var step := AppendResult(list, allowDuplicates, instance, items[0]);
      if step.Success? {
        var next := step.value;
        AppendAllKeepsValid(next, allowDuplicates, instance, items[1..]);
        var (r, o) := AppendAll(next, allowDuplicates, instance, items[1..]);
        assert (r, o) == AppendAll(list, allowDuplicates, instance, items);
        KeysKept(next, r);
        if o.Pass? {
          forall i | 0 <= i < |items| ensures KeyOf(items[i]) in Keys(r) {
            if i > 0 {
              assert items[1..][i - 1] == items[i];
            }
          }
        }
      }
    }
  }

  /** One round of `append_multiple`: appending `items[i]` either stops the
      run or leaves the rest to do. */
  lemma AppendAllStep(list: seq<Item>, allowDuplicates: bool, instance: Tag, items: seq<Item>, i: nat)
    requires i < |items|
    ensures var step := AppendResult(list, allowDuplicates, instance, items[i]);
      && (step.Failure? ==> AppendAll(list, allowDuplicates, instance, items[i..]) == (list, Fail(step.error)))
      && (step.Success? ==>
            AppendAll(list, allowDuplicates, instance, items[i..]) ==
            AppendAll(step.value, allowDuplicates, instance, items[i + 1..]))
  {
    assert items[i..][1..] == items[i + 1..];
  }

  /** Keys survive into any list whose multiset contains the old one. */
  lemma KeysKept(a: seq<Item>, b: seq<Item>)
    requires multiset(a) <= multiset(b)
    ensures forall k :: k in Keys(a) ==> k in Keys(b)
  {
    forall k | k in Keys(a) ensures k in Keys(b) {
      var i :| 0 <= i < |a| && Keys(a)[i] == k;
      assert a[i] in multiset(b);
      var j :| 0 <= j < |b| && b[j] == a[i];
      assert Keys(b)[j] == k;
    }
  }

  /** The outcome an operation reports and the list it leaves, compared with
      the value its specification function gives. */
  predicate Applied(expected: Result<seq<Item>>, o: Outcome, now: seq<Item>, before: seq<Item>)
  {
    && (expected.Success? ==> o == Pass && now == expected.value)
    && (expected.Failure? ==> o == Fail(expected.error) && now == before)
  }

  // ---------------------------------------------------------------------------
  // OrderedList
  // ---------------------------------------------------------------------------

  class OrderedList {
    const allowDuplicates: bool
    const instance: Tag
    var list: seq<Item>

    predicate Valid()
      reads this
    {
      ValidList(list, allowDuplicates, instance)
    }

    constructor(allowDuplicates: bool := false, instance: Tag := IntTag)
      ensures this.allowDuplicates == allowDuplicates && this.instance == instance
      ensures list == [] && Valid()
    {
      this.allowDuplicates := allowDuplicates;
      this.instance := instance;
      list := [];
    }

    /** `bisect_left(sorted_collection, item, lower_bound, upper_bound)`: a
        negative upper bound means the length. On a sorted collection the
        result splits the searched range into the elements less than the item
        and those not less; with the default bounds it is the insertion point. */
    static method BisectLeft(sortedCollection: seq<Key>, item: Key, lowerBound: int := 0, upperBound: int := -1)
      returns (r: int)
      requires 0 <= lowerBound && upperBound <= |sortedCollection|
      ensures var top := if upperBound < 0 then |sortedCollection| else upperBound;
        && (top <= lowerBound ==> r == lowerBound)
        && (lowerBound < top ==> lowerBound <= r <= top)
        && (Sorted(sortedCollection) && lowerBound < top ==>
              (forall i :: lowerBound <= i < r ==> Less(sortedCollection[i], item)) &&
              (forall i :: r <= i < top ==> !Less(sortedCollection[i], item)))
      ensures Sorted(sortedCollection) && lowerBound == 0 && upperBound < 0 ==>
        r == InsertionPoint(sortedCollection, item)
    {
      var lo, hi := lowerBound, upperBound;
      if hi < 0 {
        hi := |sortedCollection|;
      }
      ghost var top := hi;
      while lo < hi
        invariant lowerBound < top ==> lowerBound <= lo <= hi <= top
        invariant top <= lowerBound ==> lo == lowerBound && hi == top
        invariant Sorted(sortedCollection) ==>
          forall i :: lowerBound <= i < lo ==> Less(sortedCollection[i], item)
        invariant Sorted(sortedCollection) ==>
          forall i :: hi <= i < top ==> !Less(sortedCollection[i], item)
        decreases hi - lo
      {
        var mid := (lo + hi) / 2;
        if Less(sortedCollection[mid], item) {
          if Sorted(sortedCollection) {
            forall i | lowerBound <= i <= mid ensures Less(sortedCollection[i], item) {
              if i < mid {
                LeLessTransitive(sortedCollection[i], sortedCollection[mid], item);
              }
            }
          }
          lo := mid + 1;
        } else {
          if Sorted(sortedCollection) {
            forall i | mid <= i < top ensures !Less(sortedCollection[i], item) {
              if mid < i && Less(sortedCollection[i], item) {
                LeLessTransitive(sortedCollection[mid], sortedCollection[i], item);
              }
            }
          }
          hi := mid;
        }
      }
      r := lo;
      if Sorted(sortedCollection) && lowerBound == 0 && upperBound < 0 {
        InsertionPointUnique(sortedCollection, item, r);
      }
    }

    /** `insort_left(item)`: insert at `bisect_left(self._list, item)`. */
    method InsortLeft(item: Item)
      requires Sorted(Keys(list))
      modifies this
      ensures list == Insert(old(list), InsertionPoint(Keys(old(list)), KeyOf(item)), item)
    {
      var p := BisectLeft(Keys(list), KeyOf(item));
      list := Insert(list, p, item);
    }

    /** `__contains__`: `binary_search(self._list, item) != -1`. */
    method Contains(item: Item) returns (b: bool)
      ensures b ==> KeyOf(item) in Keys(list)
      ensures Sorted(Keys(list)) ==> (b <==> KeyOf(item) in Keys(list))
    {
      var i := BinarySearch(Keys(list), KeyOf(item));
      b := i != -1;
    }

    /** `find(target)`: `binary_search(self._list, target)`. */
    method Find(target: Item) returns (r: int)
      ensures r == -1 || (0 <= r < |list| && KeyOf(list[r]) == KeyOf(target))
      ensures Sorted(Keys(list)) ==> (r == -1 <==> KeyOf(target) !in Keys(list))
    {
      r := BinarySearch(Keys(list), KeyOf(target));
    }

    /** `append(item)` */
    method Append(item: Item) returns (o: Outcome)
      requires Valid()
      modifies this
      ensures Valid()
      ensures Applied(AppendResult(old(list), allowDuplicates, instance, item), o, list, old(list))
    {
      AppendKeepsValid(list, allowDuplicates, instance, item);
      if TypeOf(item) != instance {
        return Fail(ValueError);
      }
      if !allowDuplicates {
        var present := Contains(item);
        if present {
          return Pass;
        }
      }
      if |list| < 1 {
        list := list + [item];
        return Pass;
      }
      InsortLeft(item);
      return Pass;
    }

    /** `append_multiple(iterable)` */
    method AppendMultiple(items: seq<Item>) returns (o: Outcome)
      requires Valid()
      modifies this
      ensures Valid()
      ensures (list, o) == AppendAll(old(list), allowDuplicates, instance, items)
    {
      ghost var expected := AppendAll(list, allowDuplicates, instance, items);
      var i := 0;
      while i < |items|
        invariant 0 <= i <= |items| && Valid()
        invariant AppendAll(list, allowDuplicates, instance, items[i..]) == expected
      {
        AppendAllStep(list, allowDuplicates, instance, items, i);
        var step := Append(items[i]);
        if step.Fail? {
          assert expected == (list, step);
          return step;
        }
        i := i + 1;
      }
      assert items[i..] == [];
      return Pass;
    }

    /** `index(item)` */
    method Index(item: Item) returns (r: Result<IndexValue>)
      requires Valid()
      ensures r == IndexResult(list, allowDuplicates, item)
    {
      var present := Contains(item);
      if !present {
        return Failure(ValueError);
      }
      ghost var ks := Keys(list);
      assert ks[0..] == ks;
      if !allowDuplicates {
        var p := Find(item);
        StrictlySortedUnique(ks, p, IndexFrom(ks, KeyOf(item), 0));
        return Success(Position(p));
      }
      var first := IndexFrom(Keys(list), KeyOf(item), 0);
      return Success(Positions(Range(first, first + CountOf(Keys(list), KeyOf(item)))));
    }

    /** `pop(index=-1)` */
    method Pop(index: int := -1) returns (r: Result<Item>)
      requires Valid()
      modifies this
      ensures Valid()
      ensures var expected := PopResult(old(list), index);
        && (expected.Success? ==> r == Success(expected.value.0) && list == expected.value.1)
        && (expected.Failure? ==> r == Failure(expected.error) && list == old(list))
    {
      PopKeepsValid(list, allowDuplicates, instance, index);
      var p := if index < 0 then |list| + index else index;
      if !(0 <= p < |list|) {
        return Failure(IndexError);
      }
      var x := list[p];
      list := RemoveAt(list, p);
      return Success(x);
    }

    /** `remove(item)`: `self.pop(self.index(item))` */
    method Remove(item: Item) returns (o: Outcome)
      requires Valid()
      modifies this
      ensures Valid()
      ensures Applied(RemoveResult(old(list), allowDuplicates, item), o, list, old(list))
    {
      var at := Index(item);
      match at
      case Failure(e) =>
        return Fail(e);
      case Success(Positions(_)) =>
        return Fail(TypeError);
      case Success(Position(p)) =>
        var popped := Pop(p);
        if popped.Failure? {
          return Fail(popped.error);
        }
        return Pass;
    }

    /** `clear()` */
    method Clear()
      modifies this
      ensures list == [] && Valid()
    {
      list := [];
    }
  }

  // ---------------------------------------------------------------------------
  // Dictionary
  // ---------------------------------------------------------------------------

  /** `dictionary.get_word_details(word)` as written: `self._list[i]` with
      `i = binary_search(self.peek(), word)`. An absent name gives -1, which
      Python reads as the last element, and IndexError only when empty. */
  function WordDetails(list: seq<Item>, word: string): (r: Result<Item>)
    ensures r.Failure? <==> |list| == 0
    ensures r.Failure? ==> r.error == IndexError
    ensures r.Success? ==> r.value in list
  {
    var ks := Keys(list);
    if StrKey(word) in ks then
      assert ks[0..] == ks;
      Success(list[IndexFrom(ks, StrKey(word), 0)])
    else if |list| > 0 then Success(list[|list| - 1])
    else Failure(IndexError)
  }

  /** The evidently intended lookup: the word with that name, or an error when
      there is none (ValueError, as in the old revision). */
  function LookUp(list: seq<Item>, word: string): Result<Item>
  {
    var ks := Keys(list);
    if StrKey(word) in ks then
      assert ks[0..] == ks;
      Success(list[IndexFrom(ks, StrKey(word), 0)])
    else Failure(ValueError)
  }

  /** As written, a stored name gives the word of that name, as the intended
      lookup does; an absent name gives the last word, or IndexError when the
      dictionary is empty, where the intended lookup reports ValueError. */
  lemma WordDetailsOfAbsentName(list: seq<Item>, word: string)
    ensures StrKey(word) in Keys(list) ==> WordDetails(list, word) == LookUp(list, word)
    ensures StrKey(word) !in Keys(list) && |list| > 0 ==>
      WordDetails(list, word) == Success(list[|list| - 1]) && LookUp(list, word) == Failure(ValueError)
    ensures StrKey(word) !in Keys(list) && |list| == 0 ==>
      WordDetails(list, word) == Failure(IndexError) && LookUp(list, word) == Failure(ValueError)
  {
  }

  /** As written, asking for an absent name returns whatever word is last. */
  lemma WordDetailsZebraIsKing()
    ensures var ape := WordItem(WordData("ape", "", None, None, None));
      var king := WordItem(WordData("king", "", None, None, None));
      ValidList([ape, king], false, WordTag) &&
      WordDetails([ape, king], "zebra") == Success(king)
  {
    var ape := WordItem(WordData("ape", "", None, None, None));
    var king := WordItem(WordData("king", "", None, None, None));
    assert StrLt("ape", "king");
    assert Keys([ape, king]) == [StrKey("ape"), StrKey("king")];
  }

  /** The intended lookup succeeds exactly for a stored name and returns the
      word of that name. */
  lemma LookUpFindsName(list: seq<Item>, word: string)
    ensures LookUp(list, word).Success? <==> StrKey(word) in Keys(list)
    ensures LookUp(list, word).Failure? ==> LookUp(list, word).error == ValueError
    ensures LookUp(list, word).Success? ==> KeyOf(LookUp(list, word).value) == StrKey(word)
  {
  }

  class Dictionary {
    /** The `OrderedList` part of the object: no duplicates, `WordData` only. */
    const store: OrderedList

    predicate Valid()
      reads this, store
    {
      store.Valid() && !store.allowDuplicates && store.instance == WordTag
    }

    constructor()
      ensures Valid() && fresh(store) && store.list == []
    {
      store := new OrderedList(false, WordTag);
    }

    /** `peek()`: the names, `list(map(str, self._list))`; in a valid
        dictionary they ascend strictly. */
    function Peek(): (names: seq<string>)
      reads this, store
      ensures |names| == |store.list|
      ensures Valid() ==> StrKeys(names) == Keys(store.list)
      ensures Valid() ==> forall i, j :: 0 <= i < j < |names| ==> StrLt(names[i], names[j])
    {
      var names := Names(store.list);
      assert Valid() ==> StrKeys(names) == Keys(store.list);
      names
    }

    /** `edit_word(old, new)`: `remove(old)` then `append(new)`; a missing
        `old` raises before anything changes. */
    method EditWord(oldWord: WordData, newWord: WordData) returns (o: Outcome)
      requires Valid()
      modifies store
      ensures Valid()
      ensures var removed := RemoveResult(old(store.list), false, WordItem(oldWord));
        && (removed.Failure? ==> o == Fail(removed.error) && store.list == old(store.list))
        && (removed.Success? ==>
              o == Pass &&
              Applied(AppendResult(removed.value, false, WordTag, WordItem(newWord)), o, store.list, removed.value))
    {
      o := store.Remove(WordItem(oldWord));
      if o.Fail? {
        return;
      }
      o := store.Append(WordItem(newWord));
    }

    /** `get_word_details(word)`: `self._list[i]` with `i` the binary search
        of the names. An absent name gives -1, which reads the last word, or
        raises IndexError in an empty dictionary. The word returned has the
        name asked for exactly when that name is stored. */
    method GetWordDetails(word: string) returns (r: Result<WordData>)
      requires Valid()
      ensures var expected := WordDetails(store.list, word);
        && (expected.Success? ==> r.Success? && expected.value == WordItem(r.value))
        && (expected.Failure? ==> r == Failure(expected.error))
      ensures r.Success? ==> (r.value.name == word <==> StrKey(word) in Keys(store.list))
    {
      var names := Peek();
      var i := BinarySearch(StrKeys(names), StrKey(word));
      ghost var ks := Keys(store.list);
      assert ks[0..] == ks;
      if i == -1 {
        if |store.list| == 0 {
          return Failure(IndexError);
        }
        i := |store.list| - 1;
      } else {
        StrictlySortedUnique(ks, i, IndexFrom(ks, StrKey(word), 0));
      }
      var item := store.list[i];
      assert TypeOf(item) == WordTag;
      return Success(item.word);
    }
  }

  /** Part of the scenario of the dictionary test: `pop` on an empty
      dictionary raises IndexError, and appending "hi" twice keeps one copy. */
  method DictionaryScenario()
  {
    var d := new Dictionary();
    var popped := d.store.Pop();
    assert popped == Failure(IndexError);
    var hi := WordItem(MakeWordData(Some("hi"), Some("From nowhere")).value);
    var o := d.store.Append(hi);
    assert d.store.list == [hi];
    o := d.store.Append(hi);
    assert d.store.list == [hi];
  }
}
