/** english_dictionary/utils/helpers.py: the iterative binary search shared by
    both container revisions (utils/functions.py holds the same function, and
    the old `OrderedList.find` repeats its loop inline), and `convert_to_list`,
    which the old utils/formatter.py also repeats as `FormatWord.convert_to_list`. */
module Helpers {

  import opened PyText
  import opened Ordering

  /** `binary_search(array, target)`: the index of an element equal to the
      target, or -1. Whatever the input, a non-negative answer points at the
      target; on a sorted input -1 means the target is absent. */
  method BinarySearch(elements: seq<Key>, target: Key) returns (r: int)
    ensures r == -1 || (0 <= r < |elements| && elements[r] == target)
    ensures Sorted(elements) ==> (r == -1 <==> target !in elements)
    ensures |elements| == 0 ==> r == -1
  {
    if |elements| < 1 {
      return -1;
    }
    var lowerBound, upperBound := 0, |elements| - 1;
    while lowerBound <= upperBound
      invariant 0 <= lowerBound <= upperBound + 1 <= |elements|
      invariant Sorted(elements) ==>
        forall j :: 0 <= j < |elements| && (j < lowerBound || upperBound < j) ==> elements[j] != target
      decreases upperBound - lowerBound + 1
    {
      var midPoint := (lowerBound + upperBound) / 2;
      if elements[midPoint] == target {
        return midPoint;
      } else if Less(target, elements[midPoint]) {
        // `elements[mid_point] > target`: everything from midPoint on is above it.
        if Sorted(elements) {
          forall j | midPoint <= j < |elements| ensures elements[j] != target {
            LessLeTransitive(target, elements[midPoint], elements[j]);
            LessIrreflexive(target);
          }
        }
        upperBound := midPoint - 1;
      } else {
        // `elements[mid_point] < target`, the only case left for a total order.
        LessTrichotomy(target, elements[midPoint]);
        if Sorted(elements) {
          forall j | 0 <= j <= midPoint ensures elements[j] != target {
            LeLessTransitive(elements[j], elements[midPoint], target);
            LessIrreflexive(target);
          }
        }
        lowerBound := midPoint + 1;
      }
    }
    return -1;
  }

  /** A client of `BinarySearch`: the cases of the parametrised test table of
      the binary search, as far as its contract determines them. */
  method BinarySearchTable()
  {
    var ints := [IntKey(1), IntKey(2), IntKey(3), IntKey(4), IntKey(5)];
    var r := BinarySearch(ints, IntKey(3));
    assert r == 2;
    var big := [IntKey(0), IntKey(3), IntKey(18), IntKey(902)];
    r := BinarySearch(big, IntKey(902));
    assert r == 3;
    var empty: seq<Key> := [];
    r := BinarySearch(empty, IntKey(2));
    assert r == -1;
    var letters := [StrKey("a"), StrKey("b"), StrKey("c"), StrKey("d"), StrKey("e"), StrKey("f")];
    r := BinarySearch(letters, StrKey("e"));
    assert r == 4;
  }

  // ---------------------------------------------------------------------------
  // convert_to_list
  // ---------------------------------------------------------------------------

  /** One line of `convert_to_list`: `f"\t{n}. {item}"`. */
  function NumberedLine(n: int, item: string): string
  {
    "\t" + Decimal(n) + ". " + item
  }

  function NumberedLines(items: seq<string>, start: int): (lines: seq<string>)
    ensures |lines| == |items|
    ensures forall k :: 0 <= k < |items| ==> lines[k] == NumberedLine(start + k, items[k])
  {
    seq(|items|, k requires 0 <= k < |items| => NumberedLine(start + k, items[k]))
  }

  /** `convert_to_list(iterable, start)`: the numbered lines joined by "\n". */
  function ConvertToList(items: seq<string>, start: int := 1): string
  {
    Join("\n", NumberedLines(items, start))
  }

  /** No item is itself several lines. */
  predicate SingleLines(items: seq<string>)
  {
    forall k :: 0 <= k < |items| ==> '\n' !in items[k]
  }

  /** The text `convert_to_list` puts in front of the item numbered `n`. */
  function LinePrefixLength(n: int): nat
  {
    1 + |Decimal(n)| + 2
  }

  /** Reading a rendered list back: split into lines, drop each line's number. */
  function ReadNumberedList(text: string, start: int): seq<string>
  {
    var lines := Split(text, '\n');
    seq(|lines|, k requires 0 <= k < |lines| =>
      var cut := LinePrefixLength(start + k);
      if cut <= |lines[k]| then lines[k][cut..] else "")
  }

  /** An empty iterable renders as the empty string. */
  lemma ConvertToListEmpty(start: int)
    ensures ConvertToList([], start) == ""
  {
  }

  /** One rendered line: the number's prefix, then the item; a line holds a
      newline only when its item does. */
  lemma LineParts(n: int, item: string)
    ensures |NumberedLine(n, item)| == LinePrefixLength(n) + |item|
    ensures NumberedLine(n, item)[LinePrefixLength(n)..] == item
    ensures '\n' !in item ==> '\n' !in NumberedLine(n, item)
  {
    var digits := Decimal(n);
    var line := NumberedLine(n, item);
    assert line[LinePrefixLength(n)..] == item;
    if '\n' !in item {
      forall i | 0 <= i < |line| ensures line[i] != '\n' {
        if 1 <= i < 1 + |digits| {
          assert line[i] == digits[i - 1];
        } else if LinePrefixLength(n) <= i {
          assert line[i] == item[i - LinePrefixLength(n)];
        }
      }
    }
  }

  /** Every rendered line is `\t{n}. {item}` with n counting up from `start`,
      one line per item: splitting the text at "\n" gives exactly those lines,
      provided no item holds a newline of its own. */
  lemma ConvertToListLines(items: seq<string>, start: int)
    requires |items| > 0 && SingleLines(items)
    ensures Split(ConvertToList(items, start), '\n') == NumberedLines(items, start)
    ensures |Split(ConvertToList(items, start), '\n')| == |items|
  {
    var lines := NumberedLines(items, start);
    forall k | 0 <= k < |lines| ensures '\n' !in lines[k] {
      LineParts(start + k, items[k]);
    }
    SplitJoin(lines, '\n');
  }

  /** The rendered list gives its items back: `convert_to_list` loses nothing
      but the numbering, which is determined by `start`. */
  lemma ConvertToListRoundTrip(items: seq<string>, start: int)
    requires |items| > 0 && SingleLines(items)
    ensures ReadNumberedList(ConvertToList(items, start), start) == items
  {
    ConvertToListLines(items, start);
    var lines := Split(ConvertToList(items, start), '\n');
    var back := ReadNumberedList(ConvertToList(items, start), start);
    assert |back| == |items|;
    forall k | 0 <= k < |items| ensures back[k] == items[k] {
      LineParts(start + k, items[k]);
      assert lines[k] == NumberedLine(start + k, items[k]);
    }
  }
}
