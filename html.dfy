/** The page both formatters assemble (english_dictionary/utils/formatter.py
    and utils/formatter.py, `to_html`): every section wrapped in a `<pre>`
    tag, the wrapped sections joined with "<hr />". */
module Html {

  import opened PyText

  const PreOpen: string := "<pre style='font-family: initial; font-size: initial'>"
  const PreClose: string := "</pre>"
  const Rule: string := "<hr />"
  const EtymologyLabel: string := "<b>Etymology:</b> "

  /** `parse_etymology`: the label, then the etymology with surrounding
      whitespace removed; an etymology that has none is shown as it is. */
  function EtymologyHtml(etymology: string): (r: string)
    ensures |r| >= |EtymologyLabel| && r[..|EtymologyLabel|] == EtymologyLabel
    ensures IsStripped(r[|EtymologyLabel|..])
    ensures r[|EtymologyLabel|..] == Strip(etymology)
    ensures IsStripped(etymology) ==> r == EtymologyLabel + etymology
  {
    assert IsStripped(etymology) ==> Strip(etymology) == etymology by {
      if IsStripped(etymology) {
        StripStripped(etymology);
      }
    }
    EtymologyLabel + Strip(etymology)
  }

  function Wrap(section: string): (r: string)
    ensures |r| == |PreOpen| + |section| + |PreClose|
    ensures r[..|PreOpen|] == PreOpen
    ensures r[|PreOpen|..|PreOpen| + |section|] == section
  {
    PreOpen + section + PreClose
  }

  function Wrapped(sections: seq<string>): (r: seq<string>)
    ensures |r| == |sections|
    ensures forall i :: 0 <= i < |sections| ==> r[i] == Wrap(sections[i])
  {
    seq(|sections|, i requires 0 <= i < |sections| => Wrap(sections[i]))
  }

  /** `"<hr />".join("<pre ...>" + section + "</pre>" for section in sections)` */
  function Page(sections: seq<string>): string
  {
    Join(Rule, Wrapped(sections))
  }

  /** A page is empty exactly when there is no section; otherwise it opens with
      the first section, wrapped. */
  lemma PageEmpty(sections: seq<string>)
    ensures Page(sections) == "" <==> |sections| == 0
    ensures |sections| > 0 ==>
      var first := Wrap(sections[0]);
      |first| <= |Page(sections)| && Page(sections)[..|first|] == first
  {
    if |sections| > 0 {
      JoinStartsWithFirst(Rule, Wrapped(sections));
    }
  }

  /** Adding a section adds a rule and the wrapped section at the end, and
      leaves the page before it as it was. */
  lemma {:induction false} PageAppend(sections: seq<string>, s: string)
    requires |sections| > 0
    ensures Page(sections + [s]) == Page(sections) + Rule + Wrap(s)
  {
    assert Wrapped(sections + [s]) == Wrapped(sections) + [Wrap(s)];
    JoinAppend(Rule, Wrapped(sections), Wrap(s));
  }
}
