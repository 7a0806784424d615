/** Text of a presentation, from the XML of its slides: every DrawingML text
    run `<a:t>…</a:t>` (ECMA-376 Part 1, section 21.1.2.3.11) is found by the
    global, non-greedy pattern `/<a:t>(.*?)<\/a:t>/g`, whose `.` does not match
    a line terminator; the tag strings are removed from each match, the runs of
    one slide are joined with a space and the slides with a line feed. Only
    entries of the slides folder whose path starts with `slide` and ends with
    `.xml` are read. Unzipping is not modelled: the entries are an input. */
module Pptx {
  import opened Wrappers
  import opened Text

  const Open := "<a:t>"
  const Close := "</a:t>"

  /** ECMAScript LineTerminator: what `.` refuses. */
  predicate IsLineTerminator(c: char) {
    c == '\n' || c == '\r' || c == '\U{2028}' || c == '\U{2029}'
  }

  predicate StartsWith(s: string, p: string) {
    |p| <= |s| && s[..|p|] == p
  }

  predicate EndsWith(s: string, p: string) {
    |p| <= |s| && s[|s| - |p|..] == p
  }

  /** Where the lazy `(.*?)` stops in `s`: the first position at which `</a:t>`
      starts, provided no line terminator comes before it. */
  function CloseIn(s: string): (r: Option<nat>)
    ensures r.Some? ==> r.value + |Close| <= |s| && StartsWith(s[r.value..], Close)
    ensures r.Some? ==> forall q :: 0 <= q < r.value ==> !IsLineTerminator(s[q])
    decreases |s|
  {
    if s != [] && s[0] == '<' && StartsWith(s, Close) then Some(0)
    else if s != [] && !IsLineTerminator(s[0]) then
      match CloseIn(s[1..])
      case None => None
      case Some(p) =>
        assert s[1..][p..] == s[p + 1..];
        Some(p + 1)
    else None
  }

  /** Where the run starting at the head of `x` ends, just after its `</a:t>`;
      `None` when no run starts there. */
  function RunEnd(x: string): (r: Option<nat>)
    ensures r.Some? ==> |Open| + |Close| <= r.value <= |x|
  {
    if x != [] && x[0] == '<' && StartsWith(x, Open) then
      match CloseIn(x[|Open|..])
      case Some(c) => Some(|Open| + c + |Close|)
      case None => None
    else None
  }

  /** `xml.match(/<a:t>(.*?)<\/a:t>/g) || []`: the matched runs, tags included,
      left to right; where no run starts, the search moves on one character. */
  function Runs(x: string): seq<string>
    decreases |x|
  {
    if x == [] then []
    else
      match RunEnd(x)
      case Some(e) => [x[..e]] + Runs(x[e..])
      case None => Runs(x[1..])
  }

  /** `node.replace(/<a:t>|<\/a:t>/g, '')`: every tag string removed, in one
      left-to-right pass. Both tags begin with `<`, so any other character is
      kept without looking further. */
  function StripTags(s: string): (r: string)
    ensures |r| <= |s|
    decreases |s|
  {
    if s == [] then []
    else if s[0] != '<' then [s[0]] + StripTags(s[1..])
    else if StartsWith(s, Open) then StripTags(s[|Open|..])
    else if StartsWith(s, Close) then StripTags(s[|Close|..])
    else [s[0]] + StripTags(s[1..])
  }

  function RunTexts(runs: seq<string>): (r: seq<string>)
    ensures |r| == |runs|
    ensures forall i :: 0 <= i < |runs| ==> r[i] == StripTags(runs[i])
  {
    seq(|runs|, i requires 0 <= i < |runs| => StripTags(runs[i]))
  }

  /** The text of one slide. */
  function SlideText(x: string): string {
    Join(RunTexts(Runs(x)), " ")
  }

  /** One entry of the slides folder: its path relative to the folder and its XML. */
  datatype Entry = Entry(path: string, xml: string)

  predicate IsSlideEntry(e: Entry) {
    StartsWith(e.path, "slide") && EndsWith(e.path, ".xml")
  }

  /** The slide entries, in folder order. */
  function SlideEntries(es: seq<Entry>): (r: seq<Entry>)
    ensures forall i :: 0 <= i < |r| ==> IsSlideEntry(r[i])
    ensures forall e :: e in r <==> e in es && IsSlideEntry(e)
    decreases |es|
  {
    if es == [] then []
    else (if IsSlideEntry(es[0]) then [es[0]] else []) + SlideEntries(es[1..])
  }

  /** The slide entries are the archive entries filtered by their path: the
      slides in archive order, repeats kept. */
  lemma {:induction false} SlideEntriesIsFilter(es: seq<Entry>)
    ensures SlideEntries(es) == Filter(es, IsSlideEntry)
    decreases |es|
  {
    if es != [] {
      SlideEntriesIsFilter(es[1..]);
    }
  }

  function SlideTexts(es: seq<Entry>): (r: seq<string>)
    ensures |r| == |SlideEntries(es)|
    ensures forall i :: 0 <= i < |r| ==> r[i] == SlideText(SlideEntries(es)[i].xml)
  {
    var slides := SlideEntries(es);
    seq(|slides|, i requires 0 <= i < |slides| => SlideText(slides[i].xml))
  }

  /** The text `extractTextFromPptx` resolves with. */
  function PptxText(es: seq<Entry>): string {
    Join(SlideTexts(es), "\n")
  }

  // ---------------------------------------------------------------------------
  // Properties

  /** Stripping never introduces a character, so no run text holds a line
      terminator: a run cannot span a line break. */
  lemma {:induction false} StripTagsSubset(s: string, c: char)
    requires c !in s
    ensures c !in StripTags(s)
    decreases |s|
  {
    if s != [] {
      if s[0] != '<' {
        StripTagsSubset(s[1..], c);
      } else if StartsWith(s, Open) {
        StripTagsSubset(s[|Open|..], c);
      } else if StartsWith(s, Close) {
        StripTagsSubset(s[|Close|..], c);
      } else {
        StripTagsSubset(s[1..], c);
      }
    }
  }

  /** The run matched at the start of `x` holds no line terminator. */
  lemma FirstRunHasNoLineTerminator(x: string)
    requires RunEnd(x).Some?
    ensures forall q :: 0 <= q < RunEnd(x).value ==> !IsLineTerminator(x[q])
  {
    var c := CloseIn(x[|Open|..]).value;
    var p := |Open| + c;
    forall q | 0 <= q < p + |Close|
      ensures !IsLineTerminator(x[q])
    {
      if q < |Open| {
        assert x[q] == Open[q];
      } else if q < p {
        assert x[q] == x[|Open|..][q - |Open|];
      } else {
        assert x[|Open|..][c..][..|Close|] == Close;
        assert x[q] == x[|Open|..][c..][q - p];
        assert x[q] == Close[q - p];
      }
    }
  }

  /** The run matched at the start of `x` begins with `<a:t>` and ends with `</a:t>`. */
  lemma FirstRunIsTagged(x: string)
    requires RunEnd(x).Some?
    ensures StartsWith(x[..RunEnd(x).value], Open) && EndsWith(x[..RunEnd(x).value], Close)
  {
    var c := CloseIn(x[|Open|..]).value;
    var p := |Open| + c;
    var run := x[..p + |Close|];
    assert x[|Open|..][c..] == x[p..];
    assert run[..|Open|] == x[..|Open|];
    assert run[|run| - |Close|..] == x[p..p + |Close|];
  }

  lemma {:induction false} RunsHaveNoLineTerminator(x: string, i: nat)
    requires i < |Runs(x)|
    ensures forall q :: 0 <= q < |Runs(x)[i]| ==> !IsLineTerminator(Runs(x)[i][q])
    decreases |x|
  {
    if x != [] {
      match RunEnd(x)
      case Some(e) =>
        assert Runs(x) == [x[..e]] + Runs(x[e..]);
        if i > 0 {
          RunsHaveNoLineTerminator(x[e..], i - 1);
        } else {
          FirstRunHasNoLineTerminator(x);
        }
      case None =>
        assert Runs(x) == Runs(x[1..]);
        RunsHaveNoLineTerminator(x[1..], i);
    }
  }

  /** Every run found begins with `<a:t>` and ends with `</a:t>`. */
  lemma {:induction false} RunsAreTagged(x: string, i: nat)
    requires i < |Runs(x)|
    ensures StartsWith(Runs(x)[i], Open) && EndsWith(Runs(x)[i], Close)
    ensures |Runs(x)[i]| >= |Open| + |Close|
    decreases |x|
  {
    if x != [] {
      match RunEnd(x)
      case Some(e) =>
        assert Runs(x) == [x[..e]] + Runs(x[e..]);
        if i > 0 {
          RunsAreTagged(x[e..], i - 1);
        } else {
          FirstRunIsTagged(x);
        }
      case None =>
        assert Runs(x) == Runs(x[1..]);
        RunsAreTagged(x[1..], i);
    }
  }

  /** A slide's text never contains a line feed. */
  lemma SlideTextHasNoLineFeed(x: string)
    ensures '\n' !in SlideText(x)
  {
    var runs := Runs(x);
    forall i | 0 <= i < |runs|
      ensures '\n' !in RunTexts(runs)[i]
    {
      RunsHaveNoLineTerminator(x, i);
      StripTagsSubset(runs[i], '\n');
    }
    JoinAvoids(RunTexts(runs), " ", '\n');
  }

  /** The extracted text splits back into the slides' texts at its line feeds,
      one piece per slide entry, in folder order. */
  lemma SlidesReadBack(es: seq<Entry>)
    requires |SlideEntries(es)| >= 1
    ensures Split(PptxText(es), '\n') == SlideTexts(es)
  {
    var ts := SlideTexts(es);
    forall i | 0 <= i < |ts|
      ensures '\n' !in ts[i]
    {
      SlideTextHasNoLineFeed(SlideEntries(es)[i].xml);
    }
    SplitJoin(ts, '\n');
  }

  // ---------------------------------------------------------------------------
  // Round trip: slide XML built from known runs gives those runs back

  /** No `<a:t>` starts anywhere inside `s`. */
  predicate NoOpen(s: string) {
    forall p :: 0 <= p < |s| ==> !StartsWith(s[p..], Open)
  }

  /** Run content the extraction reads back unchanged: no tag can start in it
      and it has no line terminator. */
  predicate PlainContent(c: string) {
    forall q :: 0 <= q < |c| ==> c[q] != '<' && !IsLineTerminator(c[q])
  }

  /** Slide XML made of `fills[i] + <a:t> + contents[i] + </a:t>` for each run,
      followed by `tail`. */
  function SlideXml(fills: seq<string>, contents: seq<string>, tail: string): string
    requires |fills| == |contents|
    decreases |contents|
  {
    if contents == [] then tail
    else fills[0] + Open + contents[0] + Close + SlideXml(fills[1..], contents[1..], tail)
  }

  lemma {:induction false} CloseAfterContent(c: string, rest: string)
    requires PlainContent(c)
    ensures CloseIn(c + Close + rest) == Some(|c|)
    decreases |c|
  {
    if c == [] {
      assert (c + Close + rest)[..|Close|] == Close;
      assert (c + Close + rest)[0] == '<';
    } else {
      var s := c + Close + rest;
      assert s[0] == c[0];
      assert s[1..] == c[1..] + Close + rest;
      CloseAfterContent(c[1..], rest);
    }
  }

  lemma {:induction false} RunsSkipFill(fill: string, y: string)
    requires NoOpen(fill)
    requires y == [] || y[0] == '<'
    ensures Runs(fill + y) == Runs(y)
    decreases |fill|
  {
    if fill != [] {
      var x := fill + y;
      assert !StartsWith(x, Open) by {
        assert !StartsWith(fill[0..], Open);
        if |fill| >= |Open| {
          assert x[..|Open|] == fill[0..][..|Open|];
        } else if |x| >= |Open| {
          assert x[..|Open|][|fill|] == y[0];
        }
      }
      assert x[1..] == fill[1..] + y;
      assert NoOpen(fill[1..]) by {
        forall p | 0 <= p < |fill[1..]|
          ensures !StartsWith(fill[1..][p..], Open)
        {
          assert fill[1..][p..] == fill[p + 1..];
        }
      }
      RunsSkipFill(fill[1..], y);
    } else {
      assert fill + y == y;
    }
  }

  lemma RunsOfRun(c: string, rest: string)
    requires PlainContent(c)
    ensures Runs(Open + c + Close + rest) == [Open + c + Close] + Runs(rest)
  {
    var x := Open + c + Close + rest;
    assert x[..|Open|] == Open;
    assert x[|Open|..] == c + Close + rest;
    CloseAfterContent(c, rest);
    var p := |Open| + |c|;
    assert x[..p + |Close|] == Open + c + Close;
    assert x[p + |Close|..] == rest;
  }

  lemma {:induction false} StripPlain(c: string, rest: string)
    requires PlainContent(c)
    ensures StripTags(c + rest) == c + StripTags(rest)
    decreases |c|
  {
    if c != [] {
      var s := c + rest;
      assert s[0] == c[0];
      assert s[1..] == c[1..] + rest;
      StripPlain(c[1..], rest);
      assert [c[0]] + c[1..] == c;
    } else {
      assert c + rest == rest;
    }
  }

  lemma StripRun(c: string)
    requires PlainContent(c)
    ensures StripTags(Open + c + Close) == c
  {
    var s := Open + c + Close;
    assert s[..|Open|] == Open;
    assert s[|Open|..] == c + Close;
    StripPlain(c, Close);
    assert !StartsWith(Close, Open) by {
      assert Close[..|Open|][1] == '/';
    }
    assert StartsWith(Close, Close);
    assert StripTags(Close) == StripTags([]);
    assert Close[|Close|..] == [];
  }

  lemma {:induction false} RunsOfSlideXml(fills: seq<string>, contents: seq<string>, tail: string)
    requires |fills| == |contents|
    requires forall i :: 0 <= i < |fills| ==> NoOpen(fills[i])
    requires forall i :: 0 <= i < |contents| ==> PlainContent(contents[i])
    requires NoOpen(tail)
    ensures |Runs(SlideXml(fills, contents, tail))| == |contents|
    ensures forall i :: 0 <= i < |contents| ==> Runs(SlideXml(fills, contents, tail))[i] == Open + contents[i] + Close
    decreases |contents|
  {
    if contents == [] {
      RunsSkipFill(tail, []);
      assert tail + [] == tail;
    } else {
      var rs := Runs(SlideXml(fills[1..], contents[1..], tail));
      assert forall i :: 0 <= i < |fills| - 1 ==> fills[1..][i] == fills[i + 1];
      assert forall i :: 0 <= i < |contents| - 1 ==> contents[1..][i] == contents[i + 1];
      RunsOfSlideXml(fills[1..], contents[1..], tail);
      RunsOfFirstRun(fills, contents, tail);
      assert Runs(SlideXml(fills, contents, tail)) == [Open + contents[0] + Close] + rs;
    }
  }

  /** The first fill is skipped and the first run is matched whole. */
  lemma RunsOfFirstRun(fills: seq<string>, contents: seq<string>, tail: string)
    requires |fills| == |contents| > 0
    requires NoOpen(fills[0]) && PlainContent(contents[0])
    ensures Runs(SlideXml(fills, contents, tail))
      == [Open + contents[0] + Close] + Runs(SlideXml(fills[1..], contents[1..], tail))
  {
    var rest := SlideXml(fills[1..], contents[1..], tail);
    var y := Open + contents[0] + Close + rest;
    assert SlideXml(fills, contents, tail) == fills[0] + y;
    RunsSkipFill(fills[0], y);
    RunsOfRun(contents[0], rest);
  }

  /** Slide XML whose runs hold plain contents, with no `<a:t>` elsewhere,
      reads back as those contents joined with spaces. */
  lemma SlideTextRoundTrip(fills: seq<string>, contents: seq<string>, tail: string)
    requires |fills| == |contents|
    requires forall i :: 0 <= i < |fills| ==> NoOpen(fills[i])
    requires forall i :: 0 <= i < |contents| ==> PlainContent(contents[i])
    requires NoOpen(tail)
    ensures SlideText(SlideXml(fills, contents, tail)) == Join(contents, " ")
  {
    var runs := Runs(SlideXml(fills, contents, tail));
    RunsOfSlideXml(fills, contents, tail);
    forall i | 0 <= i < |contents|
      ensures RunTexts(runs)[i] == contents[i]
    {
      StripRun(contents[i]);
    }
    assert RunTexts(runs) == contents;
  }

}
