/** Preparation of an extracted text before keywords are counted in it. The
    plain variant only lower-cases; the enriched variant also surrounds each of
    `. , ; : " ( ) [ ]` with one space and adds a space at both ends. */
module SearchText {
  import opened Text

  /** The punctuation the enriched variant pads with spaces. */
  predicate IsPaddedPunct(c: char) {
    c == '.' || c == ',' || c == ';' || c == ':' || c == '"' || c == '(' || c == ')' || c == '[' || c == ']'
  }

  function CountPunct(s: string): nat {
    if s == [] then 0 else (if IsPaddedPunct(s[0]) then 1 else 0) + CountPunct(s[1..])
  }

  /** `replace(/([.,;:"()\[\]])/g, ' $1 ')`. */
  function Pad(s: string): (r: string)
    ensures |r| == |s| + 2 * CountPunct(s)
    ensures r == [] || !IsPaddedPunct(r[0])
  {
    if s == [] then []
    else (if IsPaddedPunct(s[0]) then [' ', s[0], ' '] else [s[0]]) + Pad(s[1..])
  }

  /** Inverse of `Pad`: a space, a padded punctuation mark and a space collapse
      back to the mark. */
  function Unpad(r: string): string
  {
    if |r| >= 3 && r[0] == ' ' && IsPaddedPunct(r[1]) && r[2] == ' ' then [r[1]] + Unpad(r[3..])
    else if r == [] then []
    else [r[0]] + Unpad(r[1..])
  }

  /** Padding loses nothing: removing the inserted spaces gives the text back. */
  lemma {:induction false} UnpadPad(s: string)
    ensures Unpad(Pad(s)) == s
  {
    if s != [] {
      var rest := Pad(s[1..]);
      UnpadPad(s[1..]);
      if IsPaddedPunct(s[0]) {
        assert Pad(s) == [' ', s[0], ' '] + rest;
        assert Pad(s)[3..] == rest;
      } else {
        assert Pad(s) == [s[0]] + rest;
        assert Pad(s)[1..] == rest;
        assert |Pad(s)| >= 3 && Pad(s)[0] == ' ' ==> Pad(s)[1] == rest[0];
      }
      assert s == [s[0]] + s[1..];
    }
  }

  /** In padded text every padded punctuation mark has a space on each side. */
  lemma {:induction false} PadSurroundsPunct(s: string, i: nat)
    requires i < |Pad(s)| && IsPaddedPunct(Pad(s)[i])
    ensures 0 < i < |Pad(s)| - 1 && Pad(s)[i - 1] == ' ' && Pad(s)[i + 1] == ' '
    decreases |s|
  {
    var rest := Pad(s[1..]);
    if IsPaddedPunct(s[0]) {
      assert Pad(s) == [' ', s[0], ' '] + rest;
      if i >= 3 {
        assert Pad(s)[i] == rest[i - 3];
        PadSurroundsPunct(s[1..], i - 3);
        assert Pad(s)[i - 1] == rest[i - 4];
        assert Pad(s)[i + 1] == rest[i - 2];
      }
    } else {
      assert Pad(s) == [s[0]] + rest;
      assert Pad(s)[i] == rest[i - 1];
      PadSurroundsPunct(s[1..], i - 1);
      assert Pad(s)[i + 1] == rest[i];
      if i >= 2 {
        assert Pad(s)[i - 1] == rest[i - 2];
      }
    }
  }

  /** The two ways the variants prepare a text for counting. */
  datatype Variant = Plain | Enriched

  function Prepare(v: Variant, text: string): string {
    match v
    case Plain => Lower(text)
    case Enriched => " " + Pad(Lower(text)) + " "
  }

  /** The enriched search text is the lower-cased text with one space added at
      each end and around each padded mark, and nothing else: stripping those
      spaces gives the lower-cased text back. */
  lemma EnrichedShape(text: string)
    ensures |Prepare(Enriched, text)| == |text| + 2 + 2 * CountPunct(text)
    ensures var p := Prepare(Enriched, text); p[0] == ' ' && p[|p| - 1] == ' '
    ensures var p := Prepare(Enriched, text); Unpad(p[1..|p| - 1]) == Lower(text)
  {
    var l := Lower(text);
    assert CountPunct(l) == CountPunct(text) by {
      LowerKeepsPunct(text);
    }
    var p := Prepare(Enriched, text);
    assert p[1..|p| - 1] == Pad(l);
    UnpadPad(l);
  }

  lemma {:induction false} LowerKeepsPunct(s: string)
    ensures CountPunct(Lower(s)) == CountPunct(s)
  {
    if s != [] {
      LowerKeepsPunct(s[1..]);
      assert Lower(s)[1..] == Lower(s[1..]);
    }
  }

  /** Each padded mark of the enriched text has a space on both sides. */
  lemma EnrichedPunctIsolated(text: string, i: nat)
    requires i < |Prepare(Enriched, text)| && IsPaddedPunct(Prepare(Enriched, text)[i])
    ensures 0 < i < |Prepare(Enriched, text)| - 1
    ensures Prepare(Enriched, text)[i - 1] == ' ' && Prepare(Enriched, text)[i + 1] == ' '
  {
    var p := Prepare(Enriched, text);
    var l := Lower(text);
    assert p == [' '] + Pad(l) + [' '];
    assert p[i] == Pad(l)[i - 1];
    PadSurroundsPunct(l, i - 1);
  }

}
