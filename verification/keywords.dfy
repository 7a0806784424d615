/** The keyword tag list: the badges the user enters one by one. Reading the
    keyword list back (`getKeywordsFromTags`) yields the badge texts in order,
    so the list below is the keyword list every analysis uses. */
module Keywords {
  import opened Text

  /** A badge text: non-empty, trimmed and lower case. */
  predicate WellFormedKeyword(k: string) {
    k != "" && IsTrimmed(k) && IsLower(k)
  }

  /** What the tag container holds between edits. */
  predicate WellFormedList(tags: seq<string>) {
    && (forall i :: 0 <= i < |tags| ==> WellFormedKeyword(tags[i]))
    && Distinct(tags)
  }

  /** The text a raw input turns into: trimmed, then lower-cased. */
  function Clean(text: string): (r: string)
    ensures r == "" || WellFormedKeyword(r)
  {
    var t := Trim(text);
    LowerKeepsTrimmed(t);
    LowerIsLower(t);
    Lower(t)
  }

  /** The tag list after an entry attempt, and whether the input field is cleared. */
  datatype Entry = Entry(tags: seq<string>, inputCleared: bool)

  /** Entering `text` (comma, Enter or blur): empty input is ignored and leaves the
      field as it was, a duplicate is dropped but clears the field, anything else
      becomes a new badge placed after the existing ones. */
  function CreateTag(tags: seq<string>, text: string): (e: Entry)
    ensures Clean(text) == "" ==> e == Entry(tags, false)
    ensures Clean(text) != "" && Clean(text) in tags ==> e == Entry(tags, true)
    ensures Clean(text) != "" && Clean(text) !in tags ==> e == Entry(tags + [Clean(text)], true)
  {
    var cleaned := Clean(text);
    if cleaned == "" then Entry(tags, false)
    else if cleaned in tags then Entry(tags, true)
    else Entry(tags + [cleaned], true)
  }

  /** The remove button of badge `i` deletes that badge and nothing else. */
  function RemoveTag(tags: seq<string>, i: nat): (r: seq<string>)
    requires i < |tags|
    ensures |r| == |tags| - 1
    ensures forall j :: 0 <= j < i ==> r[j] == tags[j]
    ensures forall j :: i <= j < |r| ==> r[j] == tags[j + 1]
  {
    tags[..i] + tags[i + 1..]
  }

  /** Entering text keeps the list well formed, and the cleaned text is in the
      result exactly when it is non-empty (whether it was added or already there). */
  lemma CreateTagPreserves(tags: seq<string>, text: string)
    requires WellFormedList(tags)
    ensures WellFormedList(CreateTag(tags, text).tags)
    ensures Clean(text) in CreateTag(tags, text).tags <==> Clean(text) != ""
    ensures forall k :: k in tags ==> k in CreateTag(tags, text).tags
  {
    var c := Clean(text);
    if c != "" && c !in tags {
      AppendPreserves(tags, c);
    } else if c == "" {
      assert forall i :: 0 <= i < |tags| ==> tags[i] != "";
    }
  }

  /** A well-formed keyword not yet listed can be placed after the others. */
  lemma AppendPreserves(tags: seq<string>, c: string)
    requires WellFormedList(tags) && WellFormedKeyword(c) && c !in tags
    ensures WellFormedList(tags + [c])
  {
    var e := tags + [c];
    forall i, j | 0 <= i < j < |e|
      ensures e[i] != e[j]
    {
      if j == |tags| {
        assert e[i] == tags[i];
      }
    }
  }

  /** Removing a badge keeps the list well formed and drops exactly that keyword. */
  lemma RemoveTagPreserves(tags: seq<string>, i: nat)
    requires WellFormedList(tags) && i < |tags|
    ensures WellFormedList(RemoveTag(tags, i))
    ensures tags[i] !in RemoveTag(tags, i)
    ensures forall k :: k in tags && k != tags[i] ==> k in RemoveTag(tags, i)
  {
    var r := RemoveTag(tags, i);
    forall a, b | 0 <= a < b < |r|
      ensures r[a] != r[b]
    {
      var a' := if a < i then a else a + 1;
      var b' := if b < i then b else b + 1;
      assert r[a] == tags[a'] && r[b] == tags[b'];
    }
    forall j | 0 <= j < |r|
      ensures r[j] != tags[i]
    {
      var j' := if j < i then j else j + 1;
      assert r[j] == tags[j'];
    }
    forall k | k in tags && k != tags[i]
      ensures k in r
    {
      var j :| 0 <= j < |tags| && tags[j] == k;
      if j < i { assert r[j] == k; } else { assert r[j - 1] == k; }
    }
  }

}
