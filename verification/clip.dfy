/**
 A captured selection and the three strings the quick-pick menu shows for it
 (the `Clip` class of src/Clipboard.ts).
 */
module Clips {
  import opened Text

  /**
   One captured selection: its text, the file it came from and that file's
   language. The source tells clips apart by object identity; here `id` plays
   that part, and the controller hands out a fresh one per capture, so two
   clips with equal text, file and language captured separately are still
   different values.
   */
  datatype Clip = Clip(id: nat, text: string, filename: string, language: string)

  /** How many characters of the flattened, trimmed text the label keeps. */
  const LabelWidth: nat := 70

  const Ellipsis: string := "..."

  /**
   The label without its ellipsis: the text with line breaks turned into
   spaces, trimmed, cut to `LabelWidth` characters.
   */
  function Preview(text: string): (r: string)
    ensures |r| == Min(LabelWidth, |Trim(FlattenLines(text))|)
    ensures r == Trim(FlattenLines(text))[..|r|]
    ensures NoLineBreaks(r)
  {
    var t := Trim(FlattenLines(text));
    if |t| <= LabelWidth then t else t[..LabelWidth]
  }

  /**
   The one-line label the menu shows. The ellipsis depends on the length of
   the raw text, before flattening and trimming, so it is added exactly when
   the raw text is longer than `LabelWidth`, whether or not trimming already
   brought it under the width.
   */
  function Label(c: Clip): (r: string)
    ensures NoLineBreaks(r)
    ensures |r| <= LabelWidth + |Ellipsis|
    ensures Preview(c.text) <= r
    ensures |r| == |Preview(c.text)| + |Ellipsis| <==> |c.text| > LabelWidth
    ensures |c.text| > LabelWidth ==> r[|r| - |Ellipsis|..] == Ellipsis
    ensures |c.text| <= LabelWidth ==> r == Trim(FlattenLines(c.text))
  {
    var l := Preview(c.text);
    if |c.text| > LabelWidth then l + Ellipsis else l
  }

  /**
   The ellipsis is keyed on the raw length: a clip of one letter followed by
   seventy spaces loses nothing to truncation, yet its label is the letter
   followed by "...".
   */
  lemma EllipsisWithoutTruncation()
    ensures var c := Clip(0, "x" + seq(70, _ => ' '), "", "");
      Label(c) == "x" + Ellipsis
  {
    var s := "x" + seq(70, _ => ' ');
    assert NoLineBreaks(s);
    FlattenLinesKeepsPlainText(s);
    assert s[0..1] == "x";
    assert IsTrimOf("x", s);
    TrimIsUnique(s, Trim(s), "x");
  }

  /**
   The language tag: the language upper-cased, the same length, with no
   lower-case letter left and equal to the language when case is ignored.
   */
  function Description(c: Clip): (r: string)
    ensures |r| == |c.language|
    ensures forall k :: 0 <= k < |r| ==> !IsAsciiLower(r[k])
    ensures SameIgnoringCase(r, c.language)
  {
    UpperIsSameIgnoringCase(c.language);
    ToUpper(c.language)
  }

  /** The detail line: the file name the clip was captured from, unchanged. */
  function Detail(c: Clip): (r: string)
    ensures r == c.filename
  {
    c.filename
  }
}
