/** Shortening text for one-line previews: the note list's `_truncate_text`
    and the same rule inlined in the note and contact displays. */
module Preview {
  import opened PyText

  const LongPlaceholder: string := "..."

  /** The width the note list uses for the content column. */
  const MaxContentWidth: int := 40

  /** Text longer than `width` becomes `text[:width - 3] + "..."`, where the
      slice follows Python's rules (a negative bound counts from the end). */
  function Truncate(s: string, width: int): string
  {
    if |s| > width then PyPrefix(s, width - |LongPlaceholder|) + LongPlaceholder else s
  }

  /** For a width of at least 3: text that fits is returned as it is, and
      longer text is cut to exactly `width` characters that start with the
      first `width - 3` characters of the text and end with "...". */
  lemma TruncateMeaning(s: string, width: int)
    requires width >= 3
    ensures Truncate(s, width) == s <==> |s| <= width
    ensures |s| > width ==> |Truncate(s, width)| == width
                            && Truncate(s, width)[..width - 3] == s[..width - 3]
                            && Truncate(s, width)[width - 3..] == LongPlaceholder
  {
    if |s| > width {
      var r := Truncate(s, width);
      assert r == s[..width - 3] + LongPlaceholder;
      assert |r| == width != |s|;
    }
  }

  /** `_truncate_text`: newlines become spaces, then the text is truncated. */
  function TruncateText(text: string, maxWidth: int): string
  {
    Truncate(ReplaceChar(text, '\n', ' '), maxWidth)
  }

  /** The preview is a single line: no newline survives, and at width 40 it
      is at most 40 characters long. */
  lemma TruncateTextSingleLine(text: string)
    ensures '\n' !in TruncateText(text, MaxContentWidth)
    ensures |TruncateText(text, MaxContentWidth)| <= MaxContentWidth
    ensures |text| <= MaxContentWidth ==> TruncateText(text, MaxContentWidth) == ReplaceChar(text, '\n', ' ')
  {
    var c := ReplaceChar(text, '\n', ' ');
    TruncateMeaning(c, MaxContentWidth);
    if |c| > MaxContentWidth {
      var r := TruncateText(text, MaxContentWidth);
      assert r == c[..37] + LongPlaceholder;
      assert forall i :: 0 <= i < 37 ==> r[i] == c[i];
      assert forall i :: 37 <= i < 40 ==> r[i] == '.';
    }
  }
}
