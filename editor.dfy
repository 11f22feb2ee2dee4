/** The note editor: the template a note is edited in, the clean-up of the
    text the editor returns, and the split of that text into a title and a
    body. The editor itself and the clock are not modelled: the edited text
    and the current time are parameters. */
module NoteEditor {
  import opened Base
  import opened PyText
  import opened Dates
  import opened Values
  import opened Models

  // The template's fixed lines, each written in short pieces so that the
  // facts about their characters stay cheap to check.
  const TitlePrompt: string := "# Enter title" + " of your note below."
  const IgnoredHint: string := "# Lines starting" + " with '#' will" + " be ignored."
  const Marker: string := "# Enter body" + " of your note below."
  const BodyHint: string := "# Everything" + " after this line" + " will be the" + " note body."
  const DefaultTitlePrefix: string := "Note "
  const NoContent: string := "(No content)"

  /** A string with no line boundary in it. */
  predicate PlainLine(s: string)
  {
    forall j :: 0 <= j < |s| ==> !IsLineBreak(s[j])
  }

  // ---------------------------------------------------------------- open_editor_template

  /** What `open_editor_template` makes of the editor's result: `None`
      when the editor was cancelled or the text is blank, else the text
      stripped. */
  function PostProcess(edited: Option<string>): (r: Option<string>)
    ensures r.None? <==> edited.None? || forall i :: 0 <= i < |edited.value| ==> IsSpace(edited.value[i])
    ensures r.Some? ==> r.value != [] && NoSpaceAtEnds(r.value) && r.value == Strip(edited.value)
  {
    match edited
    case None => None
    case Some(text) =>
      StripEmptyIffBlank(text);
      if Strip(text) == [] then None else Some(Strip(text))
  }

  // ---------------------------------------------------------------- clean

  /** `line.strip() and not line.strip().startswith("#")` */
  predicate IsKept(line: string)
  {
    Strip(line) != [] && !StartsWith(Strip(line), "#")
  }

  /** The lines `clean` keeps, in order. */
  function KeptLines(lines: seq<string>): (r: seq<string>)
    ensures |r| <= |lines|
    ensures forall i :: 0 <= i < |r| ==> IsKept(r[i])
  {
    if lines == [] then []
    else (if IsKept(lines[0]) then [lines[0]] else []) + KeptLines(lines[1..])
  }

  lemma {:induction false} KeptLinesAllKept(lines: seq<string>)
    requires forall i :: 0 <= i < |lines| ==> IsKept(lines[i])
    ensures KeptLines(lines) == lines
  {
    if lines != [] {
      KeptLinesAllKept(lines[1..]);
    }
  }

  /** `clean(section)`: the non-blank lines that are not comments, joined
      with newlines, stripped. */
  function Clean(section: string): (r: string)
    ensures NoSpaceAtEnds(r)
  {
    Strip(Join("\n", KeptLines(SplitLines(section))))
  }

  /** A section none of whose lines is kept cleans to nothing. */
  lemma CleanOfCommentsOnly(section: string)
    requires forall i :: 0 <= i < |SplitLines(section)| ==> !IsKept(SplitLines(section)[i])
    ensures Clean(section) == []
  {
    KeptLinesNone(SplitLines(section));
  }

  lemma {:induction false} KeptLinesNone(lines: seq<string>)
    requires forall i :: 0 <= i < |lines| ==> !IsKept(lines[i])
    ensures KeptLines(lines) == []
  {
    if lines != [] {
      assert forall i :: 1 <= i < |lines| ==> lines[1..][i - 1] == lines[i];
      KeptLinesNone(lines[1..]);
    }
  }

  // ---------------------------------------------------------------- extract_title_and_body

  /** `content.split(sep, maxsplit=1)` for a non-empty `sep`, as the part
      before the first `sep` and the part after it; the second part is empty
      when `sep` does not occur. */
  function SplitOnce(content: string, sep: string): (r: (string, string))
    requires sep != []
    ensures !Contains(r.0, sep)
    ensures Contains(content, sep) ==> content == r.0 + sep + r.1
    ensures !Contains(content, sep) ==> r == (content, "")
  {
    match Find(content, sep)
    case None => (content, "")
    case Some(i) =>
      forall j | 0 <= j <= i - |sep| ensures !OccursAt(content[..i], sep, j) {
        if OccursAt(content[..i], sep, j) {
          assert content[..i][j..j + |sep|] == content[j..j + |sep|];
          assert OccursAt(content, sep, j);
        }
      }
      assert content == content[..i] + sep + content[i + |sep|..];
      (content[..i], content[i + |sep|..])
  }

  type Hour = h: nat | h < 24
  type Minute = m: nat | m < 60

  /** A moment of the clock, to the minute. */
  datatype DateTime = DateTime(date: Date, hour: Hour, minute: Minute)

  /** `f"Note {now:%Y-%m-%d %H:%M}"` */
  function DefaultTitle(now: DateTime): (r: string)
    ensures StartsWith(r, DefaultTitlePrefix) && |r| == |DefaultTitlePrefix| + 16
    ensures NoSpaceAtEnds(r)
  {
    var r := DefaultTitlePrefix + FormatIso(now.date) + " " + NatToPadded(now.hour, 2) + ":" + NatToPadded(now.minute, 2);
    assert r[|r| - 1] == NatToPadded(now.minute, 2)[1];
    r
  }

  /** `extract_title_and_body(content)` at the moment `now`: both parts
      cleaned; a missing title becomes "Note <date> <time>" and a missing
      body "(No content)", so both always hold text. */
  function ExtractTitleAndBody(content: string, now: DateTime): (r: (string, string))
    ensures r.0 != [] && NoSpaceAtEnds(r.0) && r.1 != [] && NoSpaceAtEnds(r.1)
    ensures var (t, b) := SplitOnce(content, Marker);
            && (Clean(t) != [] ==> r.0 == Clean(t))
            && (Clean(b) != [] ==> r.1 == Clean(b))
            && (Clean(t) == [] ==> r.0 == DefaultTitle(now))
            && (Clean(b) == [] ==> r.1 == NoContent)
  {
    var parts := SplitOnce(content, Marker);
    var title := Clean(parts.0);
    var body := Clean(parts.1);
    (if title == [] then DefaultTitle(now) else title, if body == [] then NoContent else body)
  }

  /** The note made of an extracted title and body always passes the
      content check. */
  lemma ExtractedNoteIsValid(uid: Uuid, content: string, now: DateTime)
    ensures var (t, b) := ExtractTitleAndBody(content, now);
            MakeNote(uid, Some(t), b, DefaultNoteTags).Ok?
  {
  }

  /** Text without the marker is all title: the body falls back to
      "(No content)". */
  lemma NoMarkerNoBody(content: string, now: DateTime)
    requires !Contains(content, Marker)
    ensures ExtractTitleAndBody(content, now).1 == NoContent
  {
    assert SplitLines("") == [];
  }

  // ---------------------------------------------------------------- form_editor_template

  /** `a`, a newline, `b`. */
  function Then(a: string, b: string): string
  {
    a + "\n" + b
  }

  /** The template before the marker: the lines `h1` and `h2`, the title
      and a blank line. */
  function TitlePart(h1: string, h2: string, title: string): string
  {
    Then(h1, Then(h2, Then(title, Then("", ""))))
  }

  /** The template after the marker: the line `h3`, a blank line and the
      content, each line ended by a newline. */
  function BodyPart(h3: string, content: string): string
  {
    Then("", Then(h3, Then("", Then(content, ""))))
  }

  /** `form_editor_template(note)`: a missing note or title gives an empty
      title, a missing note an empty content. */
  function FormEditorTemplate(note: Option<Note>): string
  {
    var title := if note.Some? && note.value.title.Some? then note.value.title.value else "";
    var content := if note.Some? then note.value.content else "";
    TitlePart(TitlePrompt, IgnoredHint, title) + Marker + BodyPart(BodyHint, content)
  }

  /** The template line by line, as one string. */
  lemma FormEditorTemplateText(note: Option<Note>)
    ensures var title := if note.Some? && note.value.title.Some? then note.value.title.value else "";
            var content := if note.Some? then note.value.content else "";
            FormEditorTemplate(note)
            == TitlePrompt + "\n" + IgnoredHint + "\n" + title + "\n\n"
               + Marker + "\n" + BodyHint + "\n\n" + content + "\n"
  {
    var title := if note.Some? && note.value.title.Some? then note.value.title.value else "";
    var content := if note.Some? then note.value.content else "";
    LayoutText(TitlePrompt, IgnoredHint, title, Marker, BodyHint, content);
  }

  lemma LayoutText(h1: string, h2: string, t: string, m: string, h3: string, c: string)
    ensures TitlePart(h1, h2, t) + m + BodyPart(h3, c)
            == h1 + "\n" + h2 + "\n" + t + "\n\n" + m + "\n" + h3 + "\n\n" + c + "\n"
  {
  }

  // ---------------------------------------------------------------- the round trip

  /** A title that comes back unchanged from the editor: empty, or one
      stripped line that is not a comment and holds no marker. */
  predicate EditorSafeTitle(t: string)
  {
    PlainLine(t) && !Contains(t, Marker) && (t == [] || (NoSpaceAtEnds(t) && t[0] != '#'))
  }

  /** A content that comes back unchanged: lines joined with newlines, each
      one kept by `clean`, with no whitespace at either end. */
  predicate EditorSafeLines(lines: seq<string>)
  {
    && (forall i :: 0 <= i < |lines| ==> PlainLine(lines[i]) && IsKept(lines[i]))
    && NoSpaceAtEnds(Join("\n", lines))
  }

  /** `open_editor_template` followed by `extract_title_and_body`, for a
      note the user saves as the template shows it: the title and content
      come back as they were, with the defaults for an empty title and an
      empty content. */
  lemma TemplateRoundTrip(n: Note, lines: seq<string>, now: DateTime)
    requires n.title.Some? ==> EditorSafeTitle(n.title.value)
    requires EditorSafeLines(lines) && n.content == Join("\n", lines)
    ensures var edited := PostProcess(Some(FormEditorTemplate(Some(n))));
            var title := if n.title.Some? && n.title.value != "" then n.title.value else DefaultTitle(now);
            var content := if n.content != "" then n.content else NoContent;
            edited.Some? && ExtractTitleAndBody(edited.value, now) == (title, content)
  {
    var t := if n.title.Some? then n.title.value else "";
    var c := n.content;
    TemplateLinesFacts();
    assert EditorSafeTitle(t);
    JoinOfKeptLines(lines);
    var stripped := StrippedBody(BodyHint, c);
    StripLayout(TitlePrompt, IgnoredHint, t, Marker, BodyHint, c);
    var text := TitlePart(TitlePrompt, IgnoredHint, t) + Marker + stripped;
    assert PostProcess(Some(FormEditorTemplate(Some(n)))) == Some(text);
    SplitOnceAtLayout(TitlePrompt, IgnoredHint, t, Marker, stripped);
    CleanTitlePart(TitlePrompt, IgnoredHint, t);
    CleanStrippedBody(BodyHint, lines);
  }

  /** An empty note (the one a new note starts from) comes back with the
      default title and "(No content)". */
  lemma NewNoteTemplate(now: DateTime)
    ensures var edited := PostProcess(Some(FormEditorTemplate(None)));
            edited.Some? && ExtractTitleAndBody(edited.value, now) == (DefaultTitle(now), NoContent)
  {
    var t, c := "", "";
    TemplateLinesFacts();
    JoinOfKeptLines([]);
    StripLayout(TitlePrompt, IgnoredHint, t, Marker, BodyHint, c);
    var text := TitlePart(TitlePrompt, IgnoredHint, t) + Marker + StrippedBody(BodyHint, c);
    assert PostProcess(Some(FormEditorTemplate(None))) == Some(text);
    SplitOnceAtLayout(TitlePrompt, IgnoredHint, t, Marker, StrippedBody(BodyHint, c));
    CleanTitlePart(TitlePrompt, IgnoredHint, t);
    CleanStrippedBody(BodyHint, []);
  }

  // ---------------------------------------------------------------- the template's fixed lines

  /** A comment line of the template: one line, starting with "#", with no
      whitespace at its ends. */
  predicate CommentLine(h: string)
  {
    h != [] && PlainLine(h) && h[0] == '#' && !IsSpace(h[|h| - 1])
  }

  lemma CommentLineDropped(h: string)
    requires CommentLine(h)
    ensures !IsKept(h)
  {
    StripOfStripped(h);
  }

  lemma PlainConcat(a: string, b: string)
    requires PlainLine(a) && PlainLine(b)
    ensures PlainLine(a + b)
  {
    forall j | 0 <= j < |a + b| ensures !IsLineBreak((a + b)[j]) {
      if j >= |a| {
        assert (a + b)[j] == b[j - |a|];
      }
    }
  }

  lemma NotOccursAt(s: string, p: string, i: int, j: int)
    requires 0 <= i && 0 <= j < |p| && i + j < |s| && s[i + j] != p[j]
    ensures !OccursAt(s, p, i)
  {
    if i + |p| <= |s| {
      assert s[i..i + |p|][j] == s[i + j];
    }
  }

  lemma TitlePromptFacts()
    ensures CommentLine(TitlePrompt) && !Contains(TitlePrompt, Marker)
  {
    assert PlainLine("# Enter title");
    assert PlainLine(" of your note below.");
    PlainConcat("# Enter title", " of your note below.");
    NotOccursAt(TitlePrompt, Marker, 0, 8);
    NotOccursAt(TitlePrompt, Marker, 1, 0);
  }

  lemma IgnoredHintFacts()
    ensures CommentLine(IgnoredHint) && !Contains(IgnoredHint, Marker)
  {
    assert PlainLine("# Lines starting");
    assert PlainLine(" with '#' will");
    assert PlainLine(" be ignored.");
    PlainConcat("# Lines starting", " with '#' will");
    PlainConcat("# Lines starting" + " with '#' will", " be ignored.");
    forall i | 0 <= i <= |IgnoredHint| - |Marker| ensures !OccursAt(IgnoredHint, Marker, i) {
      if i == 0 {
        NotOccursAt(IgnoredHint, Marker, i, 2);
      } else {
        assert IgnoredHint[i] == "# Lines starting"[i];
        NotOccursAt(IgnoredHint, Marker, i, 0);
      }
    }
  }

  lemma MarkerFacts()
    ensures PlainLine(Marker) && Marker != []
  {
    assert PlainLine("# Enter body");
    assert PlainLine(" of your note below.");
    PlainConcat("# Enter body", " of your note below.");
  }

  lemma BodyHintFacts()
    ensures CommentLine(BodyHint)
  {
    assert PlainLine("# Everything");
    assert PlainLine(" after this line");
    assert PlainLine(" will be the");
    assert PlainLine(" note body.");
    PlainConcat("# Everything", " after this line");
    PlainConcat("# Everything" + " after this line", " will be the");
    PlainConcat("# Everything" + " after this line" + " will be the", " note body.");
  }

  lemma TemplateLinesFacts()
    ensures CommentLine(TitlePrompt) && CommentLine(IgnoredHint) && CommentLine(BodyHint)
    ensures PlainLine(Marker) && Marker != []
    ensures !Contains(TitlePrompt, Marker) && !Contains(IgnoredHint, Marker)
  {
    TitlePromptFacts();
    IgnoredHintFacts();
    MarkerFacts();
    BodyHintFacts();
  }

  // ---------------------------------------------------------------- the layout, for any fixed lines

  /** The layout stripped: the trailing newlines go, and with an empty
      content so does the blank line before it. */
  function StrippedBody(h3: string, content: string): string
  {
    if content == [] then Then("", h3) else Then("", Then(h3, Then("", content)))
  }

  /** A join of kept lines is empty exactly when there are no lines. */
  lemma JoinOfKeptLines(lines: seq<string>)
    requires forall i :: 0 <= i < |lines| ==> IsKept(lines[i])
    ensures Join("\n", lines) == [] <==> lines == []
  {
    if lines != [] {
      assert Strip(lines[0]) != [];
      assert Join("\n", lines)[..|lines[0]|] == lines[0];
    }
  }

  lemma StripLayout(h1: string, h2: string, t: string, m: string, h3: string, c: string)
    requires h1 != [] && !IsSpace(h1[0]) && h3 != [] && !IsSpace(h3[|h3| - 1])
    requires NoSpaceAtEnds(c)
    ensures Strip(TitlePart(h1, h2, t) + m + BodyPart(h3, c)) == TitlePart(h1, h2, t) + m + StrippedBody(h3, c)
  {
    var x := TitlePart(h1, h2, t) + m + StrippedBody(h3, c);
    var w := if c == [] then "\n\n\n" else "\n";
    var b := StrippedBody(h3, c);
    assert BodyPart(h3, c) == b + w;
    assert TitlePart(h1, h2, t) + m + BodyPart(h3, c) == x + w;
    assert x[0] == TitlePart(h1, h2, t)[0] == h1[0];
    if c == [] {
      assert b[|b| - 1] == h3[|h3| - 1];
    } else {
      assert b[|b| - 1] == c[|c| - 1];
    }
    assert x[|x| - 1] == b[|b| - 1];
    StripTrailing(x, w);
  }

  /** Stripping removes exactly the trailing whitespace after a text that
      starts and ends with a non-space. */
  lemma StripTrailing(x: string, w: string)
    requires x != [] && !IsSpace(x[0]) && !IsSpace(x[|x| - 1])
    requires forall i :: 0 <= i < |w| ==> IsSpace(w[i])
    ensures Strip(x + w) == x
  {
    assert LStrip(x + w) == x + w;
    RStripTrailing(x, w);
  }

  lemma {:induction false} RStripTrailing(x: string, w: string)
    requires x != [] && !IsSpace(x[|x| - 1])
    requires forall i :: 0 <= i < |w| ==> IsSpace(w[i])
    ensures RStrip(x + w) == x
    decreases |w|
  {
    if w == [] {
      assert x + w == x;
    } else {
      assert (x + w)[..|x + w| - 1] == x + w[..|w| - 1];
      RStripTrailing(x, w[..|w| - 1]);
    }
  }

  /** A pattern without line boundaries that is in neither of two lines
      is not in the two joined by a newline either. */
  lemma NotAcrossBreak(a: string, b: string, p: string)
    requires PlainLine(p) && !Contains(a, p) && !Contains(b, p)
    ensures !Contains(Then(a, b), p)
  {
    var s := Then(a, b);
    forall i | 0 <= i <= |s| - |p| ensures !OccursAt(s, p, i) {
      if i + |p| <= |a| {
        assert s[i..i + |p|] == a[i..i + |p|];
        assert !OccursAt(a, p, i);
      } else if i > |a| {
        assert s[i..i + |p|] == b[i - |a| - 1..i - |a| - 1 + |p|];
        assert !OccursAt(b, p, i - |a| - 1);
      } else {
        assert s[i..i + |p|][|a| - i] == s[|a|];
        assert !IsLineBreak(p[|a| - i]);
      }
    }
  }

  /** The first `m` of the layout is the one after the title. */
  lemma SplitOnceAtLayout(h1: string, h2: string, t: string, m: string, rest: string)
    requires PlainLine(m) && m != []
    requires !Contains(h1, m) && !Contains(h2, m) && !Contains(t, m)
    ensures SplitOnce(TitlePart(h1, h2, t) + m + rest, m) == (TitlePart(h1, h2, t), rest)
  {
    var a := TitlePart(h1, h2, t);
    var s := a + m + rest;
    NotAcrossBreak("", "", m);
    NotAcrossBreak(t, Then("", ""), m);
    NotAcrossBreak(h2, Then(t, Then("", "")), m);
    NotAcrossBreak(h1, Then(h2, Then(t, Then("", ""))), m);
    assert s[|a|..|a| + |m|] == m;
    assert s[..|a|] == a && s[|a| + |m|..] == rest;
    assert s[|a| - 1] == '\n';
    FindFirstAfterBreak(s, m, |a|);
  }

  /** A pattern without line boundaries that occurs right after a line
      boundary, and nowhere before it, is found there. */
  lemma FindFirstAfterBreak(s: string, p: string, k: nat)
    requires PlainLine(p) && p != []
    requires OccursAt(s, p, k) && 0 < k && IsLineBreak(s[k - 1]) && !Contains(s[..k], p)
    ensures Find(s, p) == Some(k)
  {
    forall j | 0 <= j < k ensures !OccursAt(s, p, j) {
      if j + |p| <= k {
        assert s[..k][j..j + |p|] == s[j..j + |p|];
        assert !OccursAt(s[..k], p, j);
      } else if j + |p| <= |s| {
        assert s[j..j + |p|][k - 1 - j] == s[k - 1];
        assert !IsLineBreak(p[k - 1 - j]);
      }
    }
  }

  /** `splitlines` of a line followed by a newline: that line, then the
      lines of what follows the newline. */
  lemma SplitLinesCons(l: string, rest: string)
    requires PlainLine(l)
    ensures SplitLines(Then(l, rest)) == [l] + SplitLines(rest)
  {
    var s := Then(l, rest);
    BreakIndexAt(l, "\n" + rest);
    assert s == l + ("\n" + rest);
    assert s[..|l|] == l && s[|l|] == '\n';
    assert s[|l| + 1..] == rest;
  }

  lemma KeptLinesCons(x: string, rest: seq<string>)
    ensures KeptLines([x] + rest) == (if IsKept(x) then [x] else []) + KeptLines(rest)
  {
    assert ([x] + rest)[1..] == rest;
  }

  /** The lines of the title part: the two comment lines, the title and
      the blank line. */
  lemma TitlePartLines(h1: string, h2: string, t: string)
    requires PlainLine(h1) && PlainLine(h2) && PlainLine(t)
    ensures SplitLines(TitlePart(h1, h2, t)) == [h1] + ([h2] + ([t] + [""]))
  {
    var blank := Then("", "");
    var r3 := Then(t, blank);
    var r2 := Then(h2, r3);
    SplitLinesCons("", "");
    assert SplitLines("") == [];
    assert SplitLines(blank) == [""];
    SplitLinesCons(t, blank);
    assert SplitLines(r3) == [t] + [""];
    SplitLinesCons(h2, r3);
    assert SplitLines(r2) == [h2] + ([t] + [""]);
    SplitLinesCons(h1, r2);
  }

  /** Of the title part's lines only a non-empty title is kept. */
  lemma TitlePartKept(h1: string, h2: string, t: string)
    requires !IsKept(h1) && !IsKept(h2)
    requires t == [] || (NoSpaceAtEnds(t) && t[0] != '#')
    ensures KeptLines([h1] + ([h2] + ([t] + [""]))) == (if t == [] then [] else [t])
  {
    KeptLinesCons("", []);
    KeptLinesCons(t, [""]);
    KeptLinesCons(h2, [t] + [""]);
    KeptLinesCons(h1, [h2] + ([t] + [""]));
    if t != [] {
      StripOfStripped(t);
      assert IsKept(t);
    }
  }

  /** The title part cleans to the title. */
  lemma CleanTitlePart(h1: string, h2: string, t: string)
    requires CommentLine(h1) && CommentLine(h2)
    requires PlainLine(t) && (t == [] || (NoSpaceAtEnds(t) && t[0] != '#'))
    ensures Clean(TitlePart(h1, h2, t)) == t
  {
    CommentLineDropped(h1);
    CommentLineDropped(h2);
    TitlePartLines(h1, h2, t);
    TitlePartKept(h1, h2, t);
    if t != [] {
      StripOfStripped(t);
    }
  }

  /** The lines of the stripped body part: a blank line, the comment line,
      and with a content a blank line and the content's lines. */
  lemma BodyPartLines(h3: string, lines: seq<string>)
    requires h3 != [] && PlainLine(h3) && (forall i :: 0 <= i < |lines| ==> PlainLine(lines[i]))
    requires lines != [] ==> lines[|lines| - 1] != [] && Join("\n", lines) != []
    ensures SplitLines(StrippedBody(h3, Join("\n", lines)))
            == (if lines == [] then [""] + [h3] else [""] + ([h3] + ([""] + lines)))
  {
    if lines == [] {
      NoContentLines(h3);
    } else {
      SplitLinesJoin(lines);
      ContentLines(h3, Join("\n", lines));
    }
  }

  lemma NoContentLines(h3: string)
    requires h3 != [] && PlainLine(h3)
    ensures SplitLines(StrippedBody(h3, [])) == [""] + [h3]
  {
    SplitLinesCons("", h3);
    SplitLinesJoin([h3]);
  }

  lemma ContentLines(h3: string, c: string)
    requires PlainLine(h3) && c != []
    ensures SplitLines(StrippedBody(h3, c)) == [""] + ([h3] + ([""] + SplitLines(c)))
  {
    SplitLinesCons("", Then(h3, Then("", c)));
    SplitLinesCons(h3, Then("", c));
    SplitLinesCons("", c);
  }

  /** Of the body part's lines exactly the content's lines are kept. */
  lemma BodyPartKept(h3: string, lines: seq<string>)
    requires !IsKept(h3) && forall i :: 0 <= i < |lines| ==> IsKept(lines[i])
    ensures KeptLines(if lines == [] then [""] + [h3] else [""] + ([h3] + ([""] + lines))) == lines
  {
    if lines == [] {
      KeptLinesCons("", [h3]);
      KeptLinesCons(h3, []);
    } else {
      KeptLinesAllKept(lines);
      KeptLinesCons("", lines);
      KeptLinesCons(h3, [""] + lines);
      KeptLinesCons("", [h3] + ([""] + lines));
    }
  }

  /** The stripped body part cleans to the content. */
  lemma CleanStrippedBody(h3: string, lines: seq<string>)
    requires CommentLine(h3) && EditorSafeLines(lines)
    ensures Clean(StrippedBody(h3, Join("\n", lines))) == Join("\n", lines)
  {
    CommentLineDropped(h3);
    JoinOfKeptLines(lines);
    if lines != [] {
      assert IsKept(lines[|lines| - 1]);
    }
    BodyPartLines(h3, lines);
    BodyPartKept(h3, lines);
    StripOfStripped(Join("\n", lines));
  }
}
